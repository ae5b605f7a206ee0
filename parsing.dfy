/*
 * Input normalisation: the raw lines of the data file are parsed as unsigned
 * 32-bit integers, lines that do not parse are skipped, and the surviving
 * values are de-duplicated before they are dispatched as work items.
 */
module Parsing {

  /** An unsigned 32-bit integer (`uint`): a work item or a transform result. */
  type u32 = x: int | 0 <= x < 0x1_0000_0000

  /** An unsigned 16-bit integer (`ushort`): the command-line parameters. */
  type u16 = x: int | 0 <= x < 0x1_0000

  const MaxUInt32: int := 0xFFFF_FFFF

  datatype Option<T> = None | Some(value: T)

  predicate IsDigit(c: char) {
    '0' <= c <= '9'
  }

  predicate AllDigits(s: string) {
    forall i :: 0 <= i < |s| ==> IsDigit(s[i])
  }

  function DigitValue(c: char): (d: nat)
    requires IsDigit(c)
    ensures d < 10
  {
    c as int - '0' as int
  }

  function DigitChar(d: nat): (c: char)
    requires d < 10
    ensures IsDigit(c) && DigitValue(c) == d
  {
    ('0' as int + d) as char
  }

  /** The value of a string of decimal digits, most significant digit first. */
  function DecimalValue(s: string): nat
    requires AllDigits(s)
  {
    if |s| == 0 then 0 else 10 * DecimalValue(s[..|s| - 1]) + DigitValue(s[|s| - 1])
  }

  /**
   * `UInt32.TryParse(line, out v)`: a line parses when it is a non-empty
   * string of decimal digits whose value fits in 32 bits; otherwise the
   * result is `None` and the caller skips the line.
   */
  function ParseUInt32(line: string): (r: Option<u32>)
    ensures r.Some? ==> |line| > 0 && AllDigits(line) && DecimalValue(line) == r.value
    ensures r.None? ==> |line| == 0 || !AllDigits(line) || DecimalValue(line) > MaxUInt32
  {
    if |line| > 0 && AllDigits(line) && DecimalValue(line) <= MaxUInt32 then
      Some(DecimalValue(line))
    else
      None
  }

  /** The canonical decimal form of `n`, without leading zeros. */
  function ToDecimal(n: nat): string
  {
    if n < 10 then [DigitChar(n)] else ToDecimal(n / 10) + [DigitChar(n % 10)]
  }

  lemma {:induction false} ToDecimalValue(n: nat)
    ensures |ToDecimal(n)| > 0 && AllDigits(ToDecimal(n)) && DecimalValue(ToDecimal(n)) == n
  {
    if n >= 10 {
      ToDecimalValue(n / 10);
      var s := ToDecimal(n);
      assert s[..|s| - 1] == ToDecimal(n / 10);
    }
  }

  /** Every 32-bit value written in decimal parses back to itself. */
  lemma ParseToDecimal(n: u32)
    ensures ParseUInt32(ToDecimal(n)) == Some(n)
  {
    ToDecimalValue(n);
  }

  lemma {:induction false} LeadingZeroValue(s: string)
    requires AllDigits(s)
    ensures AllDigits("0" + s) && DecimalValue("0" + s) == DecimalValue(s)
  {
    if |s| > 0 {
      var t := "0" + s;
      assert t[..|t| - 1] == "0" + s[..|s| - 1];
      LeadingZeroValue(s[..|s| - 1]);
    }
  }

  /** Leading zeros do not change what a line parses to. */
  lemma ParseLeadingZero(s: string)
    requires |s| > 0
    ensures ParseUInt32("0" + s) == ParseUInt32(s)
  {
    if AllDigits(s) {
      LeadingZeroValue(s);
    } else {
      var i :| 0 <= i < |s| && !IsDigit(s[i]);
      assert ("0" + s)[i + 1] == s[i];
    }
  }

  /** A non-numeric line such as "abc" is skipped, not an error. */
  lemma ParseSkipsText()
    ensures ParseUInt32("abc") == None
    ensures ParseUInt32("") == None
  {
    assert !IsDigit("abc"[0]);
  }

  /** The values of the lines that parse, in line order (best-effort filter). */
  function ParseAll(lines: seq<string>): (r: seq<u32>)
    ensures |r| <= |lines|
  {
    if |lines| == 0 then []
    else
      var rest := ParseAll(lines[..|lines| - 1]);
      match ParseUInt32(lines[|lines| - 1])
      case Some(v) => rest + [v]
      case None => rest
  }

  /** A value is produced exactly when some line parses to it. */
  lemma {:induction false} ParseAllMembers(lines: seq<string>, x: u32)
    ensures x in ParseAll(lines) <==> exists i :: 0 <= i < |lines| && ParseUInt32(lines[i]) == Some(x)
  {
    if |lines| > 0 {
      var init := lines[..|lines| - 1];
      ParseAllMembers(init, x);
      if exists i :: 0 <= i < |init| && ParseUInt32(init[i]) == Some(x) {
        var i :| 0 <= i < |init| && ParseUInt32(init[i]) == Some(x);
        assert lines[i] == init[i];
      }
      if exists i :: 0 <= i < |lines| && ParseUInt32(lines[i]) == Some(x) {
        var i :| 0 <= i < |lines| && ParseUInt32(lines[i]) == Some(x);
        if i < |lines| - 1 {
          assert init[i] == lines[i];
        }
      }
    }
  }

  /** Parsing commutes with concatenating the input. */
  lemma {:induction false} ParseAllAppend(a: seq<string>, b: seq<string>)
    ensures ParseAll(a + b) == ParseAll(a) + ParseAll(b)
  {
    if |b| == 0 {
      assert a + b == a;
    } else {
      var b' := b[..|b| - 1];
      assert (a + b)[..|a + b| - 1] == a + b';
      ParseAllAppend(a, b');
    }
  }

  /** Two orderings of the same lines yield the same set of values. */
  lemma ParseAllPermutation(lines: seq<string>, order: seq<string>)
    requires multiset(order) == multiset(lines)
    ensures forall x :: x in ParseAll(order) <==> x in ParseAll(lines)
  {
    forall x: u32
      ensures x in ParseAll(order) <==> x in ParseAll(lines)
    {
      ParseAllMembers(order, x);
      ParseAllMembers(lines, x);
      if exists i :: 0 <= i < |order| && ParseUInt32(order[i]) == Some(x) {
        var i :| 0 <= i < |order| && ParseUInt32(order[i]) == Some(x);
        assert order[i] in multiset(lines);
        var j :| 0 <= j < |lines| && lines[j] == order[i];
      }
      if exists i :: 0 <= i < |lines| && ParseUInt32(lines[i]) == Some(x) {
        var i :| 0 <= i < |lines| && ParseUInt32(lines[i]) == Some(x);
        assert lines[i] in multiset(order);
        var j :| 0 <= j < |order| && order[j] == lines[i];
      }
    }
  }

  /**
   * The loop that runs over the lines and pushes every value that parses
   * onto the collection of numbers read from the file.
   */
  method ParseLines(lines: seq<string>) returns (numbers: seq<u32>)
    ensures numbers == ParseAll(lines)
  {
    numbers := [];
    for i := 0 to |lines|
      invariant numbers == ParseAll(lines[..i])
    {
      assert lines[..i + 1][..i] == lines[..i];
      match ParseUInt32(lines[i]) {
        case Some(v) =>
          numbers := numbers + [v];
        case None =>
      }
    }
    assert lines[..|lines|] == lines;
  }

  /** `Distinct()`: one copy of every value; the order of the copies is not modelled. */
  function Dedup(s: seq<u32>): (r: seq<u32>)
    ensures |r| <= |s|
    ensures forall x :: multiset(r)[x] == if x in s then 1 else 0
  {
    if |s| == 0 then []
    else
      var init := s[..|s| - 1];
      var last := s[|s| - 1];
      assert s == init + [last];
      if last in init then Dedup(init) else Dedup(init) + [last]
  }

  predicate NoDuplicates(s: seq<u32>) {
    forall i, j :: 0 <= i < j < |s| ==> s[i] != s[j]
  }

  /** A sequence whose multiset counts are at most one has no duplicates. */
  lemma {:induction false} CountsAtMostOne(s: seq<u32>)
    requires forall x :: multiset(s)[x] <= 1
    ensures NoDuplicates(s)
  {
    forall i, j | 0 <= i < j < |s|
      ensures s[i] != s[j]
    {
      var lo, mid, hi := s[..i], s[i..j], s[j..];
      assert s == lo + mid + hi;
      assert s[i] in mid && s[j] in hi;
      assert multiset(s) == multiset(lo) + multiset(mid) + multiset(hi);
      assert multiset(mid)[s[i]] >= 1 && multiset(hi)[s[j]] >= 1;
      assert multiset(s)[s[i]] <= 1 && multiset(s)[s[i]] >= multiset(mid)[s[i]] + multiset(hi)[s[i]];
    }
  }

  /** The de-duplicated work set holds every parsed value exactly once. */
  lemma DedupExactlyOnce(s: seq<u32>)
    ensures NoDuplicates(Dedup(s))
    ensures forall x :: x in Dedup(s) <==> x in s
  {
    var r := Dedup(s);
    CountsAtMostOne(r);
    forall x ensures x in r <==> x in s {
      assert x in r <==> x in multiset(r);
    }
  }
}
