/*
 * Result decomposition: the 32-bit transform result is laid out as four
 * bytes, normalised to big-endian order, and split into the order key (the
 * top three bytes) and the letter (the bottom byte).
 */
module Decomposition {
  import opened Parsing

  type u8 = x: int | 0 <= x < 256

  /** What one work item contributes to the output: its key and its letter. */
  datatype Entry = Entry(order: int, letter: char)

  /** The value of four bytes read most significant first. */
  function BigEndianValue(b0: u8, b1: u8, b2: u8, b3: u8): int
  {
    b3 + 256 * (b2 + 256 * (b1 + 256 * b0))
  }

  /** Four bytes are determined by the value they encode. */
  lemma BigEndianUnique(a: seq<u8>, b: seq<u8>)
    requires |a| == 4 && |b| == 4
    requires BigEndianValue(a[0], a[1], a[2], a[3]) == BigEndianValue(b[0], b[1], b[2], b[3])
    ensures a == b
  {
    var v := BigEndianValue(a[0], a[1], a[2], a[3]);
    DivModUnique(v, a[2] as int + 256 * (a[1] as int + 256 * a[0] as int), a[3]);
    DivModUnique(v, b[2] as int + 256 * (b[1] as int + 256 * b[0] as int), b[3]);
    var q := v / 256;
    DivModUnique(q, a[1] as int + 256 * a[0] as int, a[2]);
    DivModUnique(q, b[1] as int + 256 * b[0] as int, b[2]);
    var q' := q / 256;
    DivModUnique(q', a[0], a[1]);
    DivModUnique(q', b[0], b[1]);
  }

  lemma DivModUnique(v: int, q: int, r: int)
    requires 0 <= r < 256 && v == 256 * q + r
    ensures q == v / 256 && r == v % 256
  {
  }

  /**
   * `BitConverter.GetBytes(uint)`: the four bytes of `value` as they lie in
   * memory on a host whose byte order is given by `littleEndian`.
   */
  function GetBytes(value: u32, littleEndian: bool): (bytes: seq<u8>)
    ensures |bytes| == 4
    ensures littleEndian ==> BigEndianValue(bytes[3], bytes[2], bytes[1], bytes[0]) == value
    ensures !littleEndian ==> BigEndianValue(bytes[0], bytes[1], bytes[2], bytes[3]) == value
  {
    var q1 := value / 256;
    var q2 := q1 / 256;
    var low: u8, mid: u8, high: u8, top: u8 := value % 256, q1 % 256, q2 % 256, q2 / 256;
    if littleEndian then [low, mid, high, top] else [top, high, mid, low]
  }

  /** `Array.Reverse` on a byte array. */
  function Reversed(s: seq<u8>): (r: seq<u8>)
    ensures |r| == |s| && forall i :: 0 <= i < |s| ==> r[i] == s[|s| - 1 - i]
  {
    if |s| == 0 then [] else Reversed(s[1..]) + [s[0]]
  }

  /**
   * The bytes of `value` after the host-order array is reversed on a
   * little-endian host: most significant byte first, on either host.
   */
  function BigEndianBytes(value: u32, littleEndian: bool): (bytes: seq<u8>)
    ensures |bytes| == 4 && BigEndianValue(bytes[0], bytes[1], bytes[2], bytes[3]) == value
  {
    var raw := GetBytes(value, littleEndian);
    if littleEndian then Reversed(raw) else raw
  }

  /** The normalised byte array does not depend on the host's byte order. */
  lemma HostIndependent(value: u32)
    ensures BigEndianBytes(value, true) == BigEndianBytes(value, false)
  {
    BigEndianUnique(BigEndianBytes(value, true), BigEndianBytes(value, false));
  }

  /** The split of a result into key and letter, stated arithmetically. */
  function Split(result: u32): (e: Entry)
    ensures 0 <= e.order < 0x100_0000 && 0 <= e.letter as int < 256
    ensures e.order * 256 + e.letter as int == result
  {
    Entry(result / 256, (result % 256) as char)
  }

  /** The inverse of `Split`: put the key's three bytes above the letter's byte. */
  function Compose(e: Entry): (result: u32)
    requires 0 <= e.order < 0x100_0000 && 0 <= e.letter as int < 256
  {
    e.order * 256 + e.letter as int
  }

  lemma SplitCompose(e: Entry)
    requires 0 <= e.order < 0x100_0000 && 0 <= e.letter as int < 256
    ensures Split(Compose(e)) == e
  {
    var s := Split(Compose(e));
    DivModUnique(Compose(e), e.order, e.letter as int);
    assert s.letter as int == e.letter as int;
  }

  lemma ComposeSplit(result: u32)
    ensures Compose(Split(result)) == result
  {
  }

  /**
   * The per-item decomposition: the letter is byte 3 of the normalised array
   * (`Convert.ToChar`), the key is byte 2 plus byte 1 shifted left by 8 plus
   * byte 0 shifted left by 16. Whatever the host, the key is the top three
   * bytes of the result and the letter its least significant byte.
   */
  function Decompose(result: u32, littleEndian: bool): (e: Entry)
    ensures e == Split(result)
  {
    var bytes := BigEndianBytes(result, littleEndian);
    var letter := bytes[3] as char;
    var order := bytes[2] as int + bytes[1] as int * 256 + bytes[0] as int * 65536;
    DivModUnique(result, order, bytes[3]);
    Entry(order, letter)
  }
}
