/*
 * Output rendering: the letters of the final collection are joined in
 * ascending key order (`OrderBy(x => x.Key).Select(s => s.Value)`).
 */
module Rendering {

  predicate StrictlyIncreasing(s: seq<int>) {
    forall i, j :: 0 <= i < j < |s| ==> s[i] < s[j]
  }

  lemma Witness(keys: set<int>) returns (y: int)
    requires keys != {}
    ensures y in keys
  {
    if forall x :: x !in keys {
      assert false;
    }
    y :| y in keys;
  }

  /** Every non-empty finite set of keys has a least element. */
  lemma {:induction false} MinimumExists(keys: set<int>)
    requires keys != {}
    ensures exists k :: k in keys && forall x :: x in keys ==> k <= x
    decreases |keys|
  {
    var y := Witness(keys);
    var rest := keys - {y};
    if rest == {} {
      forall x | x in keys
        ensures y <= x
      {
        assert x !in rest;
      }
    } else {
      MinimumExists(rest);
      var k :| k in rest && forall x :: x in rest ==> k <= x;
      var least := if y < k then y else k;
      forall x | x in keys
        ensures least <= x
      {
        if x != y {
          assert x in rest;
        }
      }
      assert least in keys;
    }
  }

  /** The least key of a non-empty set. */
  function Least(keys: set<int>): (k: int)
    requires keys != {}
    ensures k in keys && forall x :: x in keys ==> k <= x
  {
    MinimumExists(keys);
    var k :| k in keys && forall x :: x in keys ==> k <= x;
    k
  }

  /** The keys in ascending order. */
  function SortedKeys(keys: set<int>): (r: seq<int>)
    ensures StrictlyIncreasing(r)
    ensures |r| == |keys| && forall k :: k in r <==> k in keys
    decreases |keys|
  {
    if keys == {} then []
    else
      var k := Least(keys);
      var rest := SortedKeys(keys - {k});
      assert |keys - {k}| == |keys| - 1;
      [k] + rest
  }

  /** Two ascending sequences with the same elements are the same sequence. */
  lemma {:induction false} AscendingUnique(a: seq<int>, b: seq<int>)
    requires StrictlyIncreasing(a) && StrictlyIncreasing(b)
    requires forall k :: k in a <==> k in b
    ensures a == b
  {
    assert |b| > 0 ==> b[0] in b;
    if |a| != 0 {
      assert a[0] in a && b != [] && b[0] in b;
      var i :| 0 <= i < |b| && b[i] == a[0];
      var j :| 0 <= j < |a| && a[j] == b[0];
      assert b[0] <= b[i] && a[0] <= a[j];
      forall k
        ensures k in a[1..] <==> k in b[1..]
      {
        if k in a[1..] {
          var p :| 1 <= p < |a| && a[p] == k;
          assert k in b && k != b[0];
        }
        if k in b[1..] {
          var p :| 1 <= p < |b| && b[p] == k;
          assert k in a && k != a[0];
        }
      }
      AscendingUnique(a[1..], b[1..]);
      assert a == [a[0]] + a[1..] && b == [b[0]] + b[1..];
    }
  }

  /** The output text: the letters of `m` concatenated by ascending key. */
  function Render(m: map<int, char>): (out: string)
    ensures |out| == |m|
  {
    var keys := SortedKeys(m.Keys);
    seq(|keys|, i requires 0 <= i < |keys| => m[keys[i]])
  }

  /**
   * The output is the letters of the map read along any ascending listing
   * of its keys: one letter per key, in strictly ascending key order.
   */
  lemma RenderAscending(m: map<int, char>, keys: seq<int>)
    requires StrictlyIncreasing(keys) && forall k :: k in keys <==> k in m
    ensures |Render(m)| == |keys|
    ensures forall i :: 0 <= i < |keys| ==> Render(m)[i] == m[keys[i]]
  {
    AscendingUnique(keys, SortedKeys(m.Keys));
  }
}
