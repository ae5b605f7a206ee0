/*
 * Result aggregation: every work item is transformed, decomposed and written
 * into the shared key-to-letter map, last writer winning on a shared key,
 * while an in-flight counter and its high-water mark measure concurrency.
 */
module Aggregation {
  import opened Parsing
  import opened Decomposition

  /** The entry a work item writes once `transform` has been applied to it. */
  function EntryOf(transform: u32 -> u32, item: u32): (e: Entry)
    ensures 0 <= e.order < 0x100_0000 && 0 <= e.letter as int < 256
    ensures e.order * 256 + e.letter as int == transform(item)
  {
    Split(transform(item))
  }

  function Max(a: int, b: int): (m: int)
    ensures m >= a && m >= b && (m == a || m == b)
  {
    if a < b then b else a
  }

  /** One write `finalCollection[order] = letter`. */
  function Write(m: map<int, char>, e: Entry): (r: map<int, char>)
    ensures e.order in r && r[e.order] == e.letter
  {
    m[e.order := e.letter]
  }

  /**
   * A write touches no key but its own: every other key keeps its value, no
   * other key appears, and on a collision the size is unchanged.
   */
  lemma WriteOneKey(m: map<int, char>, e: Entry)
    ensures forall k :: k != e.order ==> (k in Write(m, e) <==> k in m)
    ensures forall k :: k != e.order && k in m ==> Write(m, e)[k] == m[k]
    ensures |Write(m, e)| == if e.order in m then |m| else |m| + 1
  {
    assert Write(m, e).Keys == m.Keys + {e.order};
  }

  /** The map after the items have been processed one after another, in order. */
  function Aggregate(m: map<int, char>, transform: u32 -> u32, items: seq<u32>): (r: map<int, char>)
    ensures m.Keys <= r.Keys
  {
    if |items| == 0 then m
    else Write(Aggregate(m, transform, items[..|items| - 1]), EntryOf(transform, items[|items| - 1]))
  }

  /** The keys the items write. */
  function KeysOf(transform: u32 -> u32, items: seq<u32>): set<int>
  {
    set x | x in items :: EntryOf(transform, x).order
  }

  lemma KeysOfConcat(transform: u32 -> u32, a: seq<u32>, b: seq<u32>)
    ensures KeysOf(transform, a + b) == KeysOf(transform, a) + KeysOf(transform, b)
  {
    var items := a + b;
    forall k
      ensures k in KeysOf(transform, items) <==> k in KeysOf(transform, a) || k in KeysOf(transform, b)
    {
      if k in KeysOf(transform, items) {
        var x :| x in items && EntryOf(transform, x).order == k;
        assert x in a || x in b;
      }
      if k in KeysOf(transform, a) {
        var x :| x in a && EntryOf(transform, x).order == k;
        assert x in items;
      }
      if k in KeysOf(transform, b) {
        var x :| x in b && EntryOf(transform, x).order == k;
        assert x in items;
      }
    }
  }

  /** The map holds the old keys and the keys of the items, and nothing else. */
  lemma {:induction false} AggregateKeys(m: map<int, char>, transform: u32 -> u32, items: seq<u32>)
    ensures Aggregate(m, transform, items).Keys == m.Keys + KeysOf(transform, items)
  {
    if |items| > 0 {
      var init, last := items[..|items| - 1], items[|items| - 1];
      var ko := EntryOf(transform, last).order;
      var prev := Aggregate(m, transform, init);
      assert prev.Keys == m.Keys + KeysOf(transform, init) by {
        AggregateKeys(m, transform, init);
      }
      assert KeysOf(transform, items) == KeysOf(transform, init) + {ko} by {
        assert items == init + [last];
        KeysOfConcat(transform, init, [last]);
        assert KeysOf(transform, [last]) == {ko} by {
          assert last in [last];
        }
      }
      var cur := Aggregate(m, transform, items);
      assert cur == Write(prev, EntryOf(transform, last));
      assert cur.Keys == prev.Keys + {ko};
      assert cur.Keys == m.Keys + KeysOf(transform, init) + {ko};
    }
  }

  /** A key no item writes keeps its old value. */
  lemma {:induction false} AggregateUntouched(m: map<int, char>, transform: u32 -> u32, items: seq<u32>, k: int)
    requires k in m && k !in KeysOf(transform, items)
    ensures k in Aggregate(m, transform, items) && Aggregate(m, transform, items)[k] == m[k]
  {
    if |items| > 0 {
      var init := items[..|items| - 1];
      assert KeysOf(transform, init) <= KeysOf(transform, items);
      AggregateUntouched(m, transform, init, k);
    }
  }

  /** Last writer wins: a key holds the letter of the last item that writes it. */
  lemma {:induction false} AggregateLastWriter(m: map<int, char>, transform: u32 -> u32, items: seq<u32>, i: int)
    requires 0 <= i < |items|
    requires forall j :: i < j < |items| ==> EntryOf(transform, items[j]).order != EntryOf(transform, items[i]).order
    ensures EntryOf(transform, items[i]).order in Aggregate(m, transform, items)
    ensures Aggregate(m, transform, items)[EntryOf(transform, items[i]).order] == EntryOf(transform, items[i]).letter
  {
    if i < |items| - 1 {
      var init := items[..|items| - 1];
      assert init[i] == items[i];
      forall j | i < j < |init|
        ensures EntryOf(transform, init[j]).order != EntryOf(transform, init[i]).order
      {
        assert init[j] == items[j];
      }
      AggregateLastWriter(m, transform, init, i);
    }
  }

  /**
   * Collision policy: a key the items write holds exactly one letter, the
   * letter of one of the items that write that key.
   */
  lemma {:induction false} AggregateWinner(m: map<int, char>, transform: u32 -> u32, items: seq<u32>, k: int)
    requires k in KeysOf(transform, items)
    ensures k in Aggregate(m, transform, items)
    ensures exists x :: x in items && EntryOf(transform, x) == Entry(k, Aggregate(m, transform, items)[k])
  {
    var init, last := items[..|items| - 1], items[|items| - 1];
    assert items == init + [last];
    if EntryOf(transform, last).order != k {
      assert k in KeysOf(transform, init);
      AggregateWinner(m, transform, init, k);
      var x :| x in init && EntryOf(transform, x) == Entry(k, Aggregate(m, transform, init)[k]);
      assert x in items;
    } else {
      assert last in items;
    }
  }

  /** No two items write the same key with different letters. */
  ghost predicate Consistent(transform: u32 -> u32, items: set<u32>)
  {
    forall x, y :: x in items && y in items && EntryOf(transform, x).order == EntryOf(transform, y).order ==>
      EntryOf(transform, x) == EntryOf(transform, y)
  }

  /** Without conflicting keys, every item's key holds that item's letter. */
  lemma {:induction false} AggregateConsistent(m: map<int, char>, transform: u32 -> u32, items: seq<u32>)
    requires Consistent(transform, set x | x in items)
    ensures forall x :: x in items ==>
      EntryOf(transform, x).order in Aggregate(m, transform, items) &&
      Aggregate(m, transform, items)[EntryOf(transform, x).order] == EntryOf(transform, x).letter
  {
    if |items| > 0 {
      var init, last := items[..|items| - 1], items[|items| - 1];
      assert items == init + [last];
      assert (set x | x in init) <= (set x | x in items);
      AggregateConsistent(m, transform, init);
      forall x | x in items
        ensures EntryOf(transform, x).order in Aggregate(m, transform, items)
        ensures Aggregate(m, transform, items)[EntryOf(transform, x).order] == EntryOf(transform, x).letter
      {
        if x != last && EntryOf(transform, x).order == EntryOf(transform, last).order {
          assert EntryOf(transform, x) == EntryOf(transform, last);
        }
      }
    }
  }

  /**
   * Without conflicting keys, the final map depends only on which items were
   * processed: neither their order nor repetitions matter.
   */
  lemma OrderIndependent(m: map<int, char>, transform: u32 -> u32, s: seq<u32>, t: seq<u32>)
    requires forall x :: x in s <==> x in t
    requires Consistent(transform, set x | x in s)
    ensures Aggregate(m, transform, s) == Aggregate(m, transform, t)
  {
    var a, b := Aggregate(m, transform, s), Aggregate(m, transform, t);
    assert a.Keys == b.Keys by {
      AggregateKeys(m, transform, s);
      AggregateKeys(m, transform, t);
      assert KeysOf(transform, s) == KeysOf(transform, t);
    }
    forall k | k in a
      ensures a[k] == b[k]
    {
      if k in KeysOf(transform, s) {
        var x :| x in s && EntryOf(transform, x).order == k;
        assert a[k] == EntryOf(transform, x).letter by {
          AggregateConsistent(m, transform, s);
        }
        assert b[k] == EntryOf(transform, x).letter by {
          assert (set x | x in s) == (set x | x in t);
          AggregateConsistent(m, transform, t);
        }
      } else {
        assert k !in KeysOf(transform, t);
        AggregateKeys(m, transform, s);
        AggregateUntouched(m, transform, s, k);
        AggregateUntouched(m, transform, t, k);
      }
    }
  }

  /** Processing `s` then `t` is processing their concatenation. */
  lemma {:induction false} AggregateAppend(m: map<int, char>, transform: u32 -> u32, s: seq<u32>, t: seq<u32>)
    ensures Aggregate(m, transform, s + t) == Aggregate(Aggregate(m, transform, s), transform, t)
  {
    if |t| == 0 {
      assert s + t == s;
    } else {
      var init := t[..|t| - 1];
      assert (s + t)[..|s + t| - 1] == s + init;
      AggregateAppend(m, transform, s, init);
    }
  }

  /** Two maps that agree outside the items' keys agree after the items. */
  lemma {:induction false} AggregateOverwrites(m1: map<int, char>, m2: map<int, char>, transform: u32 -> u32, s: seq<u32>)
    requires m1 - KeysOf(transform, s) == m2 - KeysOf(transform, s)
    ensures Aggregate(m1, transform, s) == Aggregate(m2, transform, s)
    decreases |s|
  {
    if |s| == 0 {
      assert KeysOf(transform, s) == {};
      assert m1 == m1 - KeysOf(transform, s) && m2 == m2 - KeysOf(transform, s);
    } else {
      var first, rest := s[0], s[1..];
      var e := EntryOf(transform, first);
      var w1, w2 := Write(m1, e), Write(m2, e);
      assert s == [first] + rest;
      assert KeysOf(transform, [first]) == {e.order} by {
        assert first in [first];
      }
      KeysOfConcat(transform, [first], rest);
      assert [first][..0] == [];
      assert Aggregate(m1, transform, [first]) == w1;
      assert Aggregate(m2, transform, [first]) == w2;
      AggregateAppend(m1, transform, [first], rest);
      AggregateAppend(m2, transform, [first], rest);
      var ks := KeysOf(transform, rest);
      forall k | k !in ks
        ensures (k in w1 <==> k in w2) && (k in w1 ==> w1[k] == w2[k])
      {
        if k != e.order {
          assert k in m1 - KeysOf(transform, s) <==> k in m1;
          assert k in m2 - KeysOf(transform, s) <==> k in m2;
          if k in m1 {
            assert (m1 - KeysOf(transform, s))[k] == m1[k];
            assert (m2 - KeysOf(transform, s))[k] == m2[k];
          }
        }
      }
      assert w1 - ks == w2 - ks;
      AggregateOverwrites(w1, w2, transform, rest);
    }
  }

  /**
   * Writes that are all repeated later leave no trace: when every item of `p`
   * is processed again in `u`, processing `p` first changes nothing. Running
   * the same items twice (`p == u`) is one instance.
   */
  lemma AggregateAbsorbs(m: map<int, char>, transform: u32 -> u32, p: seq<u32>, u: seq<u32>)
    requires forall x :: x in p ==> x in u
    ensures Aggregate(m, transform, p + u) == Aggregate(m, transform, u)
  {
    var before := Aggregate(m, transform, p);
    AggregateAppend(m, transform, p, u);
    AggregateKeys(m, transform, p);
    forall k | k in KeysOf(transform, p)
      ensures k in KeysOf(transform, u)
    {
      var x :| x in p && EntryOf(transform, x).order == k;
      assert x in u;
    }
    forall k | k in before - KeysOf(transform, u)
      ensures k in m && before[k] == m[k]
    {
      AggregateUntouched(m, transform, p, k);
    }
    assert before - KeysOf(transform, u) == m - KeysOf(transform, u);
    AggregateOverwrites(before, m, transform, u);
  }

  /** An item that is processed again later can be dropped from the run. */
  lemma DropEarlier(m: map<int, char>, transform: u32 -> u32, s: seq<u32>, x: u32, u: seq<u32>)
    requires x in u
    ensures Aggregate(m, transform, s + [x] + u) == Aggregate(m, transform, s + u)
  {
    assert s + [x] + u == s + ([x] + u);
    AggregateAppend(m, transform, s, [x] + u);
    AggregateAppend(m, transform, s, u);
    AggregateAbsorbs(Aggregate(m, transform, s), transform, [x], u);
  }

  /**
   * One copy of every value, kept where it occurs last: an occurrence is
   * dropped whenever the same value occurs again later.
   */
  function LastOccurrences(s: seq<u32>): (r: seq<u32>)
    ensures forall x :: multiset(r)[x] == if x in s then 1 else 0
  {
    if |s| == 0 then []
    else
      var rest := LastOccurrences(s[1..]);
      assert s == [s[0]] + s[1..];
      if s[0] in s[1..] then rest else [s[0]] + rest
  }

  /**
   * Processing a run with repeats leaves the same map as processing each
   * value once, at its last occurrence.
   */
  lemma {:induction false} AggregateLastOccurrences(m: map<int, char>, transform: u32 -> u32, s: seq<u32>)
    ensures Aggregate(m, transform, LastOccurrences(s)) == Aggregate(m, transform, s)
    decreases |s|
  {
    if |s| > 0 {
      var first, rest := s[0], s[1..];
      assert s == [first] + rest;
      if first in rest {
        DropEarlier(m, transform, [], first, rest);
        assert [] + [first] + rest == s && [] + rest == rest;
        AggregateLastOccurrences(m, transform, rest);
      } else {
        var w := Write(m, EntryOf(transform, first));
        AggregateLastOccurrences(w, transform, rest);
        AggregateAppend(m, transform, [first], LastOccurrences(rest));
        AggregateAppend(m, transform, [first], rest);
        assert [first][..0] == [];
        assert Aggregate(m, transform, [first]) == w;
      }
    }
  }

  /** Keeping last occurrences keeps the same values as `Distinct()`. */
  lemma LastOccurrencesDedup(s: seq<u32>)
    ensures multiset(LastOccurrences(s)) == multiset(Dedup(s))
  {
    assert forall x :: multiset(LastOccurrences(s))[x] == multiset(Dedup(s))[x];
  }

  /**
   * The shared state of one run: the final collection, the count of workers
   * currently between their increment and decrement, and the largest count
   * any worker observed.
   */
  class Aggregator {
    var entries: map<int, char>
    var inFlight: int
    var highWater: int

    constructor ()
      ensures entries == map[] && inFlight == 0 && highWater == 0
    {
      entries := map[];
      inFlight := 0;
      highWater := 0;
    }

    /** `Interlocked.Increment`: returns the post-increment count. */
    method Enter() returns (observed: int)
      modifies this
      ensures inFlight == old(inFlight) + 1 && observed == inFlight
      ensures entries == old(entries) && highWater == old(highWater)
    {
      inFlight := inFlight + 1;
      observed := inFlight;
    }

    /** The body of the lock: write the entry and raise the high-water mark. */
    method Commit(e: Entry, observed: int)
      modifies this
      ensures entries == Write(old(entries), e)
      ensures highWater == Max(old(highWater), observed)
      ensures inFlight == old(inFlight)
    {
      entries := entries[e.order := e.letter];
      if highWater < observed {
        highWater := observed;
      }
    }

    /** `Interlocked.Decrement`. */
    method Leave()
      modifies this
      ensures inFlight == old(inFlight) - 1
      ensures entries == old(entries) && highWater == old(highWater)
    {
      inFlight := inFlight - 1;
    }

    /**
     * Process one work item: count it in, transform it, decompose the result,
     * write the entry and raise the high-water mark under the lock, count it
     * out. The counter ends where it started.
     */
    method ProcessLine(line: u32, transform: u32 -> u32, littleEndian: bool)
      modifies this
      ensures entries == Write(old(entries), EntryOf(transform, line))
      ensures highWater == Max(old(highWater), old(inFlight) + 1)
      ensures highWater >= old(highWater)
      ensures inFlight == old(inFlight)
    {
      var threadCount := Enter();
      var result := transform(line);
      var e := Decompose(result, littleEndian);
      Commit(e, threadCount);
      Leave();
    }
  }
}
