/*
 * The run: the technique chosen on the command line, the two dispatch
 * strategies (one task per distinct value, or a parallel loop over the raw
 * lines), and the text written to the output file.
 *
 * The scheduler's freedom is modelled by the order in which the work is
 * handed to the aggregator: each strategy runs its items one after another in
 * a caller-chosen order that is a permutation of its work set.
 */
module Program {
  import opened Parsing
  import opened Decomposition
  import opened Aggregation
  import opened Rendering

  const TaskFactory: u16 := 1
  const ParallelForEach: u16 := 2

  /**
   * The second command-line argument selects the technique: 2 selects the
   * parallel loop, every other value falls back to one task per item.
   */
  function NormalizeTechnique(arg: u16): (technique: u16)
    ensures technique == TaskFactory || technique == ParallelForEach
    ensures technique == ParallelForEach <==> arg == ParallelForEach
  {
    if arg == 2 then 2 else 1
  }

  /** The name written to the results log for a normalised technique. */
  function TechniqueName(technique: u16): (name: string)
    ensures name == "Parallel.ForEach" <==> technique == ParallelForEach
    ensures name != "Parallel.ForEach" ==> name == "Task.Factory"
  {
    if technique == 2 then "Parallel.ForEach" else "Task.Factory"
  }

  /**
   * Technique 1, after the counters are reset: one task per distinct value,
   * the tasks executed in the order `schedule` (any permutation of `work`).
   */
  method RunTasks(agg: Aggregator, work: seq<u32>, schedule: seq<u32>, transform: u32 -> u32, littleEndian: bool)
    requires multiset(schedule) == multiset(work)
    modifies agg
    ensures agg.entries == Aggregate(old(agg.entries), transform, schedule)
    ensures agg.inFlight == old(agg.inFlight)
    ensures agg.highWater == if |work| == 0 then old(agg.highWater) else Max(old(agg.highWater), old(agg.inFlight) + 1)
  {
    assert |schedule| == |multiset(schedule)| == |work|;
    for i := 0 to |schedule|
      invariant agg.entries == Aggregate(old(agg.entries), transform, schedule[..i])
      invariant agg.inFlight == old(agg.inFlight)
      invariant agg.highWater == if i == 0 then old(agg.highWater) else Max(old(agg.highWater), old(agg.inFlight) + 1)
    {
      assert schedule[..i + 1][..i] == schedule[..i];
      agg.ProcessLine(schedule[i], transform, littleEndian);
    }
    assert schedule[..|schedule|] == schedule;
  }

  /**
   * Technique 2: the parallel loop over the raw lines, visited in the order
   * `lineOrder`; every line that parses is processed, duplicates included.
   */
  method RunParallelForEach(agg: Aggregator, lineOrder: seq<string>, transform: u32 -> u32, littleEndian: bool)
    modifies agg
    ensures agg.entries == Aggregate(old(agg.entries), transform, ParseAll(lineOrder))
    ensures agg.inFlight == old(agg.inFlight)
    ensures agg.highWater == if ParseAll(lineOrder) == [] then old(agg.highWater) else Max(old(agg.highWater), old(agg.inFlight) + 1)
  {
    for i := 0 to |lineOrder|
      invariant agg.entries == Aggregate(old(agg.entries), transform, ParseAll(lineOrder[..i]))
      invariant agg.inFlight == old(agg.inFlight)
      invariant agg.highWater == if ParseAll(lineOrder[..i]) == [] then old(agg.highWater) else Max(old(agg.highWater), old(agg.inFlight) + 1)
    {
      assert lineOrder[..i + 1][..i] == lineOrder[..i];
      match ParseUInt32(lineOrder[i]) {
        case Some(v) =>
          assert ParseAll(lineOrder[..i + 1]) == ParseAll(lineOrder[..i]) + [v];
          agg.ProcessLine(v, transform, littleEndian);
        case None =>
      }
    }
    assert lineOrder[..|lineOrder|] == lineOrder;
  }

  /**
   * Process the data file's lines with the given technique and return the
   * output text and the largest concurrency observed. Both parallel loops
   * visit the lines in the order `lineOrder`; technique 1 runs its tasks in
   * the order `taskOrder`. An unknown technique processes nothing.
   */
  method ProcessFile(lines: seq<string>, technique: u16, lineOrder: seq<string>, taskOrder: seq<u32>,
                     transform: u32 -> u32, littleEndian: bool)
    returns (output: string, maxRealThreadCount: int)
    requires multiset(lineOrder) == multiset(lines)
    requires technique == TaskFactory ==> multiset(taskOrder) == multiset(Dedup(ParseAll(lineOrder)))
    ensures technique == TaskFactory ==> output == Render(Aggregate(map[], transform, taskOrder))
    ensures technique == ParallelForEach ==> output == Render(Aggregate(map[], transform, ParseAll(lineOrder)))
    ensures technique != TaskFactory && technique != ParallelForEach ==> output == ""
    ensures maxRealThreadCount == if technique in {TaskFactory, ParallelForEach} && ParseAll(lines) != [] then 1 else 0
  {
    var agg := new Aggregator();
    ParseAllPermutation(lines, lineOrder);
    assert ParseAll(lines) == [] <==> ParseAll(lineOrder) == [] by {
      if ParseAll(lines) != [] {
        assert ParseAll(lines)[0] in ParseAll(lineOrder);
      }
      if ParseAll(lineOrder) != [] {
        assert ParseAll(lineOrder)[0] in ParseAll(lines);
      }
    }
    if technique == TaskFactory {
      var numbersFromFile := ParseLines(lineOrder);
      var distinct := Dedup(numbersFromFile);
      assert distinct == [] <==> numbersFromFile == [] by {
        DedupExactlyOnce(numbersFromFile);
        if numbersFromFile != [] {
          assert numbersFromFile[0] in distinct;
        }
      }
      agg.inFlight, agg.highWater := 0, 0;
      assert agg.entries == map[];
      RunTasks(agg, distinct, taskOrder, transform, littleEndian);
      assert agg.entries == Aggregate(map[], transform, taskOrder);
    } else if technique == ParallelForEach {
      RunParallelForEach(agg, lineOrder, transform, littleEndian);
      assert agg.entries == Aggregate(map[], transform, ParseAll(lineOrder));
    }
    output := Render(agg.entries);
    maxRealThreadCount := agg.highWater;
  }

  /**
   * Without two values whose results share a key but differ in letter, the
   * two techniques write the same collection, whatever the order the lines
   * and the tasks were run in.
   */
  lemma StrategiesAgree(lines: seq<string>, lineOrder1: seq<string>, lineOrder2: seq<string>, taskOrder: seq<u32>,
                        transform: u32 -> u32)
    requires multiset(lineOrder1) == multiset(lines) && multiset(lineOrder2) == multiset(lines)
    requires multiset(taskOrder) == multiset(Dedup(ParseAll(lineOrder1)))
    requires Consistent(transform, set x | x in ParseAll(lines))
    ensures Aggregate(map[], transform, taskOrder) == Aggregate(map[], transform, ParseAll(lineOrder2))
  {
    ParseAllPermutation(lines, lineOrder1);
    ParseAllPermutation(lines, lineOrder2);
    DedupExactlyOnce(ParseAll(lineOrder1));
    forall x
      ensures x in taskOrder <==> x in ParseAll(lineOrder2)
    {
      assert x in taskOrder <==> x in multiset(taskOrder);
      assert x in Dedup(ParseAll(lineOrder1)) <==> x in multiset(Dedup(ParseAll(lineOrder1)));
    }
    assert (set x | x in taskOrder) == (set x | x in ParseAll(lines));
    OrderIndependent(map[], transform, taskOrder, ParseAll(lineOrder2));
  }

  /**
   * Whatever the results, the two techniques fill the same keys, and each
   * key holds the letter of some value that writes it: exactly one of the
   * colliding letters survives.
   */
  lemma StrategiesSameKeys(lines: seq<string>, lineOrder1: seq<string>, lineOrder2: seq<string>, taskOrder: seq<u32>,
                           transform: u32 -> u32, k: int)
    requires multiset(lineOrder1) == multiset(lines) && multiset(lineOrder2) == multiset(lines)
    requires multiset(taskOrder) == multiset(Dedup(ParseAll(lineOrder1)))
    ensures k in Aggregate(map[], transform, taskOrder) <==> k in Aggregate(map[], transform, ParseAll(lineOrder2))
    ensures k in Aggregate(map[], transform, taskOrder) ==>
      exists x :: x in ParseAll(lines) && EntryOf(transform, x) == Entry(k, Aggregate(map[], transform, taskOrder)[k])
    ensures k in Aggregate(map[], transform, ParseAll(lineOrder2)) ==>
      exists x :: x in ParseAll(lines) && EntryOf(transform, x) == Entry(k, Aggregate(map[], transform, ParseAll(lineOrder2))[k])
  {
    ParseAllPermutation(lines, lineOrder1);
    ParseAllPermutation(lines, lineOrder2);
    DedupExactlyOnce(ParseAll(lineOrder1));
    var tasks, loop := taskOrder, ParseAll(lineOrder2);
    forall x
      ensures x in tasks <==> x in ParseAll(lines)
    {
      assert x in tasks <==> x in multiset(tasks);
      assert x in Dedup(ParseAll(lineOrder1)) <==> x in multiset(Dedup(ParseAll(lineOrder1)));
    }
    AggregateKeys(map[], transform, tasks);
    AggregateKeys(map[], transform, loop);
    assert KeysOf(transform, tasks) == KeysOf(transform, loop);
    if k in Aggregate(map[], transform, tasks) {
      AggregateWinner(map[], transform, tasks, k);
      AggregateWinner(map[], transform, loop, k);
    }
  }

  /**
   * Every technique-2 run can be matched by a technique-1 run: whatever the
   * order the lines are visited in, one task per distinct value, the tasks
   * run in the order of each value's last occurrence, gives the same
   * collection, collisions included.
   */
  lemma ParallelForEachAsTasks(lines: seq<string>, lineOrder1: seq<string>, lineOrder2: seq<string>,
                               transform: u32 -> u32)
    requires multiset(lineOrder1) == multiset(lines) && multiset(lineOrder2) == multiset(lines)
    ensures multiset(LastOccurrences(ParseAll(lineOrder2))) == multiset(Dedup(ParseAll(lineOrder1)))
    ensures Aggregate(map[], transform, LastOccurrences(ParseAll(lineOrder2))) ==
            Aggregate(map[], transform, ParseAll(lineOrder2))
  {
    ParseAllPermutation(lines, lineOrder1);
    ParseAllPermutation(lines, lineOrder2);
    assert forall x :: multiset(LastOccurrences(ParseAll(lineOrder2)))[x] == multiset(Dedup(ParseAll(lineOrder1)))[x];
    AggregateLastOccurrences(map[], transform, ParseAll(lineOrder2));
  }

  /** The index of a line that parses to `v`. */
  lemma LineOf(lines: seq<string>, v: u32) returns (i: int)
    requires v in ParseAll(lines)
    ensures 0 <= i < |lines| && ParseUInt32(lines[i]) == Some(v)
  {
    ParseAllMembers(lines, v);
    i :| 0 <= i < |lines| && ParseUInt32(lines[i]) == Some(v);
  }

  /** The values of the lines split around line `i`. */
  lemma ParseAllAround(lines: seq<string>, i: int)
    requires 0 <= i < |lines|
    ensures ParseAll(lines) == ParseAll(lines[..i]) + ParseAll([lines[i]]) + ParseAll(lines[i + 1..])
  {
    var before, line, after := lines[..i], lines[i], lines[i + 1..];
    SplitAround(lines, i);
    ParseAllAppend(before + [line], after);
    ParseAllAppend(before, [line]);
  }

  lemma ParseAllSingle(line: string, v: u32)
    requires ParseUInt32(line) == Some(v)
    ensures ParseAll([line]) == [v]
  {
    assert [line][..0] == [];
  }

  lemma SplitAround<T>(s: seq<T>, i: int)
    requires 0 <= i < |s|
    ensures s == s[..i] + [s[i]] + s[i + 1..]
  {
  }

  /** Taking out element `i` takes one copy of it out of the multiset. */
  lemma MultisetAround<T>(s: seq<T>, i: int)
    requires 0 <= i < |s|
    ensures multiset(s) == multiset(s[..i] + s[i + 1..]) + multiset{s[i]}
  {
    SplitAround(s, i);
  }

  /** Taking out a line that parses to another value keeps `w` among the values. */
  lemma RemoveOtherLine(lines: seq<string>, i: int, v: u32, w: u32)
    requires 0 <= i < |lines| && ParseUInt32(lines[i]) == Some(v)
    requires w in ParseAll(lines) && w != v
    ensures w in ParseAll(lines[..i] + lines[i + 1..])
  {
    ParseAllAround(lines, i);
    ParseAllSingle(lines[i], v);
    ParseAllAppend(lines[..i], lines[i + 1..]);
  }

  /**
   * One step of `Arrange`: a line that parses to the last value of `vs`, and
   * the other lines, among which the other values of `vs` still occur.
   */
  lemma TakeLast(lines: seq<string>, vs: seq<u32>) returns (line: string, rest: seq<string>)
    requires |vs| > 0 && NoDuplicates(vs)
    requires forall v :: v in vs ==> v in ParseAll(lines)
    ensures ParseUInt32(line) == Some(vs[|vs| - 1])
    ensures multiset(lines) == multiset(rest) + multiset{line}
    ensures NoDuplicates(vs[..|vs| - 1])
    ensures forall w :: w in vs[..|vs| - 1] ==> w in ParseAll(rest)
  {
    var init, v := vs[..|vs| - 1], vs[|vs| - 1];
    assert v in vs;
    var i := LineOf(lines, v);
    line, rest := lines[i], lines[..i] + lines[i + 1..];
    MultisetAround(lines, i);
    forall w | w in init
      ensures w in ParseAll(rest)
    {
      var p :| 0 <= p < |init| && init[p] == w;
      assert vs[p] == w && w != v;
      assert w in vs;
      RemoveOtherLine(lines, i, v, w);
    }
    forall a, b | 0 <= a < b < |init|
      ensures init[a] != init[b]
    {
      assert init[a] == vs[a] && init[b] == vs[b];
    }
  }

  /**
   * A visiting order of `lines` whose parsed values end with the distinct
   * values `vs`, in that order: each value of `vs` is moved to the back on
   * one line that parses to it.
   */
  lemma {:induction false} Arrange(lines: seq<string>, vs: seq<u32>) returns (order: seq<string>, pre: seq<u32>)
    requires NoDuplicates(vs)
    requires forall v :: v in vs ==> v in ParseAll(lines)
    ensures multiset(order) == multiset(lines)
    ensures ParseAll(order) == pre + vs
    decreases |vs|
  {
    if |vs| == 0 {
      order, pre := lines, ParseAll(lines);
    } else {
      var init, v := vs[..|vs| - 1], vs[|vs| - 1];
      var line, rest := TakeLast(lines, vs);
      var order', pre' := Arrange(rest, init);
      order := order' + [line];
      pre := pre';
      assert ParseAll(order) == ParseAll(order') + [v] by {
        assert order[..|order| - 1] == order';
      }
      assert vs == init + [v];
    }
  }

  /**
   * Every technique-1 run can be matched by a technique-2 run: whatever the
   * order the tasks run in, some visiting order of the lines gives the same
   * collection, collisions included.
   */
  lemma TasksAsParallelForEach(lines: seq<string>, lineOrder1: seq<string>, taskOrder: seq<u32>,
                               transform: u32 -> u32)
    requires multiset(lineOrder1) == multiset(lines)
    requires multiset(taskOrder) == multiset(Dedup(ParseAll(lineOrder1)))
    ensures exists lineOrder2 ::
              && multiset(lineOrder2) == multiset(lines)
              && Aggregate(map[], transform, ParseAll(lineOrder2)) == Aggregate(map[], transform, taskOrder)
  {
    ParseAllPermutation(lines, lineOrder1);
    DedupExactlyOnce(ParseAll(lineOrder1));
    forall x
      ensures multiset(taskOrder)[x] <= 1
      ensures x in taskOrder <==> x in ParseAll(lines)
    {
      assert x in taskOrder <==> x in multiset(taskOrder);
      assert x in Dedup(ParseAll(lineOrder1)) <==> x in multiset(Dedup(ParseAll(lineOrder1)));
    }
    CountsAtMostOne(taskOrder);
    var order, pre := Arrange(lines, taskOrder);
    ParseAllPermutation(lines, order);
    forall x | x in pre
      ensures x in taskOrder
    {
      assert x in ParseAll(order);
    }
    AggregateAbsorbs(map[], transform, pre, taskOrder);
    assert multiset(order) == multiset(lines);
    assert Aggregate(map[], transform, ParseAll(order)) == Aggregate(map[], transform, taskOrder);
  }

  /** The identity transform: the result is the input's own bytes. */
  function Identity(x: u32): u32
  {
    x
  }

  lemma {:induction false} ExampleLines(lines: seq<string>)
    requires lines == ["5", "5", "7"]
    ensures ParseAll(lines) == [5, 5, 7]
  {
    assert DecimalValue("5") == 5 && DecimalValue("7") == 7;
    assert lines[..2] == ["5", "5"] && lines[..2][..1] == ["5"] && lines[..2][..1][..0] == [];
    assert ParseAll(lines[..2][..1]) == [5];
    assert ParseAll(lines[..2]) == [5, 5];
  }

  /** The example's work set is the two distinct values 5 and 7. */
  lemma ExampleWork(lines: seq<string>, taskOrder: seq<u32>)
    requires lines == ["5", "5", "7"]
    requires multiset(taskOrder) == multiset(Dedup(ParseAll(lines)))
    ensures forall x :: x in taskOrder <==> x == 5 || x == 7
  {
    ExampleLines(lines);
    DedupExactlyOnce(ParseAll(lines));
    forall x
      ensures x in taskOrder <==> x == 5 || x == 7
    {
      assert x in taskOrder <==> x in multiset(taskOrder);
      assert x in Dedup(ParseAll(lines)) <==> x in multiset(Dedup(ParseAll(lines)));
    }
  }

  /**
   * The example run, continued: the values 5 and 7 under the identity
   * transform, in either order. Both have key 0, so the collection holds one
   * entry, at key 0, whose letter is character 5 or character 7, and the
   * output is a single character.
   */
  lemma IdentityCollision(taskOrder: seq<u32>)
    requires forall x :: x in taskOrder <==> x == 5 || x == 7
    ensures Aggregate(map[], Identity, taskOrder).Keys == {0}
    ensures Aggregate(map[], Identity, taskOrder)[0] in {5 as char, 7 as char}
    ensures |Render(Aggregate(map[], Identity, taskOrder))| == 1
  {
    var m := Aggregate(map[], Identity, taskOrder);
    assert EntryOf(Identity, 5) == Entry(0, 5 as char) && EntryOf(Identity, 7) == Entry(0, 7 as char);
    assert KeysOf(Identity, taskOrder) == {0} by {
      assert 5 in taskOrder;
    }
    AggregateKeys(map[], Identity, taskOrder);
    AggregateWinner(map[], Identity, taskOrder, 0);
  }

  /** An input without a parsable line gives an empty output and a zero mark. */
  lemma EmptyInput(lines: seq<string>, lineOrder: seq<string>, taskOrder: seq<u32>, transform: u32 -> u32)
    requires multiset(lineOrder) == multiset(lines)
    requires multiset(taskOrder) == multiset(Dedup(ParseAll(lineOrder)))
    requires ParseAll(lines) == []
    ensures Render(Aggregate(map[], transform, taskOrder)) == ""
    ensures Render(Aggregate(map[], transform, ParseAll(lineOrder))) == ""
  {
    ParseAllPermutation(lines, lineOrder);
    assert ParseAll(lineOrder) == [] by {
      if ParseAll(lineOrder) != [] {
        assert false;
      }
    }
    assert |taskOrder| == |multiset(taskOrder)| == 0;
  }
}
