# ESAThreadPoolTest: the data-correctness core

ESAThreadPoolTest is a thread-pool benchmark. It reads unsigned 32-bit numbers from `data.txt`, one per line. It passes every number through `Transform` from `transform.dll` and splits each 32-bit result into an order key (the top three bytes) and a letter (the bottom byte). The letter is stored in a shared `Dictionary<int, char>` under its key, and the letters are written to `output.txt` in ascending key order. While it runs, it counts the workers that are in flight and records the largest count seen (`_maxRealThreadCount`). The second command-line argument picks one of two techniques:

- technique 1 parses all lines, removes duplicate values and starts one `Task` per distinct value;
- technique 2 runs `Parallel.ForEach` over the raw lines and processes every line that parses, duplicates included.

This project models the sequential core under that concurrency plumbing:

- `parsing.dfy` (module `Parsing`): `UInt32.TryParse` on a line, the best-effort filter over all lines, the loop that collects the parsed numbers, and `Distinct()`.
- `decomposition.dfy` (module `Decomposition`): `BitConverter.GetBytes` on a host of either byte order, the reversal on a little-endian host, and the split of the result into key and letter. The byte-level code is proved equal to the arithmetic split `result / 256`, `result % 256`.
- `aggregation.dfy` (module `Aggregation`): the dictionary write, the whole run as a fold of writes, and the class `Aggregator`. `Aggregator` holds the collection, the in-flight counter and the high-water mark. Its `ProcessLine` is made of `Enter` (`Interlocked.Increment`), `Commit` (the body of the `lock`) and `Leave` (`Interlocked.Decrement`).
- `rendering.dfy` (module `Rendering`): the output text, meaning the letters ordered by key.
- `program.dfy` (module `Program`): the normalisation of the technique argument, the two techniques as loops over an `Aggregator`, and `ProcessFile`. It also holds the lemmas that compare the two techniques.

`Transform` is a parameter `transform: u32 -> u32`, a total function. The host byte order is a parameter `littleEndian`. The scheduler's freedom is a parameter too. Each technique runs its items one at a time, in an order chosen by the caller, and the contract requires only that this order is a permutation of the work set. The parallel loops visit the lines in any permutation of the lines. Technique 1 runs its tasks in any permutation of the de-duplicated values.

Two points about the code's behaviour:

- Technique 2 does not de-duplicate: a repeated line is processed again. A later write of a value overwrites every earlier write of the same value, so each value counts only at its last occurrence (`AggregateLastOccurrences`). Every technique-2 run therefore gives the same collection as some technique-1 run, and the other way round (`ParallelForEachAsTasks`, `TasksAsParallelForEach`). This holds for any transform, including when two values collide on a key with different letters. When no two values collide with different letters, every run of either technique gives the same collection (`StrategiesAgree`).
- An unparsable technique argument ends the program at line 48. Any other value that is not 2 becomes 1 (lines 84-92), and that rule is what `NormalizeTechnique` models.

## Model

| member | source | states |
|---|---|---|
| `Parsing.ParseUInt32` | ESAThreadPoolTest/ESAThreadPoolTest/Program.cs:172 | A line yields a value exactly when it is a non-empty run of decimal digits whose value is at most 4294967295. The value is that of the digits, and every other line yields `None`, so it is skipped. |
| `Parsing.ParseToDecimal` | ESAThreadPoolTest/ESAThreadPoolTest/Program.cs:172 | Every 32-bit value written in decimal parses back to itself (round trip). |
| `Parsing.ParseLeadingZero` | ESAThreadPoolTest/ESAThreadPoolTest/Program.cs:172 | A leading zero does not change what a line parses to, or whether it parses. |
| `Parsing.ParseSkipsText` | ESAThreadPoolTest/ESAThreadPoolTest/Program.cs:172-175 | "abc" and the empty line are skipped and are not errors. |
| `Parsing.ParseAll` | ESAThreadPoolTest/ESAThreadPoolTest/Program.cs:170-176 | The best-effort filter yields at most one value per line; `ParseAllMembers` and `ParseAllAppend` characterise which values and in what order. |
| `Parsing.ParseAllMembers` | ESAThreadPoolTest/ESAThreadPoolTest/Program.cs:170-176 | A value is among the parsed numbers if and only if some line parses to it. |
| `Parsing.ParseAllAppend` | ESAThreadPoolTest/ESAThreadPoolTest/Program.cs:170-176 | Parsing the concatenation of two batches of lines gives the concatenation of their parsed values. |
| `Parsing.ParseAllPermutation` | ESAThreadPoolTest/ESAThreadPoolTest/Program.cs:170-176 | Visiting the lines in any other order yields the same set of values. |
| `Parsing.ParseLines` | ESAThreadPoolTest/ESAThreadPoolTest/Program.cs:168-176 | The loop that pushes every parsable line's value returns exactly the parsed values of the lines, in visiting order. |
| `Parsing.Dedup` | ESAThreadPoolTest/ESAThreadPoolTest/Program.cs:178 | `Distinct()` holds every value of its input exactly once and nothing else (multiset count 1 or 0). It is never longer than its input. |
| `Parsing.DedupExactlyOnce` | ESAThreadPoolTest/ESAThreadPoolTest/Program.cs:178 | The de-duplicated list has no repeated element and the same members as the parsed list. |
| `Decomposition.GetBytes` | ESAThreadPoolTest/ESAThreadPoolTest/Program.cs:254 | The four bytes encode the value: least significant byte first on a little-endian host, most significant first on a big-endian one. |
| `Decomposition.Reversed` | ESAThreadPoolTest/ESAThreadPoolTest/Program.cs:257 | `Array.Reverse`: element `i` of the result is element `n-1-i` of the input. |
| `Decomposition.BigEndianBytes` | ESAThreadPoolTest/ESAThreadPoolTest/Program.cs:254-258 | After the conditional reversal, the four bytes are the value's big-endian encoding on either host. |
| `Decomposition.BigEndianUnique` | ESAThreadPoolTest/ESAThreadPoolTest/Program.cs:254-258 | Two four-byte arrays with the same big-endian value are equal. |
| `Decomposition.HostIndependent` | ESAThreadPoolTest/ESAThreadPoolTest/Program.cs:254-258 | The normalised bytes are the same on a little-endian and on a big-endian host. |
| `Decomposition.Split` | ESAThreadPoolTest/ESAThreadPoolTest/Program.cs:259-260 | The key is below 2^24, the letter's code is below 256, and key * 256 + letter code equals the result. |
| `Decomposition.SplitCompose` | ESAThreadPoolTest/ESAThreadPoolTest/Program.cs:259-260 | Any in-range (key, letter) pair, put back into 32 bits and split again, gives the same pair. |
| `Decomposition.Decompose` | ESAThreadPoolTest/ESAThreadPoolTest/Program.cs:254-260 | The byte-level code (letter = byte 3, key = byte 2 + byte 1 << 8 + byte 0 << 16) gives key = result / 256 and letter = result % 256 on either host. |
| `Aggregation.EntryOf` | ESAThreadPoolTest/ESAThreadPoolTest/Program.cs:252-260 | The entry a value writes has a key below 2^24 and a letter code below 256, and together they encode the transform result: key * 256 + letter code equals `Transform(value)`. |
| `Aggregation.Write` | ESAThreadPoolTest/ESAThreadPoolTest/Program.cs:264 | After `finalCollection[order] = letter` the key is present and holds the letter; `WriteOneKey` states that no other key changes. |
| `Aggregation.WriteOneKey` | ESAThreadPoolTest/ESAThreadPoolTest/Program.cs:264 | After a write, the key holds the new letter. Every other key keeps its presence and its value. The size grows by one for a new key and is unchanged on a collision. |
| `Aggregation.Aggregate` | ESAThreadPoolTest/ESAThreadPoolTest/Program.cs:187-192 | A run of `ProcessLine` calls is the fold of their writes, and it never removes a key already present; `AggregateKeys` and the lemmas below give its keys and letters. |
| `Aggregation.AggregateKeys` | ESAThreadPoolTest/ESAThreadPoolTest/Program.cs:262-265 | After processing a sequence of items, the collection's keys are the old keys plus the items' keys, and nothing else. |
| `Aggregation.AggregateUntouched` | ESAThreadPoolTest/ESAThreadPoolTest/Program.cs:262-265 | A key that no item writes keeps its old letter. |
| `Aggregation.AggregateLastWriter` | ESAThreadPoolTest/ESAThreadPoolTest/Program.cs:262-265 | Last writer wins: a key holds the letter of the last item in processing order that writes it. |
| `Aggregation.AggregateWinner` | ESAThreadPoolTest/ESAThreadPoolTest/Program.cs:262-265 | Collision policy: each written key holds exactly one letter, and that letter belongs to one of the items that write the key. |
| `Aggregation.AggregateConsistent` | ESAThreadPoolTest/ESAThreadPoolTest/Program.cs:262-265 | If no two items share a key with different letters, every item's key holds that item's letter. |
| `Aggregation.OrderIndependent` | ESAThreadPoolTest/ESAThreadPoolTest/Program.cs:187-192 | With the same condition, the final collection depends only on which values were processed: neither their order nor repetitions change it. |
| `Aggregation.AggregateAppend` | ESAThreadPoolTest/ESAThreadPoolTest/Program.cs:262-265 | Processing one sequence and then another is processing their concatenation. |
| `Aggregation.AggregateOverwrites` | ESAThreadPoolTest/ESAThreadPoolTest/Program.cs:262-265 | Two collections that differ only on keys the items write are equal after the items are processed. |
| `Aggregation.AggregateAbsorbs` | ESAThreadPoolTest/ESAThreadPoolTest/Program.cs:197-203 | If every value of an earlier stretch of the run is processed again later, leaving out the earlier stretch gives the same collection. Processing the same values twice is one instance. |
| `Aggregation.DropEarlier` | ESAThreadPoolTest/ESAThreadPoolTest/Program.cs:197-203 | A value that is processed again later in the run can be dropped from its earlier place without changing the collection, for any transform. |
| `Aggregation.LastOccurrences` | ESAThreadPoolTest/ESAThreadPoolTest/Program.cs:197-203 | Keeping one copy of each value, at its last occurrence, keeps exactly the values of the run, each once (multiset count 1 or 0). |
| `Aggregation.AggregateLastOccurrences` | ESAThreadPoolTest/ESAThreadPoolTest/Program.cs:197-203 | A run with repeated values leaves the same collection as the run of each value once, at its last occurrence, whatever the collisions. |
| `Aggregation.LastOccurrencesDedup` | ESAThreadPoolTest/ESAThreadPoolTest/Program.cs:178 | Keeping last occurrences yields the same multiset of values as `Distinct()`, so it is a valid technique-1 work order. |
| `Aggregation.Aggregator.constructor` | ESAThreadPoolTest/ESAThreadPoolTest/Program.cs:159 | A run starts with an empty collection, a zero counter and a zero high-water mark. |
| `Aggregation.Aggregator.Enter` | ESAThreadPoolTest/ESAThreadPoolTest/Program.cs:250 | The counter goes up by one, the post-increment value is returned, and nothing else changes. |
| `Aggregation.Aggregator.Commit` | ESAThreadPoolTest/ESAThreadPoolTest/Program.cs:262-270 | Under the lock, the entry is written and the high-water mark becomes the larger of its old value and the observed count. |
| `Aggregation.Aggregator.Leave` | ESAThreadPoolTest/ESAThreadPoolTest/Program.cs:272 | The counter goes down by one, and nothing else changes. |
| `Aggregation.Aggregator.ProcessLine` | ESAThreadPoolTest/ESAThreadPoolTest/Program.cs:248-273 | The collection gains the item's (key, letter) write, the high-water mark becomes max(old mark, old counter + 1) and never decreases, and the counter ends where it started. |
| `Rendering.SortedKeys` | ESAThreadPoolTest/ESAThreadPoolTest/Program.cs:211 | `OrderBy(x => x.Key)`: the keys in strictly ascending order, each key once. |
| `Rendering.AscendingUnique` | ESAThreadPoolTest/ESAThreadPoolTest/Program.cs:211 | Two strictly ascending sequences with the same elements are equal, so the key order is unique. |
| `Rendering.Render` | ESAThreadPoolTest/ESAThreadPoolTest/Program.cs:211 | The output has one letter per key of the collection. |
| `Rendering.RenderAscending` | ESAThreadPoolTest/ESAThreadPoolTest/Program.cs:211 | Along any strictly ascending listing of the keys, output letter `i` is the letter stored under key `i`. |
| `Program.NormalizeTechnique` | ESAThreadPoolTest/ESAThreadPoolTest/Program.cs:84-92 | The normalised technique is 1 or 2, and it is 2 exactly when the argument was 2. |
| `Program.TechniqueName` | ESAThreadPoolTest/ESAThreadPoolTest/Program.cs:84-92 | The logged name is "Parallel.ForEach" exactly for technique 2 and "Task.Factory" for every other technique. |
| `Program.RunTasks` | ESAThreadPoolTest/ESAThreadPoolTest/Program.cs:179-192 | Running one task per distinct value, in any permutation, leaves the collection equal to the fold of the writes in that order. The counter is unchanged. The mark is raised to old counter + 1 exactly when there was work. |
| `Program.RunParallelForEach` | ESAThreadPoolTest/ESAThreadPoolTest/Program.cs:197-203 | The loop over the lines, in visiting order, processes exactly the lines that parse, duplicates included. The collection is the fold of their writes, and the counter and the mark behave as for `RunTasks`. |
| `Program.ProcessFile` | ESAThreadPoolTest/ESAThreadPoolTest/Program.cs:155-211 | For each technique, the output text renders the collection its loop produces. An unknown technique writes empty text. The reported maximum thread count is 1 for a run with work and 0 for a run without. |
| `Program.StrategiesAgree` | ESAThreadPoolTest/ESAThreadPoolTest/Program.cs:164-205 | If no two parsed values share a key with different letters, both techniques produce the same collection, whatever order the lines and tasks run in. |
| `Program.StrategiesSameKeys` | ESAThreadPoolTest/ESAThreadPoolTest/Program.cs:164-205 | For any transform, both techniques fill the same keys, and each key holds the letter of some parsed value that writes it. |
| `Program.ParallelForEachAsTasks` | ESAThreadPoolTest/ESAThreadPoolTest/Program.cs:164-205 | For every order in which technique 2 visits the lines, running technique 1's tasks in the order of each value's last occurrence is a permutation of its distinct values and gives the same collection, for any transform. |
| `Program.TasksAsParallelForEach` | ESAThreadPoolTest/ESAThreadPoolTest/Program.cs:164-205 | For every order in which technique 1 runs its tasks, some order of visiting the lines makes technique 2 give the same collection, for any transform. |
| `Program.ExampleWork` | ESAThreadPoolTest/ESAThreadPoolTest/Program.cs:170-178 | For the lines "5", "5", "7", technique 1's work set is exactly the values 5 and 7. |
| `Program.IdentityCollision` | ESAThreadPoolTest/ESAThreadPoolTest/Program.cs:254-265 | Under the identity transform, the values 5 and 7 both have key 0. The collection then holds only key 0, with letter chr(5) or chr(7), and the output is one character. |
| `Program.EmptyInput` | ESAThreadPoolTest/ESAThreadPoolTest/Program.cs:178-211 | With no parsable line, both techniques write empty output. |

## Left out

- File and console I/O are not modelled: `CheckFiles`, `File.ReadAllLines`, writing `output.txt`, the header and row of `results.txt`, `Console.*`, `CloseApp` and `Environment.Exit`. The lines of `data.txt` are an input parameter, and the output text is a result.
- The `DllImport` of `Transform` is a foreign call. It is the parameter `transform`, a total function, so a fault inside it, and the catch-and-rethrow in `ProcessFile`, are not modelled.
- The concurrency mechanics are left out: `Task.Factory.StartNew`, `Task.WaitAll`, `Parallel.ForEach`, `lock`, `Interlocked` and `ConcurrentStack`. Each technique is a sequential loop over a permutation of its work set. Interleavings of the three phases of `ProcessLine` across workers are not modelled.
- `Program.ProcessFile`: because items run one at a time, the counter is 0 whenever a worker enters. The maximum thread count is therefore 1 for any run with work, and the bound by the thread-pool size is not stated.
- The `ThreadPool` minimum and maximum settings, the `Process.GetProcesses` snapshots, `Environment.ProcessorCount`, `Stopwatch` and `DateTime` are environment queries and wall-clock values, so they are not modelled.
- The command-line check at line 48 is not modelled, because it only decides whether the program prints a message and exits.
- `Parsing.ParseUInt32` accepts only plain decimal digits. .NET's `UInt32.TryParse` also accepts leading and trailing white space, a leading sign and culture-specific forms, and those inputs are not modelled.
- `Parsing.Dedup` states the members and counts of `Distinct()`'s result but not its order. The values come from a `ConcurrentStack` filled in parallel, so that order is arbitrary anyway.
- The `finally` block that clears `finalCollection` is not modelled, because nothing reads the collection after it.
