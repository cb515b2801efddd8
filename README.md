# LINQ-versus-loops benchmark, modelled in Dafny

The repository is a Unity micro-benchmark. It compares hand-written C# loops with the LINQ operators they imitate. This project models the three core classes. It proves three things: what every benchmark scenario computes, that the loop side and the LINQ side agree where they should, and where they do not.

- `LinqAnalogs` exists twice, in namespace `UnityBench` (`Assets/Code/Service/LinqAnalogs.cs`) and in namespace `LinqBenchmark` (`Assets/Code/LinqAnalogs.cs`).
  - `Setup(iterations, operations)` stores both counts and builds the workload `Enumerable.Range(0, operations).ToList()`.
  - Each `Compare_*` method runs a "for" side and then a "linq" side, `iterations` times each. After each side it logs the shared result variable. For FirstOrDefault and Any it logs the value itself. For Where and GroupBy it logs only the collection's `Count`.
  - In the model, the classes are Dafny classes with the same three fields. `Setup` is a `modifies this` method. The `Compare_*` methods return both results instead of logging them. Where and GroupBy return the whole list or dictionary, and the logged count is its size.
- `BenchController.Start` (`Assets/Code/BenchController.cs`) builds `0 .. innerIterations - 1` three ways: as an `int[]`, as a `List<int>` copied from it, and as an `IEnumerable<int>` view of that list. It then adds the elements into one `int` counter in eight timed sections: indexed `for`, `foreach` and `Sum()`, over each of the three collections.

## Model structure

- `csharp.dfy`, module `CSharp`, holds the C# semantics the code depends on:
  - the 32-bit `int` type;
  - unchecked wrap-around of `+=` (`Wrap`);
  - the truncating `%` (`CsRem`; Dafny's `%` is Euclidean);
  - the trip count of a `for` loop;
  - the exceptions, as a `Result` datatype.
- `linq.dfy`, module `Linq`, holds the LINQ operators as pure functions over sequences:
  - `Range`, `FirstOrDefault`, `Any`, `Where`, `Take`, `GroupBy`/`ToDictionary`;
  - the checked `Sum`.
- `analog_loops.dfy`, module `AnalogLoops`, holds both sides of each comparison as methods with loops, plus the lemmas that relate them. Both copies of the class share them, because their code is identical.
- `service_linq_analogs.dfy`, module `UnityBench`, and `linq_analogs.dfy`, module `LinqBenchmark`, hold the two `LinqAnalogs` classes.
- `bench_controller.dfy`, module `BenchController`, holds `Start` and its eight sections.

What the model shows:
- **FirstOrDefault and Any:** both sides agree. FirstOrDefault ends at `operations / 2`, Any at `operations >= 1`. When `iterations == 0` both keep their initial values.
- **Where:** the "for" side breaks after the first match, so it computes `Where(...).Take(1)`, which is `[0]`. The "linq" side keeps all `(operations + 2) / 3` multiples of 3. Once at least one pass ran, the two counts differ for `operations >= 4`.
- **GroupBy:** the "for" side always has the five keys 0..4. Bucket `k` holds the values whose remainder is `k`, in source order. Refilling is idempotent, and the bucket sizes add up to `operations`. LINQ's dictionary has `min(operations, 5)` keys, and each of its lists equals the bucket with the same key.
- **Start:** every section adds `iterations * (0 + ... + 99)`. The exact total 8 * 100,000 * 4,950 = 3,960,000,000 does not fit in an `int`, so the counter ends at 3,960,000,000 - 2^32.

`Setup` validates nothing. Only a negative `operations` throws, from `Enumerable.Range`, after both fields were assigned. A zero or negative `iterations` runs no passes.

## Model

| member | source | states |
|---|---|---|
| UnityBench.LinqAnalogs.Setup | Assets/Code/Service/LinqAnalogs.cs:16-21 | Both counts are stored. For `operations >= 0`, the list becomes `Range(0, operations)`, so it has length `operations` and `list[j] == j`. A negative `operations` fails with `ArgumentOutOfRange` and leaves the old list. |
| UnityBench.LinqAnalogs.CompareFirstOrDefault | Assets/Code/Service/LinqAnalogs.cs:23-43 | The for-result equals the linq-result. Both are `operations / 2` when `iterations >= 1` (including `operations == 0`, where this is `default(int)`), and both are 0 otherwise. On a non-empty workload each pass of the scan breaks at index `operations / 2`. |
| UnityBench.LinqAnalogs.CompareAny | Assets/Code/Service/LinqAnalogs.cs:45-65 | The for-result equals the linq-result. Both are true exactly when `iterations >= 1 && operations >= 1`. The scan then breaks at index `operations / 2`. |
| UnityBench.LinqAnalogs.CompareWhere | Assets/Code/Service/LinqAnalogs.cs:68-91 | The "for" output is `[0]` when `iterations >= 1 && operations >= 1` and `[]` otherwise. The "linq" output is `Where(list, v % 3 == 0)`: its i-th element is `3 * i` and it has `(operations + 2) / 3` elements. The "for" output is the head of the "linq" output. When `iterations >= 1 && operations >= 4` the "for" output is strictly shorter; with no pass both are `[]`. |
| UnityBench.LinqAnalogs.CompareGroupBy | Assets/Code/Service/LinqAnalogs.cs:93-119 | The "for" dictionary has exactly the keys 0..4. After at least one pass it equals one clear-and-refill pass over the list, and its bucket sizes sum to `operations`. The "linq" dictionary is `GroupBy(list, v % 5)` with `min(operations, 5)` keys, and each of its lists equals the bucket with the same key. When `iterations == 0` it still holds the five empty buckets. |
| UnityBench.LinqAnalogs.constructor | Assets/Code/Service/LinqAnalogs.cs:9-13 | C#'s implicit constructor: both counts are 0. The `null` list is the empty list, which satisfies the state `Setup` establishes for `operations == 0`. |
| LinqBenchmark.LinqAnalogs.constructor | Assets/Code/LinqAnalogs.cs:9-13 | The same implicit constructor of the other copy. |
| LinqBenchmark.LinqAnalogs.Setup | Assets/Code/LinqAnalogs.cs:16-21 | Same as in `UnityBench`: both counts stored; list `Range(0, operations)`, or failure with `ArgumentOutOfRange` for a negative `operations`. |
| LinqBenchmark.LinqAnalogs.CompareFirstOrDefault | Assets/Code/LinqAnalogs.cs:23-43 | Both results are equal. They are `operations / 2` when `iterations >= 1` and 0 otherwise. On a non-empty workload the scan breaks at index `operations / 2`. |
| LinqBenchmark.LinqAnalogs.CompareAny | Assets/Code/LinqAnalogs.cs:45-65 | Both results are equal. They are true exactly when `iterations >= 1 && operations >= 1`. The scan then breaks at index `operations / 2`. |
| LinqBenchmark.LinqAnalogs.CompareWhere | Assets/Code/LinqAnalogs.cs:68-91 | The "for" result is `[0]` or `[]`. The "linq" result is every multiple of 3 below `operations`, ascending, `(operations + 2) / 3` of them. Its first element is the "for" result's only element. |
| AnalogLoops.ForFirstOrDefault | Assets/Code/Service/LinqAnalogs.cs:27-35 | The nested scan-and-break loop ends with `target` if it ran at least once and `target` occurs among the first `operations` elements, and with 0 otherwise. Each pass leaves the inner loop at `FirstIndex(list[..operations], v == target)`. |
| AnalogLoops.ScanStop | Assets/Code/Service/LinqAnalogs.cs:29-34 | An inner scan that saw no match before index `j` and leaves there, at a match or at the end, stopped at `FirstIndex`. |
| AnalogLoops.LinqFirstOrDefault | Assets/Code/Service/LinqAnalogs.cs:38-41 | After at least one pass the result is `FirstOrDefault(list, p)`. With no pass it is the value the "for" side left. |
| AnalogLoops.ForAny | Assets/Code/Service/LinqAnalogs.cs:49-57 | The loop's result is true exactly when it ran and `target` occurs among the first `operations` elements. Each pass leaves the inner loop at `FirstIndex(list[..operations], v == target)`. |
| AnalogLoops.LinqAny | Assets/Code/Service/LinqAnalogs.cs:60-63 | After at least one pass the result is `Any(list, p)`. With no pass it is the "for" side's value. |
| AnalogLoops.ForWhere | Assets/Code/Service/LinqAnalogs.cs:71-83 | Each pass starts a fresh list and stops at the first multiple of 3, so the output is `Take(Where(list[..operations], v % 3 == 0), 1)` after at least one pass, and `[]` otherwise. |
| AnalogLoops.LinqWhere | Assets/Code/Service/LinqAnalogs.cs:86-89 | After at least one pass the output is `Where(list, v % 3 == 0)`. With no pass it is the "for" side's output. |
| AnalogLoops.IsEqualTo | Assets/Code/Service/LinqAnalogs.cs:30-40 | The predicate `v => v == target` holds of exactly the target. |
| AnalogLoops.DivisibleBy3 | Assets/Code/Service/LinqAnalogs.cs:78-88 | `v % 3 == 0` holds exactly of the multiples of 3, negative ones included. |
| AnalogLoops.BucketOf | Assets/Code/Service/LinqAnalogs.cs:106 | `v % keys` is the ordinary remainder in `0..4` for `v >= 0`. It is one of the keys 0..4 exactly when `v >= 0` or 5 divides `v`; otherwise the indexer throws. |
| AnalogLoops.Bucket | Assets/Code/Service/LinqAnalogs.cs:103-108 | Bucket `k` after elements are appended one by one, in their order. Its content is stated by BucketIsGroup: the source's values with group index `k`, in order. |
| AnalogLoops.EmptyBuckets | Assets/Code/Service/LinqAnalogs.cs:94-95 | The initial dictionary has exactly the keys 0..4, five entries, each an empty list. |
| AnalogLoops.ForGroupBy | Assets/Code/Service/LinqAnalogs.cs:97-109 | After at least one pass the dictionary is `Buckets(list[..operations])`, the result of a single pass, so repeating the pass changes nothing. With no pass it is the empty buckets. It fails with `KeyNotFound` exactly when it ran and some element's C# remainder `v % 5` is not one of the keys 0..4. |
| AnalogLoops.ClearBuckets | Assets/Code/Service/LinqAnalogs.cs:99-101 | Clearing entries `0 .. output.Count - 1` of a dictionary with keys 0..4 leaves the five empty buckets. |
| AnalogLoops.FillBuckets | Assets/Code/Service/LinqAnalogs.cs:103-108 | Filling the empty buckets element by element yields `Buckets(list[..operations])`. It fails with `KeyNotFound` exactly when some element's `v % 5` is not a key. |
| AnalogLoops.BucketsSnoc | Assets/Code/Service/LinqAnalogs.cs:106-107 | Adding one more element appends it to the bucket of its own key and leaves every other bucket unchanged. |
| AnalogLoops.BucketsStep | Assets/Code/Service/LinqAnalogs.cs:106-107 | Adding the source's `j`-th element takes the buckets of the first `j` elements to those of the first `j + 1`. It appends the element to the bucket of its own key. |
| AnalogLoops.Buckets | Assets/Code/Service/LinqAnalogs.cs:99-108 | One clear-and-refill pass leaves exactly the keys 0..4. Bucket `k` holds the elements whose remainder is `k`, in source order. |
| AnalogLoops.LinqGroupBy | Assets/Code/Service/LinqAnalogs.cs:112-115 | After at least one pass the output is `GroupBy(list, v % 5)`. With no pass it is the "for" side's dictionary. |
| AnalogLoops.BucketIsGroup | Assets/Code/Service/LinqAnalogs.cs:103-114 | The bucket the loop fills for key `k` is the list LINQ's group for `k` holds, namely `Where(list, v % 5 == k)`. |
| AnalogLoops.GroupsAgreeWithBuckets | Assets/Code/Service/LinqAnalogs.cs:99-115 | When every element has a key, the LINQ dictionary's keys are a subset of the bucket keys. On its keys the two dictionaries hold equal lists. Every bucket without a LINQ group is empty. |
| AnalogLoops.BucketsPartition | Assets/Code/Service/LinqAnalogs.cs:103-108 | The five bucket sizes sum to the number of elements. |
| AnalogLoops.SearchWorkload | Assets/Code/Service/LinqAnalogs.cs:20-35 | On `Range(0, n)`, `n / 2` occurs exactly when `n >= 1`, and the scan stops at index `n / 2`. `FirstOrDefault` returns `n / 2`, and `Any` is true exactly when `n >= 1`. |
| AnalogLoops.WhereWorkload | Assets/Code/Service/LinqAnalogs.cs:86-89 | On `Range(0, n)`, `Where(v % 3 == 0)` has `(n + 2) / 3` elements and its i-th element is `3 * i`. |
| AnalogLoops.WhereAsymmetry | Assets/Code/Service/LinqAnalogs.cs:71-89 | On `Range(0, n)`, `Take(Where(...), 1)` is `[0]` for `n >= 1` and `[]` otherwise. For `n >= 4` the full filter is strictly longer. |
| AnalogLoops.GroupWorkload | Assets/Code/Service/LinqAnalogs.cs:106-114 | On `Range(0, n)` every element has a key. LINQ's keys are exactly `0 .. min(n, 5) - 1`, so the dictionary has `min(n, 5)` entries. |
| Linq.Range | Assets/Code/Service/LinqAnalogs.cs:20 | `Enumerable.Range(start, count)` fails with `ArgumentOutOfRange` exactly when `count < 0` or the last value would exceed `int.MaxValue`. Otherwise it has `count` elements, the i-th being `start + i`. |
| Linq.FirstIndex | Assets/Code/Service/LinqAnalogs.cs:29-34 | The index where a scan with `break` stops: no earlier element matches, the element there matches, and the index is `|s|` when nothing matches. |
| Linq.FirstIndexAt | Assets/Code/Service/LinqAnalogs.cs:29-34 | Any index with no earlier match, and a match there unless it is the end, is `FirstIndex`. Together with `FirstIndex`'s own contract this characterises the break index completely. |
| Linq.FirstOrDefault | Assets/Code/Service/LinqAnalogs.cs:40 | The result is the element at the first matching index, or `default(int)` = 0 when none matches. |
| Linq.Any | Assets/Code/Service/LinqAnalogs.cs:62 | The result is true exactly when some element matches. Equivalently, the first matching index is in range. |
| Linq.Where | Assets/Code/Service/LinqAnalogs.cs:88 | The result is no longer than the source, and a value is in it exactly when it is in the source and matches. |
| Linq.WhereHead | Assets/Code/Service/LinqAnalogs.cs:75-81 | When something matches, the filtered list is non-empty and its head is the element at the first matching index. |
| Linq.WhereNone | Assets/Code/Service/LinqAnalogs.cs:75-83 | When the scan finds no match, the filtered list is empty. |
| Linq.Take | Assets/Code/Service/LinqAnalogs.cs:78-80 | `Take(n)` keeps `min(n, count)` elements, which equal the source's leading elements. Zero is kept for `n <= 0`. |
| Linq.KeySet | Assets/Code/Service/LinqAnalogs.cs:114 | A key is produced exactly when some element maps to it. |
| Linq.WhereAppend | Assets/Code/Service/LinqAnalogs.cs:88 | Filtering distributes over concatenation, which keeps source order. |
| Linq.GroupBy | Assets/Code/Service/LinqAnalogs.cs:114 | The keys are exactly the keys of the elements. Each group is the non-empty list of that key's elements, in source order. |
| Linq.SumFrom | Assets/Code/BenchController.cs:80 | A successful `Sum()` equals the exact sum, and a failure is `Overflow`. On non-negative elements it fails exactly when the exact sum exceeds `int.MaxValue`. |
| Linq.Sum | Assets/Code/BenchController.cs:80 | The exact sum of the elements. It is non-negative when every element is. |
| Linq.CheckedSum | Assets/Code/BenchController.cs:80 | `source.Sum()` returns the exact sum or throws `Overflow`. On non-negative elements it throws exactly when the sum exceeds `int.MaxValue`. |
| Linq.SumCountingUp | Assets/Code/BenchController.cs:26 | The elements of `Range(0, n)` sum to `Triangle(n)` = 0 + 1 + ... + (n - 1). |
| Linq.TriangleClosedForm | Assets/Code/BenchController.cs:23-26 | `2 * Triangle(n) == n * (n - 1)`. |
| CSharp.Wrap | Assets/Code/BenchController.cs:41 | The value an unchecked `counter += value` leaves: always an `int`, equal to the exact value when that fits. Together with WrapResidue, it is congruent to the exact value modulo 2^32. |
| CSharp.TripCount | Assets/Code/BenchController.cs:39 | `for (int i = 0; i < n; i++)` runs its body `n` times, or 0 times when `n <= 0`: the least natural number that is at least `n`. |
| CSharp.WrapAdd | Assets/Code/BenchController.cs:41 | An unchecked `counter += v` on an already wrapped counter wraps the exact sum, so a run of additions wraps only once. |
| CSharp.WrapCongruent | Assets/Code/BenchController.cs:41 | Two integers congruent modulo 2^32 wrap to the same `int`. |
| CSharp.AddWrapped | Assets/Code/BenchController.cs:41 | Once the counter holds the wrap of the exact total, `counter += x` holds the wrap of the exact total plus `x`. |
| CSharp.WrapResidue | Assets/Code/BenchController.cs:41 | The wrapped value differs from the exact value by a multiple of 2^32. |
| CSharp.CsRem | Assets/Code/Service/LinqAnalogs.cs:106 | C#'s `%` by a positive divisor: for a non-negative dividend it is Dafny's remainder, in `0 .. b - 1`; for a negative one it lies in `-(b - 1) .. 0`. It is 0 exactly when the divisor divides the dividend. |
| BenchController.AddIndexedArray | Assets/Code/BenchController.cs:38-44 | The counter ends as the 32-bit wrap of its start plus `iterations` times the sum of the array's first `count` elements. |
| BenchController.AddIndexedList | Assets/Code/BenchController.cs:46-52 | The same for the list, read by index. |
| BenchController.AddForeachArray | Assets/Code/BenchController.cs:54-60 | The same for `foreach` over the whole array. |
| BenchController.AddForeach | Assets/Code/BenchController.cs:62-76 | The same for `foreach` over the list or the enumerable. |
| BenchController.AddSum | Assets/Code/BenchController.cs:78-94 | The section fails with `Overflow` exactly when it runs and the checked `Sum()` overflows. Otherwise the counter is the wrap of its start plus `iterations` times the exact sum. |
| BenchController.IndexedSections | Assets/Code/BenchController.cs:38-52 | The two indexed sections together add twice one section's total to the zero counter, wrapped. |
| BenchController.ForeachSections | Assets/Code/BenchController.cs:54-76 | The three `foreach` sections add three section totals, wrapped. |
| BenchController.SumSections | Assets/Code/BenchController.cs:78-94 | The three `Sum()` sections fail exactly when they run and `Sum()` overflows. Otherwise they add three section totals, wrapped. |
| BenchController.Sections | Assets/Code/BenchController.cs:30-94 | All eight sections leave the wrap of eight section totals, or the overflow failure. |
| BenchController.Times | Assets/Code/BenchController.cs:39-43 | What `n` passes that each add `x` add in total. Its value is `n * x`, by TimesIsProduct. |
| BenchController.TimesIsProduct | Assets/Code/BenchController.cs:39-43 | Adding `x` in each of `n` passes adds `n * x`. |
| BenchController.SectionTotal | Assets/Code/BenchController.cs:25-28 | On `Range(0, n)`, one section adds `iterations * Triangle(n)`, and `Sum()` overflows exactly when `Triangle(n) > int.MaxValue`. |
| BenchController.Run | Assets/Code/BenchController.cs:19-97 | A negative `innerIterations` fails with `ArgumentOutOfRange`. When the loop runs and `Triangle(innerIterations)` exceeds `int.MaxValue`, the first `Sum()` fails with `Overflow`. Otherwise the counter is the wrap of `8 * iterations * Triangle(innerIterations)`. |
| BenchController.Start | Assets/Code/BenchController.cs:19-97 | With the hard-coded sizes the exact total 3,960,000,000 exceeds `int.MaxValue`, and the logged counter is 3,960,000,000 - 2^32. |

## Left out

- Timing is left out: `Stopwatch`, the elapsed milliseconds and every `Debug.Log` call. For FirstOrDefault and Any the logs print the returned values. For Where and GroupBy they print the `Count` of the returned collection.
- `MoveOperation` and its section are left out. They only write the Unity transform's position with values from `Random.Range`, so the counter is untouched.
- The `MonoBehaviour` lifecycle (`Awake`, the `_transform` field) is left out.
- `MathBenchController.cs` is not part of this model.
- C# lambdas are Dafny function values. LINQ's deferred execution is not modelled: every query stands for its fully enumerated `ToList`/`ToDictionary` result.
- `List<int>` and `Dictionary<int, List<int>>` are modelled as values (`seq` and `map`). Aliasing between them and in-place mutation of a bucket's list object are not captured.
- Dictionary enumeration order is not modelled. No modelled code depends on it.
- The `Compare_*` methods require the state a successful `Setup` leaves, `list == Range(0, operations)`. Their behaviour after a failed `Setup` (negative `operations` with an older list) is not modelled. Neither is their behaviour on a fresh object whose list is `null`; the constructor uses the empty list for it, which no method reads when both counts are 0.
- `target = operations / 2` is only evaluated for `operations >= 0`, where C#'s truncating `/` and Dafny's `/` agree.
- The project is assumed to compile in the default unchecked context, so `counter +=` wraps. `Sum()` is always checked.
- The `IEnumerable<int>` view is the same list object. Its `foreach` is modelled like the list's.
