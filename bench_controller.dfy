/** `BenchController.Start` (Assets/Code/BenchController.cs): eight timed
    sections that add the workload `0 .. innerIterations - 1` into one `int`
    counter `iterations` times each, over an `int[]`, a `List<int>` copied
    from it and an `IEnumerable<int>` view of that same list, by indexed
    `for`, by `foreach` and by `Sum()`. The counter is a C# `int`, so every
    `+=` wraps modulo 2^32; `Sum()` itself is checked and throws on
    overflow. */
module BenchController {
  import opened CSharp
  import opened Linq

  /** `for (i < iterations) for (j < count) counter += arr[j];` */
  method AddIndexedArray(arr: array<int>, count: int, iterations: int, counter: Int32)
    returns (total: Int32)
    requires 0 <= count <= arr.Length
    ensures total == Wrap(counter + Times(TripCount(iterations), Sum(arr[..count])))
  {
    ghost var s := arr[..count];
    ghost var sum := Sum(s);
    total := counter;
    var i := 0;
    while i < iterations
      invariant 0 <= i <= TripCount(iterations)
      invariant total == Wrap(counter + Times(i, sum))
    {
      ghost var before := counter + Times(i, sum);
      var j := 0;
      while j < count
        invariant 0 <= j <= count
        invariant total == Wrap(before + sum - Sum(s[j..]))
      {
        assert s[j..][1..] == s[j + 1..];
        AddWrapped(total, before + sum - Sum(s[j..]), arr[j]);
        total := Wrap(total + arr[j]);
        j := j + 1;
      }
      assert Times(i + 1, sum) == before - counter + sum;
      i := i + 1;
    }
  }

  /** `for (i < iterations) for (j < count) counter += list[j];` */
  method AddIndexedList(list: seq<int>, count: int, iterations: int, counter: Int32)
    returns (total: Int32)
    requires 0 <= count <= |list|
    ensures total == Wrap(counter + Times(TripCount(iterations), Sum(list[..count])))
  {
    ghost var s := list[..count];
    ghost var sum := Sum(s);
    total := counter;
    var i := 0;
    while i < iterations
      invariant 0 <= i <= TripCount(iterations)
      invariant total == Wrap(counter + Times(i, sum))
    {
      ghost var before := counter + Times(i, sum);
      var j := 0;
      while j < count
        invariant 0 <= j <= count
        invariant total == Wrap(before + sum - Sum(s[j..]))
      {
        assert s[j..][1..] == s[j + 1..];
        AddWrapped(total, before + sum - Sum(s[j..]), list[j]);
        total := Wrap(total + list[j]);
        j := j + 1;
      }
      assert Times(i + 1, sum) == before - counter + sum;
      i := i + 1;
    }
  }

  /** `for (i < iterations) foreach (var value in array) counter += value;` */
  method AddForeachArray(arr: array<int>, iterations: int, counter: Int32)
    returns (total: Int32)
    ensures total == Wrap(counter + Times(TripCount(iterations), Sum(arr[..])))
  {
    ghost var s := arr[..];
    ghost var sum := Sum(s);
    total := counter;
    var i := 0;
    while i < iterations
      invariant 0 <= i <= TripCount(iterations)
      invariant total == Wrap(counter + Times(i, sum))
    {
      ghost var before := counter + Times(i, sum);
      for j := 0 to arr.Length
        invariant total == Wrap(before + sum - Sum(s[j..]))
      {
        var value := arr[j];
        assert s[j..][1..] == s[j + 1..];
        AddWrapped(total, before + sum - Sum(s[j..]), value);
        total := Wrap(total + value);
      }
      assert Times(i + 1, sum) == before - counter + sum;
      i := i + 1;
    }
  }

  /** `for (i < iterations) foreach (var value in source) counter += value;`
      over a `List<int>` or an `IEnumerable<int>`: the enumerator hands out
      the elements front to back. */
  method AddForeach(source: seq<int>, iterations: int, counter: Int32)
    returns (total: Int32)
    ensures total == Wrap(counter + Times(TripCount(iterations), Sum(source)))
  {
    ghost var sum := Sum(source);
    total := counter;
    var i := 0;
    while i < iterations
      invariant 0 <= i <= TripCount(iterations)
      invariant total == Wrap(counter + Times(i, sum))
    {
      ghost var before := counter + Times(i, sum);
      var rest := source;
      while rest != []
        invariant total == Wrap(before + sum - Sum(rest))
      {
        var value := rest[0];
        AddWrapped(total, before + sum - Sum(rest), value);
        total := Wrap(total + value);
        rest := rest[1..];
      }
      assert Times(i + 1, sum) == before - counter + sum;
      i := i + 1;
    }
  }

  /** `for (i < iterations) counter += source.Sum();` The first `Sum()`
      that overflows throws, which ends the whole benchmark. */
  method AddSum(source: seq<int>, iterations: int, counter: Int32)
    returns (r: Result<Int32>)
    ensures r.Err? <==> iterations >= 1 && CheckedSum(source).Err?
    ensures r.Err? ==> r.error == Overflow
    ensures r.Ok? ==> r.value == Wrap(counter + Times(TripCount(iterations), Sum(source)))
  {
    ghost var exact := Sum(source);
    var total := counter;
    var i := 0;
    while i < iterations
      invariant 0 <= i <= TripCount(iterations)
      invariant total == Wrap(counter + Times(i, exact))
      invariant i >= 1 ==> CheckedSum(source).Ok?
    {
      var sum := CheckedSum(source);
      if sum.Err? {
        return Err(sum.error);
      }
      AddWrapped(total, counter + Times(i, exact), sum.value);
      total := Wrap(total + sum.value);
      assert Times(i + 1, exact) == Times(i, exact) + exact;
      i := i + 1;
    }
    r := Ok(total);
  }

  /** The body of `Start` with the two sizes as parameters. Every section
      adds `iterations * (0 + 1 + ... + (innerIterations - 1))`, so the
      counter ends at eight times that, wrapped to 32 bits. When that sum
      does not fit in an `int` the first `Sum()` call throws; a negative
      `innerIterations` makes `Enumerable.Range` throw before any section
      runs. */
  method Run(iterations: Int32, innerIterations: Int32) returns (r: Result<Int32>)
    ensures innerIterations < 0 ==> r == Err(ArgumentOutOfRange)
    ensures innerIterations >= 0 && iterations >= 1 && Triangle(innerIterations) > MaxInt32 ==>
              r == Err(Overflow)
    ensures innerIterations >= 0 && (iterations < 1 || Triangle(innerIterations) <= MaxInt32) ==>
              r == Ok(Wrap(8 * TripCount(iterations) * Triangle(innerIterations)))
  {
    var range := Range(0, innerIterations);
    if range.Err? {
      return Err(range.error);
    }
    var elements := range.value;
    var arr := new int[|elements|](k requires 0 <= k < |elements| => elements[k]);
    var list := arr[..];
    var enumerable := list;
    assert list == elements;
    assert CountsUp(elements) && |elements| == innerIterations;
    ghost var t := SectionTotal(elements, innerIterations, iterations);
    r := Sections(arr, list, enumerable, innerIterations, iterations);
  }

  /** The eight sections in order over the same workload, held as an array,
      a list copied from it and an enumerable view of that list. Each adds
      `t`, the workload's sum times the trip count, to the counter. */
  method Sections(arr: array<int>, list: seq<int>, enumerable: seq<int>, count: int, iterations: int)
    returns (r: Result<Int32>)
    requires arr[..] == list == enumerable && count == |list|
    ensures r.Err? <==> iterations >= 1 && CheckedSum(list).Err?
    ensures r.Err? ==> r.error == Overflow
    ensures r.Ok? ==> r.value == Wrap(8 * Times(TripCount(iterations), Sum(list)))
  {
    ghost var t := Times(TripCount(iterations), Sum(list));
    var counter := IndexedSections(arr, list, count, iterations);
    AddWrapped(counter, 2 * t, 3 * t);
    counter := ForeachSections(arr, list, enumerable, iterations, counter);
    AddWrapped(counter, 5 * t, 3 * t);
    r := SumSections(arr, list, enumerable, iterations, counter);
  }

  /** The two indexed `for` sections, over the array and then the list. */
  method IndexedSections(arr: array<int>, list: seq<int>, count: int, iterations: int)
    returns (counter: Int32)
    requires arr[..] == list && count == |list|
    ensures counter == Wrap(2 * Times(TripCount(iterations), Sum(list)))
  {
    ghost var t := Times(TripCount(iterations), Sum(list));
    counter := AddIndexedArray(arr, count, iterations, 0);
    assert arr[..count] == list;
    AddWrapped(counter, t, t);
    counter := AddIndexedList(list, count, iterations, counter);
    assert list[..count] == list;
  }

  /** The three `foreach` sections, over the array, the list and the
      enumerable. The MoveOperation section before them does not touch the
      counter. */
  method ForeachSections(arr: array<int>, list: seq<int>, enumerable: seq<int>, iterations: int, counter: Int32)
    returns (total: Int32)
    requires arr[..] == list == enumerable
    ensures total == Wrap(counter + 3 * Times(TripCount(iterations), Sum(list)))
  {
    ghost var t := Times(TripCount(iterations), Sum(list));
    total := AddForeachArray(arr, iterations, counter);
    AddWrapped(total, counter + t, t);
    total := AddForeach(list, iterations, total);
    AddWrapped(total, counter + 2 * t, t);
    total := AddForeach(enumerable, iterations, total);
  }

  /** The three `Sum()` sections, over the array, the list and the
      enumerable. The first `Sum()` that throws ends the run. */
  method SumSections(arr: array<int>, list: seq<int>, enumerable: seq<int>, iterations: int, counter: Int32)
    returns (r: Result<Int32>)
    requires arr[..] == list == enumerable
    ensures r.Err? <==> iterations >= 1 && CheckedSum(list).Err?
    ensures r.Err? ==> r.error == Overflow
    ensures r.Ok? ==> r.value == Wrap(counter + 3 * Times(TripCount(iterations), Sum(list)))
  {
    ghost var t := Times(TripCount(iterations), Sum(list));
    r := AddSum(arr[..], iterations, counter);
    if r.Err? {
      return;
    }
    AddWrapped(r.value, counter + t, t);
    r := AddSum(list, iterations, r.value);
    if r.Err? {
      return;
    }
    AddWrapped(r.value, counter + 2 * t, t);
    r := AddSum(enumerable, iterations, r.value);
  }

  /** What one section adds over `Enumerable.Range(0, n)`, and when its
      `Sum()` overflows. */
  lemma SectionTotal(elements: seq<int>, n: int, iterations: int) returns (t: int)
    requires CountsUp(elements) && |elements| == n
    ensures Sum(elements) == Triangle(n)
    ensures t == Times(TripCount(iterations), Sum(elements))
    ensures Wrap(8 * TripCount(iterations) * Triangle(n)) == Wrap(8 * t)
    ensures CheckedSum(elements).Err? <==> Triangle(n) > MaxInt32
  {
    SumCountingUp(elements);
    t := Times(TripCount(iterations), Sum(elements));
    TimesIsProduct(TripCount(iterations), Sum(elements));
    assert 8 * TripCount(iterations) * Triangle(n) == 8 * t;
  }

  /** `x` added `n` times over: what a loop of `n` passes adds when each
      pass adds `x`. */
  function Times(n: nat, x: int): int
  {
    if n == 0 then 0 else Times(n - 1, x) + x
  }

  lemma {:induction false} TimesIsProduct(n: nat, x: int)
    ensures Times(n, x) == n * x
  {
    if n > 0 {
      TimesIsProduct(n - 1, x);
    }
  }

  /** `Start` with its hard-coded sizes: 100,000 iterations over 0..99. The
      exact total 8 * 100,000 * 4,950 = 3,960,000,000 exceeds `int.MaxValue`,
      so the logged counter is that total wrapped to 32 bits. */
  method Start() returns (r: Result<Int32>)
    ensures 8 * 100_000 * Triangle(100) == 3_960_000_000 > MaxInt32
    ensures r == Ok(Wrap(8 * 100_000 * Triangle(100)))
    ensures r == Ok(3_960_000_000 - TwoTo32)
  {
    TriangleClosedForm(100);
    r := Run(100_000, 100);
  }
}
