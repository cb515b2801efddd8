/** Class `LinqBenchmark.LinqAnalogs` (Assets/Code/LinqAnalogs.cs), the
    other copy of `UnityBench.LinqAnalogs`: the same code for
    FirstOrDefault, Any and Where, without GroupBy. Each
    `Compare_*` runs its "for" side and then its "linq" side, `iterations`
    times each, and logs its shared result variable after each side: the
    value itself for FirstOrDefault and Any, the list's `Count` for Where.
    Here both values are returned instead, the whole list included, so the
    logged count is its size. */
module LinqBenchmark {
  import opened CSharp
  import opened Linq
  import opened AnalogLoops

  class LinqAnalogs {
    var iterations: Int32
    var operations: Int32
    var list: seq<int>

    /** The state `Setup` establishes: the workload is
        `Enumerable.Range(0, operations)`. */
    ghost predicate Valid()
      reads this
    {
      0 <= operations && |list| == operations && CountsUp(list)
    }

    /** The implicit default constructor: both counts 0. The list field
        starts as `null` in C#; with zero counts no method dereferences it,
        so the empty list stands for it. */
    constructor ()
      ensures iterations == 0 && operations == 0 && list == []
      ensures Valid()
    {
      iterations, operations, list := 0, 0, [];
    }

    /** Stores both counts and builds the workload. A negative `operations`
        makes `Enumerable.Range` throw after both fields were assigned, so
        the old list stays. */
    method Setup(iterations: Int32, operations: Int32) returns (outcome: Outcome)
      modifies this
      ensures this.iterations == iterations && this.operations == operations
      ensures outcome == if operations < 0 then Fail(ArgumentOutOfRange) else Pass
      ensures outcome.Pass? ==> Valid() && list == Range(0, operations).value
      ensures outcome.Fail? ==> list == old(list)
    {
      this.iterations := iterations;
      this.operations := operations;
      var built := Range(0, operations);
      if built.Err? {
        return Fail(built.error);
      }
      list := built.value;
      outcome := Pass;
    }

    /** Both sides end at the target `operations / 2` once they ran at
        least once, and at the initial 0 otherwise. On a non-empty workload
        every pass of the "for" side breaks at index `stop`, which is the
        target itself, after examining `target + 1` elements. */
    method CompareFirstOrDefault() returns (forResult: int, linqResult: int, ghost stop: int)
      requires Valid()
      ensures forResult == linqResult
      ensures forResult == if iterations >= 1 then operations / 2 else 0
      ensures iterations >= 1 && operations >= 1 ==> stop == operations / 2 < operations
    {
      var target := operations / 2;
      forResult, stop := ForFirstOrDefault(list, operations, iterations, target);
      linqResult := LinqFirstOrDefault(list, iterations, IsEqualTo(target), forResult);
      SearchWorkload(list);
      assert list[..operations] == list;
    }

    /** Both sides are true exactly when they ran and the workload is
        non-empty; the "for" side then breaks at index `stop`, the target
        `operations / 2`. */
    method CompareAny() returns (forResult: bool, linqResult: bool, ghost stop: int)
      requires Valid()
      ensures forResult == linqResult
      ensures forResult <==> iterations >= 1 && operations >= 1
      ensures iterations >= 1 && operations >= 1 ==> stop == operations / 2 < operations
    {
      var target := operations / 2;
      forResult, stop := ForAny(list, operations, iterations, target);
      linqResult := LinqAny(list, iterations, IsEqualTo(target), forResult);
      SearchWorkload(list);
      assert list[..operations] == list;
    }

    /** The "for" side keeps only the first multiple of 3, so it ends as
        `[0]` or `[]`; the "linq" side keeps all `(operations + 2) / 3`
        multiples of 3 in ascending order. They agree on the first element
        and differ in count once `operations >= 4`. */
    method CompareWhere() returns (forOutput: seq<int>, linqOutput: seq<int>)
      requires Valid()
      ensures forOutput == if iterations >= 1 && operations >= 1 then [0] else []
      ensures linqOutput == if iterations >= 1 then Where(list, DivisibleBy3) else []
      ensures iterations >= 1 ==> |linqOutput| == (operations + 2) / 3
      ensures forall i | 0 <= i < |linqOutput| :: linqOutput[i] == 3 * i
      ensures linqOutput != [] ==> forOutput == [linqOutput[0]]
      ensures iterations >= 1 && operations >= 4 ==> |forOutput| < |linqOutput|
    {
      forOutput := ForWhere(list, operations, iterations);
      linqOutput := LinqWhere(list, iterations, forOutput);
      assert list[..operations] == list;
      WhereAsymmetry(list);
      WhereWorkload(list);
    }
  }
}
