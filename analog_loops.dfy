/** The two sides of each `Compare_*` benchmark in class `LinqAnalogs`, whose
    two copies (namespaces `UnityBench` and `LinqBenchmark`) hold the same
    code and both call these. Every method runs its pass `iterations` times
    over the first `operations` elements of the list and returns what its
    result variable holds at the end. The source logs that value for
    FirstOrDefault and Any, and only its `Count` for Where and GroupBy,
    which is the size of the returned collection. The "for" side
    is the hand-written loop; the "linq" side repeats the LINQ call and
    starts from whatever the "for" side left in the shared variable. */
module AnalogLoops {
  import opened CSharp
  import opened Linq

  /** `int keys = 5` in `Compare_GroupBy`. */
  const Keys: int := 5

  /** The keys of the dictionary `Enumerable.Range(0, keys).ToDictionary(...)`. */
  const BucketKeys: set<int> := {0, 1, 2, 3, 4}

  /** `v % keys`, the group index of a value. */
  function BucketOf(v: int): (r: int)
    ensures v >= 0 ==> 0 <= r < Keys && r == v % Keys
    ensures r in BucketKeys <==> v >= 0 || v % Keys == 0
  {
    CsRem(v, Keys)
  }

  /** `v % 3 == 0`, the filter of `Compare_Where`. */
  function DivisibleBy3(v: int): (r: bool)
    ensures r <==> v % 3 == 0
  {
    CsRem(v, 3) == 0
  }

  /** `v => v == target`, the predicate of `Compare_FirstOrDefault` and
      `Compare_Any`. */
  function IsEqualTo(target: int): (p: int -> bool)
    ensures forall v :: p(v) <==> v == target
  {
    v => v == target
  }

  /** The bucket dictionary as the source creates it: keys 0..4, each
      holding an empty list. */
  function EmptyBuckets(): (m: map<int, seq<int>>)
    ensures m.Keys == BucketKeys && |m| == Keys
    ensures forall k | k in m :: m[k] == []
  {
    map k | k in BucketKeys :: []
  }

  /** What bucket `k` holds after the elements of `s` were added to the
      emptied dictionary one by one: those whose group index is `k`, in the
      order they were added. */
  function Bucket(s: seq<int>, k: int): seq<int>
  {
    if s == [] then []
    else Bucket(s[..|s| - 1], k) + (if BucketOf(s[|s| - 1]) == k then [s[|s| - 1]] else [])
  }

  /** The bucket dictionary after one clear-and-refill pass over `s`. */
  function Buckets(s: seq<int>): (m: map<int, seq<int>>)
    ensures m.Keys == BucketKeys && |m| == Keys
    ensures forall k | k in m :: m[k] == Bucket(s, k)
  {
    map k | k in BucketKeys :: Bucket(s, k)
  }

  // ---- Compare_FirstOrDefault ----

  /** The "for" side: a linear scan that sets `result = target` and breaks
      at the first element equal to `target`. `stop` is the index at which
      the last pass left the inner loop. */
  method ForFirstOrDefault(list: seq<int>, operations: int, iterations: int, target: int)
    returns (result: int, ghost stop: int)
    requires 0 <= operations <= |list|
    ensures result == if iterations >= 1 && target in list[..operations] then target else 0
    ensures iterations >= 1 ==> stop == FirstIndex(list[..operations], IsEqualTo(target))
  {
    result, stop := 0, 0;
    var i := 0;
    while i < iterations
      invariant 0 <= i <= TripCount(iterations)
      invariant result == if i >= 1 && target in list[..operations] then target else 0
      invariant i >= 1 ==> stop == FirstIndex(list[..operations], IsEqualTo(target))
    {
      var j := 0;
      while j < operations
        invariant 0 <= j <= operations
        invariant forall k | 0 <= k < j :: list[k] != target
        invariant result == if i >= 1 && target in list[..operations] then target else 0
      {
        if list[j] == target {
          assert list[..operations][j] == target;
          result := target;
          break;
        }
        j := j + 1;
      }
      ScanStop(list, operations, target, j);
      stop := j;
      i := i + 1;
    }
  }

  /** The inner scan of `ForFirstOrDefault` and `ForAny` leaves at
      `FirstIndex`. */
  lemma ScanStop(list: seq<int>, operations: int, target: int, j: int)
    requires 0 <= j <= operations <= |list|
    requires forall k | 0 <= k < j :: list[k] != target
    requires j < operations ==> list[j] == target
    ensures j == FirstIndex(list[..operations], IsEqualTo(target))
  {
    FirstIndexAt(list[..operations], IsEqualTo(target), j);
  }

  /** The "linq" side: `result = list.FirstOrDefault(p)`, repeated. */
  method LinqFirstOrDefault(list: seq<int>, iterations: int, p: int -> bool, initial: int)
    returns (result: int)
    ensures result == if iterations >= 1 then FirstOrDefault(list, p) else initial
  {
    result := initial;
    var i := 0;
    while i < iterations
      invariant 0 <= i <= TripCount(iterations)
      invariant result == if i >= 1 then FirstOrDefault(list, p) else initial
    {
      result := FirstOrDefault(list, p);
      i := i + 1;
    }
  }

  // ---- Compare_Any ----

  /** The "for" side: a linear scan that sets `result = true` and breaks at
      the first element equal to `target`; `stop` as in `ForFirstOrDefault`. */
  method ForAny(list: seq<int>, operations: int, iterations: int, target: int)
    returns (result: bool, ghost stop: int)
    requires 0 <= operations <= |list|
    ensures result <==> iterations >= 1 && target in list[..operations]
    ensures iterations >= 1 ==> stop == FirstIndex(list[..operations], IsEqualTo(target))
  {
    result, stop := false, 0;
    var i := 0;
    while i < iterations
      invariant 0 <= i <= TripCount(iterations)
      invariant result <==> i >= 1 && target in list[..operations]
      invariant i >= 1 ==> stop == FirstIndex(list[..operations], IsEqualTo(target))
    {
      var j := 0;
      while j < operations
        invariant 0 <= j <= operations
        invariant forall k | 0 <= k < j :: list[k] != target
        invariant result <==> i >= 1 && target in list[..operations]
      {
        if list[j] == target {
          assert list[..operations][j] == target;
          result := true;
          break;
        }
        j := j + 1;
      }
      ScanStop(list, operations, target, j);
      stop := j;
      i := i + 1;
    }
  }

  /** The "linq" side: `result = list.Any(p)`, repeated. */
  method LinqAny(list: seq<int>, iterations: int, p: int -> bool, initial: bool)
    returns (result: bool)
    ensures result == if iterations >= 1 then Any(list, p) else initial
  {
    result := initial;
    var i := 0;
    while i < iterations
      invariant 0 <= i <= TripCount(iterations)
      invariant result == if i >= 1 then Any(list, p) else initial
    {
      result := Any(list, p);
      i := i + 1;
    }
  }

  // ---- Compare_Where ----

  /** The "for" side: each pass starts a fresh list, adds the first element
      divisible by 3 and breaks. It therefore computes `Where(...).Take(1)`,
      not `Where(...)`. */
  method ForWhere(list: seq<int>, operations: int, iterations: int)
    returns (output: seq<int>)
    requires 0 <= operations <= |list|
    ensures output == if iterations >= 1 then Take(Where(list[..operations], DivisibleBy3), 1) else []
  {
    ghost var s := list[..operations];
    output := [];
    var i := 0;
    while i < iterations
      invariant 0 <= i <= TripCount(iterations)
      invariant output == if i >= 1 then Take(Where(s, DivisibleBy3), 1) else []
    {
      output := [];
      var j := 0;
      while j < operations
        invariant 0 <= j <= operations
        invariant forall k | 0 <= k < j :: !DivisibleBy3(s[k])
        invariant output == []
      {
        var v := list[j];
        if CsRem(v, 3) == 0 {
          assert FirstIndex(s, DivisibleBy3) == j;
          WhereHead(s, DivisibleBy3);
          output := output + [v];
          break;
        }
        j := j + 1;
      }
      if output == [] {
        assert FirstIndex(s, DivisibleBy3) == |s|;
        WhereNone(s, DivisibleBy3);
      }
      i := i + 1;
    }
  }

  /** The "linq" side: `output = list.Where(v => v % 3 == 0).ToList()`,
      repeated. */
  method LinqWhere(list: seq<int>, iterations: int, initial: seq<int>)
    returns (output: seq<int>)
    ensures output == if iterations >= 1 then Where(list, DivisibleBy3) else initial
  {
    output := initial;
    var i := 0;
    while i < iterations
      invariant 0 <= i <= TripCount(iterations)
      invariant output == if i >= 1 then Where(list, DivisibleBy3) else initial
    {
      output := Where(list, DivisibleBy3);
      i := i + 1;
    }
  }

  // ---- Compare_GroupBy ----

  /** The "for" side: each pass empties every bucket of the dictionary, then
      appends each element to the bucket of its index `v % 5`. A negative
      element whose remainder is not 0 has no bucket, and the dictionary
      indexer throws `KeyNotFoundException`. */
  method ForGroupBy(list: seq<int>, operations: int, iterations: int)
    returns (r: Result<map<int, seq<int>>>)
    requires 0 <= operations <= |list|
    ensures r.Err? <==> iterations >= 1 && exists k | 0 <= k < operations :: BucketOf(list[k]) !in BucketKeys
    ensures r.Err? ==> r.error == KeyNotFound
    ensures r.Ok? ==> r.value == if iterations >= 1 then Buckets(list[..operations]) else EmptyBuckets()
  {
    var output := EmptyBuckets();
    var i := 0;
    while i < iterations
      invariant 0 <= i <= TripCount(iterations)
      invariant output == if i >= 1 then Buckets(list[..operations]) else EmptyBuckets()
      invariant i >= 1 ==> forall k | 0 <= k < operations :: BucketOf(list[k]) in BucketKeys
    {
      output := ClearBuckets(output);
      var filled := FillBuckets(list, operations, output);
      if filled.Err? {
        return filled;
      }
      output := filled.value;
      i := i + 1;
    }
    r := Ok(output);
  }

  /** `for (j = 0; j < output.Count; j++) output[j].Clear();` */
  method ClearBuckets(output: map<int, seq<int>>) returns (cleared: map<int, seq<int>>)
    requires output.Keys == BucketKeys
    ensures cleared == EmptyBuckets()
  {
    cleared := output;
    var count := |cleared|;
    assert count == |BucketKeys| == Keys;
    var j := 0;
    while j < count
      invariant 0 <= j <= count
      invariant cleared.Keys == BucketKeys
      invariant forall k | k in cleared :: k < j ==> cleared[k] == []
    {
      assert j in cleared;
      cleared := cleared[j := []];
      j := j + 1;
    }
    BucketsCleared(cleared);
  }

  lemma BucketsCleared(m: map<int, seq<int>>)
    requires m.Keys == BucketKeys
    requires forall k | k in m :: k < Keys ==> m[k] == []
    ensures m == EmptyBuckets()
  {
    assert forall k | k in m :: m[k] == EmptyBuckets()[k];
  }

  /** `for (j = 0; j < operations; j++) output[list[j] % keys].Add(list[j]);`
      starting from empty buckets. */
  method FillBuckets(list: seq<int>, operations: int, output: map<int, seq<int>>)
    returns (r: Result<map<int, seq<int>>>)
    requires 0 <= operations <= |list|
    requires output == EmptyBuckets()
    ensures r.Err? <==> exists k | 0 <= k < operations :: BucketOf(list[k]) !in BucketKeys
    ensures r.Err? ==> r.error == KeyNotFound
    ensures r.Ok? ==> r.value == Buckets(list[..operations])
  {
    var filled := output;
    assert filled == Buckets([]);
    var j := 0;
    while j < operations
      invariant 0 <= j <= operations
      invariant filled == Buckets(list[..j])
      invariant forall k | 0 <= k < j :: BucketOf(list[k]) in BucketKeys
    {
      var v := list[j];
      var gIdx := BucketOf(v);
      if gIdx !in filled {
        assert BucketOf(list[j]) !in BucketKeys;
        return Err(KeyNotFound);
      }
      BucketsStep(list, j);
      filled := filled[gIdx := filled[gIdx] + [v]];
      j := j + 1;
    }
    assert list[..operations] == list[..j];
    r := Ok(filled);
  }

  /** `BucketsSnoc` for the next element of `list`. */
  lemma BucketsStep(list: seq<int>, j: int)
    requires 0 <= j < |list| && BucketOf(list[j]) in BucketKeys
    ensures Buckets(list[..j + 1]) ==
              Buckets(list[..j])[BucketOf(list[j]) := Buckets(list[..j])[BucketOf(list[j])] + [list[j]]]
  {
    assert list[..j + 1] == list[..j] + [list[j]];
    BucketsSnoc(list[..j], list[j]);
  }

  /** Appending one element to the source appends it to its own bucket and
      leaves the other buckets alone. */
  lemma BucketsSnoc(s: seq<int>, v: int)
    requires BucketOf(v) in BucketKeys
    ensures Buckets(s + [v]) == Buckets(s)[BucketOf(v) := Buckets(s)[BucketOf(v)] + [v]]
  {
    assert (s + [v])[..|s|] == s;
    var before, after := Buckets(s), Buckets(s + [v]);
    var g := BucketOf(v);
    assert forall k | k in BucketKeys :: after[k] == if k == g then before[k] + [v] else before[k];
  }

  /** The "linq" side: `output = list.GroupBy(v => v % keys).ToDictionary(...)`,
      repeated. */
  method LinqGroupBy(list: seq<int>, iterations: int, initial: map<int, seq<int>>)
    returns (output: map<int, seq<int>>)
    ensures output == if iterations >= 1 then GroupBy(list, BucketOf) else initial
  {
    output := initial;
    var i := 0;
    while i < iterations
      invariant 0 <= i <= TripCount(iterations)
      invariant output == if i >= 1 then GroupBy(list, BucketOf) else initial
    {
      output := GroupBy(list, BucketOf);
      i := i + 1;
    }
  }

  // ---- Connecting the two sides ----

  /** The bucket the "for" side fills for key `k` is the group LINQ selects
      for `k`. */
  lemma {:induction false} BucketIsGroup(s: seq<int>, k: int)
    ensures Bucket(s, k) == Where(s, KeyIs(BucketOf, k))
  {
    if s != [] {
      var init, last := s[..|s| - 1], s[|s| - 1];
      assert init + [last] == s;
      BucketIsGroup(init, k);
      WhereAppend(init, [last], KeyIs(BucketOf, k));
      assert Where([last], KeyIs(BucketOf, k)) == if BucketOf(last) == k then [last] else [];
    }
  }

  /** When every element has a bucket, LINQ's dictionary holds a subset of
      the bucket keys; on those keys the two agree list for list, and every
      bucket whose key LINQ has no group for is empty. */
  lemma GroupsAgreeWithBuckets(s: seq<int>)
    requires forall i | 0 <= i < |s| :: BucketOf(s[i]) in BucketKeys
    ensures GroupBy(s, BucketOf).Keys <= Buckets(s).Keys
    ensures forall k | k in GroupBy(s, BucketOf) :: GroupBy(s, BucketOf)[k] == Buckets(s)[k]
    ensures forall k | k in Buckets(s) && k !in GroupBy(s, BucketOf) :: Buckets(s)[k] == []
  {
    var groups, buckets := GroupBy(s, BucketOf), Buckets(s);
    forall k | k in buckets
      ensures buckets[k] == Where(s, KeyIs(BucketOf, k))
    {
      BucketIsGroup(s, k);
    }
    forall k | k in buckets && k !in groups
      ensures buckets[k] == []
    {
      NoGroupNoElements(s, k);
    }
  }

  lemma {:induction false} NoGroupNoElements(s: seq<int>, k: int)
    requires k !in KeySet(s, BucketOf)
    ensures Where(s, KeyIs(BucketOf, k)) == []
  {
    if s != [] {
      assert BucketOf(s[0]) != k;
      assert KeySet(s[1..], BucketOf) <= KeySet(s, BucketOf) by {
        forall x | x in KeySet(s[1..], BucketOf) ensures x in KeySet(s, BucketOf) {
          var i :| 0 <= i < |s[1..]| && BucketOf(s[1..][i]) == x;
          assert BucketOf(s[i + 1]) == x;
        }
      }
      NoGroupNoElements(s[1..], k);
    }
  }

  /** Total size of the five bucket lists. */
  function TotalSize(m: map<int, seq<int>>): int
    requires BucketKeys <= m.Keys
  {
    |m[0]| + |m[1]| + |m[2]| + |m[3]| + |m[4]|
  }

  /** The buckets partition the source: every element lands in exactly one
      bucket, so the sizes add up to the number of elements. */
  lemma {:induction false} BucketsPartition(s: seq<int>)
    requires forall i | 0 <= i < |s| :: BucketOf(s[i]) in BucketKeys
    ensures TotalSize(Buckets(s)) == |s|
  {
    if s != [] {
      var init, last := s[..|s| - 1], s[|s| - 1];
      assert init + [last] == s;
      BucketsPartition(init);
      BucketsSnoc(init, last);
    }
  }

  // ---- The workload Enumerable.Range(0, operations) ----

  /** The target `operations / 2` is an element of the workload exactly when
      it is non-empty; the scan then stops at index `operations / 2`, and
      `FirstOrDefault` and `Any` find it. On the empty workload
      `FirstOrDefault` returns `default(int)`, which equals the target 0. */
  lemma SearchWorkload(s: seq<int>)
    requires CountsUp(s)
    ensures (|s| / 2 in s) <==> |s| >= 1
    ensures |s| >= 1 ==> FirstIndex(s, IsEqualTo(|s| / 2)) == |s| / 2
    ensures FirstOrDefault(s, IsEqualTo(|s| / 2)) == |s| / 2
    ensures Any(s, IsEqualTo(|s| / 2)) <==> |s| >= 1
  {
    var t := |s| / 2;
    if |s| >= 1 {
      assert s[t] == t;
      var k := FirstIndex(s, IsEqualTo(t));
      assert IsEqualTo(t)(s[t]);
      assert k < |s| && s[k] == k;
    }
  }

  /** Filtering the workload by `v % 3 == 0` yields the multiples of 3
      below `|s|` in ascending order, `(|s| + 2) / 3` of them. */
  lemma {:induction false} WhereWorkload(s: seq<int>)
    requires CountsUp(s)
    ensures |Where(s, DivisibleBy3)| == (|s| + 2) / 3
    ensures forall i | 0 <= i < |Where(s, DivisibleBy3)| :: Where(s, DivisibleBy3)[i] == 3 * i
  {
    if s != [] {
      var n := |s|;
      var init, last := s[..n - 1], s[n - 1];
      assert init + [last] == s;
      assert CountsUp(init);
      WhereWorkload(init);
      WhereAppend(init, [last], DivisibleBy3);
      assert [last][1..] == [];
      MultiplesSnoc(Where(init, DivisibleBy3), n, Where([last], DivisibleBy3));
    }
  }

  /** One more element of `0 .. n - 1` extends the multiples of 3 below
      `n - 1` by `n - 1` exactly when 3 divides it. */
  lemma MultiplesSnoc(w: seq<int>, n: int, tail: seq<int>)
    requires n >= 1
    requires |w| == (n + 1) / 3 && forall i | 0 <= i < |w| :: w[i] == 3 * i
    requires tail == if (n - 1) % 3 == 0 then [n - 1] else []
    ensures |w + tail| == (n + 2) / 3
    ensures forall i | 0 <= i < |w + tail| :: (w + tail)[i] == 3 * i
  {
    var m, r := n / 3, n % 3;
    assert n == 3 * m + r && 0 <= r < 3;
    if r == 0 {
      assert (n + 1) / 3 == m && (n + 2) / 3 == m && (n - 1) % 3 == 2;
    } else if r == 1 {
      assert (n + 1) / 3 == m && (n + 2) / 3 == m + 1 && (n - 1) % 3 == 0;
      assert n - 1 == 3 * |w|;
    } else {
      assert (n + 1) / 3 == m + 1 && (n + 2) / 3 == m + 1 && (n - 1) % 3 == 1;
    }
  }

  /** On the workload the short-circuit loop and the full filter agree on
      the first element and differ in length as soon as there are four or
      more elements: the loop keeps `[0]`, the filter keeps 0, 3, .... */
  lemma WhereAsymmetry(s: seq<int>)
    requires CountsUp(s)
    ensures Take(Where(s, DivisibleBy3), 1) == if |s| >= 1 then [0] else []
    ensures Where(s, DivisibleBy3) != [] ==> Where(s, DivisibleBy3)[0] == 0
    ensures |s| >= 4 ==> |Where(s, DivisibleBy3)| >= 2 > |Take(Where(s, DivisibleBy3), 1)|
  {
    WhereWorkload(s);
  }

  /** Every element of the workload has a bucket, and LINQ's dictionary
      has exactly the keys `0 .. min(operations, 5) - 1`. */
  lemma GroupWorkload(s: seq<int>)
    requires CountsUp(s)
    ensures forall i | 0 <= i < |s| :: BucketOf(s[i]) in BucketKeys
    ensures GroupBy(s, BucketOf).Keys == KeysBelow(Min(|s|, Keys))
    ensures |GroupBy(s, BucketOf)| == Min(|s|, Keys)
  {
    WorkloadKeys(s);
  }

  lemma WorkloadKeys(s: seq<int>)
    requires CountsUp(s)
    ensures forall i | 0 <= i < |s| :: BucketOf(s[i]) in BucketKeys
    ensures KeySet(s, BucketOf) == KeysBelow(Min(|s|, Keys))
  {
    var m := Min(|s|, Keys);
    forall i | 0 <= i < |s|
      ensures BucketOf(s[i]) in BucketKeys && BucketOf(s[i]) < m
    {
      assert s[i] == i;
    }
    forall k | k in KeysBelow(m)
      ensures k in KeySet(s, BucketOf)
    {
      assert BucketOf(s[k]) == k;
    }
  }

  function Min(a: int, b: int): int
  {
    if a < b then a else b
  }

  /** The bucket keys below `m`, for `0 <= m <= 5`. */
  function KeysBelow(m: int): (ks: set<int>)
    requires 0 <= m <= Keys
    ensures |ks| == m
    ensures forall k :: k in ks <==> 0 <= k < m
  {
    if m == 0 then {}
    else if m == 1 then {0}
    else if m == 2 then {0, 1}
    else if m == 3 then {0, 1, 2}
    else if m == 4 then {0, 1, 2, 3}
    else {0, 1, 2, 3, 4}
  }
}
