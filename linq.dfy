/** The LINQ operators the benchmark times, as pure functions over the
    elements a `List<int>`, an `int[]` or an `IEnumerable<int>` enumerates.
    Each is written the way the operator walks its source, from the front,
    and its contract relates it to an independent description. Laziness is
    not modelled: every call here stands for a fully enumerated query. */
module Linq {
  import opened CSharp

  /** `Enumerable.Range(start, count)`: `count` consecutive integers from
      `start`. It throws when `count` is negative or the last value would
      exceed `int.MaxValue`. */
  function Range(start: Int32, count: Int32): (r: Result<seq<int>>)
    ensures r.Err? <==> count < 0 || start + count - 1 > MaxInt32
    ensures r.Err? ==> r.error == ArgumentOutOfRange
    ensures r.Ok? ==> |r.value| == count && forall i | 0 <= i < count :: r.value[i] == start + i
  {
    if count < 0 || start + count - 1 > MaxInt32 then Err(ArgumentOutOfRange)
    else Ok(seq(count, i => start + i))
  }

  /** The shape of `Enumerable.Range(0, n)`: every element equals its index. */
  ghost predicate CountsUp(s: seq<int>)
  {
    forall i | 0 <= i < |s| :: s[i] == i
  }

  /** The index of the first element satisfying `p`, or `|s|` when there is
      none: the position at which a search loop with `break` stops. */
  function FirstIndex(s: seq<int>, p: int -> bool): (k: nat)
    ensures k <= |s|
    ensures k < |s| ==> p(s[k])
    ensures forall i | 0 <= i < k :: !p(s[i])
  {
    if s == [] then 0
    else if p(s[0]) then 0
    else 1 + FirstIndex(s[1..], p)
  }

  /** A scan that saw no match before index `j` and stops there, at a
      match or at the end, stopped at `FirstIndex`. */
  lemma {:induction false} FirstIndexAt(s: seq<int>, p: int -> bool, j: int)
    requires 0 <= j <= |s|
    requires forall k | 0 <= k < j :: !p(s[k])
    requires j < |s| ==> p(s[j])
    ensures FirstIndex(s, p) == j
  {
    if s != [] && j > 0 {
      assert forall k | 0 <= k < j - 1 :: s[1..][k] == s[k + 1];
      FirstIndexAt(s[1..], p, j - 1);
    }
  }

  /** `source.FirstOrDefault(p)` on `int`: the first element satisfying `p`,
      or `default(int)`, which is 0, when there is none. */
  function FirstOrDefault(s: seq<int>, p: int -> bool): (r: int)
    ensures r == if FirstIndex(s, p) < |s| then s[FirstIndex(s, p)] else 0
  {
    if s == [] then 0
    else if p(s[0]) then s[0]
    else FirstOrDefault(s[1..], p)
  }

  /** `source.Any(p)`. */
  function Any(s: seq<int>, p: int -> bool): (r: bool)
    ensures r <==> exists i | 0 <= i < |s| :: p(s[i])
    ensures r <==> FirstIndex(s, p) < |s|
  {
    if s == [] then false
    else p(s[0]) || Any(s[1..], p)
  }

  /** `source.Where(p).ToList()`: the elements satisfying `p`, in source
      order. */
  function Where(s: seq<int>, p: int -> bool): (r: seq<int>)
    ensures |r| <= |s|
    ensures forall x :: x in r <==> x in s && p(x)
  {
    if s == [] then []
    else (if p(s[0]) then [s[0]] else []) + Where(s[1..], p)
  }

  /** `source.Take(n).ToList()`. */
  function Take(s: seq<int>, n: int): (r: seq<int>)
    ensures |r| == if n <= 0 then 0 else if n < |s| then n else |s|
    ensures forall i | 0 <= i < |r| :: r[i] == s[i]
  {
    if n <= 0 then [] else if n < |s| then s[..n] else s
  }

  /** The predicate `v => key(v) == k` by which one group is selected. */
  function KeyIs(key: int -> int, k: int): int -> bool
  {
    v => key(v) == k
  }

  /** The keys `source.GroupBy(key)` produces: those of the elements. */
  function KeySet(s: seq<int>, key: int -> int): (ks: set<int>)
    ensures forall k :: k in ks <==> exists i | 0 <= i < |s| :: key(s[i]) == k
  {
    set i | 0 <= i < |s| :: key(s[i])
  }

  /** `source.GroupBy(key).ToDictionary(g => g.Key, g => g.ToList())`: one
      entry per key that occurs, holding that key's elements in source
      order. `ToDictionary` cannot throw here, since group keys are
      distinct. */
  function GroupBy(s: seq<int>, key: int -> int): (m: map<int, seq<int>>)
    ensures m.Keys == KeySet(s, key)
    ensures forall k | k in m :: m[k] == Where(s, KeyIs(key, k)) && m[k] != []
  {
    var m := map k | k in KeySet(s, key) :: Where(s, KeyIs(key, k));
    assert forall k | k in m :: m[k] != [] by {
      forall k | k in m ensures m[k] != [] {
        var i :| 0 <= i < |s| && key(s[i]) == k;
        assert s[i] in Where(s, KeyIs(key, k));
      }
    }
    m
  }

  /** The exact sum of the elements. */
  function Sum(s: seq<int>): (r: int)
    ensures (forall i | 0 <= i < |s| :: s[i] >= 0) ==> r >= 0
  {
    if s == [] then 0 else s[0] + Sum(s[1..])
  }

  /** `source.Sum()` on `int`: a left fold from `acc` whose every partial
      sum is checked, throwing `OverflowException` at the first one that
      leaves the 32-bit range. */
  function SumFrom(acc: Int32, s: seq<int>): (r: Result<Int32>)
    ensures r.Ok? ==> r.value == acc + Sum(s)
    ensures r.Err? ==> r.error == Overflow
    ensures (forall i | 0 <= i < |s| :: s[i] >= 0) && acc >= 0 ==>
              (r.Ok? <==> acc + Sum(s) <= MaxInt32)
    decreases |s|
  {
    if s == [] then Ok(acc)
    else if !(MinInt32 <= acc + s[0] <= MaxInt32) then Err(Overflow)
    else SumFrom(acc + s[0], s[1..])
  }

  /** `source.Sum()`: the exact sum, or `OverflowException`, which on
      non-negative elements is thrown exactly when that sum exceeds
      `int.MaxValue`. */
  function CheckedSum(s: seq<int>): (r: Result<Int32>)
    ensures r.Ok? ==> r.value == Sum(s)
    ensures r.Err? ==> r.error == Overflow
    ensures (forall i | 0 <= i < |s| :: s[i] >= 0) ==> (r.Ok? <==> Sum(s) <= MaxInt32)
  {
    SumFrom(0, s)
  }

  // Properties of the operators used by the benchmark proofs.

  lemma {:induction false} WhereAppend(s: seq<int>, t: seq<int>, p: int -> bool)
    ensures Where(s + t, p) == Where(s, p) + Where(t, p)
  {
    if s == [] {
      assert s + t == t;
    } else {
      assert (s + t)[1..] == s[1..] + t;
      WhereAppend(s[1..], t, p);
    }
  }

  /** The first element satisfying `p` heads the filtered list: a scan that
      stops at the first match sees the head of `Where`. */
  lemma {:induction false} WhereHead(s: seq<int>, p: int -> bool)
    requires FirstIndex(s, p) < |s|
    ensures Where(s, p) != [] && Where(s, p)[0] == s[FirstIndex(s, p)]
  {
    if !p(s[0]) {
      WhereHead(s[1..], p);
    }
  }

  /** With no element satisfying `p` the filtered list is empty. */
  lemma {:induction false} WhereNone(s: seq<int>, p: int -> bool)
    requires FirstIndex(s, p) == |s|
    ensures Where(s, p) == []
  {
    if s != [] {
      WhereNone(s[1..], p);
    }
  }

  /** `0 + 1 + ... + (n - 1)`. */
  function Triangle(n: int): int
    decreases n
  {
    if n <= 0 then 0 else Triangle(n - 1) + (n - 1)
  }

  /** The closed form of `Triangle`. */
  lemma {:induction false} TriangleClosedForm(n: nat)
    ensures 2 * Triangle(n) == n * (n - 1)
  {
    if n > 0 {
      TriangleClosedForm(n - 1);
      assert (n - 1) * (n - 2) + 2 * (n - 1) == n * (n - 1);
    }
  }

  /** The sum of `Enumerable.Range(0, n)`. */
  lemma {:induction false} SumCountingUp(s: seq<int>)
    requires CountsUp(s)
    ensures Sum(s) == Triangle(|s|)
  {
    if s != [] {
      var n := |s|;
      var init := s[..n - 1];
      assert CountsUp(init);
      SumCountingUp(init);
      SumAppend(init, [s[n - 1]]);
      assert init + [s[n - 1]] == s;
    }
  }

  lemma {:induction false} SumAppend(s: seq<int>, t: seq<int>)
    ensures Sum(s + t) == Sum(s) + Sum(t)
  {
    if s == [] {
      assert s + t == t;
    } else {
      assert (s + t)[1..] == s[1..] + t;
      SumAppend(s[1..], t);
    }
  }
}
