/** The pieces of C# semantics the benchmark code depends on: the 32-bit
    `int` type, unchecked wrap-around of `+=` on it, the truncating `%`
    operator, the trip count of a `for (i = 0; i < n; i++)` loop, and the
    exceptions the modelled code can raise. */
module CSharp {

  const MinInt32: int := -0x8000_0000
  const MaxInt32: int := 0x7fff_ffff
  const TwoTo32: int := 0x1_0000_0000

  /** C# `int`. */
  type Int32 = x: int | -0x8000_0000 <= x <= 0x7fff_ffff

  /** The exceptions the modelled code can throw. */
  datatype Error =
    | ArgumentOutOfRange   // Enumerable.Range with a negative count
    | KeyNotFound          // Dictionary indexer with an absent key
    | Overflow             // checked addition inside Enumerable.Sum

  datatype Result<T> = Ok(value: T) | Err(error: Error)

  datatype Outcome = Pass | Fail(error: Error)

  /** The value an unchecked 32-bit addition leaves behind: `x` moved by
      whole multiples of 2^32 until it lies in the `int` range. */
  function Wrap(x: int): (r: Int32)
    ensures MinInt32 <= x <= MaxInt32 ==> r == x
    decreases if x < MinInt32 then MinInt32 - x else if x > MaxInt32 then x - MaxInt32 else 0
  {
    if x < MinInt32 then Wrap(x + TwoTo32)
    else if x > MaxInt32 then Wrap(x - TwoTo32)
    else x
  }

  /** `Wrap(x)` differs from `x` by a multiple of 2^32. */
  lemma {:induction false} WrapResidue(x: int)
    ensures (Wrap(x) - x) % TwoTo32 == 0
    decreases if x < MinInt32 then MinInt32 - x else if x > MaxInt32 then x - MaxInt32 else 0
  {
    if x < MinInt32 {
      WrapResidue(x + TwoTo32);
      ModMultiple(Wrap(x) - x - TwoTo32, 1);
    } else if x > MaxInt32 {
      WrapResidue(x - TwoTo32);
      ModMultiple(Wrap(x) - x + TwoTo32, -1);
    }
  }

  /** Wrapping is insensitive to multiples of 2^32 in its argument: two
      congruent integers wrap to the same `int`. */
  lemma WrapCongruent(x: int, y: int)
    requires (x - y) % TwoTo32 == 0
    ensures Wrap(x) == Wrap(y)
  {
    WrapResidue(x);
    WrapResidue(y);
    var a, b := Wrap(x), Wrap(y);
    var p, q, k := (a - x) / TwoTo32, (b - y) / TwoTo32, (x - y) / TwoTo32;
    assert a - x == p * TwoTo32 && b - y == q * TwoTo32 && x - y == k * TwoTo32;
    assert a - b == (p - q + k) * TwoTo32;
    if p - q + k >= 1 {
      assert false;
    } else if p - q + k <= -1 {
      assert false;
    }
  }

  lemma ModMultiple(a: int, k: int)
    ensures (a + k * TwoTo32) % TwoTo32 == a % TwoTo32
  {
    var q := a / TwoTo32;
    assert a + k * TwoTo32 == (q + k) * TwoTo32 + a % TwoTo32;
  }

  /** `counter += v` on a wrapped counter is the wrap of the exact sum, so a
      sequence of unchecked additions wraps only once. */
  lemma WrapAdd(a: int, b: int)
    ensures Wrap(Wrap(a) + b) == Wrap(a + b)
  {
    WrapResidue(a);
    WrapCongruent(Wrap(a) + b, a + b);
  }

  /** The same step seen from the counter: once `c` holds the wrap of the
      exact total `e`, `c += x` leaves the wrap of `e + x`. */
  lemma AddWrapped(c: int, e: int, x: int)
    requires c == Wrap(e)
    ensures Wrap(c + x) == Wrap(e + x)
  {
    WrapAdd(e, x);
  }

  /** C#'s `%` by a positive divisor: the remainder of division truncated
      toward zero, which takes the sign of the dividend (Dafny's own `%` is
      Euclidean). It differs from Dafny's `%` only on negative dividends. */
  function CsRem(a: int, b: int): (r: int)
    requires b > 0
    ensures a >= 0 ==> 0 <= r < b && r == a % b
    ensures a < 0 ==> -b < r <= 0
    ensures r == 0 <==> a % b == 0
  {
    if a >= 0 then a % b
    else
      NegatedModZero(a, b);
      -((-a) % b)
  }

  lemma NegatedModZero(a: int, b: int)
    requires b > 0
    ensures (-a) % b == 0 <==> a % b == 0
  {
    if a % b == 0 {
      ModOfMultiple(-(a / b), b);
      assert -a == -(a / b) * b;
    }
    if (-a) % b == 0 {
      ModOfMultiple(-((-a) / b), b);
      assert a == -((-a) / b) * b;
    }
  }

  lemma ModOfMultiple(k: int, b: int)
    requires b > 0
    ensures (k * b) % b == 0
  {
    var d, m := (k * b) / b, (k * b) % b;
    assert (k - d) * b == m;
    if k - d >= 1 {
      assert false;
    } else if k - d <= -1 {
      assert false;
    }
  }

  /** How many times `for (int i = 0; i < n; i++)` runs its body. */
  function TripCount(n: int): (r: nat)
    ensures r >= n && (r == n || r == 0)
  {
    if n > 0 then n else 0
  }
}
