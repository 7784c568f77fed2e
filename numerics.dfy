/**
 * The C# numeric conversions the engine relies on, stated over Dafny's
 * unbounded `int` and exact `real`: the `(int)` cast of a float, integer
 * division, the float remainder `%` and `Math.Round`.
 */
module Numerics {

  function Abs(n: int): nat { if n < 0 then -n else n }

  function AbsReal(r: real): real { if r < 0.0 then -r else r }

  /** C#'s `(int)` cast of a floating-point value: truncation toward zero. */
  function Truncate(r: real): (n: int)
    ensures 0.0 <= r ==> 0 <= n && n as real <= r < n as real + 1.0
    ensures r < 0.0 ==> n <= 0 && n as real - 1.0 < r <= n as real
  {
    if r >= 0.0 then r.Floor else -((-r).Floor)
  }

  /** Truncation and Dafny's floor disagree exactly on negative non-integers. */
  lemma TruncateVersusFloor(r: real)
    ensures Truncate(r) == r.Floor <==> (0.0 <= r || r == r.Floor as real)
  {
    if r < 0.0 && r != r.Floor as real {
      assert Truncate(r) as real - 1.0 < r <= Truncate(r) as real;
      assert r.Floor as real <= r < r.Floor as real + 1.0;
      assert Truncate(r) != r.Floor;
    }
  }

  /** `Math.Ceiling` followed by an `(int)` cast: the least integer not below the value. */
  function Ceiling(r: real): (n: int)
    ensures r <= n as real < r + 1.0
  {
    -((-r).Floor)
  }

  /** Truncation never reverses an order: a smaller value truncates to no larger an integer. */
  lemma TruncateMonotone(a: real, b: real)
    ensures a <= b ==> Truncate(a) <= Truncate(b)
  {
  }

  /**
   * C#'s `/` on `int`: the quotient is truncated toward zero, so the
   * remainder takes the sign of the dividend.
   */
  function TruncDiv(a: int, b: int): (q: int)
    requires b != 0
    ensures var r := a - q * b; Abs(r) < Abs(b) && (r == 0 || (r < 0 <==> a < 0))
  {
    var q0 := Abs(a) / Abs(b);
    var q := if (a < 0) != (b < 0) then -q0 else q0;
    TruncDivRemainder(a, b, q0, q, a - q * b);
    q
  }

  lemma TruncDivRemainder(a: int, b: int, q0: int, q: int, r: int)
    requires b != 0 && q0 == Abs(a) / Abs(b)
    requires q == (if (a < 0) != (b < 0) then -q0 else q0) && r == a - q * b
    ensures Abs(r) < Abs(b) && (r == 0 || (r < 0 <==> a < 0))
  {
    var r0 := Abs(a) % Abs(b);
    assert a >= 0 ==> r == r0 by {
      EuclidAbs(a, b, q0, r0);
      SignedProduct(a, b, q0, q);
    }
    assert a < 0 ==> r == -r0 by {
      EuclidAbs(a, b, q0, r0);
      SignedProduct(a, b, q0, q);
    }
  }

  lemma EuclidAbs(a: int, b: int, q0: int, r0: int)
    requires b != 0 && q0 == Abs(a) / Abs(b) && r0 == Abs(a) % Abs(b)
    ensures Abs(a) == q0 * Abs(b) + r0 && 0 <= r0 < Abs(b)
  {
  }

  /** The truncated quotient times the divisor is the magnitude product, signed like the dividend. */
  lemma SignedProduct(a: int, b: int, q0: int, q: int)
    requires b != 0 && q == (if (a < 0) != (b < 0) then -q0 else q0)
    ensures a >= 0 ==> q * b == q0 * Abs(b)
    ensures a < 0 ==> q * b == -(q0 * Abs(b))
  {
    if b < 0 {
      NegTimes(q0, b);
      NegTimes(q0, -b);
    } else {
      NegTimes(q0, b);
    }
  }

  lemma NegTimes(x: int, y: int)
    ensures (-x) * y == -(x * y) && x * (-y) == -(x * y)
  {
  }

  /** For a negative dividend C#'s quotient differs from Dafny's Euclidean one. */
  lemma TruncDivIsNotEuclidean()
    ensures TruncDiv(-7, 2) == -3 && -7 / 2 == -4
  {
  }

  /**
   * C#'s `%` on floats (IEEE `fmod`): `a - m * n` where `n` is `a / m`
   * truncated toward zero.  Only the positive divisor the engine uses is
   * needed.
   */
  function FloatRemainder(a: real, m: real): (r: real)
    requires m > 0.0
    ensures AbsReal(r) < m
    ensures 0.0 <= a ==> 0.0 <= r
    ensures a <= 0.0 ==> r <= 0.0
    ensures (a - r) / m == ((a - r) / m).Floor as real
  {
    var n := Truncate(a / m);
    var r := a - m * n as real;
    FloatRemainderBounds(a, m, n, r);
    r
  }

  lemma FloatRemainderBounds(a: real, m: real, n: int, r: real)
    requires m > 0.0 && n == Truncate(a / m) && r == a - m * n as real
    ensures AbsReal(r) < m && (0.0 <= a ==> 0.0 <= r) && (a <= 0.0 ==> r <= 0.0)
    ensures (a - r) / m == ((a - r) / m).Floor as real
  {
    RemainderIsScaledFraction(a, m, n as real, r);
    MulDivCancel(n as real, m);
    assert (a - r) / m == n as real;
    if 0.0 <= a {
      DivNonNeg(a, m);
      ScaledFractionNonNeg(m, a / m - n as real, r);
    } else {
      DivNeg(a, m);
      ScaledFractionNeg(m, a / m - n as real, r);
    }
  }

  /** `a - m * n` is `m` times the part of `a / m` beyond `n`. */
  lemma RemainderIsScaledFraction(a: real, m: real, n: real, r: real)
    requires m > 0.0 && r == a - m * n
    ensures r == m * (a / m - n) && a == r + n * m
  {
  }

  lemma MulDivCancel(x: real, m: real)
    requires m != 0.0
    ensures (x * m) / m == x
  {
  }

  lemma DivNonNeg(a: real, m: real)
    requires m > 0.0 && 0.0 <= a
    ensures 0.0 <= a / m && (a == 0.0 ==> a / m == 0.0)
  {
  }

  lemma DivNeg(a: real, m: real)
    requires m > 0.0 && a < 0.0
    ensures a / m < 0.0
  {
  }

  /** Scaling a value in [0, 1) by a positive m keeps it in [0, m). */
  lemma ScaledFractionNonNeg(m: real, e: real, r: real)
    requires m > 0.0 && 0.0 <= e < 1.0 && r == m * e
    ensures 0.0 <= r < m && (e == 0.0 ==> r == 0.0)
  {
    ProductNonNeg(m, e);
    ProductBelow(m, e);
  }

  lemma ProductNonNeg(x: real, y: real)
    requires x > 0.0 && y >= 0.0
    ensures x * y >= 0.0
  {
  }

  lemma ProductBelow(m: real, e: real)
    requires m > 0.0 && e < 1.0
    ensures m * e < m
  {
    ProductPositive(m, 1.0 - e);
    assert m * (1.0 - e) == m - m * e;
  }

  lemma ProductPositive(x: real, y: real)
    requires x > 0.0 && y > 0.0
    ensures x * y > 0.0
  {
  }

  /** Scaling a value in (-1, 0] by a positive m keeps it in (-m, 0]. */
  lemma ScaledFractionNeg(m: real, e: real, r: real)
    requires m > 0.0 && -1.0 < e <= 0.0 && r == m * e
    ensures -m < r <= 0.0
  {
    ScaledFractionNonNeg(m, -e, -r);
  }

  /**
   * `Math.Round(x)` with its default midpoint rule: to the nearest integer,
   * ties to the even neighbour.
   */
  function RoundHalfEven(x: real): (n: int)
    ensures AbsReal(n as real - x) <= 0.5
    ensures AbsReal(n as real - x) == 0.5 ==> n % 2 == 0
  {
    var f := x.Floor;
    var frac := x - f as real;
    if frac < 0.5 then f
    else if frac > 0.5 then f + 1
    else if f % 2 == 0 then f
    else f + 1
  }

  /** The two requirements of `RoundHalfEven` pin its result down uniquely. */
  lemma RoundHalfEvenUnique(x: real, n: int)
    requires AbsReal(n as real - x) <= 0.5
    requires AbsReal(n as real - x) == 0.5 ==> n % 2 == 0
    ensures n == RoundHalfEven(x)
  {
  }
}
