/**
 * The engine's 2D vectors: `Vec2` (float components) and `Vec2int`
 * (integer components, used for pixel positions).  The two refer to each
 * other (`ToInt`, `ToFloat`, mixed operators), so they share a module.
 */
module Vec2Math {
  import opened Numerics

  datatype Vec2 = Vec2(x: real, y: real)

  datatype Vec2Int = Vec2Int(x: int, y: int)

  const Zero := Vec2(0.0, 0.0)

  const ZeroInt := Vec2Int(0, 0)

  // ---- Vec2 ----

  function Add(a: Vec2, b: Vec2): Vec2 { Vec2(a.x + b.x, a.y + b.y) }

  function Sub(a: Vec2, b: Vec2): Vec2 { Vec2(a.x - b.x, a.y - b.y) }

  function Neg(a: Vec2): Vec2 { Vec2(-a.x, -a.y) }

  /** `a * k`: scaling by an `int` or a `float`. */
  function Scale(a: Vec2, k: real): Vec2 { Vec2(a.x * k, a.y * k) }

  /** `k * a`, which the source defines as `a * k`. */
  function ScaleLeft(k: real, a: Vec2): Vec2 { Scale(a, k) }

  /** `a * b` between two float vectors: elementwise. */
  function MulElementwise(a: Vec2, b: Vec2): Vec2 { Vec2(a.x * b.x, a.y * b.y) }

  function Div(a: Vec2, k: real): Vec2
    requires k != 0.0
  {
    Vec2(a.x / k, a.y / k)
  }

  function Dot(a: Vec2, b: Vec2): real { a.x * b.x + a.y * b.y }

  function Magnitude(a: Vec2, sqrt: real -> real): real { sqrt(Dot(a, a)) }

  /** `normalized()` of a float vector: no zero guard. */
  function Normalized(a: Vec2, sqrt: real -> real): (r: Vec2)
    requires Magnitude(a, sqrt) != 0.0
    ensures Scale(r, Magnitude(a, sqrt)) == a
  {
    var m := Magnitude(a, sqrt);
    DivThenScale(a.x, m);
    DivThenScale(a.y, m);
    Div(a, m)
  }

  lemma DivThenScale(a: real, m: real)
    requires m != 0.0
    ensures (a / m) * m == a
  {
  }

  /** `ToInt()`: each component cast with C#'s `(int)`, which truncates toward zero. */
  function ToInt(a: Vec2): (r: Vec2Int)
    ensures AbsReal(r.x as real) <= AbsReal(a.x) && AbsReal(a.x - r.x as real) < 1.0
    ensures AbsReal(r.y as real) <= AbsReal(a.y) && AbsReal(a.y - r.y as real) < 1.0
    ensures (r.x < 0 ==> a.x < 0.0) && (r.y < 0 ==> a.y < 0.0)
  {
    Vec2Int(Truncate(a.x), Truncate(a.y))
  }

  lemma Vec2Laws(a: Vec2, b: Vec2, k: real)
    ensures Dot(a, b) == Dot(b, a)
    ensures Sub(Add(a, b), b) == a && Add(a, b) == Add(b, a)
    ensures Neg(a) == Scale(a, -1.0) && Sub(a, b) == Add(a, Neg(b))
    ensures ScaleLeft(k, a) == Scale(a, k)
    ensures MulElementwise(a, b) == MulElementwise(b, a)
    ensures MulElementwise(a, Vec2(k, k)) == Scale(a, k)
  {
  }

  /** Truncation rounds toward zero on both sides: (-1.5, 2.5) becomes (-1, 2). */
  lemma ToIntTruncates()
    ensures ToInt(Vec2(-1.5, 2.5)) == Vec2Int(-1, 2)
  {
    assert Truncate(-1.5) == -1;
    assert Truncate(2.5) == 2;
  }

  // ---- Vec2int ----

  function AddInt(a: Vec2Int, b: Vec2Int): Vec2Int { Vec2Int(a.x + b.x, a.y + b.y) }

  function SubInt(a: Vec2Int, b: Vec2Int): Vec2Int { Vec2Int(a.x - b.x, a.y - b.y) }

  function NegInt(a: Vec2Int): Vec2Int { Vec2Int(-a.x, -a.y) }

  function ScaleInt(a: Vec2Int, k: int): Vec2Int { Vec2Int(a.x * k, a.y * k) }

  /** `k * a` for an int k, which the source defines as `a * k`. */
  function ScaleIntLeft(k: int, a: Vec2Int): Vec2Int { ScaleInt(a, k) }

  /** `a / k` with C# integer division. */
  function DivInt(a: Vec2Int, k: int): (r: Vec2Int)
    requires k != 0
    ensures Abs(a.x - r.x * k) < Abs(k) && Abs(a.y - r.y * k) < Abs(k)
    ensures (a.x - r.x * k == 0 || (a.x - r.x * k < 0 <==> a.x < 0))
    ensures (a.y - r.y * k == 0 || (a.y - r.y * k < 0 <==> a.y < 0))
  {
    Vec2Int(TruncDiv(a.x, k), TruncDiv(a.y, k))
  }

  /** `ToFloat()`. */
  function ToFloat(a: Vec2Int): (r: Vec2)
    ensures ToInt(r) == a
  {
    assert Truncate(a.x as real) == a.x;
    assert Truncate(a.y as real) == a.y;
    Vec2(a.x as real, a.y as real)
  }

  function DotInt(a: Vec2Int, b: Vec2Int): int { a.x * b.x + a.y * b.y }

  /** Mixed `Vec2int + Vec2`. */
  function AddMixed(a: Vec2Int, b: Vec2): Vec2 { Vec2(a.x as real + b.x, a.y as real + b.y) }

  /** Mixed `Vec2 + Vec2int`, which the source defines as `b + a`. */
  function AddMixedLeft(a: Vec2, b: Vec2Int): Vec2 { AddMixed(b, a) }

  /** Mixed `Vec2int - Vec2`. */
  function SubMixed(a: Vec2Int, b: Vec2): Vec2 { Vec2(a.x as real - b.x, a.y as real - b.y) }

  /** Mixed `Vec2 - Vec2int`. */
  function SubMixedLeft(a: Vec2, b: Vec2Int): Vec2 { Vec2(a.x - b.x as real, a.y - b.y as real) }

  /** `Vec2int * float`. */
  function ScaleIntByReal(a: Vec2Int, k: real): Vec2 { Vec2(a.x as real * k, a.y as real * k) }

  /** `float * Vec2int`, which the source defines as `a * k`. */
  function ScaleIntByRealLeft(k: real, a: Vec2Int): Vec2 { ScaleIntByReal(a, k) }

  /** `Vec2int / float`. */
  function DivIntByReal(a: Vec2Int, k: real): Vec2
    requires k != 0.0
  {
    Vec2(a.x as real / k, a.y as real / k)
  }

  /** The threshold below which `Vec2int.normalized()` answers the zero vector. */
  const NormalizeGuard: real := 0.001

  /**
   * `Vec2int.normalized()`: the zero vector when the magnitude is below
   * 0.001, otherwise each component divided by the magnitude.
   */
  function NormalizedInt(a: Vec2Int, sqrt: real -> real): (r: Vec2)
    ensures sqrt(DotInt(a, a) as real) < NormalizeGuard ==> r == Zero
    ensures sqrt(DotInt(a, a) as real) >= NormalizeGuard ==>
              Scale(r, sqrt(DotInt(a, a) as real)) == ToFloat(a)
  {
    var m := sqrt(DotInt(a, a) as real);
    if m < NormalizeGuard then Zero
    else
      DivThenScale(a.x as real, m);
      DivThenScale(a.y as real, m);
      DivIntByReal(a, m)
  }

  /**
   * The two facts about the square root the zero guard relies on: the root
   * of 0 is 0, and the root of a value of at least 1 is at least 1.
   */
  predicate RootBehaves(sqrt: real -> real, d: real)
  {
    (d == 0.0 ==> sqrt(d) == 0.0) && (d >= 1.0 ==> sqrt(d) >= 1.0)
  }

  /** For integer components the guard fires exactly for (0, 0). */
  lemma NormalizedIntZeroIff(a: Vec2Int, sqrt: real -> real)
    requires RootBehaves(sqrt, DotInt(a, a) as real)
    ensures NormalizedInt(a, sqrt) == Zero <==> a == ZeroInt
  {
    if a != ZeroInt {
      SquaresAtLeastOne(a);
      var m := sqrt(DotInt(a, a) as real);
      var r := NormalizedInt(a, sqrt);
      assert Scale(r, m) == ToFloat(a);
      assert r != Zero;
    }
  }

  /** A non-zero integer vector has squared length at least 1. */
  lemma SquaresAtLeastOne(a: Vec2Int)
    requires a != ZeroInt
    ensures DotInt(a, a) >= 1
  {
    SquareNonNeg(a.x);
    SquareNonNeg(a.y);
    if a.x != 0 {
      SquareOfNonZero(a.x);
    } else {
      SquareOfNonZero(a.y);
    }
  }

  lemma SquareNonNeg(n: int)
    ensures n * n >= 0
  {
  }

  lemma SquareOfNonZero(n: int)
    requires n != 0
    ensures n * n >= 1
  {
  }

  lemma Vec2IntLaws(a: Vec2Int, b: Vec2Int, f: Vec2, k: int, s: real)
    ensures DotInt(a, b) == DotInt(b, a)
    ensures SubInt(AddInt(a, b), b) == a && AddInt(a, b) == AddInt(b, a)
    ensures NegInt(a) == ScaleInt(a, -1) && SubInt(a, b) == AddInt(a, NegInt(b))
    ensures ScaleIntLeft(k, a) == ScaleInt(a, k)
    ensures AddMixedLeft(f, a) == AddMixed(a, f)
    ensures ScaleIntByRealLeft(s, a) == ScaleIntByReal(a, s)
    ensures AddMixed(a, f) == Add(ToFloat(a), f)
    ensures SubMixed(a, f) == Sub(ToFloat(a), f) && SubMixedLeft(f, a) == Sub(f, ToFloat(a))
    ensures ScaleIntByReal(a, s) == Scale(ToFloat(a), s)
    ensures ToFloat(AddInt(a, b)) == Add(ToFloat(a), ToFloat(b))
    ensures DotInt(a, b) as real == Dot(ToFloat(a), ToFloat(b))
  {
  }

  /** Integer division of a pixel vector truncates: (-7, 7) / 2 is (-3, 3). */
  lemma DivIntTruncates()
    ensures DivInt(Vec2Int(-7, 7), 2) == Vec2Int(-3, 3)
  {
  }
}
