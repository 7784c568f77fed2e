/**
 * The engine's real-valued 3D vector (`Vec3`): a value with componentwise
 * arithmetic, the dot and cross products, and the named direction
 * constants.  The engine's camera looks down the negative z axis.
 */
module Vec3Math {

  datatype Vec3 = Vec3(x: real, y: real, z: real)

  const Zero := Vec3(0.0, 0.0, 0.0)
  const One := Vec3(1.0, 1.0, 1.0)
  const Left := Vec3(-1.0, 0.0, 0.0)
  const Right := Vec3(1.0, 0.0, 0.0)
  const Down := Vec3(0.0, -1.0, 0.0)
  const Up := Vec3(0.0, 1.0, 0.0)
  const Forward := Vec3(0.0, 0.0, -1.0)
  const Back := Vec3(0.0, 0.0, 1.0)

  function Add(a: Vec3, b: Vec3): Vec3 { Vec3(a.x + b.x, a.y + b.y, a.z + b.z) }

  function Sub(a: Vec3, b: Vec3): Vec3 { Vec3(a.x - b.x, a.y - b.y, a.z - b.z) }

  function Neg(a: Vec3): Vec3 { Vec3(-a.x, -a.y, -a.z) }

  /** `a * k` and `k * a` for an `int` or `float` k: both orders build the same value. */
  function Scale(a: Vec3, k: real): Vec3 { Vec3(a.x * k, a.y * k, a.z * k) }

  /** `a / k` for a float k (C# float division; k = 0 is not given a meaning here). */
  function Div(a: Vec3, k: real): Vec3
    requires k != 0.0
  {
    Vec3(a.x / k, a.y / k, a.z / k)
  }

  /** Elementwise product, used when a mesh is scaled by a scale vector. */
  function MulElementwise(a: Vec3, b: Vec3): Vec3 { Vec3(a.x * b.x, a.y * b.y, a.z * b.z) }

  function Dot(a: Vec3, b: Vec3): real { a.x * b.x + a.y * b.y + a.z * b.z }

  function Cross(a: Vec3, b: Vec3): Vec3 {
    Vec3(a.y * b.z - a.z * b.y, a.z * b.x - a.x * b.z, a.x * b.y - a.y * b.x)
  }

  /** `magnitude()`; the square root is supplied by the caller. */
  function Magnitude(v: Vec3, sqrt: real -> real): real { sqrt(Dot(v, v)) }

  /**
   * `normalized()`: each component divided by the magnitude.  The source
   * has no guard against a zero magnitude, so neither does this.
   */
  function Normalized(v: Vec3, sqrt: real -> real): (r: Vec3)
    requires Magnitude(v, sqrt) != 0.0
    ensures Scale(r, Magnitude(v, sqrt)) == v
  {
    var m := Magnitude(v, sqrt);
    DivThenScale(v.x, m);
    DivThenScale(v.y, m);
    DivThenScale(v.z, m);
    Div(v, m)
  }

  lemma DivThenScale(a: real, m: real)
    requires m != 0.0
    ensures (a / m) * m == a
  {
  }

  /** The engine looks down -z: `back` is the negation of `forward`, and they are opposite unit axes. */
  lemma ForwardAndBack()
    ensures Back == Neg(Forward) && Dot(Forward, Back) == -1.0
    ensures Dot(Forward, Forward) == 1.0 && Forward.x == 0.0 && Forward.y == 0.0 && Forward.z < 0.0
  {
  }

  lemma DotSymmetric(a: Vec3, b: Vec3)
    ensures Dot(a, b) == Dot(b, a)
  {
  }

  /** The cross product is perpendicular to both of its arguments. */
  lemma CrossOrthogonal(a: Vec3, b: Vec3)
    ensures Dot(Cross(a, b), a) == 0.0 && Dot(Cross(a, b), b) == 0.0
  {
  }

  lemma CrossAntiCommutative(a: Vec3, b: Vec3)
    ensures Cross(a, b) == Neg(Cross(b, a)) && Cross(a, a) == Zero
  {
  }

  /** Subtraction undoes addition, and negation is scaling by -1. */
  lemma AddSubInverse(a: Vec3, b: Vec3)
    ensures Sub(Add(a, b), b) == a && Add(Sub(a, b), b) == a
    ensures Neg(a) == Scale(a, -1.0) && Sub(a, b) == Add(a, Neg(b))
    ensures Add(a, b) == Add(b, a) && Add(a, Zero) == a
  {
  }

  /** The dot product is linear in its first argument. */
  lemma DotLinear(a: Vec3, b: Vec3, c: Vec3, k: real)
    ensures Dot(Add(a, b), c) == Dot(a, c) + Dot(b, c)
    ensures Dot(Sub(a, b), c) == Dot(a, c) - Dot(b, c)
    ensures Dot(Scale(a, k), c) == k * Dot(a, c)
    ensures Dot(Neg(a), c) == -Dot(a, c)
  {
  }
}
