/**
 * The engine's integer 3D vector (`Vec3int`).  Its operators are
 * componentwise on C# `int`; division truncates toward zero.
 */
module Vec3IntMath {
  import opened Numerics
  import Vec3Math

  datatype Vec3Int = Vec3Int(x: int, y: int, z: int)

  const Zero := Vec3Int(0, 0, 0)

  function Add(a: Vec3Int, b: Vec3Int): Vec3Int { Vec3Int(a.x + b.x, a.y + b.y, a.z + b.z) }

  function Sub(a: Vec3Int, b: Vec3Int): Vec3Int { Vec3Int(a.x - b.x, a.y - b.y, a.z - b.z) }

  function Neg(a: Vec3Int): Vec3Int { Vec3Int(-a.x, -a.y, -a.z) }

  /** `a * k`; the overload `k * a` builds the same value. */
  function Scale(a: Vec3Int, k: int): Vec3Int { Vec3Int(a.x * k, a.y * k, a.z * k) }

  /** `a / k` with C# integer division. */
  function Div(a: Vec3Int, k: int): (r: Vec3Int)
    requires k != 0
    ensures Abs(a.x - r.x * k) < Abs(k) && Abs(a.y - r.y * k) < Abs(k) && Abs(a.z - r.z * k) < Abs(k)
    ensures a.x - r.x * k == 0 || (a.x - r.x * k < 0 <==> a.x < 0)
    ensures a.y - r.y * k == 0 || (a.y - r.y * k < 0 <==> a.y < 0)
    ensures a.z - r.z * k == 0 || (a.z - r.z * k < 0 <==> a.z < 0)
  {
    Vec3Int(TruncDiv(a.x, k), TruncDiv(a.y, k), TruncDiv(a.z, k))
  }

  function Dot(a: Vec3Int, b: Vec3Int): int { a.x * b.x + a.y * b.y + a.z * b.z }

  function Cross(a: Vec3Int, b: Vec3Int): Vec3Int {
    Vec3Int(a.y * b.z - a.z * b.y, a.z * b.x - a.x * b.z, a.x * b.y - a.y * b.x)
  }

  function ToReal(a: Vec3Int): Vec3Math.Vec3 { Vec3Math.Vec3(a.x as real, a.y as real, a.z as real) }

  /**
   * `normalized()` returns a float vector: each component divided by the
   * magnitude.  There is no zero guard in the source.
   */
  function Normalized(a: Vec3Int, sqrt: real -> real): (r: Vec3Math.Vec3)
    requires Vec3Math.Magnitude(ToReal(a), sqrt) != 0.0
    ensures Vec3Math.Scale(r, Vec3Math.Magnitude(ToReal(a), sqrt)) == ToReal(a)
  {
    Vec3Math.Normalized(ToReal(a), sqrt)
  }

  lemma DotSymmetric(a: Vec3Int, b: Vec3Int)
    ensures Dot(a, b) == Dot(b, a)
  {
  }

  /** The integer cross product is perpendicular to both arguments. */
  lemma CrossOrthogonal(a: Vec3Int, b: Vec3Int)
    ensures Dot(Cross(a, b), a) == 0 && Dot(Cross(a, b), b) == 0
  {
  }

  lemma CrossAntiCommutative(a: Vec3Int, b: Vec3Int)
    ensures Cross(a, b) == Neg(Cross(b, a)) && Cross(a, a) == Zero
  {
  }

  /** The integer operators agree with the real ones on the converted values. */
  lemma AgreesWithReal(a: Vec3Int, b: Vec3Int, k: int)
    ensures ToReal(Add(a, b)) == Vec3Math.Add(ToReal(a), ToReal(b))
    ensures ToReal(Sub(a, b)) == Vec3Math.Sub(ToReal(a), ToReal(b))
    ensures ToReal(Neg(a)) == Vec3Math.Neg(ToReal(a))
    ensures ToReal(Scale(a, k)) == Vec3Math.Scale(ToReal(a), k as real)
    ensures ToReal(Cross(a, b)) == Vec3Math.Cross(ToReal(a), ToReal(b))
    ensures Dot(a, b) as real == Vec3Math.Dot(ToReal(a), ToReal(b))
  {
  }

  /** Integer division of a vector truncates: (-7, 7, 0) / 2 is (-3, 3, 0), not (-4, 3, 0). */
  lemma DivTruncates()
    ensures Div(Vec3Int(-7, 7, 0), 2) == Vec3Int(-3, 3, 0)
  {
  }
}
