/**
 * The engine's rotation type: a quaternion (w, x, y, z) with the Hamilton
 * product, the inverse, the "sandwich" that rotates a vector, and the
 * angle wrap performed by `AngleAxis`.
 */
module Quaternions {
  import opened Numerics
  import opened Vec3Math

  datatype Quaternion = Quaternion(w: real, x: real, y: real, z: real)

  /** The unrotated orientation. */
  const Identity := Quaternion(1.0, 0.0, 0.0, 0.0)

  /** `operator *`: the Hamilton product `r * s`. */
  function Mul(r: Quaternion, s: Quaternion): Quaternion {
    Quaternion(
      r.w * s.w - r.x * s.x - r.y * s.y - r.z * s.z,
      r.w * s.x + r.x * s.w + r.y * s.z - r.z * s.y,
      r.w * s.y - r.x * s.z + r.y * s.w + r.z * s.x,
      r.w * s.z + r.x * s.y - r.y * s.x + r.z * s.w)
  }

  function VectorPart(q: Quaternion): Vec3 { Vec3(q.x, q.y, q.z) }

  /** The quaternion (0, v) the sandwich wraps a vector in. */
  function Pure(v: Vec3): Quaternion { Quaternion(0.0, v.x, v.y, v.z) }

  function NormSquared(q: Quaternion): real { q.w * q.w + Dot(VectorPart(q), VectorPart(q)) }

  function Conjugate(q: Quaternion): Quaternion { Quaternion(q.w, -q.x, -q.y, -q.z) }

  function ScaleQ(q: Quaternion, k: real): Quaternion { Quaternion(q.w * k, q.x * k, q.y * k, q.z * k) }

  /**
   * `inverted()`: the scalar part divided by the squared norm and the
   * vector part divided by its negation.  A zero quaternion would divide by
   * zero, which the engine never does on purpose; it is excluded here.
   */
  function Inverted(q: Quaternion): (r: Quaternion)
    requires NormSquared(q) != 0.0
    ensures r == ScaleQ(Conjugate(q), 1.0 / NormSquared(q))
  {
    var ms := NormSquared(q);
    DivIsScale(q.w, ms);
    NegDivIsScale(q.x, ms);
    NegDivIsScale(q.y, ms);
    NegDivIsScale(q.z, ms);
    Quaternion(q.w / ms, q.x / (-ms), q.y / (-ms), q.z / (-ms))
  }

  lemma DivIsScale(a: real, m: real)
    requires m != 0.0
    ensures a / m == a * (1.0 / m)
  {
  }

  lemma NegDivIsScale(a: real, m: real)
    requires m != 0.0
    ensures a / (-m) == (-a) * (1.0 / m)
  {
  }

  /** The identity is a unit for the Hamilton product on both sides. */
  lemma IdentityIsUnit(q: Quaternion)
    ensures Mul(Identity, q) == q && Mul(q, Identity) == q
  {
  }

  /** A quaternion times its conjugate is its squared norm. */
  lemma MulConjugate(q: Quaternion)
    ensures Mul(q, Conjugate(q)) == Quaternion(NormSquared(q), 0.0, 0.0, 0.0)
    ensures Mul(Conjugate(q), q) == Quaternion(NormSquared(q), 0.0, 0.0, 0.0)
  {
  }

  /** `inverted()` is a two-sided inverse for every non-zero quaternion. */
  lemma InvertedIsInverse(q: Quaternion)
    requires NormSquared(q) != 0.0
    ensures Mul(q, Inverted(q)) == Identity && Mul(Inverted(q), q) == Identity
  {
    var i := Inverted(q);
    NormSquaredExpanded(q);
    InverseComponents(q.w, q.x, q.y, q.z, i.w, i.x, i.y, i.z, NormSquared(q));
  }

  /**
   * The eight components of `q * inverted(q)` and `inverted(q) * q` over
   * plain reals: the scalar parts are 1, the vector parts 0.
   */
  lemma InverseComponents(w: real, x: real, y: real, z: real, iw: real, ix: real, iy: real, iz: real, n: real)
    requires n == w * w + (x * x + y * y + z * z) && n != 0.0
    requires iw == w / n && ix == x / (-n) && iy == y / (-n) && iz == z / (-n)
    ensures w * iw - x * ix - y * iy - z * iz == 1.0 && iw * w - ix * x - iy * y - iz * z == 1.0
    ensures w * ix + x * iw + y * iz - z * iy == 0.0 && iw * x + ix * w + iy * z - iz * y == 0.0
    ensures w * iy - x * iz + y * iw + z * ix == 0.0 && iw * y - ix * z + iy * w + iz * x == 0.0
    ensures w * iz + x * iy - y * ix + z * iw == 0.0 && iw * z + ix * y - iy * x + iz * w == 0.0
  {
    var t := 1.0 / n;
    assert iw == w * t && ix == -(x * t) && iy == -(y * t) && iz == -(z * t);
    assert n * t == 1.0;
  }

  /** The Hamilton product is associative. */
  lemma MulAssociative(p: Quaternion, q: Quaternion, r: Quaternion)
    ensures Mul(Mul(p, q), r) == Mul(p, Mul(q, r))
  {
    AssocPolynomial(p.w, p.x, p.y, p.z, q.w, q.x, q.y, q.z, r.w, r.x, r.y, r.z);
    ExpandLeftW(p, q, r);
    ExpandRightW(p, q, r);
    ExpandLeftX(p, q, r);
    ExpandRightX(p, q, r);
    ExpandLeftY(p, q, r);
    ExpandRightY(p, q, r);
    ExpandLeftZ(p, q, r);
    ExpandRightZ(p, q, r);
  }

  // `(p * q) * r` and `p * (q * r)` written out, one component at a time.

  lemma ExpandLeftW(p: Quaternion, q: Quaternion, r: Quaternion)
    ensures Mul(Mul(p, q), r).w ==
      (p.w * q.w - p.x * q.x - p.y * q.y - p.z * q.z) * r.w - (p.w * q.x + p.x * q.w + p.y * q.z - p.z * q.y) * r.x - (p.w * q.y - p.x * q.z + p.y * q.w + p.z * q.x) * r.y - (p.w * q.z + p.x * q.y - p.y * q.x + p.z * q.w) * r.z
  {
  }

  lemma ExpandRightW(p: Quaternion, q: Quaternion, r: Quaternion)
    ensures Mul(p, Mul(q, r)).w ==
      p.w * (q.w * r.w - q.x * r.x - q.y * r.y - q.z * r.z) - p.x * (q.w * r.x + q.x * r.w + q.y * r.z - q.z * r.y) - p.y * (q.w * r.y - q.x * r.z + q.y * r.w + q.z * r.x) - p.z * (q.w * r.z + q.x * r.y - q.y * r.x + q.z * r.w)
  {
  }

  lemma ExpandLeftX(p: Quaternion, q: Quaternion, r: Quaternion)
    ensures Mul(Mul(p, q), r).x ==
      (p.w * q.w - p.x * q.x - p.y * q.y - p.z * q.z) * r.x + (p.w * q.x + p.x * q.w + p.y * q.z - p.z * q.y) * r.w + (p.w * q.y - p.x * q.z + p.y * q.w + p.z * q.x) * r.z - (p.w * q.z + p.x * q.y - p.y * q.x + p.z * q.w) * r.y
  {
  }

  lemma ExpandRightX(p: Quaternion, q: Quaternion, r: Quaternion)
    ensures Mul(p, Mul(q, r)).x ==
      p.w * (q.w * r.x + q.x * r.w + q.y * r.z - q.z * r.y) + p.x * (q.w * r.w - q.x * r.x - q.y * r.y - q.z * r.z) + p.y * (q.w * r.z + q.x * r.y - q.y * r.x + q.z * r.w) - p.z * (q.w * r.y - q.x * r.z + q.y * r.w + q.z * r.x)
  {
  }

  lemma ExpandLeftY(p: Quaternion, q: Quaternion, r: Quaternion)
    ensures Mul(Mul(p, q), r).y ==
      (p.w * q.w - p.x * q.x - p.y * q.y - p.z * q.z) * r.y - (p.w * q.x + p.x * q.w + p.y * q.z - p.z * q.y) * r.z + (p.w * q.y - p.x * q.z + p.y * q.w + p.z * q.x) * r.w + (p.w * q.z + p.x * q.y - p.y * q.x + p.z * q.w) * r.x
  {
  }

  lemma ExpandRightY(p: Quaternion, q: Quaternion, r: Quaternion)
    ensures Mul(p, Mul(q, r)).y ==
      p.w * (q.w * r.y - q.x * r.z + q.y * r.w + q.z * r.x) - p.x * (q.w * r.z + q.x * r.y - q.y * r.x + q.z * r.w) + p.y * (q.w * r.w - q.x * r.x - q.y * r.y - q.z * r.z) + p.z * (q.w * r.x + q.x * r.w + q.y * r.z - q.z * r.y)
  {
  }

  lemma ExpandLeftZ(p: Quaternion, q: Quaternion, r: Quaternion)
    ensures Mul(Mul(p, q), r).z ==
      (p.w * q.w - p.x * q.x - p.y * q.y - p.z * q.z) * r.z + (p.w * q.x + p.x * q.w + p.y * q.z - p.z * q.y) * r.y - (p.w * q.y - p.x * q.z + p.y * q.w + p.z * q.x) * r.x + (p.w * q.z + p.x * q.y - p.y * q.x + p.z * q.w) * r.w
  {
  }

  lemma ExpandRightZ(p: Quaternion, q: Quaternion, r: Quaternion)
    ensures Mul(p, Mul(q, r)).z ==
      p.w * (q.w * r.z + q.x * r.y - q.y * r.x + q.z * r.w) + p.x * (q.w * r.y - q.x * r.z + q.y * r.w + q.z * r.x) - p.y * (q.w * r.x + q.x * r.w + q.y * r.z - q.z * r.y) + p.z * (q.w * r.w - q.x * r.x - q.y * r.y - q.z * r.z)
  {
  }

  /** The associativity identity over plain reals: both groupings are the same polynomial. */
  lemma AssocPolynomial(pw: real, px: real, py: real, pz: real,
                        qw: real, qx: real, qy: real, qz: real,
                        rw: real, rx: real, ry: real, rz: real)
    ensures (pw * qw - px * qx - py * qy - pz * qz) * rw - (pw * qx + px * qw + py * qz - pz * qy) * rx - (pw * qy - px * qz + py * qw + pz * qx) * ry - (pw * qz + px * qy - py * qx + pz * qw) * rz
         == pw * (qw * rw - qx * rx - qy * ry - qz * rz) - px * (qw * rx + qx * rw + qy * rz - qz * ry) - py * (qw * ry - qx * rz + qy * rw + qz * rx) - pz * (qw * rz + qx * ry - qy * rx + qz * rw)
    ensures (pw * qw - px * qx - py * qy - pz * qz) * rx + (pw * qx + px * qw + py * qz - pz * qy) * rw + (pw * qy - px * qz + py * qw + pz * qx) * rz - (pw * qz + px * qy - py * qx + pz * qw) * ry
         == pw * (qw * rx + qx * rw + qy * rz - qz * ry) + px * (qw * rw - qx * rx - qy * ry - qz * rz) + py * (qw * rz + qx * ry - qy * rx + qz * rw) - pz * (qw * ry - qx * rz + qy * rw + qz * rx)
    ensures (pw * qw - px * qx - py * qy - pz * qz) * ry - (pw * qx + px * qw + py * qz - pz * qy) * rz + (pw * qy - px * qz + py * qw + pz * qx) * rw + (pw * qz + px * qy - py * qx + pz * qw) * rx
         == pw * (qw * ry - qx * rz + qy * rw + qz * rx) - px * (qw * rz + qx * ry - qy * rx + qz * rw) + py * (qw * rw - qx * rx - qy * ry - qz * rz) + pz * (qw * rx + qx * rw + qy * rz - qz * ry)
    ensures (pw * qw - px * qx - py * qy - pz * qz) * rz + (pw * qx + px * qw + py * qz - pz * qy) * ry - (pw * qy - px * qz + py * qw + pz * qx) * rx + (pw * qz + px * qy - py * qx + pz * qw) * rw
         == pw * (qw * rz + qx * ry - qy * rx + qz * rw) + px * (qw * ry - qx * rz + qy * rw + qz * rx) - py * (qw * rx + qx * rw + qy * rz - qz * ry) + pz * (qw * rw - qx * rx - qy * ry - qz * rz)
  {
  }


  /** `Rotate(q)` on the value type: the stored rotation becomes `q * this`. */
  function Rotated(self: Quaternion, q: Quaternion): Quaternion {
    Mul(q, self)
  }

  /**
   * Rotating by q1 and then by q2 is one rotation by q2 * q1, rotating by the
   * identity changes nothing, and rotating by q and then by its inverse
   * restores the original.
   */
  lemma RotatedComposes(self: Quaternion, q1: Quaternion, q2: Quaternion)
    ensures Rotated(Rotated(self, q1), q2) == Rotated(self, Mul(q2, q1))
    ensures Rotated(self, Identity) == self
    ensures NormSquared(q1) != 0.0 ==> Rotated(Rotated(self, q1), Inverted(q1)) == self
  {
    MulAssociative(q2, q1, self);
    IdentityIsUnit(self);
    if NormSquared(q1) != 0.0 {
      MulAssociative(Inverted(q1), q1, self);
      InvertedIsInverse(q1);
    }
  }

  /** The vector part of `bread * (0, v) * invertedBread`. */
  function Sandwich(v: Vec3, bread: Quaternion, invertedBread: Quaternion): Vec3 {
    VectorPart(Mul(Mul(bread, Pure(v)), invertedBread))
  }

  /** `RotateVector(v, bread)`: the sandwich with the inverse computed on the spot. */
  function RotateVector(v: Vec3, bread: Quaternion): Vec3
    requires NormSquared(bread) != 0.0
  {
    Sandwich(v, bread, Inverted(bread))
  }

  /** A unit quaternion's inverse is its conjugate. */
  lemma InvertedOfUnit(q: Quaternion)
    requires NormSquared(q) == 1.0
    ensures Inverted(q) == Conjugate(q)
  {
    var c := Conjugate(q);
    assert Inverted(q) == ScaleQ(c, 1.0 / 1.0);
    assert ScaleQ(c, 1.0) == c;
  }

  /** The identity has itself as inverse. */
  lemma InvertedIdentity(q: Quaternion)
    requires q == Identity
    ensures NormSquared(q) == 1.0 && Inverted(q) == q
  {
    NormSquaredExpanded(q);
    IdentitySquares(q.w, q.x, q.y, q.z);
    InvertedOfUnit(q);
  }

  lemma NormSquaredExpanded(q: Quaternion)
    ensures NormSquared(q) == q.w * q.w + (q.x * q.x + q.y * q.y + q.z * q.z)
  {
  }

  lemma IdentitySquares(w: real, x: real, y: real, z: real)
    requires w == 1.0 && x == 0.0 && y == 0.0 && z == 0.0
    ensures w * w + (x * x + y * y + z * z) == 1.0
  {
  }

  /** Rotating by the identity leaves every vector unchanged. */
  lemma RotateVectorIdentity(v: Vec3)
    ensures RotateVector(v, Identity) == v
  {
    InvertedIdentity(Identity);
    IdentityIsUnit(Pure(v));
  }

  /**
   * Rotating by a product is rotating by each factor in turn: the right
   * factor acts first, as `Rotate` composes.
   */
  lemma {:induction false} SandwichComposes(v: Vec3, q1: Quaternion, q2: Quaternion)
    requires NormSquared(q1) != 0.0 && NormSquared(q2) != 0.0
    ensures Sandwich(v, Mul(q2, q1), Mul(Inverted(q1), Inverted(q2)))
         == VectorPart(Mul(Mul(q2, Mul(Mul(q1, Pure(v)), Inverted(q1))), Inverted(q2)))
  {
    var c := Pure(v);
    var i1, i2 := Inverted(q1), Inverted(q2);
    MulAssociative(q2, q1, c);
    MulAssociative(Mul(q2, Mul(q1, c)), i1, i2);
    MulAssociative(q2, Mul(q1, c), i1);
  }

  /** `LookDirection()`: the forward axis turned by the rotation. */
  function LookDirection(q: Quaternion): Vec3
    requires NormSquared(q) != 0.0
  {
    RotateVector(Forward, q)
  }

  /** The unrotated object looks down the forward axis. */
  lemma LookDirectionOfIdentity()
    ensures LookDirection(Identity) == Forward
  {
    RotateVectorIdentity(Forward);
  }

  /**
   * `RotateVectors(vectors, bread, invertedBread)`: a fresh sequence of the
   * same length whose i-th element is the sandwich of the i-th vector.
   */
  method RotateVectors(vectors: seq<Vec3>, bread: Quaternion, invertedBread: Quaternion)
    returns (rotated: seq<Vec3>)
    ensures |rotated| == |vectors|
    ensures forall i :: 0 <= i < |vectors| ==> rotated[i] == Sandwich(vectors[i], bread, invertedBread)
  {
    var out := new Vec3[|vectors|];
    for i := 0 to |vectors|
      invariant forall j :: 0 <= j < i ==> out[j] == Sandwich(vectors[j], bread, invertedBread)
    {
      var cheese := Pure(vectors[i]);
      var sandwich := Mul(Mul(bread, cheese), invertedBread);
      out[i] := Vec3(sandwich.x, sandwich.y, sandwich.z);
    }
    rotated := out[..];
  }

  /** The overload without a precomputed inverse: element i is `RotateVector(vectors[i], bread)`. */
  method RotateVectorsBy(vectors: seq<Vec3>, bread: Quaternion) returns (rotated: seq<Vec3>)
    requires NormSquared(bread) != 0.0
    ensures |rotated| == |vectors|
    ensures forall i :: 0 <= i < |vectors| ==> rotated[i] == RotateVector(vectors[i], bread)
  {
    var invertedBread := Inverted(bread);
    rotated := RotateVectors(vectors, bread, invertedBread);
  }

  /**
   * The first step of `AngleAxis`: the angle in degrees is reduced with
   * C#'s float `%` by 360 and then shifted into [-180, 180].  The result
   * differs from the input by a whole number of turns.
   */
  function WrapAngle(angle: real): (a: real)
    ensures -180.0 <= a <= 180.0
    ensures (angle - a) / 360.0 == ((angle - a) / 360.0).Floor as real
  {
    var m := FloatRemainder(angle, 360.0);
    if m < -180.0 then
      WholeTurns(angle, m, 1);
      m + 360.0
    else if m > 180.0 then
      WholeTurns(angle, m, -1);
      m - 360.0
    else
      WholeTurns(angle, m, 0);
      m
  }

  /** Moving a remainder by s whole turns keeps the difference a whole number of turns. */
  lemma WholeTurns(angle: real, m: real, s: int)
    requires (angle - m) / 360.0 == ((angle - m) / 360.0).Floor as real
    ensures (angle - (m + s as real * 360.0)) / 360.0 == ((angle - (m + s as real * 360.0)) / 360.0).Floor as real
  {
    var k := ((angle - m) / 360.0).Floor;
    assert angle - m == k as real * 360.0;
    assert angle - (m + s as real * 360.0) == (k - s) as real * 360.0;
    MulDivCancel((k - s) as real, 360.0);
  }

  /** An angle already in [-180, 180] is left alone. */
  lemma WrapAngleFixesSmall(angle: real)
    requires -180.0 <= angle <= 180.0
    ensures WrapAngle(angle) == angle
  {
    var a := WrapAngle(angle);
    var k := (angle - a) / 360.0;
    assert -1.0 <= k <= 1.0;
    assert k == k.Floor as real;
  }

  /**
   * `AngleAxis(angle, axis)`: cosine of half the wrapped angle (in radians)
   * as the scalar part, the normalised axis times the sine of half the angle
   * as the vector part.  Trigonometry, the square root and the
   * degree-to-radian factor are supplied by the caller.
   */
  function AngleAxis(angle: real, axis: Vec3, deg2rad: real,
                     sqrt: real -> real, sin: real -> real, cos: real -> real): (q: Quaternion)
    requires Magnitude(axis, sqrt) != 0.0
    ensures q.w == cos(deg2rad * WrapAngle(angle) / 2.0)
    ensures Scale(VectorPart(q), Magnitude(axis, sqrt)) == Scale(axis, sin(deg2rad * WrapAngle(angle) / 2.0))
  {
    var angleRad := deg2rad * WrapAngle(angle);
    var n := Normalized(axis, sqrt);
    var s := sin(angleRad / 2.0);
    var m := Magnitude(axis, sqrt);
    ScaleCommutes(n.x, s, m);
    ScaleCommutes(n.y, s, m);
    ScaleCommutes(n.z, s, m);
    var v := Scale(n, s);
    Quaternion(cos(angleRad / 2.0), v.x, v.y, v.z)
  }

  lemma ScaleCommutes(a: real, s: real, m: real)
    ensures (a * s) * m == (a * m) * s
  {
  }

  /** A zero angle gives the identity rotation, whatever the axis. */
  lemma AngleAxisZeroIsIdentity(axis: Vec3, deg2rad: real,
                                sqrt: real -> real, sin: real -> real, cos: real -> real)
    requires Magnitude(axis, sqrt) != 0.0
    requires sin(0.0) == 0.0 && cos(0.0) == 1.0
    ensures AngleAxis(0.0, axis, deg2rad, sqrt, sin, cos) == Identity
  {
    WrapAngleFixesSmall(0.0);
  }
}
