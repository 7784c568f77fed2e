/**
 * A plane in point-normal form with the scalar `d` of its equation
 * `dot(normal, p) + d = 0`, its side tests and the crossing point of a
 * segment.  `SignedDistance` is the left-hand side of that equation; it is
 * a true distance only for a unit normal, which none of the tests need.
 */
module Planes {
  import opened Vec3Math

  datatype Plane = Plane(point: Vec3, normal: Vec3, d: real)

  /** `dot(normal, p) + d`: zero on the plane, positive on the side the normal points to. */
  function SignedDistance(pl: Plane, p: Vec3): real {
    Dot(pl.normal, p) + pl.d
  }

  /** The stored `d` agrees with the stored point and normal. */
  predicate Consistent(pl: Plane) {
    pl.d == -Dot(pl.normal, pl.point)
  }

  /** The constructor: `d` is the dot product of the normal with the negated point. */
  function MakePlane(point: Vec3, normal: Vec3): (pl: Plane)
    ensures pl.point == point && pl.normal == normal
    ensures Consistent(pl) && SignedDistance(pl, point) == 0.0
  {
    DotNegRight(normal, point);
    Plane(point, normal, Dot(normal, Neg(point)))
  }

  lemma DotNegRight(a: Vec3, b: Vec3)
    ensures Dot(a, Neg(b)) == -Dot(a, b)
  {
  }

  /** `IsPointOnPositiveSide`: points on the plane itself count as positive. */
  predicate IsPointOnPositiveSide(pl: Plane, p: Vec3) {
    Dot(pl.normal, p) + pl.d >= 0.0
  }

  /** `IsPointWithRadiusOnNegativeSide`: the signed distance is below the radius (used to cull whole objects). */
  predicate IsPointWithRadiusOnNegativeSide(pl: Plane, p: Vec3, r: real) {
    Dot(pl.normal, p) + pl.d - r < 0.0
  }

  /** `IsPointWithRadiusOnPositiveSide`. */
  predicate IsPointWithRadiusOnPositiveSide(pl: Plane, p: Vec3, r: real) {
    Dot(pl.normal, p) + pl.d + r >= 0.0
  }

  /**
   * With radius 0 the positive radius test is the plain side test and the
   * negative radius test is its negation; a larger radius only widens the
   * positive test.
   */
  lemma RadiusTests(pl: Plane, p: Vec3, r: real)
    ensures IsPointWithRadiusOnPositiveSide(pl, p, 0.0) <==> IsPointOnPositiveSide(pl, p)
    ensures IsPointWithRadiusOnNegativeSide(pl, p, 0.0) <==> !IsPointOnPositiveSide(pl, p)
    ensures r >= 0.0 && IsPointOnPositiveSide(pl, p) ==> IsPointWithRadiusOnPositiveSide(pl, p, r)
    ensures IsPointWithRadiusOnNegativeSide(pl, p, r) <==> SignedDistance(pl, p) < r
  {
  }

  /** `SegmentIntersects(A, B)`: the two endpoints are on different sides. */
  predicate SegmentIntersects(pl: Plane, a: Vec3, b: Vec3) {
    IsPointOnPositiveSide(pl, a) != IsPointOnPositiveSide(pl, b)
  }

  /** The crossing test does not depend on the direction of the segment and fails for endpoints on one side. */
  lemma SegmentIntersectsSymmetric(pl: Plane, a: Vec3, b: Vec3)
    ensures SegmentIntersects(pl, a, b) <==> SegmentIntersects(pl, b, a)
    ensures IsPointOnPositiveSide(pl, a) == IsPointOnPositiveSide(pl, b) ==> !SegmentIntersects(pl, a, b)
    ensures !SegmentIntersects(pl, a, a)
  {
  }

  /** The factor along AB at which the line meets the plane. */
  function CrossingFactor(pl: Plane, a: Vec3, b: Vec3): real
    requires Dot(Sub(b, a), pl.normal) != 0.0
  {
    Dot(Sub(pl.point, a), pl.normal) / Dot(Sub(b, a), pl.normal)
  }

  /**
   * `LineIntersectionPoint(A, B)`: `A + AB * f`.  The source assumes the
   * line is not parallel to the plane; that is its precondition here.  For
   * a consistent plane the result lies on the plane.
   */
  function LineIntersectionPoint(pl: Plane, a: Vec3, b: Vec3): (p: Vec3)
    requires Dot(Sub(b, a), pl.normal) != 0.0
    ensures p == Add(a, Scale(Sub(b, a), CrossingFactor(pl, a, b)))
    ensures Consistent(pl) ==> SignedDistance(pl, p) == 0.0
  {
    var ab := Sub(b, a);
    var f := CrossingFactor(pl, a, b);
    var p := Add(a, Scale(ab, f));
    OnPlane(pl, a, b, f, p);
    p
  }

  /** The point at factor `f` along AB has signed distance `sA + f * (sB - sA)`. */
  lemma SignedDistanceAlong(pl: Plane, a: Vec3, b: Vec3, f: real, p: Vec3)
    requires p == Add(a, Scale(Sub(b, a), f))
    ensures SignedDistance(pl, p) == SignedDistance(pl, a) + f * Dot(Sub(b, a), pl.normal)
  {
    var n, ab := pl.normal, Sub(b, a);
    AlongPolynomial(n.x, n.y, n.z, a.x, a.y, a.z, ab.x, ab.y, ab.z, f);
  }

  lemma AlongPolynomial(nx: real, ny: real, nz: real, ax: real, ay: real, az: real,
                        ux: real, uy: real, uz: real, f: real)
    ensures nx * (ax + ux * f) + ny * (ay + uy * f) + nz * (az + uz * f)
         == (nx * ax + ny * ay + nz * az) + f * (ux * nx + uy * ny + uz * nz)
  {
  }

  /** On a consistent plane, `dot(point - A, normal)` is minus the signed distance of A. */
  lemma OffsetIsNegatedDistance(pl: Plane, a: Vec3)
    requires Consistent(pl)
    ensures Dot(Sub(pl.point, a), pl.normal) == -SignedDistance(pl, a)
  {
    var n, q := pl.normal, pl.point;
    OffsetPolynomial(n.x, n.y, n.z, q.x, q.y, q.z, a.x, a.y, a.z);
  }

  lemma OffsetPolynomial(nx: real, ny: real, nz: real, qx: real, qy: real, qz: real,
                         ax: real, ay: real, az: real)
    ensures (qx - ax) * nx + (qy - ay) * ny + (qz - az) * nz
         == -((nx * ax + ny * ay + nz * az) + -(nx * qx + ny * qy + nz * qz))
  {
  }

  /** The direction's dot product with the normal is the change in signed distance. */
  lemma DirectionIsDistanceChange(pl: Plane, a: Vec3, b: Vec3)
    ensures Dot(Sub(b, a), pl.normal) == SignedDistance(pl, b) - SignedDistance(pl, a)
  {
    var n := pl.normal;
    DifferencePolynomial(n.x, n.y, n.z, a.x, a.y, a.z, b.x, b.y, b.z);
  }

  lemma DifferencePolynomial(nx: real, ny: real, nz: real, ax: real, ay: real, az: real,
                             bx: real, by_: real, bz: real)
    ensures (bx - ax) * nx + (by_ - ay) * ny + (bz - az) * nz
         == (nx * bx + ny * by_ + nz * bz) - (nx * ax + ny * ay + nz * az)
  {
  }

  lemma OnPlane(pl: Plane, a: Vec3, b: Vec3, f: real, p: Vec3)
    requires Dot(Sub(b, a), pl.normal) != 0.0
    requires f == CrossingFactor(pl, a, b) && p == Add(a, Scale(Sub(b, a), f))
    ensures Consistent(pl) ==> SignedDistance(pl, p) == 0.0
  {
    if Consistent(pl) {
      SignedDistanceAlong(pl, a, b, f, p);
      OffsetIsNegatedDistance(pl, a);
      FactorTimesDenominator(Dot(Sub(pl.point, a), pl.normal), Dot(Sub(b, a), pl.normal), f);
    }
  }

  lemma FactorTimesDenominator(num: real, den: real, f: real)
    requires den != 0.0 && f == num / den
    ensures f * den == num
  {
  }

  /**
   * When the segment crosses a consistent plane, the line is not parallel to
   * it, the crossing factor lies in [0, 1] and the crossing point is on the
   * plane: the point is on the segment AB and on the plane.
   */
  lemma CrossingOnSegment(pl: Plane, a: Vec3, b: Vec3)
    requires Consistent(pl) && SegmentIntersects(pl, a, b)
    ensures Dot(Sub(b, a), pl.normal) != 0.0
    ensures 0.0 <= CrossingFactor(pl, a, b) <= 1.0
    ensures SignedDistance(pl, LineIntersectionPoint(pl, a, b)) == 0.0
  {
    DirectionIsDistanceChange(pl, a, b);
    OffsetIsNegatedDistance(pl, a);
    FactorInUnit(SignedDistance(pl, a), SignedDistance(pl, b), CrossingFactor(pl, a, b));
  }

  lemma FactorInUnit(sa: real, sb: real, f: real)
    requires (sa >= 0.0 && sb < 0.0) || (sa < 0.0 && sb >= 0.0)
    requires f == -sa / (sb - sa)
    ensures 0.0 <= f <= 1.0
  {
    if sa >= 0.0 {
      assert f == sa / (sa - sb);
    } else {
      assert f == (-sa) / (sb - sa);
    }
  }

  /**
   * A plane through the origin whose normal is a positive multiple of `c`,
   * or the negation of one, sorts points by the sign of their dot product
   * with `c`.
   */
  lemma ScaledNormalSide(c: Vec3, n: Vec3, k: real, p: Vec3)
    requires k > 0.0 && n == Scale(c, k)
    ensures IsPointOnPositiveSide(MakePlane(Zero, n), p) <==> Dot(c, p) >= 0.0
  {
    DotScaledSigns(c, k, p);
    ThroughOrigin(n);
  }

  lemma NegatedNormalSide(c: Vec3, n: Vec3, k: real, p: Vec3)
    requires k > 0.0 && n == Neg(Scale(c, k))
    ensures IsPointOnPositiveSide(MakePlane(Zero, n), p) <==> Dot(c, p) <= 0.0
  {
    DotScaledSigns(c, k, p);
    ThroughOrigin(n);
  }

  /** A plane through the origin has `d` zero. */
  lemma ThroughOrigin(n: Vec3)
    ensures MakePlane(Zero, n).d == 0.0
  {
  }

  /** Scaling a vector by a positive factor keeps the sign of its dot products; negating it flips them. */
  lemma DotScaledSigns(c: Vec3, k: real, p: Vec3)
    requires k > 0.0
    ensures Dot(Scale(c, k), p) >= 0.0 <==> Dot(c, p) >= 0.0
    ensures Dot(Neg(Scale(c, k)), p) >= 0.0 <==> Dot(c, p) <= 0.0
  {
    ScaledDot(c.x, c.y, c.z, k, p.x, p.y, p.z);
    ScaledDot(-c.x, -c.y, -c.z, k, p.x, p.y, p.z);
    SignOfPositiveMultiple(k, Dot(c, p));
  }

  lemma SignOfPositiveMultiple(k: real, x: real)
    requires k > 0.0
    ensures k * x >= 0.0 <==> x >= 0.0
    ensures k * x <= 0.0 <==> x <= 0.0
  {
    if x < 0.0 {
      PositiveTimesNegative(k, x);
    }
    if x > 0.0 {
      assert k * x > 0.0;
    }
  }

  lemma ScaledDot(cx: real, cy: real, cz: real, k: real, px: real, py: real, pz: real)
    ensures (cx * k) * px + (cy * k) * py + (cz * k) * pz == k * (cx * px + cy * py + cz * pz)
  {
  }

  lemma PositiveTimesNegative(k: real, x: real)
    requires k > 0.0 && x < 0.0
    ensures k * x < 0.0
  {
  }
}
