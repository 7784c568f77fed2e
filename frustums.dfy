/**
 * `RectangleFrustum`: the six clip planes of a camera (near, far, up, down,
 * left, right, in that order) with the half-space tests, segment clipping
 * and the start of triangle clipping built on them.  The "positive side" of
 * a plane is meant to be outside the frustum.
 */
module Frustums {
  import opened Vec3Math
  import Vec2Math
  import opened Planes
  import opened Triangles
  import opened Options

  const PlaneCount := 6

  // ---- specification over the sequence of planes ----

  /** No plane has `p` on its positive side; a point on a plane counts as outside. */
  predicate Inside(planes: seq<Plane>, p: Vec3) {
    forall i :: 0 <= i < |planes| ==> !IsPointOnPositiveSide(planes[i], p)
  }

  /** Like `Inside`, but ignoring plane `skip` (the plane a crossing point lies on). */
  predicate InsideExcept(planes: seq<Plane>, p: Vec3, skip: int) {
    forall i :: 0 <= i < |planes| && i != skip ==> !IsPointOnPositiveSide(planes[i], p)
  }

  /** A sphere test: every plane has the centre below the radius in signed distance. */
  predicate SpherePartlyInside(planes: seq<Plane>, center: Vec3, radius: real) {
    forall i :: 0 <= i < |planes| ==> IsPointWithRadiusOnNegativeSide(planes[i], center, radius)
  }

  /** A sphere test: no plane has the centre within the radius of its positive side. */
  predicate SphereCompletelyInside(planes: seq<Plane>, center: Vec3, radius: real) {
    forall i :: 0 <= i < |planes| ==> !IsPointWithRadiusOnPositiveSide(planes[i], center, radius)
  }

  /**
   * A whole sphere inside is also partly inside, and a sphere of radius 0
   * is partly inside exactly when its centre is inside.
   */
  lemma SphereTests(planes: seq<Plane>, center: Vec3, radius: real)
    ensures radius >= 0.0 && SphereCompletelyInside(planes, center, radius) ==> SpherePartlyInside(planes, center, radius)
    ensures SpherePartlyInside(planes, center, 0.0) <==> Inside(planes, center)
    ensures SphereCompletelyInside(planes, center, 0.0) <==> Inside(planes, center)
  {
  }

  /** A crossing plane is never parallel to the segment. */
  lemma CrossingNotParallel(pl: Plane, a: Vec3, b: Vec3)
    requires SegmentIntersects(pl, a, b)
    ensures Dot(Sub(b, a), pl.normal) != 0.0
  {
    DirectionIsDistanceChange(pl, a, b);
  }

  /** The crossing point of a segment with a plane it crosses. */
  function CrossingPoint(pl: Plane, a: Vec3, b: Vec3): Vec3
    requires SegmentIntersects(pl, a, b)
  {
    CrossingNotParallel(pl, a, b);
    LineIntersectionPoint(pl, a, b)
  }

  /** The crossing points with planes `from` onward, in plane order. */
  function CrossingsFrom(planes: seq<Plane>, a: Vec3, b: Vec3, from: nat): seq<Vec3>
    requires from <= |planes|
    decreases |planes| - from
  {
    if from == |planes| then []
    else if SegmentIntersects(planes[from], a, b) then [CrossingPoint(planes[from], a, b)] + CrossingsFrom(planes, a, b, from + 1)
    else CrossingsFrom(planes, a, b, from + 1)
  }

  /** A plane whose crossing point is not outside any of the other planes. */
  predicate Qualifies(planes: seq<Plane>, a: Vec3, b: Vec3, i: int)
    requires 0 <= i < |planes|
  {
    SegmentIntersects(planes[i], a, b) && InsideExcept(planes, CrossingPoint(planes[i], a, b), i)
  }

  /** The indices of the qualifying planes from `from` onward, in plane order. */
  function QualifyingFrom(planes: seq<Plane>, a: Vec3, b: Vec3, from: nat): (q: seq<int>)
    requires from <= |planes|
    ensures forall k :: 0 <= k < |q| ==> from <= q[k] < |planes| && SegmentIntersects(planes[q[k]], a, b)
    decreases |planes| - from
  {
    if from == |planes| then []
    else if Qualifies(planes, a, b, from) then [from] + QualifyingFrom(planes, a, b, from + 1)
    else QualifyingFrom(planes, a, b, from + 1)
  }

  /**
   * `QualifyingFrom` lists exactly the qualifying planes from `from` on,
   * each once, in increasing order.
   */
  lemma QualifyingFromExact(planes: seq<Plane>, a: Vec3, b: Vec3, from: nat)
    requires from <= |planes|
    ensures forall k :: 0 <= k < |QualifyingFrom(planes, a, b, from)| ==>
              Qualifies(planes, a, b, QualifyingFrom(planes, a, b, from)[k])
    ensures forall k, l :: 0 <= k < l < |QualifyingFrom(planes, a, b, from)| ==>
              QualifyingFrom(planes, a, b, from)[k] < QualifyingFrom(planes, a, b, from)[l]
    ensures forall i :: from <= i < |planes| && Qualifies(planes, a, b, i) ==> i in QualifyingFrom(planes, a, b, from)
  {
    QualifyingEntries(planes, a, b, from);
    QualifyingComplete(planes, a, b, from);
  }

  /** Every listed plane qualifies, and the list is strictly increasing. */
  lemma {:induction false} QualifyingEntries(planes: seq<Plane>, a: Vec3, b: Vec3, from: nat)
    requires from <= |planes|
    ensures forall k :: 0 <= k < |QualifyingFrom(planes, a, b, from)| ==>
              Qualifies(planes, a, b, QualifyingFrom(planes, a, b, from)[k])
    ensures forall k, l :: 0 <= k < l < |QualifyingFrom(planes, a, b, from)| ==>
              QualifyingFrom(planes, a, b, from)[k] < QualifyingFrom(planes, a, b, from)[l]
    decreases |planes| - from
  {
    if from < |planes| {
      QualifyingEntries(planes, a, b, from + 1);
      var rest := QualifyingFrom(planes, a, b, from + 1);
      if Qualifies(planes, a, b, from) {
        var q := [from] + rest;
        assert QualifyingFrom(planes, a, b, from) == q;
        assert forall k :: 1 <= k < |q| ==> q[k] == rest[k - 1];
      }
    }
  }

  /** Every qualifying plane from `from` on is listed. */
  lemma {:induction false} QualifyingComplete(planes: seq<Plane>, a: Vec3, b: Vec3, from: nat)
    requires from <= |planes|
    ensures forall i :: from <= i < |planes| && Qualifies(planes, a, b, i) ==> i in QualifyingFrom(planes, a, b, from)
    decreases |planes| - from
  {
    if from < |planes| {
      QualifyingComplete(planes, a, b, from + 1);
      QualifyingStep(planes, a, b, from);
    }
  }

  /** One step of `QualifyingFrom`: plane `from` is listed first exactly when it qualifies. */
  lemma QualifyingStep(planes: seq<Plane>, a: Vec3, b: Vec3, from: nat)
    requires from < |planes|
    ensures QualifyingFrom(planes, a, b, from)
         == (if Qualifies(planes, a, b, from) then [from] else []) + QualifyingFrom(planes, a, b, from + 1)
  {
  }

  /** A plane that does not qualify adds nothing to the qualifying list. */
  lemma SkipNotQualifying(planes: seq<Plane>, a: Vec3, b: Vec3, used: seq<int>, i: nat)
    requires i < |planes| && !Qualifies(planes, a, b, i)
    requires used + QualifyingFrom(planes, a, b, i) == QualifyingFrom(planes, a, b, 0)
    ensures used + QualifyingFrom(planes, a, b, i + 1) == QualifyingFrom(planes, a, b, 0)
  {
    QualifyingStep(planes, a, b, i);
  }

  /** A qualifying plane is the next entry of the qualifying list. */
  lemma TakeQualifying(planes: seq<Plane>, a: Vec3, b: Vec3, used: seq<int>, i: nat)
    requires i < |planes| && Qualifies(planes, a, b, i)
    requires used + QualifyingFrom(planes, a, b, i) == QualifyingFrom(planes, a, b, 0)
    ensures (used + [i]) + QualifyingFrom(planes, a, b, i + 1) == QualifyingFrom(planes, a, b, 0)
  {
    QualifyingStep(planes, a, b, i);
    assert (used + [i]) + QualifyingFrom(planes, a, b, i + 1) == used + ([i] + QualifyingFrom(planes, a, b, i + 1));
  }

  /** After one qualifying plane, the next qualifying plane is the second entry of the list. */
  lemma SecondQualifying(planes: seq<Plane>, a: Vec3, b: Vec3, used: seq<int>, i: nat)
    requires i < |planes| && Qualifies(planes, a, b, i) && |used| == 1
    requires used + QualifyingFrom(planes, a, b, i) == QualifyingFrom(planes, a, b, 0)
    ensures |QualifyingFrom(planes, a, b, 0)| >= 2
    ensures QualifyingFrom(planes, a, b, 0)[0] == used[0] && QualifyingFrom(planes, a, b, 0)[1] == i
  {
    QualifyingStep(planes, a, b, i);
  }

  /**
   * What the loop of `ClipSegment` leaves behind: the crossings of the
   * first qualifying planes in plane order, at most two of them (fewer
   * only when fewer planes qualify), and the index of the first plane.
   */
  predicate CollectedCrossings(planes: seq<Plane>, a: Vec3, b: Vec3, found: seq<Vec3>, index: int) {
    var q := QualifyingFrom(planes, a, b, 0);
    |found| <= 2 && (|found| < 2 ==> |found| == |q|) && (|found| == 2 ==> |q| >= 2) &&
    (|found| >= 1 ==> index == q[0] && found[0] == CrossingPoint(planes[q[0]], a, b)) &&
    (|found| == 2 ==> found[1] == CrossingPoint(planes[q[1]], a, b))
  }

  /** `ClipSegment`'s loop stopping at a second qualifying plane has collected what it should. */
  lemma CollectedSecond(planes: seq<Plane>, a: Vec3, b: Vec3, used: seq<int>, i: nat,
                        first: Vec3, second: Vec3, index: int)
    requires i < |planes| && Qualifies(planes, a, b, i) && |used| == 1
    requires used + QualifyingFrom(planes, a, b, i) == QualifyingFrom(planes, a, b, 0)
    requires index == used[0] && 0 <= index < |planes| && SegmentIntersects(planes[index], a, b)
    requires first == CrossingPoint(planes[index], a, b) && second == CrossingPoint(planes[i], a, b)
    ensures CollectedCrossings(planes, a, b, [first, second], index)
  {
    SecondQualifying(planes, a, b, used, i);
  }

  /** `ClipSegment`'s loop running through every plane has collected what it should. */
  lemma CollectedAll(planes: seq<Plane>, a: Vec3, b: Vec3, used: seq<int>, found: seq<Vec3>, index: int)
    requires used + QualifyingFrom(planes, a, b, |planes|) == QualifyingFrom(planes, a, b, 0)
    requires |found| == |used| <= 1
    requires |used| == 1 ==> index == used[0] && 0 <= index < |planes| && SegmentIntersects(planes[index], a, b)
    requires |used| == 1 ==> found[0] == CrossingPoint(planes[index], a, b)
    ensures CollectedCrossings(planes, a, b, found, index)
  {
    assert used == QualifyingFrom(planes, a, b, 0);
  }

  /** `FrustumIntersectionPoint` as a value: the first qualifying crossing, else the zero vector. */
  function FirstFrustumCrossing(planes: seq<Plane>, a: Vec3, b: Vec3): Vec3 {
    var q := QualifyingFrom(planes, a, b, 0);
    if |q| == 0 then Zero else CrossingPoint(planes[q[0]], a, b)
  }

  /**
   * `ClipSegment` as a value: none without a qualifying crossing; with
   * exactly one, that crossing replaces the endpoint on the plane's
   * positive side; otherwise the first two crossings.
   */
  function ClippedSegment(planes: seq<Plane>, a: Vec3, b: Vec3): Option<(Vec3, Vec3)> {
    var q := QualifyingFrom(planes, a, b, 0);
    if |q| == 0 then None
    else if |q| == 1 then
      var p := CrossingPoint(planes[q[0]], a, b);
      if IsPointOnPositiveSide(planes[q[0]], a) then Some((p, b)) else Some((a, p))
    else Some((CrossingPoint(planes[q[0]], a, b), CrossingPoint(planes[q[1]], a, b)))
  }

  /**
   * When both endpoints are inside, no plane separates them, so there is no
   * crossing at all and `ClipSegment` has nothing to return.
   */
  lemma BothInsideHasNoCrossing(planes: seq<Plane>, a: Vec3, b: Vec3)
    requires Inside(planes, a) && Inside(planes, b)
    ensures CrossingsFrom(planes, a, b, 0) == []
    ensures ClippedSegment(planes, a, b) == None
  {
    NoCrossingsFrom(planes, a, b, 0);
  }

  lemma {:induction false} NoCrossingsFrom(planes: seq<Plane>, a: Vec3, b: Vec3, from: nat)
    requires from <= |planes| && Inside(planes, a) && Inside(planes, b)
    ensures CrossingsFrom(planes, a, b, from) == []
    decreases |planes| - from
  {
    if from < |planes| {
      NoCrossingsFrom(planes, a, b, from + 1);
    }
  }

  /** Every crossing point comes from a plane the segment crosses; there is at most one per plane. */
  lemma {:induction false} CrossingsFromPlanes(planes: seq<Plane>, a: Vec3, b: Vec3, from: nat)
    requires from <= |planes|
    ensures |CrossingsFrom(planes, a, b, from)| <= |planes| - from
    ensures forall p :: p in CrossingsFrom(planes, a, b, from) ==>
              exists i :: from <= i < |planes| && SegmentIntersects(planes[i], a, b) && p == CrossingPoint(planes[i], a, b)
    decreases |planes| - from
  {
    if from < |planes| {
      CrossingsFromPlanes(planes, a, b, from + 1);
    }
  }

  /**
   * On consistent planes, each end of a clipped segment is an original
   * endpoint or a crossing point that lies on its plane, inside the other
   * planes and on the segment AB.
   */
  lemma ClippedEndsOnPlanes(planes: seq<Plane>, a: Vec3, b: Vec3)
    requires forall i :: 0 <= i < |planes| ==> Consistent(planes[i])
    ensures ClippedSegment(planes, a, b).Some? ==>
              var (c, d) := ClippedSegment(planes, a, b).value;
              EndOf(planes, a, b, c) && EndOf(planes, a, b, d)
  {
    var q := QualifyingFrom(planes, a, b, 0);
    QualifyingFromExact(planes, a, b, 0);
    if |q| >= 1 {
      CrossingOnSegment(planes[q[0]], a, b);
      assert Qualifies(planes, a, b, q[0]);
      assert EndOf(planes, a, b, CrossingPoint(planes[q[0]], a, b));
    }
    if |q| >= 2 {
      CrossingOnSegment(planes[q[1]], a, b);
      assert Qualifies(planes, a, b, q[1]);
      assert EndOf(planes, a, b, CrossingPoint(planes[q[1]], a, b));
    }
  }

  /** `p` is A, B, or a crossing of some plane i lying on plane i, inside the others and on AB. */
  predicate EndOf(planes: seq<Plane>, a: Vec3, b: Vec3, p: Vec3) {
    p == a || p == b ||
    exists i :: 0 <= i < |planes| && SegmentIntersects(planes[i], a, b) && p == CrossingPoint(planes[i], a, b) &&
      SignedDistance(planes[i], p) == 0.0 && InsideExcept(planes, p, i) && 0.0 <= CrossingFactor(planes[i], a, b) <= 1.0
  }


  // ---- triangle clipping ----

  /** The plain triangle record the clipper works on: vertex indices, a normal and a colour vector. */
  datatype ClipTriangle = ClipTriangle(indices: seq<int>, normal: Vec3, color: Vec3)

  /** Every index of every triangle names a vertex (the source indexes the per-vertex flags with them). */
  predicate IndicesInRange(vertices: seq<Vec3>, triangles: seq<ClipTriangle>) {
    forall k, j :: 0 <= k < |triangles| && 0 <= j < |triangles[k].indices| ==>
      0 <= triangles[k].indices[j] < |vertices|
  }

  /** The indices in `indices` whose vertex is inside, in their original order. */
  function InsideIndices(planes: seq<Plane>, vertices: seq<Vec3>, indices: seq<int>): (r: seq<int>)
    requires forall j :: 0 <= j < |indices| ==> 0 <= indices[j] < |vertices|
    ensures |r| <= |indices|
  {
    if indices == [] then []
    else
      var last := indices[|indices| - 1];
      InsideIndices(planes, vertices, indices[..|indices| - 1]) + (if Inside(planes, vertices[last]) then [last] else [])
  }

  /** `InsideIndices` keeps exactly the indices of inside vertices. */
  lemma {:induction false} InsideIndicesExact(planes: seq<Plane>, vertices: seq<Vec3>, indices: seq<int>)
    requires forall j :: 0 <= j < |indices| ==> 0 <= indices[j] < |vertices|
    ensures forall j :: 0 <= j < |InsideIndices(planes, vertices, indices)| ==>
              InsideIndices(planes, vertices, indices)[j] in indices &&
              Inside(planes, vertices[InsideIndices(planes, vertices, indices)[j]])
    ensures forall j :: 0 <= j < |indices| && Inside(planes, vertices[indices[j]]) ==>
              indices[j] in InsideIndices(planes, vertices, indices)
  {
    if indices != [] {
      var n := |indices| - 1;
      InsideIndicesExact(planes, vertices, indices[..n]);
      assert indices == indices[..n] + [indices[n]];
    }
  }

  /** A triangle is kept whole when its indices name vertices and three of those are inside. */
  predicate KeptWhole(planes: seq<Plane>, vertices: seq<Vec3>, t: ClipTriangle) {
    (forall j :: 0 <= j < |t.indices| ==> 0 <= t.indices[j] < |vertices|) &&
    |InsideIndices(planes, vertices, t.indices)| == 3
  }

  /** The triangles kept whole, in their original order. */
  function KeptTriangles(planes: seq<Plane>, vertices: seq<Vec3>, triangles: seq<ClipTriangle>): seq<ClipTriangle>
  {
    if triangles == [] then []
    else
      var n := |triangles| - 1;
      KeptTriangles(planes, vertices, triangles[..n]) + (if KeptWhole(planes, vertices, triangles[n]) then [triangles[n]] else [])
  }

  /**
   * The kept triangles are exactly the input triangles kept whole: each
   * output triangle is an unchanged input triangle with three inside
   * vertices, and each such input triangle appears in the output.
   */
  lemma {:induction false} KeptTrianglesExact(planes: seq<Plane>, vertices: seq<Vec3>, triangles: seq<ClipTriangle>)
    ensures |KeptTriangles(planes, vertices, triangles)| <= |triangles|
    ensures forall t :: t in KeptTriangles(planes, vertices, triangles) ==> t in triangles && KeptWhole(planes, vertices, t)
    ensures forall t :: t in triangles && KeptWhole(planes, vertices, t) ==> t in KeptTriangles(planes, vertices, triangles)
  {
    if triangles != [] {
      var n := |triangles| - 1;
      KeptTrianglesExact(planes, vertices, triangles[..n]);
      assert triangles == triangles[..n] + [triangles[n]];
    }
  }

  /**
   * For a triangle of three indices, being kept whole means all three
   * vertices are inside; so a triangle with no inside vertex is dropped.
   */
  lemma KeptWholeIffAllInside(planes: seq<Plane>, vertices: seq<Vec3>, t: ClipTriangle)
    requires |t.indices| == 3 && forall j :: 0 <= j < 3 ==> 0 <= t.indices[j] < |vertices|
    ensures KeptWhole(planes, vertices, t) <==> forall j :: 0 <= j < 3 ==> Inside(planes, vertices[t.indices[j]])
  {
    var s := t.indices;
    assert s[..3] == s && s[..3][..2] == s[..2] && s[..2][..1] == s[..1] && s[..1][..0] == [];
    var f0 := if Inside(planes, vertices[s[0]]) then [s[0]] else [];
    var f1 := if Inside(planes, vertices[s[1]]) then [s[1]] else [];
    var f2 := if Inside(planes, vertices[s[2]]) then [s[2]] else [];
    assert InsideIndices(planes, vertices, s[..1]) == f0;
    assert InsideIndices(planes, vertices, s[..2]) == f0 + f1;
    assert InsideIndices(planes, vertices, s) == f0 + f1 + f2;
  }

  // ---- construction ----

  /**
   * The near and far planes as the constructor writes them: placed along
   * `Vec3.forward`, which is (0, 0, -1), the near plane facing `back` and
   * the far plane facing `forward`.
   */
  function NearPlaneAsWritten(nearDistance: real): Plane { MakePlane(Scale(Forward, nearDistance), Back) }

  function FarPlaneAsWritten(farDistance: real): Plane { MakePlane(Scale(Forward, farDistance), Forward) }

  /**
   * The near and far planes on the side of positive depth, where the side
   * planes open and where the renderer measures depth: the near plane at
   * `nearDistance` facing the camera, the far plane at `farDistance`
   * facing away from it.
   */
  function NearPlane(nearDistance: real): Plane { MakePlane(Scale(Back, nearDistance), Forward) }

  function FarPlane(farDistance: real): Plane { MakePlane(Scale(Back, farDistance), Back) }

  /**
   * The edge cross products the side planes take their normals from, for
   * half viewport size `half` at distance `distance` on the view axis.
   */
  function UpCross(half: Vec2Math.Vec2, distance: real): Vec3 {
    Cross(Add(Scale(Forward, distance), Scale(Up, half.y)), Right)
  }

  function DownCross(half: Vec2Math.Vec2, distance: real): Vec3 {
    Cross(Add(Scale(Forward, distance), Scale(Down, half.y)), Left)
  }

  function LeftCross(half: Vec2Math.Vec2, distance: real): Vec3 {
    Cross(Add(Scale(Forward, distance), Scale(Left, half.x)), Up)
  }

  function RightCross(half: Vec2Math.Vec2, distance: real): Vec3 {
    Cross(Add(Scale(Forward, distance), Scale(Right, half.x)), Down)
  }

  /** Half of the viewport size. */
  function Half(viewPortSize: Vec2Math.Vec2): Vec2Math.Vec2 { Vec2Math.Div(viewPortSize, 2.0) }

  /** The four side planes: through the camera, with `normalized()` of the edge cross products. */
  function SidePlanes(half: Vec2Math.Vec2, distance: real, normalize: Vec3 -> Vec3): seq<Plane> {
    [MakePlane(Zero, normalize(UpCross(half, distance))),
     MakePlane(Zero, normalize(DownCross(half, distance))),
     MakePlane(Zero, normalize(LeftCross(half, distance))),
     MakePlane(Zero, normalize(RightCross(half, distance)))]
  }

  /** The six planes as the constructor writes them. */
  function FrustumPlanesAsWritten(viewPortSize: Vec2Math.Vec2, distance: real, nearDistance: real,
                                  farDistance: real, normalize: Vec3 -> Vec3): (planes: seq<Plane>)
    ensures |planes| == PlaneCount
    ensures planes[2..] == SidePlanes(Half(viewPortSize), distance, normalize)
  {
    [NearPlaneAsWritten(nearDistance), FarPlaneAsWritten(farDistance)] +
    SidePlanes(Half(viewPortSize), distance, normalize)
  }

  /**
   * The six planes with the near and far planes on the side of positive
   * depth; the side planes are as written.
   */
  function FrustumPlanes(viewPortSize: Vec2Math.Vec2, distance: real, nearDistance: real,
                         farDistance: real, normalize: Vec3 -> Vec3): (planes: seq<Plane>)
    ensures |planes| == PlaneCount
    ensures forall i :: 0 <= i < |planes| ==> Consistent(planes[i])
    ensures planes[2..] == SidePlanes(Half(viewPortSize), distance, normalize)
  {
    [NearPlane(nearDistance), FarPlane(farDistance)] + SidePlanes(Half(viewPortSize), distance, normalize)
  }

  /** `normalize` keeps the direction of `v`: it scales by some positive factor. */
  ghost predicate KeepsDirection(normalize: Vec3 -> Vec3, v: Vec3) {
    exists k: real :: k > 0.0 && normalize(v) == Scale(v, k)
  }

  /** `normalize` keeps the direction of all four edge cross products. */
  ghost predicate KeepsSideDirections(normalize: Vec3 -> Vec3, half: Vec2Math.Vec2, distance: real) {
    KeepsDirection(normalize, UpCross(half, distance)) && KeepsDirection(normalize, DownCross(half, distance)) &&
    KeepsDirection(normalize, LeftCross(half, distance)) && KeepsDirection(normalize, RightCross(half, distance))
  }

  /**
   * As written, the side planes open towards positive depth while the near
   * plane admits only negative depth: for a viewport of non-negative height
   * at a positive distance and a near plane in front of the camera, no
   * point at all is inside.
   */
  lemma AsWrittenNothingInside(viewPortSize: Vec2Math.Vec2, distance: real, nearDistance: real,
                               farDistance: real, normalize: Vec3 -> Vec3, p: Vec3)
    requires viewPortSize.y >= 0.0 && distance > 0.0 && nearDistance >= 0.0
    requires KeepsDirection(normalize, UpCross(Half(viewPortSize), distance))
    requires KeepsDirection(normalize, DownCross(Half(viewPortSize), distance))
    ensures !Inside(FrustumPlanesAsWritten(viewPortSize, distance, nearDistance, farDistance, normalize), p)
  {
    var planes := FrustumPlanesAsWritten(viewPortSize, distance, nearDistance, farDistance, normalize);
    var half := Half(viewPortSize);
    if Inside(planes, p) {
      assert !IsPointOnPositiveSide(planes[0], p);
      assert !IsPointOnPositiveSide(planes[2], p);
      assert !IsPointOnPositiveSide(planes[3], p);
      NearSideAsWritten(nearDistance, p);
      UpDownNormalised(half, distance, normalize, p);
    }
  }

  /** At negative depth, no point is on the negative side of both the up and the down plane. */
  lemma UpDownNormalised(half: Vec2Math.Vec2, distance: real, normalize: Vec3 -> Vec3, p: Vec3)
    requires half.y >= 0.0 && distance > 0.0 && p.z < 0.0
    requires KeepsDirection(normalize, UpCross(half, distance))
    requires KeepsDirection(normalize, DownCross(half, distance))
    ensures IsPointOnPositiveSide(MakePlane(Zero, normalize(UpCross(half, distance))), p) ||
            IsPointOnPositiveSide(MakePlane(Zero, normalize(DownCross(half, distance))), p)
  {
    CrossShapes(half, distance);
    OpposedPair(UpCross(half, distance), DownCross(half, distance), half.y, p);
    OpposedPairClash(UpCross(half, distance), DownCross(half, distance), normalize, p);
  }

  /**
   * Two vectors `(0, -d, -h)` and `(0, d, -h)` with `h >= 0`: their dot
   * products with a point at negative depth add up to `-2 h z >= 0`.
   */
  lemma OpposedPair(u: Vec3, dn: Vec3, h: real, p: Vec3)
    requires u.x == 0.0 && dn.x == 0.0 && u.y == -dn.y && u.z == -h && dn.z == -h
    requires h >= 0.0 && p.z < 0.0
    ensures Dot(u, p) + Dot(dn, p) >= 0.0
  {
    assert Dot(u, p) + Dot(dn, p) == -2.0 * (h * p.z);
    assert h * p.z <= 0.0;
  }

  /**
   * Planes through the camera with normals along `u` and `dn`, whose dot
   * products with a point add up to a non-negative amount, cannot both
   * have the point on their negative side.
   */
  lemma OpposedPairClash(u: Vec3, dn: Vec3, normalize: Vec3 -> Vec3, p: Vec3)
    requires KeepsDirection(normalize, u) && KeepsDirection(normalize, dn)
    requires Dot(u, p) + Dot(dn, p) >= 0.0
    ensures IsPointOnPositiveSide(MakePlane(Zero, normalize(u)), p) ||
            IsPointOnPositiveSide(MakePlane(Zero, normalize(dn)), p)
  {
    NormalisedSide(u, normalize, p);
    NormalisedSide(dn, normalize, p);
  }

  /** The factor `normalize` scales a vector by. */
  lemma DirectionFactor(normalize: Vec3 -> Vec3, c: Vec3) returns (k: real)
    requires KeepsDirection(normalize, c)
    ensures k > 0.0 && normalize(c) == Scale(c, k)
  {
    k :| k > 0.0 && normalize(c) == Scale(c, k);
  }

  /**
   * A plane through the camera whose normal is `normalize(c)`, or its
   * negation, sorts points by the sign of their dot product with `c`.
   */
  lemma NormalisedSide(c: Vec3, normalize: Vec3 -> Vec3, p: Vec3)
    requires KeepsDirection(normalize, c)
    ensures IsPointOnPositiveSide(MakePlane(Zero, normalize(c)), p) <==> Dot(c, p) >= 0.0
    ensures IsPointOnPositiveSide(MakePlane(Zero, Neg(normalize(c))), p) <==> Dot(c, p) <= 0.0
  {
    var k := DirectionFactor(normalize, c);
    ScaledNormalSide(c, Scale(c, k), k, p);
    NegatedNormalSide(c, Neg(Scale(c, k)), k, p);
  }

  /** As written, a point on the negative side of the near plane has negative depth beyond it. */
  lemma NearSideAsWritten(nearDistance: real, p: Vec3)
    ensures !IsPointOnPositiveSide(NearPlaneAsWritten(nearDistance), p) <==> p.z + nearDistance < 0.0
  {
  }

  /** A point is on the negative side of the near and the far plane exactly when its depth lies between them. */
  lemma DepthSides(nearDistance: real, farDistance: real, p: Vec3)
    ensures !IsPointOnPositiveSide(NearPlane(nearDistance), p) <==> nearDistance < p.z
    ensures !IsPointOnPositiveSide(FarPlane(farDistance), p) <==> p.z < farDistance
  {
    assert Dot(NearPlane(nearDistance).normal, p) + NearPlane(nearDistance).d == nearDistance - p.z;
    assert Dot(FarPlane(farDistance).normal, p) + FarPlane(farDistance).d == p.z - farDistance;
  }

  /**
   * A point is on the negative side of the four side planes exactly when
   * it lies within the viewport's pyramid: `|y| * distance < half.y * z`
   * and `|x| * distance < half.x * z`, written without absolute values.
   */
  lemma SideSides(half: Vec2Math.Vec2, distance: real, normalize: Vec3 -> Vec3, p: Vec3)
    requires KeepsSideDirections(normalize, half, distance)
    ensures !IsPointOnPositiveSide(SidePlanes(half, distance, normalize)[0], p) <==> -(half.y * p.z) < distance * p.y
    ensures !IsPointOnPositiveSide(SidePlanes(half, distance, normalize)[1], p) <==> distance * p.y < half.y * p.z
    ensures !IsPointOnPositiveSide(SidePlanes(half, distance, normalize)[2], p) <==> distance * p.x < half.x * p.z
    ensures !IsPointOnPositiveSide(SidePlanes(half, distance, normalize)[3], p) <==> -(half.x * p.z) < distance * p.x
  {
    var sides := SidePlanes(half, distance, normalize);
    CrossShapes(half, distance);
    EdgeDots(half.x, half.y, distance, p);
    CameraPlaneSide(UpCross(half, distance), normalize, p, -(distance * p.y) - half.y * p.z);
    CameraPlaneSide(DownCross(half, distance), normalize, p, distance * p.y - half.y * p.z);
    CameraPlaneSide(LeftCross(half, distance), normalize, p, distance * p.x - half.x * p.z);
    CameraPlaneSide(RightCross(half, distance), normalize, p, -(distance * p.x) - half.x * p.z);
    assert sides[0] == MakePlane(Zero, normalize(UpCross(half, distance)));
    assert sides[1] == MakePlane(Zero, normalize(DownCross(half, distance)));
    assert sides[2] == MakePlane(Zero, normalize(LeftCross(half, distance)));
    assert sides[3] == MakePlane(Zero, normalize(RightCross(half, distance)));
  }

  /** A plane through the camera with normal `normalize(c)` has `p` on its negative side exactly when `c . p < 0`. */
  lemma CameraPlaneSide(c: Vec3, normalize: Vec3 -> Vec3, p: Vec3, e: real)
    requires KeepsDirection(normalize, c) && Dot(c, p) == e
    ensures !IsPointOnPositiveSide(MakePlane(Zero, normalize(c)), p) <==> e < 0.0
  {
    NormalisedSide(c, normalize, p);
  }

  /** The dot products of a point with the four edge cross products, as written out by `CrossShapes`. */
  lemma EdgeDots(hx: real, hy: real, d: real, p: Vec3)
    ensures Dot(Vec3(0.0, -d, -hy), p) == -(d * p.y) - hy * p.z
    ensures Dot(Vec3(0.0, d, -hy), p) == d * p.y - hy * p.z
    ensures Dot(Vec3(d, 0.0, -hx), p) == d * p.x - hx * p.z
    ensures Dot(Vec3(-d, 0.0, -hx), p) == -(d * p.x) - hx * p.z
  {
  }

  /** `-bound < a < bound`. */
  predicate StrictlyWithin(a: real, bound: real) {
    -bound < a < bound
  }

  /** The up and down planes bound `y`, the left and right planes bound `x`. */
  lemma PyramidSides(half: Vec2Math.Vec2, distance: real, normalize: Vec3 -> Vec3, p: Vec3)
    requires KeepsSideDirections(normalize, half, distance)
    ensures var sides := SidePlanes(half, distance, normalize);
            (!IsPointOnPositiveSide(sides[0], p) && !IsPointOnPositiveSide(sides[1], p)) <==>
              StrictlyWithin(distance * p.y, half.y * p.z)
    ensures var sides := SidePlanes(half, distance, normalize);
            (!IsPointOnPositiveSide(sides[2], p) && !IsPointOnPositiveSide(sides[3], p)) <==>
              StrictlyWithin(distance * p.x, half.x * p.z)
  {
    SideSides(half, distance, normalize, p);
  }

  /**
   * Inside the frustum exactly when the depth lies strictly between the
   * near and the far distance and the point lies strictly within the
   * pyramid through the camera and the viewport's edges (half size `half`
   * at distance `distance`).
   */
  lemma InsideExactly(viewPortSize: Vec2Math.Vec2, distance: real, nearDistance: real,
                      farDistance: real, normalize: Vec3 -> Vec3, p: Vec3)
    requires KeepsSideDirections(normalize, Half(viewPortSize), distance)
    ensures var half := Half(viewPortSize);
            Inside(FrustumPlanes(viewPortSize, distance, nearDistance, farDistance, normalize), p) <==>
              nearDistance < p.z < farDistance &&
              StrictlyWithin(distance * p.y, half.y * p.z) && StrictlyWithin(distance * p.x, half.x * p.z)
  {
    PlanesLayout(viewPortSize, distance, nearDistance, farDistance, normalize);
    InsideByLayout(FrustumPlanes(viewPortSize, distance, nearDistance, farDistance, normalize),
                   Half(viewPortSize), distance, nearDistance, farDistance, normalize, p);
  }

  /** `InsideExactly` for any six planes laid out as the corrected frustum's. */
  lemma InsideByLayout(planes: seq<Plane>, half: Vec2Math.Vec2, distance: real, nearDistance: real,
                       farDistance: real, normalize: Vec3 -> Vec3, p: Vec3)
    requires KeepsSideDirections(normalize, half, distance)
    requires CorrectedLayout(planes, half, distance, nearDistance, farDistance, normalize)
    ensures Inside(planes, p) == (nearDistance < p.z < farDistance &&
                  StrictlyWithin(distance * p.y, half.y * p.z) && StrictlyWithin(distance * p.x, half.x * p.z))
  {
    DepthPair(planes, half, distance, nearDistance, farDistance, normalize, p);
    SidePairs(planes, half, distance, nearDistance, farDistance, normalize, p);
    InsideByPairs(planes, p, nearDistance < p.z < farDistance,
                  StrictlyWithin(distance * p.y, half.y * p.z), StrictlyWithin(distance * p.x, half.x * p.z));
  }

  /** The first two planes, laid out as near and far, bound the depth. */
  lemma DepthPair(planes: seq<Plane>, half: Vec2Math.Vec2, distance: real, nearDistance: real,
                  farDistance: real, normalize: Vec3 -> Vec3, p: Vec3)
    requires CorrectedLayout(planes, half, distance, nearDistance, farDistance, normalize)
    ensures |planes| == 6
    ensures (!IsPointOnPositiveSide(planes[0], p) && !IsPointOnPositiveSide(planes[1], p)) == (nearDistance < p.z < farDistance)
  {
    DepthSides(nearDistance, farDistance, p);
  }

  /** The last four planes, laid out as the side planes, bound `y` and `x`. */
  lemma SidePairs(planes: seq<Plane>, half: Vec2Math.Vec2, distance: real, nearDistance: real,
                  farDistance: real, normalize: Vec3 -> Vec3, p: Vec3)
    requires KeepsSideDirections(normalize, half, distance)
    requires CorrectedLayout(planes, half, distance, nearDistance, farDistance, normalize)
    ensures (!IsPointOnPositiveSide(planes[2], p) && !IsPointOnPositiveSide(planes[3], p)) == StrictlyWithin(distance * p.y, half.y * p.z)
    ensures (!IsPointOnPositiveSide(planes[4], p) && !IsPointOnPositiveSide(planes[5], p)) == StrictlyWithin(distance * p.x, half.x * p.z)
  {
    PyramidSides(half, distance, normalize, p);
  }

  /** `Inside` for six planes, from what each pair of planes decides. */
  lemma InsideByPairs(planes: seq<Plane>, p: Vec3, depth: bool, withinY: bool, withinX: bool)
    requires |planes| == 6
    requires (!IsPointOnPositiveSide(planes[0], p) && !IsPointOnPositiveSide(planes[1], p)) == depth
    requires (!IsPointOnPositiveSide(planes[2], p) && !IsPointOnPositiveSide(planes[3], p)) == withinY
    requires (!IsPointOnPositiveSide(planes[4], p) && !IsPointOnPositiveSide(planes[5], p)) == withinX
    ensures Inside(planes, p) == (depth && withinY && withinX)
  {
    InsideBySix(planes, p);
  }

  /** Six planes laid out as the corrected frustum's: near, far, then the four side planes. */
  predicate CorrectedLayout(planes: seq<Plane>, half: Vec2Math.Vec2, distance: real, nearDistance: real,
                            farDistance: real, normalize: Vec3 -> Vec3) {
    var sides := SidePlanes(half, distance, normalize);
    |planes| == 6 && planes[0] == NearPlane(nearDistance) && planes[1] == FarPlane(farDistance) &&
    planes[2] == sides[0] && planes[3] == sides[1] && planes[4] == sides[2] && planes[5] == sides[3]
  }

  /** The corrected frustum's planes are laid out as their names say. */
  lemma PlanesLayout(viewPortSize: Vec2Math.Vec2, distance: real, nearDistance: real,
                     farDistance: real, normalize: Vec3 -> Vec3)
    ensures CorrectedLayout(FrustumPlanes(viewPortSize, distance, nearDistance, farDistance, normalize),
                            Half(viewPortSize), distance, nearDistance, farDistance, normalize)
  {
  }

  /** `Inside` for six planes, as six separate conditions. */
  lemma InsideBySix(planes: seq<Plane>, p: Vec3)
    requires |planes| == 6
    ensures Inside(planes, p) <==>
              !IsPointOnPositiveSide(planes[0], p) && !IsPointOnPositiveSide(planes[1], p) &&
              !IsPointOnPositiveSide(planes[2], p) && !IsPointOnPositiveSide(planes[3], p) &&
              !IsPointOnPositiveSide(planes[4], p) && !IsPointOnPositiveSide(planes[5], p)
  {
    if !IsPointOnPositiveSide(planes[0], p) && !IsPointOnPositiveSide(planes[1], p) &&
       !IsPointOnPositiveSide(planes[2], p) && !IsPointOnPositiveSide(planes[3], p) &&
       !IsPointOnPositiveSide(planes[4], p) && !IsPointOnPositiveSide(planes[5], p) {
      InsideAllSix(planes, p);
    }
  }

  /**
   * Every point inside the frustum has a depth beyond the near distance,
   * so for a near plane in front of the camera a positive depth: the depth
   * the renderer divides by.
   */
  lemma InsideHasPositiveDepth(viewPortSize: Vec2Math.Vec2, distance: real, nearDistance: real,
                               farDistance: real, normalize: Vec3 -> Vec3, p: Vec3)
    requires nearDistance >= 0.0
    requires Inside(FrustumPlanes(viewPortSize, distance, nearDistance, farDistance, normalize), p)
    ensures nearDistance < p.z && 0.0 < p.z
  {
    var planes := FrustumPlanes(viewPortSize, distance, nearDistance, farDistance, normalize);
    assert !IsPointOnPositiveSide(planes[0], p);
    DepthSides(nearDistance, farDistance, p);
  }

  /**
   * A point on the view axis whose depth lies between the near and the far
   * distance is inside, for a viewport of positive size.
   */
  lemma OnAxisInside(viewPortSize: Vec2Math.Vec2, distance: real, nearDistance: real,
                     farDistance: real, normalize: Vec3 -> Vec3, z: real)
    requires viewPortSize.x > 0.0 && viewPortSize.y > 0.0
    requires 0.0 <= nearDistance < z < farDistance
    requires KeepsSideDirections(normalize, Half(viewPortSize), distance)
    ensures Inside(FrustumPlanes(viewPortSize, distance, nearDistance, farDistance, normalize), Vec3(0.0, 0.0, z))
  {
    var p := Vec3(0.0, 0.0, z);
    AxisWithinPyramid(Half(viewPortSize), distance, nearDistance, farDistance, p);
    InsideExactly(viewPortSize, distance, nearDistance, farDistance, normalize, p);
  }

  /** A point on the view axis between the near and the far distance lies within the pyramid of a viewport of positive size. */
  lemma AxisWithinPyramid(half: Vec2Math.Vec2, distance: real, nearDistance: real, farDistance: real, p: Vec3)
    requires half.x > 0.0 && half.y > 0.0 && p.x == 0.0 && p.y == 0.0
    requires 0.0 <= nearDistance < p.z < farDistance
    ensures StrictlyWithin(distance * p.y, half.y * p.z) && StrictlyWithin(distance * p.x, half.x * p.z)
  {
    assert distance * p.y == 0.0 && distance * p.x == 0.0;
    assert half.y * p.z > 0.0 && half.x * p.z > 0.0;
  }

  /** `Inside` for six planes, one plane at a time. */
  lemma InsideAllSix(planes: seq<Plane>, p: Vec3)
    requires |planes| == 6
    requires !IsPointOnPositiveSide(planes[0], p) && !IsPointOnPositiveSide(planes[1], p)
    requires !IsPointOnPositiveSide(planes[2], p) && !IsPointOnPositiveSide(planes[3], p)
    requires !IsPointOnPositiveSide(planes[4], p) && !IsPointOnPositiveSide(planes[5], p)
    ensures Inside(planes, p)
  {
    forall i | 0 <= i < |planes|
      ensures !IsPointOnPositiveSide(planes[i], p)
    {
      if i == 0 {} else if i == 1 {} else if i == 2 {} else if i == 3 {} else if i == 4 {} else {}
    }
  }

  /** The four edge cross products written out. */
  lemma CrossShapes(half: Vec2Math.Vec2, distance: real)
    ensures UpCross(half, distance) == Vec3(0.0, -distance, -half.y)
    ensures DownCross(half, distance) == Vec3(0.0, distance, -half.y)
    ensures LeftCross(half, distance) == Vec3(distance, 0.0, -half.x)
    ensures RightCross(half, distance) == Vec3(-distance, 0.0, -half.x)
  {
  }

  // ---- the frustum object ----

  class RectangleFrustum {
    /** The six planes: near, far, up, down, left, right. */
    const planes: array<Plane>

    predicate Valid() {
      planes.Length == PlaneCount
    }

    /**
     * The constructor: the near plane at depth `nearDistance` facing the
     * camera, the far plane at depth `farDistance` facing away, both on the
     * side of positive depth, and the four side planes through the camera.
     */
    constructor (viewPortSize: Vec2Math.Vec2, distance: real, nearDistance: real, farDistance: real,
                 normalize: Vec3 -> Vec3)
      ensures Valid() && fresh(planes)
      ensures planes[..] == FrustumPlanes(viewPortSize, distance, nearDistance, farDistance, normalize)
    {
      var ps := FrustumPlanes(viewPortSize, distance, nearDistance, farDistance, normalize);
      planes := new Plane[PlaneCount](i requires 0 <= i < PlaneCount => ps[i]);
      new;
      assert planes[..] == ps;
    }

    function Near(): Plane requires Valid() reads planes { planes[0] }
    function Far(): Plane requires Valid() reads planes { planes[1] }
    function Top(): Plane requires Valid() reads planes { planes[2] }
    function Bottom(): Plane requires Valid() reads planes { planes[3] }
    function LeftSide(): Plane requires Valid() reads planes { planes[4] }
    function RightSide(): Plane requires Valid() reads planes { planes[5] }

    /** The six accessors name the six planes in order. */
    lemma AccessorsInOrder()
      requires Valid()
      ensures planes[..] == [Near(), Far(), Top(), Bottom(), LeftSide(), RightSide()]
    {
    }

    /** `IsPointInside(p)`: a flag cleared by every plane that has `p` on its positive side. */
    method IsPointInside(p: Vec3) returns (isInside: bool)
      requires Valid()
      ensures isInside <==> Inside(planes[..], p)
    {
      isInside := true;
      for i := 0 to planes.Length
        invariant isInside <==> forall j :: 0 <= j < i ==> !IsPointOnPositiveSide(planes[j], p)
      {
        if IsPointOnPositiveSide(planes[i], p) {
          isInside := false;
        }
      }
    }

    /** `IsObjectPartlyInside`: the sphere around `center` reaches into every half-space. */
    method IsObjectPartlyInside(center: Vec3, radius: real) returns (isInside: bool)
      requires Valid()
      ensures isInside <==> SpherePartlyInside(planes[..], center, radius)
    {
      isInside := true;
      for i := 0 to planes.Length
        invariant isInside <==> forall j :: 0 <= j < i ==> IsPointWithRadiusOnNegativeSide(planes[j], center, radius)
      {
        if !IsPointWithRadiusOnNegativeSide(planes[i], center, radius) {
          isInside := false;
        }
      }
    }

    /** `IsObjectCompletelyInside`: the sphere around `center` stays off every positive side. */
    method IsObjectCompletelyInside(center: Vec3, radius: real) returns (isInside: bool)
      requires Valid()
      ensures isInside <==> SphereCompletelyInside(planes[..], center, radius)
    {
      isInside := true;
      for i := 0 to planes.Length
        invariant isInside <==> forall j :: 0 <= j < i ==> !IsPointWithRadiusOnPositiveSide(planes[j], center, radius)
      {
        if IsPointWithRadiusOnPositiveSide(planes[i], center, radius) {
          isInside := false;
        }
      }
    }

    /** `SegmentIntersectionPoints(A, B)`: one crossing point per crossed plane, in plane order. */
    method SegmentIntersectionPoints(a: Vec3, b: Vec3) returns (points: seq<Vec3>)
      requires Valid()
      ensures points == CrossingsFrom(planes[..], a, b, 0)
    {
      points := [];
      for i := 0 to PlaneCount
        invariant points + CrossingsFrom(planes[..], a, b, i) == CrossingsFrom(planes[..], a, b, 0)
      {
        if !SegmentIntersects(planes[i], a, b) {
          continue;
        }
        CrossingNotParallel(planes[i], a, b);
        points := points + [LineIntersectionPoint(planes[i], a, b)];
      }
    }

    /** `IsIntersectionPointInsideFrustum(p, planeIdx)`: inside every plane but `planeIdx`. */
    method IsIntersectionPointInsideFrustum(p: Vec3, planeIdx: int) returns (isInside: bool)
      requires Valid()
      ensures isInside <==> InsideExcept(planes[..], p, planeIdx)
    {
      isInside := true;
      for i := 0 to PlaneCount
        invariant isInside <==> forall j :: 0 <= j < i && j != planeIdx ==> !IsPointOnPositiveSide(planes[j], p)
      {
        if i == planeIdx {
          continue;
        }
        if IsPointOnPositiveSide(planes[i], p) {
          isInside := false;
        }
      }
    }

    /** `FrustumIntersectionPoint(A, B)`: the first qualifying crossing in plane order, else zero. */
    method FrustumIntersectionPoint(a: Vec3, b: Vec3) returns (point: Vec3)
      requires Valid()
      ensures point == FirstFrustumCrossing(planes[..], a, b)
    {
      ghost var ps := planes[..];
      for i := 0 to PlaneCount
        invariant QualifyingFrom(ps, a, b, 0) == QualifyingFrom(ps, a, b, i)
      {
        if !SegmentIntersects(planes[i], a, b) {
          continue;
        }
        CrossingNotParallel(planes[i], a, b);
        var intersectionPoint := LineIntersectionPoint(planes[i], a, b);
        var inside := IsIntersectionPointInsideFrustum(intersectionPoint, i);
        if inside {
          assert QualifyingFrom(ps, a, b, i)[0] == i;
          return intersectionPoint;
        }
      }
      point := Zero;
    }

    /**
     * The loop of `ClipSegment`: qualifying crossings in plane order,
     * stopping at the second, and the plane of the first.
     */
    method CollectCrossings(a: Vec3, b: Vec3) returns (found: seq<Vec3>, intersectingPlaneIndex: int)
      requires Valid()
      ensures CollectedCrossings(planes[..], a, b, found, intersectingPlaneIndex)
    {
      ghost var ps := planes[..];
      found := [];
      intersectingPlaneIndex := -1;
      ghost var used: seq<int> := [];
      var i := 0;
      while i < PlaneCount
        invariant 0 <= i <= PlaneCount && |found| == |used| <= 1
        invariant used + QualifyingFrom(ps, a, b, i) == QualifyingFrom(ps, a, b, 0)
        invariant |used| == 1 ==> intersectingPlaneIndex == used[0] && 0 <= used[0] < PlaneCount
        invariant |used| == 1 ==> SegmentIntersects(ps[used[0]], a, b) && found[0] == CrossingPoint(ps[used[0]], a, b)
      {
        var qualifies, planeIntersectionPoint := QualifyingCrossing(a, b, i);
        if !qualifies {
          SkipNotQualifying(ps, a, b, used, i);
          i := i + 1;
        } else {
          if |found| == 1 {
            CollectedSecond(ps, a, b, used, i, found[0], planeIntersectionPoint, intersectingPlaneIndex);
            found := [found[0], planeIntersectionPoint];
            return;
          }
          found := found + [planeIntersectionPoint];
          intersectingPlaneIndex := i;
          TakeQualifying(ps, a, b, used, i);
          used := used + [i];
          i := i + 1;
        }
      }
      CollectedAll(ps, a, b, used, found, intersectingPlaneIndex);
    }

    /**
     * One plane of `ClipSegment`'s loop: when the segment crosses plane
     * `i`, the crossing point, and whether it is inside every other plane.
     */
    method QualifyingCrossing(a: Vec3, b: Vec3, i: int) returns (qualifies: bool, point: Vec3)
      requires Valid() && 0 <= i < PlaneCount
      ensures qualifies <==> Qualifies(planes[..], a, b, i)
      ensures qualifies ==> point == CrossingPoint(planes[i], a, b)
    {
      if !SegmentIntersects(planes[i], a, b) {
        return false, Zero;
      }
      CrossingNotParallel(planes[i], a, b);
      point := LineIntersectionPoint(planes[i], a, b);
      qualifies := IsIntersectionPointInsideFrustum(point, i);
    }

    /**
     * `ClipSegment(A, B)`: collects qualifying crossings in plane order,
     * stopping at the second, and rebuilds the segment from them.
     */
    method ClipSegment(a: Vec3, b: Vec3) returns (clipped: Option<(Vec3, Vec3)>)
      requires Valid()
      ensures clipped == ClippedSegment(planes[..], a, b)
    {
      var found, intersectingPlaneIndex := CollectCrossings(a, b);
      var count := |found|;
      if count == 0 {
        clipped := None;
      } else if count == 1 {
        if IsPointOnPositiveSide(planes[intersectingPlaneIndex], a) {
          clipped := Some((found[0], b));
        } else {
          clipped := Some((a, found[0]));
        }
      } else {
        clipped := Some((found[0], found[1]));
      }
    }

    /** The per-vertex flags `ClipTriangles` computes first: flag i is `IsPointInside(vertices[i])`. */
    method VertexFlags(vertices: seq<Vec3>) returns (isVerticesInside: array<bool>)
      requires Valid()
      ensures fresh(isVerticesInside) && isVerticesInside.Length == |vertices|
      ensures forall i :: 0 <= i < |vertices| ==> isVerticesInside[i] == Inside(planes[..], vertices[i])
    {
      isVerticesInside := new bool[|vertices|];
      for i := 0 to |vertices|
        invariant forall j :: 0 <= j < i ==> isVerticesInside[j] == Inside(planes[..], vertices[j])
      {
        isVerticesInside[i] := IsPointInside(vertices[i]);
      }
    }

    /**
     * `ClipTriangles` as written: the per-index `Append` calls build new
     * sequences that are discarded, so every inside count is 0, every
     * triangle is skipped, and the method ends by returning null.
     */
    method ClipTrianglesAsWritten(vertices: seq<Vec3>, triangles: seq<ClipTriangle>)
      returns (clipped: Option<seq<ClipTriangle>>)
      requires Valid() && IndicesInRange(vertices, triangles)
      ensures clipped == None
    {
      var clippedTriangles: seq<ClipTriangle> := [];
      var isVerticesInside := VertexFlags(vertices);
      for i := 0 to |triangles|
        invariant clippedTriangles == []
      {
        var triangle := triangles[i];
        var indicesInside: seq<int> := [];
        var indicesOutside: seq<int> := [];
        for j := 0 to |triangle.indices|
          invariant indicesInside == [] && indicesOutside == []
        {
          var index := triangle.indices[j];
          if isVerticesInside[index] {
            var _ := indicesInside + [index];
          } else {
            var _ := indicesOutside + [index];
          }
        }
        var countVerticesInside := |indicesInside|;
        if countVerticesInside == 0 {
          continue;
        }
        assert false;
      }
      clipped := None;
    }

    /**
     * `ClipTriangles` with the indices actually added to the inside and
     * outside lists and the collected triangles returned: a triangle with
     * three inside vertices is kept unchanged and every other triangle is
     * dropped (the branches for one or two inside vertices build nothing).
     */
    method ClipTriangles(vertices: seq<Vec3>, triangles: seq<ClipTriangle>)
      returns (clipped: Option<seq<ClipTriangle>>)
      requires Valid() && IndicesInRange(vertices, triangles)
      ensures clipped == Some(KeptTriangles(planes[..], vertices, triangles))
    {
      var clippedTriangles: seq<ClipTriangle> := [];
      var isVerticesInside := VertexFlags(vertices);
      for i := 0 to |triangles|
        invariant clippedTriangles == KeptTriangles(planes[..], vertices, triangles[..i])
      {
        var triangle := triangles[i];
        var indicesInside: seq<int> := [];
        var indicesOutside: seq<int> := [];
        for j := 0 to |triangle.indices|
          invariant indicesInside == InsideIndices(planes[..], vertices, triangle.indices[..j])
        {
          var index := triangle.indices[j];
          assert triangle.indices[..j + 1][..j] == triangle.indices[..j];
          if isVerticesInside[index] {
            indicesInside := indicesInside + [index];
          } else {
            indicesOutside := indicesOutside + [index];
          }
        }
        assert triangle.indices[..|triangle.indices|] == triangle.indices;
        assert triangles[..i + 1][..i] == triangles[..i];
        var countVerticesInside := |indicesInside|;
        if countVerticesInside == 0 {
          continue;
        }
        if countVerticesInside == 3 {
          clippedTriangles := clippedTriangles + [triangle];
          continue;
        }
      }
      assert triangles[..|triangles|] == triangles;
      clipped := Some(clippedTriangles);
    }
  }
}
