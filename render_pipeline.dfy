/**
 * `RenderPipeline`: the bookkeeping of the software rasterizer.  A frame
 * buffer of packed colours and a depth buffer, both indexed [x, y] and
 * sized to the target resolution; the depth-tested pixel write; the edge
 * lists of index triangles; the back-face filter; the projection to pixel
 * coordinates with its clamp; the ordering of a triangle's vertices into
 * flat-top and flat-bottom halves; and the frustum clipping of segments.
 * The per-pixel interpolation that feeds depths and rows to the writes is
 * not part of this model.
 */
module Rendering {
  import opened Vec3Math
  import Vec2Math
  import Colors
  import opened Numerics
  import opened Quaternions
  import opened Planes
  import opened Triangles
  import opened Frustums
  import opened Options
  import Scene
  import Cameras

  // ---- edges of index triangles ----

  /** `triangleSegmentIndices`: the corner positions of the three edges AB, BC and CA. */
  const TriangleSegmentIndices: seq<int> := [0, 1, 1, 2, 2, 0]

  /** The six vertex indices of a triangle's three edges, looked up through `TriangleSegmentIndices`. */
  function EdgeIndices(indices: seq<int>): (r: seq<int>)
    requires |indices| >= 3
    ensures |r| == 6
  {
    seq(6, k requires 0 <= k < 6 => indices[TriangleSegmentIndices[k]])
  }

  /**
   * The edges are [i0, i1, i1, i2, i2, i0]: they chain around the triangle,
   * each edge starting where the previous one ended and the last ending
   * where the first starts, and each corner is used by exactly two entries.
   */
  lemma EdgeIndicesShape(indices: seq<int>)
    requires |indices| >= 3
    ensures EdgeIndices(indices) == [indices[0], indices[1], indices[1], indices[2], indices[2], indices[0]]
    ensures EdgeIndices(indices)[1] == EdgeIndices(indices)[2] && EdgeIndices(indices)[3] == EdgeIndices(indices)[4]
    ensures EdgeIndices(indices)[5] == EdgeIndices(indices)[0]
    ensures multiset(EdgeIndices(indices)) == multiset(indices[..3]) + multiset(indices[..3])
  {
    var r := EdgeIndices(indices);
    forall e | 0 <= e < 3
      ensures r[2 * e] == indices[e] && r[2 * e + 1] == indices[NextApex(e)]
    {
      EdgeEntry(indices, e);
    }
    assert r == [indices[0], indices[1], indices[1], indices[2], indices[2], indices[0]];
    assert indices[..3] == [indices[0], indices[1], indices[2]];
    CornersTwice(r, indices[0], indices[1], indices[2]);
  }

  /** A six-entry edge list [a, b, b, c, c, a] uses each corner twice. */
  lemma CornersTwice(r: seq<int>, a: int, b: int, c: int)
    requires r == [a, b, b, c, c, a]
    ensures multiset(r) == multiset([a, b, c]) + multiset([a, b, c])
  {
    SixAsMultiset(r, a, b, c);
    ThreeAsMultiset(a, b, c);
  }

  lemma SixAsMultiset(r: seq<int>, a: int, b: int, c: int)
    requires r == [a, b, b, c, c, a]
    ensures multiset(r) == multiset{a, b, c} + multiset{a, b, c}
  {
  }

  lemma ThreeAsMultiset(a: int, b: int, c: int)
    ensures multiset([a, b, c]) == multiset{a, b, c}
  {
  }

  /** Every triangle is an index triangle with at least three indices. */
  predicate AllIndexTriangles(triangles: seq<Triangle>) {
    forall k :: 0 <= k < |triangles| ==> triangles[k].IndexTriangle? && |triangles[k].indices| >= 3
  }

  /** The edge lists of all triangles, one after the other. */
  function SegmentsOf(triangles: seq<Triangle>): seq<int>
    requires AllIndexTriangles(triangles)
  {
    if triangles == [] then []
    else
      var n := |triangles| - 1;
      SegmentsOf(triangles[..n]) + EdgeIndices(triangles[n].indices)
  }

  /** Six entries per triangle; entries 6k..6k+5 are triangle k's edges. */
  lemma {:induction false} SegmentsOfShape(triangles: seq<Triangle>)
    requires AllIndexTriangles(triangles)
    ensures |SegmentsOf(triangles)| == 6 * |triangles|
    ensures forall k, j :: 0 <= k < |triangles| && 0 <= j < 6 ==>
              SegmentsOf(triangles)[6 * k + j] == EdgeIndices(triangles[k].indices)[j]
  {
    if triangles != [] {
      var n := |triangles| - 1;
      SegmentsOfShape(triangles[..n]);
      var s := SegmentsOf(triangles);
      forall k, j | 0 <= k < |triangles| && 0 <= j < 6
        ensures s[6 * k + j] == EdgeIndices(triangles[k].indices)[j]
      {
        if k < n {
          assert triangles[..n][k] == triangles[k];
        }
      }
    }
  }

  /** Indices that name vertices give segment entries that name vertices. */
  lemma {:induction false} SegmentsInRange(triangles: seq<Triangle>, vertices: seq<Vec3>)
    requires AllIndexTriangles(triangles)
    requires forall k :: 0 <= k < |triangles| ==> IndicesFit(triangles[k].indices, vertices)
    ensures forall j :: 0 <= j < |SegmentsOf(triangles)| ==> 0 <= SegmentsOf(triangles)[j] < |vertices|
  {
    if triangles != [] {
      var n := |triangles| - 1;
      SegmentsInRange(triangles[..n], vertices);
      EdgeIndicesShape(triangles[n].indices);
    }
  }

  /**
   * `GetSegmentsFromIndexTriangles`: appends each triangle's six edge
   * indices to a list, in triangle order.
   */
  method GetSegmentsFromIndexTriangles(triangles: seq<Triangle>) returns (segments: seq<int>)
    requires AllIndexTriangles(triangles)
    ensures segments == SegmentsOf(triangles)
  {
    segments := [];
    for i := 0 to |triangles|
      invariant segments == SegmentsOf(triangles[..i])
    {
      var indices := triangles[i].indices;
      var triangleSegments := seq(6, k requires 0 <= k < 6 => indices[TriangleSegmentIndices[k]]);
      assert triangles[..i + 1][..i] == triangles[..i];
      segments := segments + triangleSegments;
    }
    assert triangles[..|triangles|] == triangles;
  }

  // ---- back-face filter ----

  /**
   * `isFacingCamera`: with the normal computed from the camera-space
   * apices, some apex has a non-negative dot product with it.
   */
  predicate IsFacingCamera(t: Triangle, cameraSpaceVertices: seq<Vec3>, normalize: Vec3 -> Vec3)
    requires ApicesDefined(t, cameraSpaceVertices)
  {
    var apices := GetApices(t, cameraSpaceVertices);
    var normal := TriangleNormal(apices, normalize);
    exists i :: 0 <= i < 3 && Dot(apices[i], normal) >= 0.0
  }

  predicate AllApicesDefined(triangles: seq<Triangle>, vertices: seq<Vec3>) {
    forall k :: 0 <= k < |triangles| ==> ApicesDefined(triangles[k], vertices)
  }

  /** The `Where` filter: the triangles facing the camera, in their original order. */
  function CameraFacing(triangles: seq<Triangle>, cameraSpaceVertices: seq<Vec3>, normalize: Vec3 -> Vec3): seq<Triangle>
    requires AllApicesDefined(triangles, cameraSpaceVertices)
  {
    if triangles == [] then []
    else
      var n := |triangles| - 1;
      CameraFacing(triangles[..n], cameraSpaceVertices, normalize) +
      (if IsFacingCamera(triangles[n], cameraSpaceVertices, normalize) then [triangles[n]] else [])
  }

  /** The filter keeps exactly the input triangles that face the camera. */
  lemma {:induction false} CameraFacingExact(triangles: seq<Triangle>, cameraSpaceVertices: seq<Vec3>,
                                             normalize: Vec3 -> Vec3)
    requires AllApicesDefined(triangles, cameraSpaceVertices)
    ensures |CameraFacing(triangles, cameraSpaceVertices, normalize)| <= |triangles|
    ensures forall t :: t in CameraFacing(triangles, cameraSpaceVertices, normalize) ==>
              t in triangles && ApicesDefined(t, cameraSpaceVertices) && IsFacingCamera(t, cameraSpaceVertices, normalize)
    ensures forall k :: 0 <= k < |triangles| && IsFacingCamera(triangles[k], cameraSpaceVertices, normalize) ==>
              triangles[k] in CameraFacing(triangles, cameraSpaceVertices, normalize)
  {
    if triangles != [] {
      var n := |triangles| - 1;
      CameraFacingExact(triangles[..n], cameraSpaceVertices, normalize);
      assert triangles == triangles[..n] + [triangles[n]];
      forall k | 0 <= k < n
        ensures triangles[..n][k] == triangles[k]
      {
      }
    }
  }

  /**
   * When `normalize` scales the edge cross product, the three apices have
   * the same dot product with the normal (the normal is perpendicular to
   * both edges), so the filter's three-way test is the test on apex 0.
   */
  lemma FacingIsFirstApexTest(t: Triangle, cameraSpaceVertices: seq<Vec3>, normalize: Vec3 -> Vec3, k: real)
    requires ApicesDefined(t, cameraSpaceVertices)
    requires var c := EdgeCross(GetApices(t, cameraSpaceVertices)); normalize(c) == Scale(c, k)
    ensures var apices := GetApices(t, cameraSpaceVertices);
            IsFacingCamera(t, cameraSpaceVertices, normalize) <==> Dot(apices[0], TriangleNormal(apices, normalize)) >= 0.0
  {
    var apices := GetApices(t, cameraSpaceVertices);
    var c := EdgeCross(apices);
    var n := TriangleNormal(apices, normalize);
    NormalPerpendicular(apices);
    SameDotAlongEdge(apices[0], apices[1], c, k);
    SameDotAlongEdge(apices[1], apices[2], c, k);
    FacingThreeWay(t, cameraSpaceVertices, normalize);
  }

  /** The "some apex" test written out for the three apices. */
  lemma FacingThreeWay(t: Triangle, cameraSpaceVertices: seq<Vec3>, normalize: Vec3 -> Vec3)
    requires ApicesDefined(t, cameraSpaceVertices)
    ensures var apices := GetApices(t, cameraSpaceVertices);
            var normal := TriangleNormal(apices, normalize);
            IsFacingCamera(t, cameraSpaceVertices, normalize)
            <==> Dot(apices[0], normal) >= 0.0 || Dot(apices[1], normal) >= 0.0 || Dot(apices[2], normal) >= 0.0
  {
    var apices := GetApices(t, cameraSpaceVertices);
    var normal := TriangleNormal(apices, normalize);
    if Dot(apices[0], normal) >= 0.0 || Dot(apices[1], normal) >= 0.0 || Dot(apices[2], normal) >= 0.0 {
      var i := if Dot(apices[0], normal) >= 0.0 then 0 else if Dot(apices[1], normal) >= 0.0 then 1 else 2;
      assert 0 <= i < 3 && Dot(apices[i], normal) >= 0.0;
    }
  }

  /** Two points whose difference is perpendicular to `c` have the same dot product with `c` scaled. */
  lemma SameDotAlongEdge(p: Vec3, q: Vec3, c: Vec3, k: real)
    requires Dot(c, Sub(q, p)) == 0.0
    ensures Dot(q, Scale(c, k)) == Dot(p, Scale(c, k))
  {
    DotSymmetric(c, Sub(q, p));
    DotLinear(q, p, c, 1.0);
    DotSymmetric(q, Scale(c, k));
    DotSymmetric(p, Scale(c, k));
    DotLinear(c, c, q, k);
    DotLinear(c, c, p, k);
    DotSymmetric(c, q);
    DotSymmetric(c, p);
  }

  // ---- depth tests ----

  /** `DepthWrite`'s test: the cell is unwritten (depth 0) or the new depth is no farther. */
  predicate DepthPasses(stored: real, depth: real) {
    stored == 0.0 || depth <= stored
  }

  /** The segment rasterizer's test: the cell is unwritten or the new depth is strictly nearer. */
  predicate SegmentDepthPasses(stored: real, depth: real) {
    stored == 0.0 || depth < stored
  }

  /** The depth a cell holds after a test-and-write. */
  function DepthAfter(stored: real, depth: real): real {
    if DepthPasses(stored, depth) then depth else stored
  }

  /**
   * A written cell keeps the nearer of the two depths, and an unwritten
   * cell takes the new depth.  The two tests differ exactly on a tie with a
   * written cell: the segment test lets the earlier write stand.
   */
  lemma DepthTests(stored: real, depth: real)
    ensures stored != 0.0 ==> DepthAfter(stored, depth) == (if depth <= stored then depth else stored)
    ensures DepthAfter(0.0, depth) == depth
    ensures SegmentDepthPasses(stored, depth) ==> DepthPasses(stored, depth)
    ensures DepthPasses(stored, depth) && !SegmentDepthPasses(stored, depth) <==> stored != 0.0 && depth == stored
  {
  }

  // ---- projection ----

  /**
   * `ProjectFloat`: perspective division by depth, scaled from the
   * viewport to the target resolution and shifted so that the view axis
   * lands in the middle of the frame.
   */
  function ProjectFloat(v: Vec3, resolution: Vec2Math.Vec2Int, viewPlaneDistance: real,
                        viewPortSize: Vec2Math.Vec2): Vec2Math.Vec2
    requires viewPortSize.x * v.z != 0.0 && viewPortSize.y * v.z != 0.0
  {
    Vec2Math.Vec2(resolution.x as real * ((viewPlaneDistance * v.x / (viewPortSize.x * v.z)) + 0.5),
                  resolution.y as real * ((viewPlaneDistance * v.y / (viewPortSize.y * v.z)) + 0.5))
  }

  /**
   * On the view plane the projection is the viewport rescaled to the
   * frame: the viewport's left and bottom edges go to 0, its centre to half
   * the resolution and its right and top edges to the resolution.
   */
  lemma ProjectFloatOnViewPlane(v: Vec3, resolution: Vec2Math.Vec2Int, viewPlaneDistance: real,
                                viewPortSize: Vec2Math.Vec2)
    requires viewPlaneDistance != 0.0 && v.z == viewPlaneDistance
    requires viewPortSize.x != 0.0 && viewPortSize.y != 0.0
    ensures ProjectFloat(v, resolution, viewPlaneDistance, viewPortSize).x
         == resolution.x as real * (v.x / viewPortSize.x + 0.5)
    ensures ProjectFloat(v, resolution, viewPlaneDistance, viewPortSize).y
         == resolution.y as real * (v.y / viewPortSize.y + 0.5)
  {
    CancelDistance(viewPlaneDistance, v.x, viewPortSize.x);
    CancelDistance(viewPlaneDistance, v.y, viewPortSize.y);
  }

  lemma CancelDistance(d: real, a: real, s: real)
    requires d != 0.0 && s != 0.0
    ensures d * a / (s * d) == a / s
  {
  }

  /** A coordinate equal to the resolution is pulled back to the last pixel. */
  function ClampToLast(n: int, size: int): (r: int)
    ensures 0 <= n <= size && 0 < size ==> 0 <= r < size
    ensures n != size ==> r == n
  {
    if n == size then n - 1 else n
  }

  /**
   * `Project`: `ProjectFloat` truncated to pixels, with a coordinate equal
   * to the resolution decremented.  A point whose float projection lies
   * in the closed frame rectangle therefore lands on a pixel of the buffer.
   */
  function Project(v: Vec3, resolution: Vec2Math.Vec2Int, viewPlaneDistance: real,
                   viewPortSize: Vec2Math.Vec2): (r: Vec2Math.Vec2Int)
    requires viewPortSize.x * v.z != 0.0 && viewPortSize.y * v.z != 0.0
    ensures var f := ProjectFloat(v, resolution, viewPlaneDistance, viewPortSize);
            0.0 <= f.x <= resolution.x as real && 0 < resolution.x ==> 0 <= r.x < resolution.x
    ensures var f := ProjectFloat(v, resolution, viewPlaneDistance, viewPortSize);
            0.0 <= f.y <= resolution.y as real && 0 < resolution.y ==> 0 <= r.y < resolution.y
    ensures var t := Vec2Math.ToInt(ProjectFloat(v, resolution, viewPlaneDistance, viewPortSize));
            (t.x != resolution.x ==> r.x == t.x) && (t.y != resolution.y ==> r.y == t.y)
  {
    var framePos := Vec2Math.ToInt(ProjectFloat(v, resolution, viewPlaneDistance, viewPortSize));
    TruncateWithin(ProjectFloat(v, resolution, viewPlaneDistance, viewPortSize).x, resolution.x);
    TruncateWithin(ProjectFloat(v, resolution, viewPlaneDistance, viewPortSize).y, resolution.y);
    Vec2Math.Vec2Int(ClampToLast(framePos.x, resolution.x), ClampToLast(framePos.y, resolution.y))
  }

  /** Truncating a value in [0, n] gives an integer in [0, n]. */
  lemma TruncateWithin(f: real, n: int)
    ensures 0.0 <= f <= n as real ==> 0 <= Truncate(f) <= n
  {
  }

  // ---- ordering the vertices of a projected triangle ----

  /** The pixel a projected vertex falls in: `ToInt()` of its x and y. */
  function Pixel(v: Vec3): Vec2Math.Vec2Int {
    Vec2Math.ToInt(Vec2Math.Vec2(v.x, v.y))
  }

  /** All three pixel rows equal, or all three pixel columns equal: nothing is drawn. */
  predicate Degenerate(a: Vec3, b: Vec3, c: Vec3) {
    (Pixel(a).y == Pixel(b).y && Pixel(a).y == Pixel(c).y) ||
    (Pixel(a).x == Pixel(b).x && Pixel(a).x == Pixel(c).x)
  }

  /**
   * What a triangle is handed to the flat-triangle fill as: nothing, one
   * flat triangle (the flat pair ordered by x, the peak, and whether the
   * flat side is the top), or two flat triangles sharing the horizontal
   * line through the middle vertex (the middle vertex and the division
   * point ordered by x, the top peak and the bottom peak).
   */
  datatype FillPlan =
    | Skip
    | FlatFill(flatLeft: Vec3, flatRight: Vec3, peak: Vec3, isFlatTop: bool)
    | SplitFill(top: Vec3, mid: Vec3, bot: Vec3, midLeft: Vec3, midRight: Vec3)

  /** `x` lies between `p` and `q`, in either order. */
  predicate Between(x: real, p: real, q: real) {
    (p <= x <= q) || (q <= x <= p)
  }

  /**
   * `Flat(flat1, flat2, peak)`: the flat pair ordered by x (on a tie the
   * second comes first); the triangle is flat-top when the peak is below
   * the first flat vertex.
   */
  function Flat(flat1: Vec3, flat2: Vec3, peak: Vec3): (plan: FillPlan)
    ensures plan.FlatFill? && plan.peak == peak && plan.flatLeft.x <= plan.flatRight.x
    ensures (plan.flatLeft, plan.flatRight) == (flat1, flat2) || (plan.flatLeft, plan.flatRight) == (flat2, flat1)
    ensures plan.isFlatTop <==> peak.y < flat1.y
  {
    var isFlatTop := peak.y < flat1.y;
    if flat1.x < flat2.x then FlatFill(flat1, flat2, peak, isFlatTop)
    else FlatFill(flat2, flat1, peak, isFlatTop)
  }

  /**
   * The point splitting a triangle: on the row of the middle vertex,
   * between the top and the bottom vertex in x, with a depth whose
   * reciprocal lies between the reciprocals of their depths.
   */
  predicate DividesEdge(p: Vec3, top: Vec3, mid: Vec3, bot: Vec3) {
    p.z > 0.0 && top.z > 0.0 && bot.z > 0.0 &&
    p.y == mid.y && Between(p.x, top.x, bot.x) && Between(1.0 / p.z, 1.0 / top.z, 1.0 / bot.z)
  }

  /**
   * `divPoint`: the fraction of the way from the top to the bottom vertex
   * at which the middle row lies, applied to x (unless top and bottom fall
   * in the same pixel column, when the bottom x is taken) and to the
   * reciprocal of the depth.
   */
  function DivisionPoint(top: Vec3, mid: Vec3, bot: Vec3): (p: Vec3)
    requires top.y >= mid.y >= bot.y && top.y > bot.y && top.z > 0.0 && bot.z > 0.0
    ensures DividesEdge(p, top, mid, bot)
  {
    var lerpT := RowFraction(top.y, mid.y, bot.y);
    Vec3(DivisionX(top.x, bot.x, lerpT), mid.y, DivisionDepth(top.z, bot.z, lerpT))
  }

  /** `lerpT`: how far down from the top row to the bottom row the middle row lies, in [0, 1]. */
  function RowFraction(topY: real, midY: real, botY: real): (t: real)
    requires topY >= midY >= botY && topY > botY
    ensures 0.0 <= t <= 1.0
  {
    FractionInUnit(midY - topY, botY - topY);
    (midY - topY) / (botY - topY)
  }

  /**
   * `divPointX`: the bottom x when top and bottom share a pixel column,
   * otherwise the x interpolated along the top-bottom edge.
   */
  function DivisionX(topX: real, botX: real, lerpT: real): (x: real)
    requires 0.0 <= lerpT <= 1.0
    ensures Between(x, topX, botX)
  {
    LerpBetween(topX, botX, lerpT);
    if Truncate(botX) == Truncate(topX) then botX else topX + (botX - topX) * lerpT
  }

  /** The division point's depth: the reciprocal of the interpolated reciprocal depths. */
  function DivisionDepth(topZ: real, botZ: real, lerpT: real): (z: real)
    requires 0.0 <= lerpT <= 1.0 && topZ > 0.0 && botZ > 0.0
    ensures z > 0.0 && Between(1.0 / z, 1.0 / topZ, 1.0 / botZ)
  {
    var reci := ReciprocalLerp(topZ, botZ, lerpT);
    ReciprocalPositive(reci);
    ReciprocalTwice(reci);
    1.0 / reci
  }

  /** `divPointDepthReci`: the reciprocal depths interpolated, positive and between the two. */
  function ReciprocalLerp(topZ: real, botZ: real, lerpT: real): (reci: real)
    requires 0.0 <= lerpT <= 1.0 && topZ > 0.0 && botZ > 0.0
    ensures reci > 0.0 && Between(reci, 1.0 / topZ, 1.0 / botZ)
  {
    var topZReci := 1.0 / topZ;
    ReciprocalPositive(topZ);
    ReciprocalPositive(botZ);
    LerpBetween(topZReci, 1.0 / botZ, lerpT);
    topZReci + (1.0 / botZ - topZReci) * lerpT
  }

  lemma FractionInUnit(num: real, den: real)
    requires den < 0.0 && den <= num <= 0.0
    ensures 0.0 <= num / den <= 1.0
  {
    var f := num / den;
    assert f * den == num;
    ProductWithNegative(f, den);
  }

  /** Multiplying by a negative number reverses signs and shrinks what exceeds 1 below the number. */
  lemma ProductWithNegative(f: real, d: real)
    requires d < 0.0
    ensures f < 0.0 ==> f * d > 0.0
    ensures f > 1.0 ==> f * d < d
  {
    assert (f - 1.0) * d == f * d - d;
    if f > 1.0 {
      ProductPositiveNegative(f - 1.0, d);
    }
    if f < 0.0 {
      ProductPositiveNegative(-f, d);
    }
  }

  lemma ProductPositiveNegative(x: real, d: real)
    requires x > 0.0 && d < 0.0
    ensures x * d < 0.0
  {
  }

  lemma ProductNonNegative(x: real, y: real)
    requires x >= 0.0 && y >= 0.0
    ensures x * y >= 0.0
  {
  }

  lemma LerpBetween(p: real, q: real, t: real)
    requires 0.0 <= t <= 1.0
    ensures Between(p + (q - p) * t, p, q)
  {
    assert (q - p) - (q - p) * t == (q - p) * (1.0 - t);
    if p <= q {
      ProductNonNegative(q - p, t);
      ProductNonNegative(q - p, 1.0 - t);
    } else {
      ProductNonNegative(p - q, t);
      ProductNonNegative(p - q, 1.0 - t);
      assert (p - q) * t == -((q - p) * t);
      assert (p - q) * (1.0 - t) == -((q - p) * (1.0 - t));
    }
  }

  lemma ReciprocalPositive(x: real)
    requires x > 0.0
    ensures 1.0 / x > 0.0
  {
  }

  lemma ReciprocalTwice(x: real)
    requires x != 0.0
    ensures 1.0 / x != 0.0 && 1.0 / (1.0 / x) == x
  {
  }

  /**
   * `DivideTriangle()`: sorts the vertices by height with three swaps,
   * computes the division point on the top-bottom edge at the middle
   * vertex's row, and orders the middle vertex and the division point by x.
   */
  method DivideTriangle(a: Vec3, b: Vec3, c: Vec3) returns (plan: FillPlan)
    requires !(a.y == b.y && b.y == c.y)
    requires a.z > 0.0 && b.z > 0.0 && c.z > 0.0
    ensures plan.SplitFill? && multiset{plan.top, plan.mid, plan.bot} == multiset{a, b, c}
    ensures plan.top.y >= plan.mid.y >= plan.bot.y && plan.top.y > plan.bot.y
    ensures plan.midLeft.x <= plan.midRight.x
    ensures plan.midLeft.z > 0.0 && plan.midRight.z > 0.0 && plan.top.z > 0.0 && plan.bot.z > 0.0
    ensures (plan.midLeft == plan.mid && DividesEdge(plan.midRight, plan.top, plan.mid, plan.bot)) ||
            (plan.midRight == plan.mid && DividesEdge(plan.midLeft, plan.top, plan.mid, plan.bot))
  {
    var top, mid, bot := a, b, c;
    if b.y > a.y {
      Swaps(top, mid, bot);
      top, mid := b, a;
    }
    if bot.y > mid.y {
      Swaps(top, mid, bot);
      mid, bot := bot, mid;
    }
    if mid.y > top.y {
      Swaps(top, mid, bot);
      top, mid := mid, top;
    }
    var divPoint := DivisionPoint(top, mid, bot);
    if mid.x > divPoint.x {
      plan := SplitFill(top, mid, bot, divPoint, mid);
    } else {
      plan := SplitFill(top, mid, bot, mid, divPoint);
    }
  }

  /**
   * A flat plan for triangle ABC: its three vertices are A, B and C, the
   * flat pair shares a pixel row and is ordered by x, the peak lies on
   * another row, and the triangle is flat-top exactly when the peak's row
   * is below the flat pair's.
   */
  predicate FlatPlanFor(plan: FillPlan, a: Vec3, b: Vec3, c: Vec3) {
    plan.FlatFill? &&
    multiset{plan.flatLeft, plan.flatRight, plan.peak} == multiset{a, b, c} &&
    plan.flatLeft.x <= plan.flatRight.x &&
    Pixel(plan.flatLeft).y == Pixel(plan.flatRight).y && Pixel(plan.peak).y != Pixel(plan.flatLeft).y &&
    (plan.isFlatTop <==> Pixel(plan.peak).y < Pixel(plan.flatLeft).y)
  }

  /**
   * A split plan for triangle ABC: A, B and C lie on three different pixel
   * rows, they are the plan's top, middle and bottom in strictly falling
   * height, and the middle vertex and the division point are ordered by x.
   */
  predicate SplitPlanFor(plan: FillPlan, a: Vec3, b: Vec3, c: Vec3) {
    plan.SplitFill? &&
    Pixel(a).y != Pixel(b).y && Pixel(a).y != Pixel(c).y && Pixel(b).y != Pixel(c).y &&
    multiset{plan.top, plan.mid, plan.bot} == multiset{a, b, c} &&
    plan.top.y > plan.mid.y > plan.bot.y && plan.midLeft.x <= plan.midRight.x &&
    ((plan.midLeft == plan.mid && DividesEdge(plan.midRight, plan.top, plan.mid, plan.bot)) ||
     (plan.midRight == plan.mid && DividesEdge(plan.midLeft, plan.top, plan.mid, plan.bot)))
  }

  /**
   * The dispatch at the end of `RasterizeTriangle`: a degenerate triangle
   * is skipped; when two vertices share a pixel row the triangle is flat,
   * with the third vertex as its peak (pairs tried in the order AB, AC,
   * BC); otherwise it is divided.
   */
  method PlanRasterization(a: Vec3, b: Vec3, c: Vec3) returns (plan: FillPlan)
    requires a.z > 0.0 && b.z > 0.0 && c.z > 0.0
    ensures plan.Skip? <==> Degenerate(a, b, c)
    ensures plan.FlatFill? ==> FlatPlanFor(plan, a, b, c)
    ensures plan.SplitFill? ==> SplitPlanFor(plan, a, b, c)
  {
    var aPixel, bPixel, cPixel := Pixel(a), Pixel(b), Pixel(c);
    if (aPixel.y == bPixel.y && aPixel.y == cPixel.y) || (aPixel.x == bPixel.x && aPixel.x == cPixel.x) {
      return Skip;
    }
    if aPixel.y == bPixel.y {
      plan := Flat(a, b, c);
      FlatCase(a, b, c, a, b, c);
    } else if aPixel.y == cPixel.y {
      plan := Flat(a, c, b);
      Rotations(a, b, c);
      FlatCase(a, c, b, a, b, c);
    } else if bPixel.y == cPixel.y {
      plan := Flat(b, c, a);
      Rotations(a, b, c);
      FlatCase(b, c, a, a, b, c);
    } else {
      plan := DivideTriangle(a, b, c);
      SplitCase(plan, a, b, c);
    }
  }

  /** Swapping the first two or the last two of three values keeps their multiset. */
  lemma Swaps<T>(a: T, b: T, c: T)
    ensures multiset{b, a, c} == multiset{a, b, c} && multiset{a, c, b} == multiset{a, b, c}
  {
  }

  /** The orders in which the dispatch hands A, B and C on hold the same three vertices. */
  lemma Rotations<T>(a: T, b: T, c: T)
    ensures multiset{a, c, b} == multiset{a, b, c} && multiset{b, c, a} == multiset{a, b, c}
  {
  }

  /** `Flat` on a flat pair and a peak on another row, drawn from A, B and C, is a flat plan for ABC. */
  lemma FlatCase(flat1: Vec3, flat2: Vec3, peak: Vec3, a: Vec3, b: Vec3, c: Vec3)
    requires multiset{flat1, flat2, peak} == multiset{a, b, c}
    requires Pixel(flat1).y == Pixel(flat2).y && Pixel(peak).y != Pixel(flat1).y
    ensures FlatPlanFor(Flat(flat1, flat2, peak), a, b, c)
  {
    FlatTopByRows(flat1, peak);
  }

  /** A division of a triangle on three different pixel rows is a split plan for it. */
  lemma SplitCase(plan: FillPlan, a: Vec3, b: Vec3, c: Vec3)
    requires Pixel(a).y != Pixel(b).y && Pixel(a).y != Pixel(c).y && Pixel(b).y != Pixel(c).y
    requires plan.SplitFill? && multiset{plan.top, plan.mid, plan.bot} == multiset{a, b, c}
    requires plan.top.y >= plan.mid.y >= plan.bot.y && plan.midLeft.x <= plan.midRight.x
    requires (plan.midLeft == plan.mid && DividesEdge(plan.midRight, plan.top, plan.mid, plan.bot)) ||
             (plan.midRight == plan.mid && DividesEdge(plan.midLeft, plan.top, plan.mid, plan.bot))
    ensures SplitPlanFor(plan, a, b, c)
  {
    DistinctRowsAmong(plan.top, plan.mid, plan.bot, a, b, c);
    DistinctRowsDistinctHeights(plan.top, plan.mid);
    DistinctRowsDistinctHeights(plan.mid, plan.bot);
  }

  /** Three vertices that are A, B and C in some order lie on different rows when A, B and C do. */
  lemma DistinctRowsAmong(p: Vec3, q: Vec3, r: Vec3, a: Vec3, b: Vec3, c: Vec3)
    requires Pixel(a).y != Pixel(b).y && Pixel(a).y != Pixel(c).y && Pixel(b).y != Pixel(c).y
    requires multiset{p, q, r} == multiset{a, b, c}
    ensures Pixel(p).y != Pixel(q).y && Pixel(q).y != Pixel(r).y
  {
    assert p in multiset{a, b, c} && q in multiset{a, b, c} && r in multiset{a, b, c};
  }

  /** With different pixel rows, comparing heights is comparing rows. */
  lemma FlatTopByRows(flat1: Vec3, peak: Vec3)
    requires Pixel(flat1).y != Pixel(peak).y
    ensures peak.y < flat1.y <==> Pixel(peak).y < Pixel(flat1).y
  {
    TruncateMonotone(peak.y, flat1.y);
    TruncateMonotone(flat1.y, peak.y);
  }

  /** Vertices on different pixel rows have different heights. */
  lemma DistinctRowsDistinctHeights(p: Vec3, q: Vec3)
    requires p.y >= q.y && (p.y == q.y ==> Pixel(p).y == Pixel(q).y)
    ensures Pixel(p).y != Pixel(q).y ==> p.y > q.y
  {
  }

  // ---- segments ----

  /** The entries the segment loops read (pairs 2k, 2k+1 while both exist) name vertices. */
  predicate PairIndicesFit(segments: seq<int>, vertices: seq<Vec3>) {
    forall j :: 0 <= j < |segments| / 2 * 2 ==> 0 <= segments[j] < |vertices|
  }

  /** The segments the index list describes: entries 2k and 2k+1 looked up as endpoints. */
  function SegmentPairs(segments: seq<int>, vertices: seq<Vec3>): (r: seq<(Vec3, Vec3)>)
    requires PairIndicesFit(segments, vertices)
    ensures |r| == |segments| / 2
  {
    seq(|segments| / 2, k requires 0 <= k < |segments| / 2 => (vertices[segments[2 * k]], vertices[segments[2 * k + 1]]))
  }

  /**
   * What the clipping segment loop draws for one segment: the segment
   * itself when both ends are inside, otherwise its clipped form, or
   * nothing when clipping finds no crossing.
   */
  function DrawnSegment(planes: seq<Plane>, a: Vec3, b: Vec3): Option<(Vec3, Vec3)> {
    if Inside(planes, a) && Inside(planes, b) then Some((a, b)) else ClippedSegment(planes, a, b)
  }

  /** The segments drawn for a list of segments, in order. */
  function DrawnSegments(planes: seq<Plane>, pairs: seq<(Vec3, Vec3)>): seq<(Vec3, Vec3)> {
    if pairs == [] then []
    else
      var n := |pairs| - 1;
      var drawn := DrawnSegment(planes, pairs[n].0, pairs[n].1);
      DrawnSegments(planes, pairs[..n]) + (if drawn.Some? then [drawn.value] else [])
  }

  /** Entries `2k` and `2k + 1` of the index list give segment `k`. */
  lemma PairAt(segments: seq<int>, vertices: seq<Vec3>, k: int)
    requires PairIndicesFit(segments, vertices)
    requires 0 <= k && 2 * k + 1 < |segments|
    ensures k < |segments| / 2
    ensures SegmentPairs(segments, vertices)[k] == (vertices[segments[2 * k]], vertices[segments[2 * k + 1]])
  {
  }

  /** The loops over entry pairs stop (`2k >= length - 1`) exactly after the last whole pair. */
  lemma PairLoopBound(length: nat, k: nat)
    requires k <= length / 2
    ensures 2 * k < length - 1 <==> k < length / 2
  {
    assert length == 2 * (length / 2) + length % 2;
  }

  /** One more segment adds what `DrawnSegment` draws for it. */
  lemma DrawnStep(planes: seq<Plane>, pairs: seq<(Vec3, Vec3)>, n: int, a: Vec3, b: Vec3)
    requires 0 <= n < |pairs| && pairs[n] == (a, b)
    ensures DrawnSegment(planes, a, b).Some? ==>
              DrawnSegments(planes, pairs[..n + 1]) == DrawnSegments(planes, pairs[..n]) + [DrawnSegment(planes, a, b).value]
    ensures DrawnSegment(planes, a, b).None? ==>
              DrawnSegments(planes, pairs[..n + 1]) == DrawnSegments(planes, pairs[..n])
  {
    assert pairs[..n + 1][..n] == pairs[..n];
  }

  /**
   * When every endpoint is inside, the clipping loop draws exactly the
   * segments the non-clipping loop draws.
   */
  lemma {:induction false} AllInsideDrawsAll(planes: seq<Plane>, pairs: seq<(Vec3, Vec3)>)
    requires forall k :: 0 <= k < |pairs| ==> Inside(planes, pairs[k].0) && Inside(planes, pairs[k].1)
    ensures DrawnSegments(planes, pairs) == pairs
  {
    if pairs != [] {
      var n := |pairs| - 1;
      AllInsideDrawsAll(planes, pairs[..n]);
      assert pairs == pairs[..n] + [pairs[n]];
    }
  }

  /**
   * At most one drawn segment per input segment, and with consistent
   * planes each drawn segment has, for some input segment AB, ends that are
   * A, B or crossings of AB with a plane that lie inside the other planes.
   */
  lemma {:induction false} DrawnSegmentsEnds(planes: seq<Plane>, pairs: seq<(Vec3, Vec3)>)
    requires forall i :: 0 <= i < |planes| ==> Consistent(planes[i])
    ensures |DrawnSegments(planes, pairs)| <= |pairs|
    ensures forall s :: s in DrawnSegments(planes, pairs) ==>
              exists k :: 0 <= k < |pairs| && EndOf(planes, pairs[k].0, pairs[k].1, s.0) &&
                                              EndOf(planes, pairs[k].0, pairs[k].1, s.1)
  {
    if pairs != [] {
      var n := |pairs| - 1;
      DrawnSegmentsEnds(planes, pairs[..n]);
      var (a, b) := pairs[n];
      ClippedEndsOnPlanes(planes, a, b);
      forall s | s in DrawnSegments(planes, pairs)
        ensures exists k :: 0 <= k < |pairs| && EndOf(planes, pairs[k].0, pairs[k].1, s.0) &&
                                                EndOf(planes, pairs[k].0, pairs[k].1, s.1)
      {
        if s in DrawnSegments(planes, pairs[..n]) {
          var k :| 0 <= k < n && EndOf(planes, pairs[..n][k].0, pairs[..n][k].1, s.0) &&
                                 EndOf(planes, pairs[..n][k].0, pairs[..n][k].1, s.1);
          assert pairs[..n][k] == pairs[k];
        } else {
          assert EndOf(planes, pairs[n].0, pairs[n].1, s.0) && EndOf(planes, pairs[n].0, pairs[n].1, s.1);
        }
      }
    }
  }

  /**
   * The colour of a segment pixel (the fade factor is fixed at 1): red and
   * green grow with the pixel's x and y across the frame, blue with the
   * sample's progress along the segment, each truncated to a byte.
   */
  function SegmentPixelColor(x: int, y: int, j: int, amountOfPoints: int, resolution: Vec2Math.Vec2Int): (c: Colors.Color)
    requires 0 <= x < resolution.x && 0 <= y < resolution.y && 0 <= j <= amountOfPoints && 0 < amountOfPoints
    ensures c.r < 255 && c.g < 255
    ensures j == 0 ==> c.b == 0
    ensures j == amountOfPoints ==> c.b == 255
    ensures x == 0 ==> c.r == 0
  {
    ChannelBelow(x, resolution.x);
    ChannelBelow(y, resolution.y);
    ChannelBelow(j, amountOfPoints + 1);
    var r := Truncate(255.0 * x as real / resolution.x as real);
    var g := Truncate(255.0 * y as real / resolution.y as real);
    var b := Truncate(255.0 * j as real / amountOfPoints as real);
    ProgressChannel(j, amountOfPoints);
    Colors.Color(r, g, b)
  }

  /** A channel of 255 times a fraction below one is a byte below 255. */
  lemma ChannelBelow(n: int, size: int)
    requires 0 <= n < size
    ensures 0 <= Truncate(255.0 * n as real / size as real) < 255
  {
    var f := 255.0 * n as real / size as real;
    assert f * size as real == 255.0 * n as real;
    assert f < 255.0 by {
      if f >= 255.0 {
        ProductNonNegative(f - 255.0, size as real);
      }
    }
  }

  lemma ProgressChannel(j: int, amountOfPoints: int)
    requires 0 <= j <= amountOfPoints && 0 < amountOfPoints
    ensures 0 <= Truncate(255.0 * j as real / amountOfPoints as real) <= 255
    ensures j == amountOfPoints ==> Truncate(255.0 * j as real / amountOfPoints as real) == 255
  {
    var f := 255.0 * j as real / amountOfPoints as real;
    assert f * amountOfPoints as real == 255.0 * j as real;
    assert f <= 255.0 by {
      if f > 255.0 {
        ProductNonNegative(f - 255.0, amountOfPoints as real);
      }
    }
    if j == amountOfPoints {
      assert f * amountOfPoints as real == 255.0 * amountOfPoints as real;
      assert f == 255.0;
    }
  }

  // ---- camera space and the per-object passes ----

  /**
   * A vertex in camera space: offset by the object's position relative to
   * the camera, then turned by the inverse camera rotation (the sandwich
   * with the inverse on the left and the rotation on the right).
   */
  function ToCameraSpace(v: Vec3, objectPosition: Vec3, cameraPosition: Vec3, cameraRotation: Quaternion): Vec3
    requires NormSquared(cameraRotation) != 0.0
  {
    Sandwich(Add(Sub(objectPosition, cameraPosition), v), Inverted(cameraRotation), cameraRotation)
  }

  function CameraSpaceVertices(vertices: seq<Vec3>, objectPosition: Vec3, cameraPosition: Vec3,
                               cameraRotation: Quaternion): (r: seq<Vec3>)
    requires NormSquared(cameraRotation) != 0.0
    ensures |r| == |vertices|
  {
    seq(|vertices|, i requires 0 <= i < |vertices| => ToCameraSpace(vertices[i], objectPosition, cameraPosition, cameraRotation))
  }

  /** For an unrotated camera, camera space is world space shifted so that the camera is at the origin. */
  lemma CameraSpaceOfUnrotatedCamera(v: Vec3, objectPosition: Vec3, cameraPosition: Vec3)
    ensures NormSquared(Identity) != 0.0
    ensures ToCameraSpace(v, objectPosition, cameraPosition, Identity) == Add(Sub(objectPosition, cameraPosition), v)
  {
    InvertedIdentity(Identity);
    var w := Add(Sub(objectPosition, cameraPosition), v);
    RotateVectorIdentity(w);
    assert ToCameraSpace(v, objectPosition, cameraPosition, Identity) == RotateVector(w, Identity);
  }

  /** Index triangles keep their apices defined over any vertex list of the same length. */
  lemma ApicesDefinedSameLength(triangles: seq<Triangle>, v1: seq<Vec3>, v2: seq<Vec3>)
    requires AllApicesDefined(triangles, v1) && |v1| == |v2|
    ensures AllApicesDefined(triangles, v2)
  {
  }

  /** What a `Render*` pass does with one entry of the scene array. */
  datatype TrianglePass =
    | NoObject                            // a null entry is skipped
    | Culled                              // the bounding sphere is outside some frustum plane
    | AsTheyAre(triangles: seq<Triangle>) // completely inside: drawn without clipping
    | Clipped(triangles: seq<Triangle>)   // partly inside: handed to the frustum clipper first

  /** The culling and clipping decision for an object's bounding sphere in the world-space frustum. */
  function PassOf(worldPlanes: seq<Plane>, center: Vec3, radius: real, triangles: seq<Triangle>): TrianglePass {
    if !SpherePartlyInside(worldPlanes, center, radius) then Culled
    else if SphereCompletelyInside(worldPlanes, center, radius) then AsTheyAre(triangles)
    else Clipped(triangles)
  }

  /**
   * An object is culled exactly when its sphere misses some half-space; an
   * object with a non-negative radius whose sphere is completely inside
   * is drawn whole, and the triangles handed on are the ones given.
   */
  lemma PassOfCases(worldPlanes: seq<Plane>, center: Vec3, radius: real, triangles: seq<Triangle>)
    ensures PassOf(worldPlanes, center, radius, triangles).Culled? <==> !SpherePartlyInside(worldPlanes, center, radius)
    ensures radius >= 0.0 && SphereCompletelyInside(worldPlanes, center, radius) ==>
              PassOf(worldPlanes, center, radius, triangles) == AsTheyAre(triangles)
    ensures !PassOf(worldPlanes, center, radius, triangles).Culled? ==>
              PassOf(worldPlanes, center, radius, triangles).triangles == triangles
  {
    SphereTests(worldPlanes, center, radius);
  }

  /** An object the passes can draw: index triangles whose indices name its transformed vertices. */
  predicate Renderable(so: Scene.Shaped3DObject)
    reads so, so.transformedTriangles
  {
    AllIndexTriangles(so.transformedTriangles[..]) && AllApicesDefined(so.transformedTriangles[..], so.transformedVertices)
  }

  /**
   * What `RenderTriangles` hands on for one object: culled, or the
   * camera-facing triangles, unclipped when the sphere is completely
   * inside and handed to the clipper otherwise.
   */
  function FacingPass(worldPlanes: seq<Plane>, center: Vec3, radius: real, triangles: seq<Triangle>,
                      objectVertices: seq<Vec3>, cameraPosition: Vec3, cameraRotation: Quaternion,
                      normalize: Vec3 -> Vec3): TrianglePass
    requires AllApicesDefined(triangles, objectVertices) && NormSquared(cameraRotation) != 0.0
  {
    var cameraSpaceVertices := CameraSpaceVertices(objectVertices, center, cameraPosition, cameraRotation);
    ApicesDefinedSameLength(triangles, objectVertices, cameraSpaceVertices);
    PassOf(worldPlanes, center, radius, CameraFacing(triangles, cameraSpaceVertices, normalize))
  }

  /** What the segment passes hand on for one entry of the scene array. */
  datatype SegmentPass =
    | SkippedEntry                              // a null entry
    | CulledObject                              // the bounding sphere is outside some frustum plane
    | Drawn(segments: seq<(Vec3, Vec3)>)        // the segments handed to `RasterizeSegment`, in order
    | TrianglesToClip(triangles: seq<Triangle>) // partly inside: the triangles handed to the frustum clipper

  /**
   * What `RenderTriangleSegments` hands on for one object: culled, every
   * triangle edge unclipped when the sphere is completely inside, or the
   * triangles handed to the clipper.
   */
  function EdgePass(worldPlanes: seq<Plane>, center: Vec3, radius: real, triangles: seq<Triangle>,
                    objectVertices: seq<Vec3>, cameraPosition: Vec3, cameraRotation: Quaternion): SegmentPass
    requires AllIndexTriangles(triangles) && AllApicesDefined(triangles, objectVertices)
    requires NormSquared(cameraRotation) != 0.0
  {
    var cameraSpaceVertices := CameraSpaceVertices(objectVertices, center, cameraPosition, cameraRotation);
    SegmentsInRange(triangles, cameraSpaceVertices);
    if !SpherePartlyInside(worldPlanes, center, radius) then CulledObject
    else if SphereCompletelyInside(worldPlanes, center, radius) then
      Drawn(SegmentPairs(SegmentsOf(triangles), cameraSpaceVertices))
    else TrianglesToClip(triangles)
  }

  /**
   * What `RenderTriangleSegmentsNoClip` hands on for one object: culled, or
   * every triangle edge clipped on its own against the camera-space frustum.
   */
  function ClippedEdgePass(worldPlanes: seq<Plane>, cameraPlanes: seq<Plane>, center: Vec3, radius: real,
                           triangles: seq<Triangle>, objectVertices: seq<Vec3>, cameraPosition: Vec3,
                           cameraRotation: Quaternion): SegmentPass
    requires AllIndexTriangles(triangles) && AllApicesDefined(triangles, objectVertices)
    requires NormSquared(cameraRotation) != 0.0
  {
    var cameraSpaceVertices := CameraSpaceVertices(objectVertices, center, cameraPosition, cameraRotation);
    SegmentsInRange(triangles, cameraSpaceVertices);
    if !SpherePartlyInside(worldPlanes, center, radius) then CulledObject
    else Drawn(DrawnSegments(cameraPlanes, SegmentPairs(SegmentsOf(triangles), cameraSpaceVertices)))
  }

  /** The apex after apex e, wrapping round from the third to the first. */
  function NextApex(e: int): int { if e == 2 then 0 else e + 1 }

  /** Edge e of a triangle: from apex e to the next apex. */
  function TriangleEdge(t: Triangle, vertices: seq<Vec3>, e: int): (Vec3, Vec3)
    requires ApicesDefined(t, vertices) && 0 <= e < 3
  {
    (GetApices(t, vertices)[e], GetApices(t, vertices)[NextApex(e)])
  }

  /**
   * Drawing every edge list entry pair of a set of triangles draws each
   * triangle's three edges in turn: segment i is edge i % 3 of triangle
   * i / 3, so the unclipped edge pass shows exactly the triangle outlines.
   */
  lemma EdgePairsAreOutlines(triangles: seq<Triangle>, vertices: seq<Vec3>)
    requires AllIndexTriangles(triangles) && AllApicesDefined(triangles, vertices)
    ensures PairIndicesFit(SegmentsOf(triangles), vertices)
    ensures var drawn := SegmentPairs(SegmentsOf(triangles), vertices);
            |drawn| == 3 * |triangles| &&
            forall i :: 0 <= i < |drawn| ==> drawn[i] == TriangleEdge(triangles[i / 3], vertices, i % 3)
  {
    SegmentsInRange(triangles, vertices);
    SegmentsOfShape(triangles);
    var segments := SegmentsOf(triangles);
    var drawn := SegmentPairs(segments, vertices);
    forall i | 0 <= i < |drawn|
      ensures drawn[i] == TriangleEdge(triangles[i / 3], vertices, i % 3)
    {
      var k, e := i / 3, i % 3;
      assert i == 3 * k + e && 0 <= k < |triangles|;
      EdgeWindow(triangles, k);
      EdgeOfPair(segments, vertices, triangles[k], k, e);
    }
  }

  /** Entries 6k..6k+5 of the edge list, as a slice, are triangle k's edge indices. */
  lemma EdgeWindow(triangles: seq<Triangle>, k: int)
    requires AllIndexTriangles(triangles) && 0 <= k < |triangles|
    ensures 6 * k + 6 <= |SegmentsOf(triangles)|
    ensures SegmentsOf(triangles)[6 * k .. 6 * k + 6] == EdgeIndices(triangles[k].indices)
  {
    SegmentsOfShape(triangles);
  }

  lemma EdgeOfPair(segments: seq<int>, vertices: seq<Vec3>, t: Triangle, k: int, e: int)
    requires t.IndexTriangle? && IndicesFit(t.indices, vertices) && 0 <= e < 3
    requires 0 <= k && 6 * k + 6 <= |segments| && PairIndicesFit(segments, vertices)
    requires segments[6 * k .. 6 * k + 6] == EdgeIndices(t.indices)
    ensures SegmentPairs(segments, vertices)[3 * k + e] == TriangleEdge(t, vertices, e)
  {
    var i := 3 * k + e;
    PairAt(segments, vertices, i);
    WindowEntries(segments, 6 * k, EdgeIndices(t.indices), e);
    EdgeEntry(t.indices, e);
  }

  /** Entries 2e and 2e + 1 of a six-entry window are entries s0 + 2e and s0 + 2e + 1 of the whole list. */
  lemma WindowEntries(segments: seq<int>, s0: int, window: seq<int>, e: int)
    requires 0 <= s0 && s0 + 6 <= |segments| && window == segments[s0 .. s0 + 6] && 0 <= e < 3
    ensures segments[s0 + 2 * e] == window[2 * e] && segments[s0 + 2 * e + 1] == window[2 * e + 1]
  {
  }

  /** Edge e of the edge list runs from index e to index `NextApex(e)`. */
  lemma EdgeEntry(indices: seq<int>, e: int)
    requires |indices| >= 3 && 0 <= e < 3
    ensures EdgeIndices(indices)[2 * e] == indices[e] && EdgeIndices(indices)[2 * e + 1] == indices[NextApex(e)]
  {
    if e == 0 {
      assert TriangleSegmentIndices[0] == 0 && TriangleSegmentIndices[1] == 1;
    } else if e == 1 {
      assert TriangleSegmentIndices[2] == 1 && TriangleSegmentIndices[3] == 2;
    } else {
      assert TriangleSegmentIndices[4] == 2 && TriangleSegmentIndices[5] == 0;
    }
  }

  /** A pixel of a frame of the given resolution. */
  predicate InFrame(p: Vec2Math.Vec2Int, resolution: Vec2Math.Vec2Int) {
    0 <= p.x < resolution.x && 0 <= p.y < resolution.y
  }

  /** Sample j of n (with 0 <= j <= n) sits at a progress between 0 and 1. */
  lemma ProgressInUnit(j: int, n: int)
    requires 0 <= j <= n && 0 < n
    ensures 0.0 <= j as real / n as real <= 1.0
  {
    FractionInUnit(-(j as real), -(n as real));
    assert -(j as real) / -(n as real) == j as real / n as real;
  }

  /**
   * One coordinate of a segment sample: `start + delta * progress`
   * truncated to a pixel.  Between two pixels of a frame it is a pixel of
   * the frame.
   */
  function SampleCoordinate(start: int, delta: int, progress: real, size: int): (n: int)
    requires 0 <= start < size && 0 <= start + delta < size && 0.0 <= progress <= 1.0
    ensures 0 <= n < size
  {
    LerpBetween(start as real, (start + delta) as real, progress);
    assert (start + delta) as real - start as real == delta as real;
    TruncateWithin(start as real + delta as real * progress, size - 1);
    Truncate(start as real + delta as real * progress)
  }

  /** A depth interpolated at a progress between 0 and 1 lies between the endpoint depths. */
  lemma SampleDepthBetween(zStart: real, zDiff: real, progress: real)
    requires 0.0 <= progress <= 1.0
    ensures Between(zStart + zDiff * progress, zStart, zStart + zDiff)
  {
    LerpBetween(zStart, zStart + zDiff, progress);
    assert (zStart + zDiff) - zStart == zDiff;
  }

  class RenderPipeline {
    /** Packed colours, indexed [x, y]. */
    var frameBuffer: array2<nat>
    /** Depths, indexed [x, y]; 0 marks a cell not yet written. */
    var depthBuffer: array2<real>
    const targetResolution: Vec2Math.Vec2Int
    /** The rendering camera; its transform, frustums, viewport and view-plane distance are read through it. */
    const camera: Cameras.Camera
    /** The camera rotation and its inverse, refreshed at the start of every pass. */
    var cameraRotation: Quaternion
    var invertedCameraRotation: Quaternion

    /** Both buffers have the target resolution as their dimensions. */
    predicate Valid()
      reads this
    {
      frameBuffer.Length0 == targetResolution.x && frameBuffer.Length1 == targetResolution.y &&
      depthBuffer.Length0 == targetResolution.x && depthBuffer.Length1 == targetResolution.y
    }

    /** Every cell of both buffers is 0: nothing drawn, every depth unwritten. */
    predicate Cleared()
      reads this, frameBuffer, depthBuffer
    {
      Valid() &&
      (forall i, j :: 0 <= i < targetResolution.x && 0 <= j < targetResolution.y ==> frameBuffer[i, j] == 0) &&
      (forall i, j :: 0 <= i < targetResolution.x && 0 <= j < targetResolution.y ==> depthBuffer[i, j] == 0.0)
    }

    /** The camera rotation fields hold the camera's current rotation and its inverse. */
    ghost predicate RotationsCurrent()
      reads this, camera, camera.transform
    {
      camera.Valid() && cameraRotation == camera.transform.rotation &&
      invertedCameraRotation == Inverted(cameraRotation)
    }

    /** The constructor: stores the resolution and the camera and allocates zeroed buffers. */
    constructor (targetResolution: Vec2Math.Vec2Int, camera: Cameras.Camera)
      requires targetResolution.x >= 0 && targetResolution.y >= 0
      ensures this.targetResolution == targetResolution && this.camera == camera
      ensures Cleared() && fresh(frameBuffer) && fresh(depthBuffer)
    {
      this.targetResolution := targetResolution;
      this.camera := camera;
      frameBuffer := new nat[targetResolution.x, targetResolution.y]((i, j) => 0);
      depthBuffer := new real[targetResolution.x, targetResolution.y]((i, j) => 0.0);
      cameraRotation := Identity;
      invertedCameraRotation := Identity;
    }

    /**
     * The start of every `Render*` pass: fresh zeroed buffers of the
     * target resolution, and the camera rotation and its inverse read anew.
     */
    method BeginPass()
      requires Valid() && camera.Valid()
      modifies this
      ensures Cleared() && fresh(frameBuffer) && fresh(depthBuffer) && RotationsCurrent()
    {
      frameBuffer := new nat[targetResolution.x, targetResolution.y]((i, j) => 0);
      depthBuffer := new real[targetResolution.x, targetResolution.y]((i, j) => 0.0);
      cameraRotation := camera.transform.rotation;
      invertedCameraRotation := Inverted(cameraRotation);
    }

    /**
     * `DepthWrite(x, y, depth, color)`: when the cell passes the depth test
     * its depth becomes `depth` and its colour the packed `color`;
     * otherwise, and for every other cell, both buffers are unchanged.
     */
    method DepthWrite(x: int, y: int, depth: real, color: Colors.Color)
      requires Valid() && 0 <= x < targetResolution.x && 0 <= y < targetResolution.y
      modifies frameBuffer, depthBuffer
      ensures depthBuffer[x, y] == DepthAfter(old(depthBuffer[x, y]), depth)
      ensures frameBuffer[x, y] == if DepthPasses(old(depthBuffer[x, y]), depth) then Colors.ToUint(color)
                                   else old(frameBuffer[x, y])
      ensures forall i, j :: 0 <= i < targetResolution.x && 0 <= j < targetResolution.y && (i != x || j != y) ==>
                depthBuffer[i, j] == old(depthBuffer[i, j]) && frameBuffer[i, j] == old(frameBuffer[i, j])
    {
      var depthBufferValue := depthBuffer[x, y];
      if depthBufferValue == 0.0 || depth <= depthBufferValue {
        depthBuffer[x, y] := depth;
        frameBuffer[x, y] := Colors.ToUint(color);
      }
    }

    /**
     * The write in `RasterizeSegment`'s loop for sample `j` of
     * `amountOfPoints`: the strict depth test, and the colour from the
     * pixel position and the progress along the segment.
     */
    method SegmentDepthWrite(x: int, y: int, depth: real, j: int, amountOfPoints: int)
      requires Valid() && 0 <= x < targetResolution.x && 0 <= y < targetResolution.y
      requires 0 <= j <= amountOfPoints && 0 < amountOfPoints
      modifies frameBuffer, depthBuffer
      ensures SegmentDepthPasses(old(depthBuffer[x, y]), depth) ==>
                depthBuffer[x, y] == depth &&
                frameBuffer[x, y] == Colors.ToUint(SegmentPixelColor(x, y, j, amountOfPoints, targetResolution))
      ensures !SegmentDepthPasses(old(depthBuffer[x, y]), depth) ==>
                depthBuffer[x, y] == old(depthBuffer[x, y]) && frameBuffer[x, y] == old(frameBuffer[x, y])
      ensures forall i, k :: 0 <= i < targetResolution.x && 0 <= k < targetResolution.y && (i != x || k != y) ==>
                depthBuffer[i, k] == old(depthBuffer[i, k]) && frameBuffer[i, k] == old(frameBuffer[i, k])
      ensures forall i, k :: 0 <= i < targetResolution.x && 0 <= k < targetResolution.y ==>
                (depthBuffer[i, k] == old(depthBuffer[i, k]) && frameBuffer[i, k] == old(frameBuffer[i, k])) ||
                depthBuffer[i, k] == depth
    {
      var depthBufferValue := depthBuffer[x, y];
      if depthBufferValue == 0.0 || depth < depthBufferValue {
        depthBuffer[x, y] := depth;
        var color := SegmentPixelColor(x, y, j, amountOfPoints, targetResolution);
        frameBuffer[x, y] := Colors.ToUint(color);
      }
    }

    /**
     * `ObjectVerticesToCameraSpace(so)`: the object's transformed vertices
     * offset by its position relative to the camera, then rotated with the
     * stored inverse camera rotation and camera rotation.
     */
    method ObjectVerticesToCameraSpace(so: Scene.Shaped3DObject) returns (cameraSpaceVertices: seq<Vec3>)
      requires RotationsCurrent()
      ensures cameraSpaceVertices == CameraSpaceVertices(so.transformedVertices, so.transform.position,
                                                         camera.transform.position, cameraRotation)
    {
      var vertices := so.transformedVertices;
      var relPos := Sub(so.transform.position, camera.transform.position);
      var verticesRelPos := seq(|vertices|, i requires 0 <= i < |vertices| => Add(relPos, vertices[i]));
      cameraSpaceVertices := RotateVectors(verticesRelPos, invertedCameraRotation, cameraRotation);
    }

    /**
     * `RasterizeSegments(segments, vertices)`: the segments handed to
     * `RasterizeSegment`, one per pair of entries, unclipped.
     */
    method RasterizeSegments(segments: seq<int>, cameraSpaceVertices: seq<Vec3>) returns (drawn: seq<(Vec3, Vec3)>)
      requires PairIndicesFit(segments, cameraSpaceVertices)
      ensures drawn == SegmentPairs(segments, cameraSpaceVertices)
    {
      ghost var pairs := SegmentPairs(segments, cameraSpaceVertices);
      drawn := [];
      var i := 0;
      ghost var k := 0;
      PairLoopBound(|segments|, k);
      while i < |segments| - 1
        invariant k <= |segments| / 2 && i == 2 * k
        invariant i < |segments| - 1 <==> k < |segments| / 2
        invariant drawn == pairs[..k]
      {
        PairAt(segments, cameraSpaceVertices, k);
        var a := cameraSpaceVertices[segments[i]];
        var b := cameraSpaceVertices[segments[i + 1]];
        assert pairs[..k + 1] == pairs[..k] + [(a, b)];
        drawn := drawn + [(a, b)];
        i := i + 2;
        k := k + 1;
        PairLoopBound(|segments|, k);
      }
      assert pairs[..k] == pairs;
    }

    /**
     * `FrustumClipAndRasterizeSegments(segments, vertices)`: the segments
     * handed to `RasterizeSegment`; a segment with an end outside the
     * camera-space frustum is clipped first and skipped when clipping
     * leaves nothing.
     */
    method FrustumClipSegments(segments: seq<int>, cameraSpaceVertices: seq<Vec3>) returns (drawn: seq<(Vec3, Vec3)>)
      requires camera.Valid() && PairIndicesFit(segments, cameraSpaceVertices)
      ensures drawn == DrawnSegments(camera.cameraSpaceFrustum.planes[..], SegmentPairs(segments, cameraSpaceVertices))
    {
      var frustum := camera.cameraSpaceFrustum;
      ghost var ps := frustum.planes[..];
      ghost var pairs := SegmentPairs(segments, cameraSpaceVertices);
      drawn := [];
      var i := 0;
      ghost var k := 0;
      PairLoopBound(|segments|, k);
      while i < |segments| - 1
        invariant k <= |segments| / 2 && i == 2 * k
        invariant i < |segments| - 1 <==> k < |segments| / 2
        invariant drawn == DrawnSegments(ps, pairs[..k])
      {
        PairAt(segments, cameraSpaceVertices, k);
        var a := cameraSpaceVertices[segments[i]];
        var b := cameraSpaceVertices[segments[i + 1]];
        DrawnStep(ps, pairs, k, a, b);
        k := k + 1;
        PairLoopBound(|segments|, k);
        var aInside := frustum.IsPointInside(a);
        var bInside := frustum.IsPointInside(b);
        if !(aInside && bInside) {
          var result := frustum.ClipSegment(a, b);
          if result.None? {
            i := i + 2;
            continue;
          }
          a, b := result.value.0, result.value.1;
        }
        drawn := drawn + [(a, b)];
        i := i + 2;
      }
      assert pairs[..k] == pairs;
    }

    /**
     * `RasterizeSegment(a, b)`: samples the projected segment at
     * `amountOfPoints + 1` evenly spaced points (three per pixel of length,
     * rounded up, and at least one), interpolates the depth linearly and
     * writes each sample's pixel through the strict depth test.  Every
     * cell either keeps both of its values or ends up holding a depth
     * between the two endpoint depths.
     */
    method RasterizeSegment(a: Vec3, b: Vec3, sqrt: real -> real)
      requires Valid()
      requires camera.viewPortSize.x * a.z != 0.0 && camera.viewPortSize.y * a.z != 0.0
      requires camera.viewPortSize.x * b.z != 0.0 && camera.viewPortSize.y * b.z != 0.0
      requires InFrame(Project(a, targetResolution, camera.viewPlaneDistance, camera.viewPortSize), targetResolution)
      requires InFrame(Project(b, targetResolution, camera.viewPlaneDistance, camera.viewPortSize), targetResolution)
      modifies frameBuffer, depthBuffer
      ensures forall i, k :: 0 <= i < targetResolution.x && 0 <= k < targetResolution.y ==>
                (depthBuffer[i, k] == old(depthBuffer[i, k]) && frameBuffer[i, k] == old(frameBuffer[i, k])) ||
                Between(depthBuffer[i, k], a.z, b.z)
    {
      var zStart := a.z;
      var zDiff := b.z - a.z;
      var frameA := Project(a, targetResolution, camera.viewPlaneDistance, camera.viewPortSize);
      var frameB := Project(b, targetResolution, camera.viewPlaneDistance, camera.viewPortSize);
      var frameA2B := Vec2Math.SubInt(frameB, frameA);
      var amountOfPoints := Ceiling(Vec2Math.Magnitude(Vec2Math.ToFloat(frameA2B), sqrt) * 3.0);
      if amountOfPoints == 0 {
        amountOfPoints := 1;
      }
      var j := 0;
      while j <= amountOfPoints
        invariant 0 <= j
        invariant forall i, k :: 0 <= i < targetResolution.x && 0 <= k < targetResolution.y ==>
                    (depthBuffer[i, k] == old(depthBuffer[i, k]) && frameBuffer[i, k] == old(frameBuffer[i, k])) ||
                    Between(depthBuffer[i, k], a.z, b.z)
        decreases amountOfPoints - j
      {
        var progress := j as real / amountOfPoints as real;
        ProgressInUnit(j, amountOfPoints);
        var depth := zStart + zDiff * progress;
        SampleDepthBetween(zStart, zDiff, progress);
        assert zStart + zDiff == b.z;
        var pixelX := SampleCoordinate(frameA.x, frameA2B.x, progress, targetResolution.x);
        var pixelY := SampleCoordinate(frameA.y, frameA2B.y, progress, targetResolution.y);
        SegmentDepthWrite(pixelX, pixelY, depth, j, amountOfPoints);
        j := j + 1;
      }
    }

    /**
     * The body of `RenderTriangles` for one object: culled when its sphere
     * is wholly outside the world-space frustum, otherwise its camera-facing
     * triangles, drawn as they are when the sphere is wholly inside and
     * handed to the clipper when it straddles a plane.
     */
    method FacingObject(so: Scene.Shaped3DObject, normalize: Vec3 -> Vec3) returns (pass: TrianglePass)
      requires RotationsCurrent() && Renderable(so)
      ensures pass == FacingPass(camera.worldSpaceFrustum.planes[..], so.transform.position, so.radius,
                                 so.transformedTriangles[..], so.transformedVertices, camera.transform.position,
                                 cameraRotation, normalize)
    {
      var worldSpaceFrustum := camera.worldSpaceFrustum;
      var cameraSpaceVertices := ObjectVerticesToCameraSpace(so);
      var partlyInside := worldSpaceFrustum.IsObjectPartlyInside(so.transform.position, so.radius);
      var indexTriangles := so.transformedTriangles[..];
      ApicesDefinedSameLength(indexTriangles, so.transformedVertices, cameraSpaceVertices);
      if !partlyInside {
        return Culled;
      }
      var cameraFacingTriangles := CameraFacing(indexTriangles, cameraSpaceVertices, normalize);
      var completelyInside := worldSpaceFrustum.IsObjectCompletelyInside(so.transform.position, so.radius);
      if completelyInside {
        pass := AsTheyAre(cameraFacingTriangles);
      } else {
        pass := Clipped(cameraFacingTriangles);
      }
    }

    /**
     * `RenderTriangles(sceneObjects)`: fresh buffers and camera rotation,
     * then for each object its camera-space vertices, sphere culling
     * against the world-space frustum, the back-face filter, and the
     * facing triangles drawn as they are or handed to the clipper.
     */
    method RenderTriangles(sceneObjects: seq<Scene.Shaped3DObject?>, normalize: Vec3 -> Vec3)
      returns (passes: seq<TrianglePass>)
      requires Valid() && camera.Valid()
      requires forall k :: 0 <= k < |sceneObjects| && sceneObjects[k] != null ==> Renderable(sceneObjects[k])
      modifies this
      ensures Valid() && fresh(frameBuffer) && fresh(depthBuffer) && RotationsCurrent()
      ensures |passes| == |sceneObjects|
      ensures forall k :: 0 <= k < |sceneObjects| && sceneObjects[k] == null ==> passes[k] == NoObject
      ensures forall k :: 0 <= k < |sceneObjects| && sceneObjects[k] != null ==>
                Renderable(sceneObjects[k]) &&
                passes[k] == FacingPass(camera.worldSpaceFrustum.planes[..], sceneObjects[k].transform.position,
                                             sceneObjects[k].radius, sceneObjects[k].transformedTriangles[..],
                                             sceneObjects[k].transformedVertices, camera.transform.position,
                                             cameraRotation, normalize)
    {
      BeginPass();
      passes := FacingPasses(sceneObjects, normalize);
      FacingPassesEntries(sceneObjects, normalize);
    }

    /**
     * What `RenderTriangles` hands on for the first n entries of the scene
     * array, in order: `NoObject` for a null entry, `FacingPass` for an object.
     */
    ghost function FacingPassesUpTo(sceneObjects: seq<Scene.Shaped3DObject?>, n: nat, normalize: Vec3 -> Vec3)
      : (r: seq<TrianglePass>)
      requires RotationsCurrent() && n <= |sceneObjects|
      requires forall k :: 0 <= k < |sceneObjects| && sceneObjects[k] != null ==> Renderable(sceneObjects[k])
      reads this, camera, camera.transform, camera.worldSpaceFrustum.planes
      reads set k | 0 <= k < |sceneObjects| && sceneObjects[k] != null :: sceneObjects[k]
      reads set k | 0 <= k < |sceneObjects| && sceneObjects[k] != null :: sceneObjects[k].transform
      reads set k | 0 <= k < |sceneObjects| && sceneObjects[k] != null :: sceneObjects[k].transformedTriangles
      ensures |r| == n
    {
      if n == 0 then []
      else
        var so := sceneObjects[n - 1];
        FacingPassesUpTo(sceneObjects, n - 1, normalize) +
        [if so == null then NoObject
         else FacingPass(camera.worldSpaceFrustum.planes[..], so.transform.position, so.radius,
                         so.transformedTriangles[..], so.transformedVertices, camera.transform.position,
                         cameraRotation, normalize)]
    }

    /** Entry k of the passes is the pass for scene entry k. */
    lemma {:induction false} FacingPassAt(sceneObjects: seq<Scene.Shaped3DObject?>, n: nat, k: nat, normalize: Vec3 -> Vec3)
      requires RotationsCurrent() && k < n <= |sceneObjects|
      requires forall k :: 0 <= k < |sceneObjects| && sceneObjects[k] != null ==> Renderable(sceneObjects[k])
      ensures FacingPassesUpTo(sceneObjects, n, normalize)[k] == FacingPassesUpTo(sceneObjects, k + 1, normalize)[k]
    {
      if k < n - 1 {
        var shorter := FacingPassesUpTo(sceneObjects, n - 1, normalize);
        assert FacingPassesUpTo(sceneObjects, n, normalize)[..n - 1] == shorter;
        FacingPassAt(sceneObjects, n - 1, k, normalize);
      }
    }

    /** Every entry of the passes, by what the scene array holds there. */
    lemma FacingPassesEntries(sceneObjects: seq<Scene.Shaped3DObject?>, normalize: Vec3 -> Vec3)
      requires RotationsCurrent()
      requires forall k :: 0 <= k < |sceneObjects| && sceneObjects[k] != null ==> Renderable(sceneObjects[k])
      ensures forall k :: 0 <= k < |sceneObjects| && sceneObjects[k] == null ==>
                FacingPassesUpTo(sceneObjects, |sceneObjects|, normalize)[k] == NoObject
      ensures forall k :: 0 <= k < |sceneObjects| && sceneObjects[k] != null ==>
                FacingPassesUpTo(sceneObjects, |sceneObjects|, normalize)[k]
                == FacingPass(camera.worldSpaceFrustum.planes[..], sceneObjects[k].transform.position,
                              sceneObjects[k].radius, sceneObjects[k].transformedTriangles[..],
                              sceneObjects[k].transformedVertices, camera.transform.position,
                              cameraRotation, normalize)
    {
      forall k | 0 <= k < |sceneObjects| {
        FacingPassAt(sceneObjects, |sceneObjects|, k, normalize);
      }
    }

    /** The loop of `RenderTriangles` over the objects, after the buffers are fresh. */
    method FacingPasses(sceneObjects: seq<Scene.Shaped3DObject?>, normalize: Vec3 -> Vec3)
      returns (passes: seq<TrianglePass>)
      requires RotationsCurrent()
      requires forall k :: 0 <= k < |sceneObjects| && sceneObjects[k] != null ==> Renderable(sceneObjects[k])
      ensures passes == FacingPassesUpTo(sceneObjects, |sceneObjects|, normalize)
    {
      passes := [];
      for k := 0 to |sceneObjects|
        invariant passes == old(FacingPassesUpTo(sceneObjects, k, normalize))
      {
        var so := sceneObjects[k];
        var pass := NoObject;
        if so != null {
          pass := FacingObject(so, normalize);
        }
        passes := passes + [pass];
      }
    }

    /**
     * The body of `RenderTriangleSegments` for one object: culled when its
     * sphere is wholly outside the world-space frustum, all triangle edges
     * drawn unclipped when it is wholly inside, and the triangles handed to
     * the clipper otherwise.
     */
    method EdgeObject(so: Scene.Shaped3DObject) returns (pass: SegmentPass)
      requires RotationsCurrent() && Renderable(so)
      ensures pass == EdgePass(camera.worldSpaceFrustum.planes[..], so.transform.position, so.radius,
                               so.transformedTriangles[..], so.transformedVertices, camera.transform.position,
                               cameraRotation)
    {
      var worldSpaceFrustum := camera.worldSpaceFrustum;
      var cameraSpaceVertices := ObjectVerticesToCameraSpace(so);
      var partlyInside := worldSpaceFrustum.IsObjectPartlyInside(so.transform.position, so.radius);
      if !partlyInside {
        return CulledObject;
      }
      var indexTriangles := so.transformedTriangles[..];
      var completelyInside := worldSpaceFrustum.IsObjectCompletelyInside(so.transform.position, so.radius);
      if completelyInside {
        var segments := GetSegmentsFromIndexTriangles(indexTriangles);
        SegmentsInRange(indexTriangles, cameraSpaceVertices);
        var drawn := RasterizeSegments(segments, cameraSpaceVertices);
        return Drawn(drawn);
      }
      pass := TrianglesToClip(indexTriangles);
    }

    /**
     * `RenderTriangleSegments(sceneObjects)`: as `RenderTriangles` without
     * the back-face filter, drawing triangle edges: all of them unclipped
     * for an object completely inside, and the triangles handed to the
     * clipper otherwise.
     */
    method RenderTriangleSegments(sceneObjects: seq<Scene.Shaped3DObject?>) returns (passes: seq<SegmentPass>)
      requires Valid() && camera.Valid()
      requires forall k :: 0 <= k < |sceneObjects| && sceneObjects[k] != null ==> Renderable(sceneObjects[k])
      modifies this
      ensures Valid() && fresh(frameBuffer) && fresh(depthBuffer) && RotationsCurrent()
      ensures |passes| == |sceneObjects|
      ensures forall k :: 0 <= k < |sceneObjects| && sceneObjects[k] == null ==> passes[k] == SkippedEntry
      ensures forall k :: 0 <= k < |sceneObjects| && sceneObjects[k] != null ==>
                Renderable(sceneObjects[k]) &&
                passes[k] == EdgePass(camera.worldSpaceFrustum.planes[..], sceneObjects[k].transform.position,
                                      sceneObjects[k].radius, sceneObjects[k].transformedTriangles[..],
                                      sceneObjects[k].transformedVertices, camera.transform.position, cameraRotation)
    {
      BeginPass();
      var worldSpaceFrustum := camera.worldSpaceFrustum;
      passes := [];
      for k := 0 to |sceneObjects|
        modifies {}
        invariant |passes| == k
        invariant forall m :: 0 <= m < k ==>
                    passes[m] == if sceneObjects[m] == null then SkippedEntry
                                 else EdgePass(worldSpaceFrustum.planes[..], sceneObjects[m].transform.position,
                                               sceneObjects[m].radius, sceneObjects[m].transformedTriangles[..],
                                               sceneObjects[m].transformedVertices, camera.transform.position,
                                               cameraRotation)
      {
        var so := sceneObjects[k];
        if so == null {
          passes := passes + [SkippedEntry];
          continue;
        }
        var pass := EdgeObject(so);
        passes := passes + [pass];
      }
    }

    /**
     * The body of `RenderTriangleSegmentsNoClip` for one object: culled when
     * its sphere is wholly outside the world-space frustum, otherwise every
     * triangle edge clipped on its own against the camera-space frustum.
     */
    method ClipObjectEdges(so: Scene.Shaped3DObject) returns (pass: SegmentPass)
      requires RotationsCurrent() && Renderable(so)
      ensures pass == ClippedEdgePass(camera.worldSpaceFrustum.planes[..], camera.cameraSpaceFrustum.planes[..],
                                      so.transform.position, so.radius, so.transformedTriangles[..],
                                      so.transformedVertices, camera.transform.position, cameraRotation)
    {
      var cameraSpaceVertices := ObjectVerticesToCameraSpace(so);
      var partlyInside := camera.worldSpaceFrustum.IsObjectPartlyInside(so.transform.position, so.radius);
      if !partlyInside {
        return CulledObject;
      }
      var segments := GetSegmentsFromIndexTriangles(so.transformedTriangles[..]);
      SegmentsInRange(so.transformedTriangles[..], cameraSpaceVertices);
      var drawn := FrustumClipSegments(segments, cameraSpaceVertices);
      pass := Drawn(drawn);
    }

    /**
     * `RenderTriangleSegmentsNoClip(sceneObjects)`: for each object that
     * survives sphere culling, every triangle edge clipped on its own
     * against the camera-space frustum and drawn when something is left.
     */
    method RenderTriangleSegmentsNoClip(sceneObjects: seq<Scene.Shaped3DObject?>) returns (passes: seq<SegmentPass>)
      requires Valid() && camera.Valid()
      requires forall k :: 0 <= k < |sceneObjects| && sceneObjects[k] != null ==> Renderable(sceneObjects[k])
      modifies this
      ensures Valid() && fresh(frameBuffer) && fresh(depthBuffer) && RotationsCurrent()
      ensures |passes| == |sceneObjects|
      ensures forall k :: 0 <= k < |sceneObjects| && sceneObjects[k] == null ==> passes[k] == SkippedEntry
      ensures forall k :: 0 <= k < |sceneObjects| && sceneObjects[k] != null ==>
                Renderable(sceneObjects[k]) &&
                passes[k] == ClippedEdgePass(camera.worldSpaceFrustum.planes[..], camera.cameraSpaceFrustum.planes[..],
                                             sceneObjects[k].transform.position, sceneObjects[k].radius,
                                             sceneObjects[k].transformedTriangles[..],
                                             sceneObjects[k].transformedVertices, camera.transform.position,
                                             cameraRotation)
    {
      BeginPass();
      var worldSpaceFrustum := camera.worldSpaceFrustum;
      passes := [];
      for k := 0 to |sceneObjects|
        modifies {}
        invariant |passes| == k
        invariant forall m :: 0 <= m < k ==>
                    passes[m] == if sceneObjects[m] == null then SkippedEntry
                                 else ClippedEdgePass(worldSpaceFrustum.planes[..], camera.cameraSpaceFrustum.planes[..],
                                                      sceneObjects[m].transform.position, sceneObjects[m].radius,
                                                      sceneObjects[m].transformedTriangles[..],
                                                      sceneObjects[m].transformedVertices, camera.transform.position,
                                                      cameraRotation)
      {
        var so := sceneObjects[k];
        if so == null {
          passes := passes + [SkippedEntry];
          continue;
        }
        var pass := ClipObjectEdges(so);
        passes := passes + [pass];
      }
    }
  }
}
