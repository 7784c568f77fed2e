/**
 * The older wireframe `Pipeline`: a fixed camera at (0, 0, -10) looking
 * down +z, a perspective divide onto a viewport ten units high, and per
 * object the pixel position of every mesh vertex plus the flat list of
 * line endpoints `[i0, i1, i1, i2, i2, i0]` per triangle.  Objects are
 * merged into one position list with their line indices shifted to match.
 */
module Wireframe {
  import opened Vec3Math
  import opened Numerics
  import opened Options
  import opened Triangles
  import opened Meshes
  import Vec2Math
  import Rendering

  /** What the wireframe pass reads of a game object: its position and its mesh. */
  datatype WireObject = WireObject(position: Vec3, mesh: Mesh)

  /** A value between 0 and an integer `size` rounds to an integer between 0 and `size`. */
  lemma RoundWithin(r: real, size: int)
    requires 0.0 <= r <= size as real
    ensures 0 <= RoundHalfEven(r) <= size
  {
  }

  /** The pixel rows and columns `Shift` moves a line list by: every entry plus `offset`. */
  function Shift(s: seq<int>, offset: int): seq<int> {
    seq(|s|, j requires 0 <= j < |s| => s[j] + offset)
  }

  /** Scaling numerator and denominator by the same non-zero factor leaves a quotient unchanged. */
  lemma CancelCommonFactor(a: real, b: real, k: real)
    requires b != 0.0 && k != 0.0
    ensures (a * k) / (b * k) == a / b
  {
    var q := a / b;
    assert q * b == a;
    assert (q * b) * k == q * (b * k);
  }

  /**
   * One coordinate of the perspective divide: scaling the offset and the
   * depth by the same factor does not move the result, and at depth
   * `distance` the coordinate is kept.
   */
  lemma PerspectiveAlongRay(distance: real, a: real, z: real, k: real)
    requires z != 0.0 && k != 0.0
    ensures distance * (a * k) / (z * k) == distance * a / z
    ensures z == distance ==> distance * a / z == a
  {
    CancelCommonFactor(distance * a, z, k);
    assert distance * (a * k) == (distance * a) * k;
    if z == distance {
      assert distance * a == a * z;
      MulDivCancel(a, z);
    }
  }

  class Pipeline {
    const targetResolution: Vec2Math.Vec2Int
    const viewPortSize: Vec2Math.Vec2
    const halfViewPortSize: Vec2Math.Vec2
    const viewPortDistance: real
    const camPos: Vec3
    /** Allocated by the constructor; the wireframe pass returns lists instead of drawing into them. */
    const frameBuffer: array2<Vec3>
    const depthBuffer: array2<real>

    /** The viewport is ten units high and has the frame's aspect ratio; the camera sits at (0, 0, -10). */
    predicate Valid() {
      viewPortSize.y == 10.0 && viewPortSize.x > 0.0 && camPos == Vec3(0.0, 0.0, -10.0)
    }

    /**
     * The constructor: a viewport ten units high and `x / y` times as wide,
     * its half, the view plane distance from the field of view, and the
     * camera position.
     */
    constructor (targetRes: Vec2Math.Vec2Int, fov: real, deg2rad: real, tan: real -> real)
      requires targetRes.x > 0 && targetRes.y > 0
      requires tan(deg2rad * fov / 2.0) != 0.0
      ensures Valid() && targetResolution == targetRes
      ensures viewPortSize == Vec2Math.Vec2(10.0 * (targetRes.x as real / targetRes.y as real), 10.0)
      ensures halfViewPortSize == Vec2Math.Vec2(viewPortSize.x / 2.0, viewPortSize.y / 2.0)
      ensures viewPortDistance == viewPortSize.x / (2.0 * tan(deg2rad * fov / 2.0))
      ensures frameBuffer.Length0 == targetRes.x && frameBuffer.Length1 == targetRes.y
      ensures depthBuffer.Length0 == targetRes.x && depthBuffer.Length1 == targetRes.y
    {
      targetResolution := targetRes;
      frameBuffer := new Vec3[targetRes.x, targetRes.y]((i, j) => Zero);
      depthBuffer := new real[targetRes.x, targetRes.y]((i, j) => 0.0);
      var ratio := targetRes.x as real / targetRes.y as real;
      var size := Vec2Math.Vec2(10.0 * ratio, 10.0);
      viewPortSize := size;
      halfViewPortSize := Vec2Math.Div(size, 2.0);
      viewPortDistance := size.x / (2.0 * tan(deg2rad * fov / 2.0));
      camPos := Vec3(0.0, 0.0, -10.0);
    }

    /** `WorldToViewport(v)`: relative to the camera, then the perspective divide by depth. */
    function WorldToViewport(v: Vec3): Vec2Math.Vec2
      requires Sub(v, camPos).z != 0.0
    {
      var rel := Sub(v, camPos);
      Vec2Math.Vec2(viewPortDistance * rel.x / rel.z, viewPortDistance * rel.y / rel.z)
    }

    /**
     * Every point on a ray from the camera lands on the same viewport
     * point; a point at the view plane distance in front of the camera
     * lands on its own x and y.
     */
    lemma ProjectionAlongRay(d: Vec3, k: real)
      requires d.z != 0.0 && k != 0.0
      ensures Sub(Add(camPos, d), camPos) == d && Sub(Add(camPos, Scale(d, k)), camPos) == Scale(d, k)
      ensures WorldToViewport(Add(camPos, Scale(d, k))) == WorldToViewport(Add(camPos, d))
      ensures d.z == viewPortDistance ==> WorldToViewport(Add(camPos, d)) == Vec2Math.Vec2(d.x, d.y)
    {
      var e := Scale(d, k);
      assert Sub(Add(camPos, d), camPos) == d;
      assert Sub(Add(camPos, e), camPos) == e;
      assert e == Vec3(d.x * k, d.y * k, d.z * k);
      PerspectiveAlongRay(viewPortDistance, d.x, d.z, k);
      PerspectiveAlongRay(viewPortDistance, d.y, d.z, k);
    }

    /**
     * `ViewportToFramePos(p)`: the viewport point as a fraction of the
     * viewport, shifted so the centre is at one half, scaled to the
     * resolution and rounded.
     */
    function ViewportToFramePos(p: Vec2Math.Vec2): (r: Vec2Math.Vec2Int)
      requires Valid()
      ensures -viewPortSize.x / 2.0 <= p.x <= viewPortSize.x / 2.0 && 0 <= targetResolution.x ==>
                0 <= r.x <= targetResolution.x
      ensures -viewPortSize.y / 2.0 <= p.y <= viewPortSize.y / 2.0 && 0 <= targetResolution.y ==>
                0 <= r.y <= targetResolution.y
    {
      Vec2Math.Vec2Int(FrameCoordinate(p.x, viewPortSize.x, targetResolution.x),
                       FrameCoordinate(p.y, viewPortSize.y, targetResolution.y))
    }

    /** The centre of the viewport lands on the middle of the frame, rounded half to even. */
    lemma CentreLandsMidFrame()
      requires Valid()
      ensures ViewportToFramePos(Vec2Math.Vec2(0.0, 0.0))
           == Vec2Math.Vec2Int(RoundHalfEven(targetResolution.x as real / 2.0),
                               RoundHalfEven(targetResolution.y as real / 2.0))
    {
    }

    /** Where a vertex of an object at `position` lands on the frame. */
    function FramePos(position: Vec3, v: Vec3): Vec2Math.Vec2Int
      requires Valid() && Sub(Add(position, v), camPos).z != 0.0
    {
      ViewportToFramePos(WorldToViewport(Add(position, v)))
    }

    /** Every vertex of the object is off the camera's depth plane, and every triangle is an index triangle. */
    predicate Projectable(go: WireObject) {
      Rendering.AllIndexTriangles(go.mesh.triangles) &&
      forall i :: 0 <= i < |go.mesh.vertices| ==> Sub(Add(go.position, go.mesh.vertices[i]), camPos).z != 0.0
    }

    /** The pixel positions `RenderWireFrame` returns: one per mesh vertex, in order. */
    function WirePositions(go: WireObject): (r: seq<Vec2Math.Vec2Int>)
      requires Valid() && Projectable(go)
      ensures |r| == |go.mesh.vertices|
    {
      seq(|go.mesh.vertices|, i requires 0 <= i < |go.mesh.vertices| => FramePos(go.position, go.mesh.vertices[i]))
    }

    /**
     * `RenderWireFrame(go)`: the pixel position of every vertex, and the
     * six line endpoint indices of every triangle, triangle after triangle.
     */
    method RenderWireFrame(go: WireObject) returns (positions: seq<Vec2Math.Vec2Int>, lines: seq<int>)
      requires Valid() && Projectable(go)
      ensures |positions| == |go.mesh.vertices|
      ensures forall i :: 0 <= i < |positions| ==> positions[i] == FramePos(go.position, go.mesh.vertices[i])
      ensures lines == Rendering.SegmentsOf(go.mesh.triangles)
    {
      var vertices := go.mesh.vertices;
      positions := seq(|vertices|, i requires 0 <= i < |vertices| => FramePos(go.position, vertices[i]));
      lines := [];
      var triangles := go.mesh.triangles;
      for i := 0 to |triangles|
        invariant lines == Rendering.SegmentsOf(triangles[..i])
      {
        assert triangles[..i + 1][..i] == triangles[..i];
        var triangleLines := Rendering.EdgeIndices(triangles[i].indices);
        lines := lines + triangleLines;
      }
      assert triangles[..|triangles|] == triangles;
    }

    /** Every non-null object can be projected. */
    predicate AllProjectable(objects: seq<Option<WireObject>>) {
      forall k :: 0 <= k < |objects| && objects[k].Some? ==> Projectable(objects[k].value)
    }

    /** The merged position list: each non-null object's positions appended in turn. */
    function MergedPositions(objects: seq<Option<WireObject>>): seq<Vec2Math.Vec2Int>
      requires Valid() && AllProjectable(objects)
    {
      if objects == [] then []
      else
        var n := |objects| - 1;
        MergedPositions(objects[..n]) + (if objects[n].Some? then WirePositions(objects[n].value) else [])
    }

    /** The merged line list: each non-null object's lines shifted by the positions collected before it. */
    function MergedLines(objects: seq<Option<WireObject>>): seq<int>
      requires Valid() && AllProjectable(objects)
    {
      if objects == [] then []
      else
        var n := |objects| - 1;
        MergedLines(objects[..n]) +
          (if objects[n].Some? then Shift(Rendering.SegmentsOf(objects[n].value.mesh.triangles), |MergedPositions(objects[..n])|)
           else [])
    }

    /**
     * `RenderGameObjectsWireFrame(gameObjects)`: skips null entries; for
     * every other object appends its lines shifted by the number of
     * positions collected so far, then its positions.
     */
    method RenderGameObjectsWireFrame(gameObjects: seq<Option<WireObject>>)
      returns (pixelPositions: seq<Vec2Math.Vec2Int>, lines: seq<int>)
      requires Valid() && AllProjectable(gameObjects)
      ensures pixelPositions == MergedPositions(gameObjects) && lines == MergedLines(gameObjects)
    {
      pixelPositions := [];
      lines := [];
      for k := 0 to |gameObjects|
        invariant pixelPositions == MergedPositions(gameObjects[..k])
        invariant lines == MergedLines(gameObjects[..k])
      {
        assert gameObjects[..k + 1][..k] == gameObjects[..k];
        if gameObjects[k].None? {
          continue;
        }
        var positions, objectLines := RenderWireFrame(gameObjects[k].value);
        assert positions == WirePositions(gameObjects[k].value);
        lines := lines + seq(|objectLines|, j requires 0 <= j < |objectLines| => objectLines[j] + |pixelPositions|);
        pixelPositions := pixelPositions + positions;
      }
      assert gameObjects[..|gameObjects|] == gameObjects;
    }

    /** Null entries add neither positions nor lines. */
    lemma {:induction false} NullEntriesContributeNothing(objects: seq<Option<WireObject>>)
      requires Valid() && AllProjectable(objects)
      ensures AllProjectable(objects + [None])
      ensures MergedPositions(objects + [None]) == MergedPositions(objects)
      ensures MergedLines(objects + [None]) == MergedLines(objects)
    {
      assert (objects + [None])[..|objects|] == objects;
    }

    /**
     * The lines an object adds, looked up in the merged position list,
     * give the same pixels as its own lines looked up in its own
     * positions: every merged index points at that object's own vertices.
     */
    lemma {:induction false} MergedLinesPointAtOwnPositions(objects: seq<Option<WireObject>>, go: WireObject)
      requires Valid() && AllProjectable(objects) && Projectable(go) && WellFormed(go.mesh)
      ensures AllProjectable(objects + [Some(go)])
      ensures var before := |MergedLines(objects)|;
              var own := Rendering.SegmentsOf(go.mesh.triangles);
              var lines := MergedLines(objects + [Some(go)]);
              var positions := MergedPositions(objects + [Some(go)]);
              |lines| == before + |own| &&
              forall j :: 0 <= j < |own| ==>
                0 <= own[j] < |go.mesh.vertices| && 0 <= lines[before + j] < |positions| &&
                positions[lines[before + j]] == WirePositions(go)[own[j]]
    {
      var all := objects + [Some(go)];
      assert all[..|objects|] == objects;
      var own := Rendering.SegmentsOf(go.mesh.triangles);
      Rendering.SegmentsInRange(go.mesh.triangles, go.mesh.vertices);
      var offset := |MergedPositions(objects)|;
      var positions := MergedPositions(all);
      var lines := MergedLines(all);
      assert positions == MergedPositions(objects) + WirePositions(go);
      assert lines == MergedLines(objects) + Shift(own, offset);
      forall j | 0 <= j < |own|
        ensures lines[|MergedLines(objects)| + j] == own[j] + offset
        ensures positions[own[j] + offset] == WirePositions(go)[own[j]]
      {
      }
    }

    /** Every merged line index names an entry of the merged position list. */
    lemma {:induction false} MergedLinesInRange(objects: seq<Option<WireObject>>)
      requires Valid() && AllProjectable(objects)
      requires forall k :: 0 <= k < |objects| && objects[k].Some? ==> WellFormed(objects[k].value.mesh)
      ensures forall j :: 0 <= j < |MergedLines(objects)| ==> 0 <= MergedLines(objects)[j] < |MergedPositions(objects)|
    {
      if objects != [] {
        var n := |objects| - 1;
        MergedLinesInRange(objects[..n]);
        if objects[n].Some? {
          Rendering.SegmentsInRange(objects[n].value.mesh.triangles, objects[n].value.mesh.vertices);
        }
      }
    }

    /** `IsVertexInsideFrustum(vertex)`: a stub that accepts every vertex. */
    predicate IsVertexInsideFrustum(vertex: Vec3) {
      true
    }

    /**
     * `IsGameObjectInsideFrustum(go)`: partly inside when some vertex is
     * inside, completely inside when every vertex is.
     */
    method IsGameObjectInsideFrustum(go: WireObject) returns (partiallyInside: bool, completelyInside: bool)
      ensures partiallyInside <==> exists i :: 0 <= i < |go.mesh.vertices| && IsVertexInsideFrustum(go.mesh.vertices[i])
      ensures completelyInside <==> forall i :: 0 <= i < |go.mesh.vertices| ==> IsVertexInsideFrustum(go.mesh.vertices[i])
    {
      partiallyInside := false;
      completelyInside := true;
      var vertices := go.mesh.vertices;
      for i := 0 to |vertices|
        invariant partiallyInside <==> exists m :: 0 <= m < i && IsVertexInsideFrustum(vertices[m])
        invariant completelyInside <==> forall m :: 0 <= m < i ==> IsVertexInsideFrustum(vertices[m])
      {
        if IsVertexInsideFrustum(vertices[i]) {
          partiallyInside := true;
        } else {
          completelyInside := false;
        }
      }
    }

    /**
     * With the stub, a mesh with vertices is reported partly and completely
     * inside, and an empty mesh as not partly but completely inside.
     */
    lemma StubVerdict(go: WireObject)
      ensures (exists i :: 0 <= i < |go.mesh.vertices| && IsVertexInsideFrustum(go.mesh.vertices[i]))
              <==> |go.mesh.vertices| > 0
      ensures forall i :: 0 <= i < |go.mesh.vertices| ==> IsVertexInsideFrustum(go.mesh.vertices[i])
    {
      if |go.mesh.vertices| > 0 {
        assert IsVertexInsideFrustum(go.mesh.vertices[0]);
      }
    }
  }

  /**
   * One coordinate of `ViewportToFramePos`: `resolution * (p / size + 0.5)`
   * rounded half to even.  Within half the viewport size of the centre it
   * is a coordinate between 0 and the resolution; the centre gives half
   * the resolution, rounded.
   */
  function FrameCoordinate(p: real, size: real, resolution: int): (n: int)
    requires size > 0.0
    ensures -size / 2.0 <= p <= size / 2.0 && 0 <= resolution ==> 0 <= n <= resolution
    ensures p == 0.0 ==> n == RoundHalfEven(resolution as real / 2.0)
  {
    ViewportFraction(p, size, resolution);
    RoundHalfEven(resolution as real * (p / size + 0.5))
  }

  /**
   * A viewport coordinate within half the viewport size of the centre
   * maps to a frame coordinate between 0 and the resolution; the centre
   * maps to half the resolution.
   */
  lemma ViewportFraction(p: real, size: real, resolution: int)
    requires size > 0.0
    ensures -size / 2.0 <= p <= size / 2.0 && 0 <= resolution ==>
              0 <= RoundHalfEven(resolution as real * (p / size + 0.5)) <= resolution
    ensures p == 0.0 ==> resolution as real * (p / size + 0.5) == resolution as real / 2.0
  {
    if -size / 2.0 <= p <= size / 2.0 && 0 <= resolution {
      RoundedFractionInFrame(p, size, resolution, resolution as real * (p / size + 0.5));
    }
    if p == 0.0 {
      CentreFraction(size, resolution);
    }
  }

  lemma RoundedFractionInFrame(p: real, size: real, resolution: int, scaled: real)
    requires size > 0.0 && -size / 2.0 <= p <= size / 2.0 && 0 <= resolution
    requires scaled == resolution as real * (p / size + 0.5)
    ensures 0 <= RoundHalfEven(scaled) <= resolution
  {
    UnitFraction(p, size);
    RoundedUnitMultiple(p / size + 0.5, resolution, scaled);
  }

  lemma RoundedUnitMultiple(t: real, resolution: int, scaled: real)
    requires 0.0 <= t <= 1.0 && 0 <= resolution && scaled == resolution as real * t
    ensures 0 <= RoundHalfEven(scaled) <= resolution
  {
    FractionOfWhole(resolution as real, t);
    RoundWithin(scaled, resolution);
  }

  lemma CentreFraction(size: real, resolution: int)
    requires size > 0.0
    ensures resolution as real * (0.0 / size + 0.5) == resolution as real / 2.0
  {
    DivNonNeg(0.0, size);
  }

  /** A coordinate within half the viewport of the centre is a fraction in [0, 1] of the viewport. */
  lemma UnitFraction(p: real, size: real)
    requires size > 0.0 && -size / 2.0 <= p <= size / 2.0
    ensures 0.0 <= p / size + 0.5 <= 1.0
  {
    DivMonotone(-size / 2.0, p, size);
    DivMonotone(p, size / 2.0, size);
    HalfOfWhole(size);
  }

  lemma DivMonotone(a: real, b: real, m: real)
    requires m > 0.0 && a <= b
    ensures a / m <= b / m
  {
    DivNonNeg(b - a, m);
    assert (b - a) / m == b / m - a / m;
  }

  lemma HalfOfWhole(m: real)
    requires m > 0.0
    ensures (m / 2.0) / m == 0.5 && (-m / 2.0) / m == -0.5
  {
    MulDivCancel(0.5, m);
    MulDivCancel(-0.5, m);
  }

  lemma FractionOfWhole(whole: real, t: real)
    requires whole >= 0.0 && 0.0 <= t <= 1.0
    ensures 0.0 <= whole * t <= whole
  {
    assert whole - whole * t == whole * (1.0 - t);
  }
}
