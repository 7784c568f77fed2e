/**
 * `Mesh`: a vertex array and the index triangles that link its entries into
 * surfaces, built either directly or from the traditional flat array of
 * triangle indices.
 */
module Meshes {
  import opened Vec3Math
  import Colors
  import opened Triangles

  /** The constructor stores both arrays unchanged, so a mesh is the pair of them. */
  datatype Mesh = Mesh(vertices: seq<Vec3>, triangles: seq<Triangle>)

  /** Every triangle of the mesh is an index triangle whose indices name vertices of the mesh. */
  predicate WellFormed(m: Mesh) {
    forall k :: 0 <= k < |m.triangles| ==>
      m.triangles[k].IndexTriangle? && IndicesFit(m.triangles[k].indices, m.vertices)
  }

  /** The entries of `tris` that the flat-array conversion reads all name vertices. */
  predicate FlatIndicesFit(tris: seq<int>, verts: seq<Vec3>) {
    forall j :: 0 <= j < |tris| / 3 * 3 ==> 0 <= tris[j] < |verts|
  }

  /** Triangle k of the flat array: entries 3k, 3k+1 and 3k+2, in that order. */
  function FlatTriangle(verts: seq<Vec3>, tris: seq<int>, k: nat, color: Colors.Color,
                        normalize: Vec3 -> Vec3): Triangle
    requires FlatIndicesFit(tris, verts) && k < |tris| / 3
  {
    MakeIndexTriangle(tris[3 * k .. 3 * k + 3], verts, color, normalize)
  }

  /** What `TrianglesFromTrisInts` builds: one triangle per complete group of three entries. */
  function TrianglesOf(verts: seq<Vec3>, tris: seq<int>, color: Colors.Color,
                       normalize: Vec3 -> Vec3): seq<Triangle>
    requires FlatIndicesFit(tris, verts)
  {
    seq(|tris| / 3, k requires 0 <= k < |tris| / 3 => FlatTriangle(verts, tris, k, color, normalize))
  }

  /**
   * There are `|tris| / 3` triangles (a trailing one or two entries are
   * ignored); triangle k holds entries 3k..3k+2 in order and the given
   * colour, and the result is a well-formed mesh over `verts`.
   */
  lemma TrianglesOfShape(verts: seq<Vec3>, tris: seq<int>, color: Colors.Color, normalize: Vec3 -> Vec3)
    requires FlatIndicesFit(tris, verts)
    ensures |TrianglesOf(verts, tris, color, normalize)| == |tris| / 3
    ensures forall k :: 0 <= k < |tris| / 3 ==>
              var t := TrianglesOf(verts, tris, color, normalize)[k];
              t.IndexTriangle? && t.indices == [tris[3 * k], tris[3 * k + 1], tris[3 * k + 2]] && t.color == color
    ensures WellFormed(Mesh(verts, TrianglesOf(verts, tris, color, normalize)))
  {
    var ts := TrianglesOf(verts, tris, color, normalize);
    forall k | 0 <= k < |tris| / 3
      ensures ts[k].IndexTriangle? && ts[k].indices == [tris[3 * k], tris[3 * k + 1], tris[3 * k + 2]]
      ensures IndicesFit(ts[k].indices, verts)
    {
      assert 3 * k + 2 < |tris| / 3 * 3;
    }
  }

  /** Entries beyond the last complete group of three do not change the result. */
  lemma TrailingEntriesIgnored(verts: seq<Vec3>, tris: seq<int>, extra: seq<int>,
                               color: Colors.Color, normalize: Vec3 -> Vec3)
    requires |tris| % 3 == 0 && |extra| < 3
    requires FlatIndicesFit(tris, verts)
    ensures FlatIndicesFit(tris + extra, verts)
    ensures TrianglesOf(verts, tris + extra, color, normalize) == TrianglesOf(verts, tris, color, normalize)
  {
    assert (|tris| + |extra|) / 3 == |tris| / 3;
    assert (tris + extra)[..|tris|] == tris;
    forall k | 0 <= k < |tris| / 3
      ensures (tris + extra)[3 * k .. 3 * k + 3] == tris[3 * k .. 3 * k + 3]
    {
    }
  }

  /**
   * `TrianglesFromTrisInts`: steps through the flat array three entries at
   * a time while at least three remain, appending one index triangle per
   * step.
   */
  method TrianglesFromTrisInts(verts: seq<Vec3>, tris: seq<int>, color: Colors.Color,
                               normalize: Vec3 -> Vec3) returns (triangles: seq<Triangle>)
    requires FlatIndicesFit(tris, verts)
    ensures triangles == TrianglesOf(verts, tris, color, normalize)
  {
    var list: seq<Triangle> := [];
    var i := 0;
    EmptyPrefix(verts, tris, color, normalize);
    while i < |tris| - 2
      invariant 0 <= i <= |tris| && i % 3 == 0
      invariant FlatIndicesFit(tris[..i], verts) && list == TrianglesOf(verts, tris[..i], color, normalize)
    {
      var triangle := MakeIndexTriangle(tris[i .. i + 3], verts, color, normalize);
      NextGroup(verts, tris, i, color, normalize);
      list := list + [triangle];
      i := i + 3;
    }
    WholePrefix(verts, tris, i, color, normalize);
    triangles := list;
  }

  /** No entries, no triangles. */
  lemma EmptyPrefix(verts: seq<Vec3>, tris: seq<int>, color: Colors.Color, normalize: Vec3 -> Vec3)
    ensures FlatIndicesFit(tris[..0], verts) && TrianglesOf(verts, tris[..0], color, normalize) == []
  {
  }

  /**
   * One more complete group of three entries appends the triangle built
   * from that group's slice.
   */
  lemma NextGroup(verts: seq<Vec3>, tris: seq<int>, i: int, color: Colors.Color, normalize: Vec3 -> Vec3)
    requires FlatIndicesFit(tris, verts) && 0 <= i < |tris| - 2 && i % 3 == 0
    requires FlatIndicesFit(tris[..i], verts)
    ensures FlatIndicesFit(tris[..i + 3], verts) && IndicesFit(tris[i .. i + 3], verts)
    ensures TrianglesOf(verts, tris[..i + 3], color, normalize)
         == TrianglesOf(verts, tris[..i], color, normalize) + [MakeIndexTriangle(tris[i .. i + 3], verts, color, normalize)]
  {
    var longer := TrianglesOf(verts, tris[..i + 3], color, normalize);
    var shorter := TrianglesOf(verts, tris[..i], color, normalize);
    assert (i + 3) / 3 == i / 3 + 1 && |longer| == |shorter| + 1;
    forall k | 0 <= k < |shorter|
      ensures longer[k] == shorter[k]
    {
      assert tris[..i + 3][3 * k .. 3 * k + 3] == tris[..i][3 * k .. 3 * k + 3];
    }
    var m := i / 3;
    assert 3 * m == i && tris[..i + 3][3 * m .. 3 * m + 3] == tris[i .. i + 3];
    assert longer[m] == FlatTriangle(verts, tris[..i + 3], m, color, normalize);
    SnocByElements(longer, shorter, MakeIndexTriangle(tris[i .. i + 3], verts, color, normalize));
  }

  /** A sequence one longer that agrees with `shorter` and then holds `x` is `shorter + [x]`. */
  lemma SnocByElements<T>(longer: seq<T>, shorter: seq<T>, x: T)
    requires |longer| == |shorter| + 1 && longer[|shorter|] == x
    requires forall k :: 0 <= k < |shorter| ==> longer[k] == shorter[k]
    ensures longer == shorter + [x]
  {
  }

  /** Once fewer than three entries remain, the prefix read so far gives every triangle. */
  lemma WholePrefix(verts: seq<Vec3>, tris: seq<int>, i: int, color: Colors.Color, normalize: Vec3 -> Vec3)
    requires FlatIndicesFit(tris, verts) && 0 <= i <= |tris| && i % 3 == 0 && i >= |tris| - 2
    requires FlatIndicesFit(tris[..i], verts)
    ensures TrianglesOf(verts, tris[..i], color, normalize) == TrianglesOf(verts, tris, color, normalize)
  {
    assert i / 3 == |tris| / 3;
    forall k | 0 <= k < i / 3
      ensures tris[..i][3 * k .. 3 * k + 3] == tris[3 * k .. 3 * k + 3]
    {
    }
  }

  const SingleTriangleVertices: seq<Vec3> := [Vec3(0.6, -0.6, 0.0), Vec3(-0.6, -0.6, 0.0), Vec3(0.0, 1.0, 0.0)]

  /** `SingleTriangle(color)`: three vertices and one triangle with indices [0, 2, 1]. */
  function SingleTriangle(color: Colors.Color, normalize: Vec3 -> Vec3): (m: Mesh)
    ensures m.vertices == SingleTriangleVertices && |m.triangles| == 1
    ensures m.triangles[0].IndexTriangle? && m.triangles[0].indices == [0, 2, 1]
    ensures m.triangles[0].color == color && WellFormed(m)
  {
    OneTriangle(SingleTriangleVertices, color, normalize)
  }

  function OneTriangle(verts: seq<Vec3>, color: Colors.Color, normalize: Vec3 -> Vec3): (m: Mesh)
    requires |verts| == 3
    ensures m.vertices == verts && |m.triangles| == 1
    ensures m.triangles[0].IndexTriangle? && m.triangles[0].indices == [0, 2, 1]
    ensures m.triangles[0].color == color && WellFormed(m)
  {
    Mesh(verts, [MakeIndexTriangle([0, 2, 1], verts, color, normalize)])
  }

  const CubeVertices: seq<Vec3> := [
    Vec3(1.0, 1.0, 1.0), Vec3(1.0, 1.0, -1.0), Vec3(1.0, -1.0, -1.0), Vec3(1.0, -1.0, 1.0),
    Vec3(-1.0, 1.0, 1.0), Vec3(-1.0, 1.0, -1.0), Vec3(-1.0, -1.0, -1.0), Vec3(-1.0, -1.0, 1.0)]

  /** Two triangles per face of the cube. */
  const CubeTriangleIndices: seq<int> := [
    0, 1, 2, 0, 2, 3,
    4, 0, 3, 4, 3, 7,
    5, 4, 7, 5, 7, 6,
    1, 5, 6, 1, 6, 2,
    0, 4, 5, 0, 5, 1,
    3, 6, 7, 3, 2, 6]

  /** `Cube(color)`: the eight corners of the cube from -1 to 1 and its twelve triangles. */
  function Cube(color: Colors.Color, normalize: Vec3 -> Vec3): Mesh
  {
    assert FlatIndicesFit(CubeTriangleIndices, CubeVertices);
    Mesh(CubeVertices, TrianglesOf(CubeVertices, CubeTriangleIndices, color, normalize))
  }

  /** The cube has 8 vertices and 12 triangles of the given colour, every index in 0..7. */
  lemma CubeShape(color: Colors.Color, normalize: Vec3 -> Vec3)
    ensures |Cube(color, normalize).vertices| == 8 && |Cube(color, normalize).triangles| == 12
    ensures WellFormed(Cube(color, normalize))
    ensures forall k :: 0 <= k < 12 ==> Cube(color, normalize).triangles[k].color == color
    ensures forall k, j :: 0 <= k < 12 && 0 <= j < 3 ==> 0 <= Cube(color, normalize).triangles[k].indices[j] < 8
  {
    assert FlatIndicesFit(CubeTriangleIndices, CubeVertices);
    TrianglesOfShape(CubeVertices, CubeTriangleIndices, color, normalize);
  }
}
