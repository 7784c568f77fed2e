/**
 * The two triangle variants behind the `ITriangle` interface: an
 * `IndexTriangle` names three entries of a mesh's vertex array, an
 * `ApexTriangle` (a clipped triangle) carries its own apices.  Both carry a
 * precomputed normal and a single colour.  The float `normalized()` used
 * for normals is a parameter, like every other square root in this model.
 */
module Triangles {
  import opened Vec3Math
  import Colors

  datatype Triangle =
    | IndexTriangle(indices: seq<int>, normal: Vec3, color: Colors.Color)
    | ApexTriangle(apices: seq<Vec3>, normal: Vec3, color: Colors.Color)

  /** The cross product of the two edges `p1 - p0` and `p2 - p1`, before normalisation. */
  function EdgeCross(apices: seq<Vec3>): Vec3
    requires |apices| >= 3
  {
    Cross(Sub(apices[1], apices[0]), Sub(apices[2], apices[1]))
  }

  /** `TriangleNormal` (and both variants' `CalculateNormal`): the normalised edge cross product. */
  function TriangleNormal(apices: seq<Vec3>, normalize: Vec3 -> Vec3): Vec3
    requires |apices| >= 3
  {
    normalize(EdgeCross(apices))
  }

  /** Before normalisation the normal is perpendicular to all three edges. */
  lemma NormalPerpendicular(apices: seq<Vec3>)
    requires |apices| >= 3
    ensures Dot(EdgeCross(apices), Sub(apices[1], apices[0])) == 0.0
    ensures Dot(EdgeCross(apices), Sub(apices[2], apices[1])) == 0.0
    ensures Dot(EdgeCross(apices), Sub(apices[0], apices[2])) == 0.0
  {
    var e1, e2 := Sub(apices[1], apices[0]), Sub(apices[2], apices[1]);
    CrossOrthogonal(e1, e2);
    ThirdEdge(apices[0], apices[1], apices[2]);
    DotLinear(e1, e2, EdgeCross(apices), 1.0);
    DotSymmetric(EdgeCross(apices), e1);
    DotSymmetric(EdgeCross(apices), e2);
    DotSymmetric(EdgeCross(apices), Sub(apices[0], apices[2]));
    DotSymmetric(Add(e1, e2), EdgeCross(apices));
    assert Dot(Neg(Add(e1, e2)), EdgeCross(apices)) == -Dot(Add(e1, e2), EdgeCross(apices));
  }

  /**
   * When `normalize` is the engine's `normalized()` and the triangle is not
   * degenerate, the normal times the edge cross product's magnitude gives
   * the cross product back: the normal points the same way.
   */
  lemma NormalScalesBack(apices: seq<Vec3>, normalize: Vec3 -> Vec3, sqrt: real -> real)
    requires |apices| >= 3 && Magnitude(EdgeCross(apices), sqrt) != 0.0
    requires normalize(EdgeCross(apices)) == Normalized(EdgeCross(apices), sqrt)
    ensures Scale(TriangleNormal(apices, normalize), Magnitude(EdgeCross(apices), sqrt)) == EdgeCross(apices)
  {
  }

  /** The third edge closes the loop: `p0 - p2` is minus the sum of the other two. */
  lemma ThirdEdge(p0: Vec3, p1: Vec3, p2: Vec3)
    ensures Sub(p0, p2) == Neg(Add(Sub(p1, p0), Sub(p2, p1)))
  {
  }

  /** The vertex-array form of a triangle: which indices it may use. */
  predicate IndicesFit(indices: seq<int>, vertices: seq<Vec3>) {
    |indices| >= 3 && forall k :: 0 <= k < 3 ==> 0 <= indices[k] < |vertices|
  }

  /** What `GetApices(vertices)` needs: an index triangle's indices must fit; an apex triangle needs three apices. */
  predicate ApicesDefined(t: Triangle, vertices: seq<Vec3>) {
    match t
    case IndexTriangle(indices, _, _) => IndicesFit(indices, vertices)
    case ApexTriangle(apices, _, _) => |apices| >= 3
  }

  /**
   * `GetApices(vertices)`: the three indexed vertices for an index triangle;
   * an apex triangle ignores the vertex array and returns its own apices.
   */
  function GetApices(t: Triangle, vertices: seq<Vec3>): (ap: seq<Vec3>)
    requires ApicesDefined(t, vertices)
    ensures |ap| >= 3
    ensures t.IndexTriangle? ==> |ap| == 3 && forall k :: 0 <= k < 3 ==> ap[k] == vertices[t.indices[k]]
    ensures t.ApexTriangle? ==> ap == t.apices
  {
    match t
    case IndexTriangle(indices, _, _) => [vertices[indices[0]], vertices[indices[1]], vertices[indices[2]]]
    case ApexTriangle(apices, _, _) => apices
  }

  /** An apex triangle's apices do not depend on the vertex array passed in. */
  lemma ApexIgnoresVertices(t: Triangle, v1: seq<Vec3>, v2: seq<Vec3>)
    requires t.ApexTriangle? && |t.apices| >= 3
    ensures GetApices(t, v1) == GetApices(t, v2) == t.apices
  {
  }

  /** `GetNormal()` of either variant. */
  function GetNormal(t: Triangle): Vec3 { t.normal }

  /** `GetColor()` of either variant. */
  function GetColor(t: Triangle): Colors.Color { t.color }

  /**
   * The `IndexTriangle` constructor: indices and colour stored unchanged, the
   * normal computed from the indexed apices.
   */
  function MakeIndexTriangle(indices: seq<int>, vertices: seq<Vec3>, color: Colors.Color,
                             normalize: Vec3 -> Vec3): (t: Triangle)
    requires IndicesFit(indices, vertices)
    ensures t.IndexTriangle? && GetColor(t) == color && t.indices == indices
    ensures ApicesDefined(t, vertices)
    ensures GetNormal(t) == TriangleNormal(GetApices(t, vertices), normalize)
  {
    var t := IndexTriangle(indices, Zero, color);
    IndexTriangle(indices, TriangleNormal(GetApices(t, vertices), normalize), color)
  }

  /** The three-argument `ApexTriangle` constructor stores the given normal unchanged. */
  function MakeApexTriangle(apices: seq<Vec3>, normal: Vec3, color: Colors.Color): (t: Triangle)
    ensures t.ApexTriangle? && t.apices == apices && GetNormal(t) == normal && GetColor(t) == color
    ensures |apices| >= 3 ==> forall vertices :: GetApices(t, vertices) == apices
  {
    ApexTriangle(apices, normal, color)
  }

  /** The two-argument `ApexTriangle` constructor derives the normal from the apices. */
  function MakeApexTriangleFromApices(apices: seq<Vec3>, color: Colors.Color, normalize: Vec3 -> Vec3): (t: Triangle)
    requires |apices| >= 3
    ensures t.ApexTriangle? && t.apices == apices && GetColor(t) == color
    ensures forall vertices :: GetApices(t, vertices) == apices
    ensures GetNormal(t) == TriangleNormal(apices, normalize)
  {
    ApexTriangle(apices, TriangleNormal(apices, normalize), color)
  }

  /**
   * Both variants use the same normal formula: an index triangle and the
   * apex triangle built on its apices get the same normal.
   */
  lemma VariantsAgreeOnNormal(indices: seq<int>, vertices: seq<Vec3>, color: Colors.Color, normalize: Vec3 -> Vec3)
    requires IndicesFit(indices, vertices)
    ensures var t := MakeIndexTriangle(indices, vertices, color, normalize);
            GetNormal(MakeApexTriangleFromApices(GetApices(t, vertices), color, normalize)) == GetNormal(t)
  {
  }

  /** `Centroid(apices)`: the componentwise mean of the first three apices. */
  function Centroid(apices: seq<Vec3>): Vec3
    requires |apices| >= 3
  {
    var a, b, c := apices[0], apices[1], apices[2];
    Vec3((a.x + b.x + c.x) / 3.0, (a.y + b.y + c.y) / 3.0, (a.z + b.z + c.z) / 3.0)
  }

  /**
   * The centroid is the balance point: the offsets of the three apices from
   * it sum to zero.  It does not depend on the order of the apices, and
   * three equal points have that point as centroid.
   */
  lemma CentroidProperties(a: Vec3, b: Vec3, c: Vec3)
    ensures Add(Add(Sub(a, Centroid([a, b, c])), Sub(b, Centroid([a, b, c]))), Sub(c, Centroid([a, b, c]))) == Zero
    ensures Centroid([a, b, c]) == Centroid([b, a, c]) == Centroid([a, c, b])
    ensures Centroid([a, b, c]) == Centroid([b, c, a]) == Centroid([c, a, b]) == Centroid([c, b, a])
    ensures Centroid([a, a, a]) == a
  {
  }
}
