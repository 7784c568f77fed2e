/**
 * The scene graph: a `Transform` (position, rotation, scale and a place in
 * the parent/children hierarchy) and the `Shaped3DObject` it may be
 * attached to, which keeps a scaled and rotated copy of its mesh up to date
 * whenever the transform's rotation or scale is set.
 */
module Scene {
  import opened Vec3Math
  import opened Quaternions
  import opened Triangles
  import opened Meshes

  // ---- list removal ----

  /** `List.Remove(x)`: drops the first occurrence of `x`; a list without `x` is left as it is. */
  function RemoveFirst<T(==)>(s: seq<T>, x: T): (r: seq<T>)
    ensures |r| == if x in s then |s| - 1 else |s|
  {
    if s == [] then []
    else if s[0] == x then s[1..]
    else [s[0]] + RemoveFirst(s[1..], x)
  }

  /** A list without `x` is left as it is. */
  lemma {:induction false} RemoveFirstAbsent<T>(s: seq<T>, x: T)
    requires x !in s
    ensures RemoveFirst(s, x) == s
  {
    if s != [] {
      RemoveFirstAbsent(s[1..], x);
    }
  }

  /**
   * Removal cuts out exactly the first occurrence: with `x` first found at
   * `i`, everything before and after it stays in order.
   */
  lemma {:induction false} RemoveFirstCut<T>(s: seq<T>, x: T, i: nat)
    requires i < |s| && s[i] == x && x !in s[..i]
    ensures RemoveFirst(s, x) == s[..i] + s[i + 1..]
  {
    if i > 0 {
      assert s[0] == s[..i][0];
      assert s[1..][..i - 1] == s[1..i];
      RemoveFirstCut(s[1..], x, i - 1);
      assert s[..i] == [s[0]] + s[1..i];
    }
  }

  /** One copy of `x`, if there is one, leaves the multiset of entries. */
  lemma {:induction false} RemoveFirstMultiset<T>(s: seq<T>, x: T)
    ensures multiset(RemoveFirst(s, x)) == multiset(s) - multiset{x}
  {
    if s != [] {
      RemoveFirstMultiset(s[1..], x);
      assert s == [s[0]] + s[1..];
      assert multiset(s) == multiset{s[0]} + multiset(s[1..]);
      if s[0] != x {
        assert RemoveFirst(s, x) == [s[0]] + RemoveFirst(s[1..], x);
        assert multiset(RemoveFirst(s, x)) == multiset{s[0]} + multiset(RemoveFirst(s[1..], x));
        KeepOther(multiset(s[1..]), s[0], x);
      }
    }
  }

  /** Taking one `x` out after adding a different `a` is adding `a` after taking `x` out. */
  lemma KeepOther<T>(m: multiset<T>, a: T, x: T)
    requires a != x
    ensures (multiset{a} + m) - multiset{x} == multiset{a} + (m - multiset{x})
  {
  }

  // ---- specification of the transformed mesh ----

  /** `mesh.vertices.Select(v => v * scale)`: every vertex scaled elementwise. */
  function ScaledVertices(vertices: seq<Vec3>, scale: Vec3): (r: seq<Vec3>)
    ensures |r| == |vertices|
  {
    seq(|vertices|, i requires 0 <= i < |vertices| => MulElementwise(vertices[i], scale))
  }

  /** Every vertex rotated by the sandwich with `rotation`. */
  function RotatedVertices(vertices: seq<Vec3>, rotation: Quaternion): (r: seq<Vec3>)
    requires NormSquared(rotation) != 0.0
    ensures |r| == |vertices|
  {
    seq(|vertices|, i requires 0 <= i < |vertices| => RotateVector(vertices[i], rotation))
  }

  /** With scale (1, 1, 1) the scaled vertices are the mesh's own. */
  lemma ScaleByOne(vertices: seq<Vec3>)
    ensures ScaledVertices(vertices, One) == vertices
  {
  }

  /** The normal triangle `t` gets when its apices are read from `vertices`. */
  function NormalOf(t: Triangle, vertices: seq<Vec3>, normalize: Vec3 -> Vec3): Vec3
    requires ApicesDefined(t, vertices)
  {
    TriangleNormal(GetApices(t, vertices), normalize)
  }

  /** The running maximum `SetRadius` computes: starts at 0 and takes each larger magnitude. */
  function LargestMagnitude(vertices: seq<Vec3>, sqrt: real -> real): real {
    if vertices == [] then 0.0
    else
      var r := LargestMagnitude(vertices[..|vertices| - 1], sqrt);
      var m := Magnitude(vertices[|vertices| - 1], sqrt);
      if m > r then m else r
  }

  /**
   * The radius is at least 0 and at least every vertex magnitude, and it
   * is 0 or one of those magnitudes: the largest magnitude, or 0 when
   * there are no vertices.
   */
  lemma {:induction false} LargestMagnitudeBounds(vertices: seq<Vec3>, sqrt: real -> real)
    ensures LargestMagnitude(vertices, sqrt) >= 0.0
    ensures forall i :: 0 <= i < |vertices| ==> Magnitude(vertices[i], sqrt) <= LargestMagnitude(vertices, sqrt)
    ensures LargestMagnitude(vertices, sqrt) == 0.0 ||
            exists i :: 0 <= i < |vertices| && LargestMagnitude(vertices, sqrt) == Magnitude(vertices[i], sqrt)
  {
    if vertices != [] {
      var n := |vertices| - 1;
      LargestMagnitudeBounds(vertices[..n], sqrt);
      assert forall i :: 0 <= i < n ==> vertices[..n][i] == vertices[i];
    }
  }

  // ---- the transform ----

  /** A hierarchy change leaves the transform's own values and attachment as they were. */
  twostate predicate KeepsValues(t: Transform)
    reads t
  {
    t.position == old(t.position) && t.rotation == old(t.rotation) && t.scale == old(t.scale) &&
    t.objectAttachedTo == old(t.objectAttachedTo)
  }

  class Transform {
    var position: Vec3
    var scale: Vec3
    var rotation: Quaternion
    /** The object whose transformed mesh follows this transform, if any. */
    var objectAttachedTo: Shaped3DObject?
    var parent: Transform?
    var children: seq<Transform>

    /** The attached object, if any, is attached through this transform and has its bookkeeping sized. */
    ghost predicate AttachmentReady()
      reads this, objectAttachedTo
    {
      objectAttachedTo != null ==> objectAttachedTo.transform == this && objectAttachedTo.Ready()
    }

    /** What a rotation or scale callback may write: the attached object and its triangle array. */
    ghost function Attached(): set<object>
      reads this
    {
      if objectAttachedTo == null then {} else {objectAttachedTo, objectAttachedTo.transformedTriangles}
    }

    /** The constructor with a parent: stores the values and attaches to `parent`. */
    constructor WithParent(position: Vec3, rotation: Quaternion, scale: Vec3, parent: Transform?)
      modifies parent
      ensures this.position == position && this.rotation == rotation && this.scale == scale
      ensures this.parent == parent && children == [] && objectAttachedTo == null
      ensures parent != null ==> parent.children == old(parent.children) + [this]
      ensures parent != null ==> KeepsValues(parent) && parent.parent == old(parent.parent)
    {
      this.position := position;
      this.scale := scale;
      // `SetRotation` with no attached object only stores the rotation.
      this.rotation := rotation;
      objectAttachedTo := null;
      this.parent := null;
      children := [];
      new;
      SetParent(parent);
    }

    /** The constructor from position, rotation and scale, without a parent. */
    constructor Placed(position: Vec3, rotation: Quaternion, scale: Vec3)
      ensures this.position == position && this.rotation == rotation && this.scale == scale
      ensures parent == null && children == [] && objectAttachedTo == null
    {
      this.position := position;
      this.scale := scale;
      this.rotation := rotation;
      objectAttachedTo := null;
      parent := null;
      children := [];
    }

    /** The constructor from a position alone: unit scale, identity rotation. */
    constructor At(position: Vec3)
      ensures this.position == position && rotation == Identity && scale == One
      ensures parent == null && children == [] && objectAttachedTo == null
    {
      this.position := position;
      scale := One;
      rotation := Identity;
      objectAttachedTo := null;
      parent := null;
      children := [];
    }

    /** The constructor from position and scale: identity rotation. */
    constructor AtScaled(position: Vec3, scale: Vec3)
      ensures this.position == position && rotation == Identity && this.scale == scale
      ensures parent == null && children == [] && objectAttachedTo == null
    {
      this.position := position;
      this.scale := scale;
      rotation := Identity;
      objectAttachedTo := null;
      parent := null;
      children := [];
    }

    /** The constructor from position and rotation: unit scale. */
    constructor AtRotated(position: Vec3, rotation: Quaternion)
      ensures this.position == position && this.rotation == rotation && scale == One
      ensures parent == null && children == [] && objectAttachedTo == null
    {
      this.position := position;
      scale := One;
      this.rotation := rotation;
      objectAttachedTo := null;
      parent := null;
      children := [];
    }

    /** The default constructor: at the origin, unit scale, identity rotation. */
    constructor ()
      ensures position == Zero && rotation == Identity && scale == One
      ensures parent == null && children == [] && objectAttachedTo == null
    {
      position := Zero;
      scale := One;
      rotation := Identity;
      objectAttachedTo := null;
      parent := null;
      children := [];
    }

    /** `SetGameObjectReference(so)`. */
    method SetGameObjectReference(so: Shaped3DObject)
      modifies this
      ensures objectAttachedTo == so
      ensures position == old(position) && rotation == old(rotation) && scale == old(scale)
      ensures parent == old(parent) && children == old(children)
    {
      objectAttachedTo := so;
    }

    /**
     * `SetParent(newParent)`: leaves the old parent's children (removing
     * the first occurrence of this transform) and, for a non-null new
     * parent, joins the end of its children.
     */
    method SetParent(newParent: Transform?)
      modifies this, parent, newParent
      ensures parent == newParent
      ensures KeepsValues(this)
      ensures old(parent) != null ==> KeepsValues(old(parent))
      ensures newParent != null ==> KeepsValues(newParent)
      ensures old(parent) != null && old(parent) != newParent ==>
                old(parent).children == RemoveFirst(old(parent.children), this)
      ensures newParent != null ==>
                newParent.children == (if newParent == old(parent) then RemoveFirst(old(newParent.children), this)
                                       else old(newParent.children)) + [this]
      ensures this != old(parent) && this != newParent ==> children == old(children)
      ensures old(parent) != null && old(parent) != this ==> old(parent).parent == old(parent.parent)
      ensures newParent != null && newParent != this ==> newParent.parent == old(newParent.parent)
    {
      if newParent == null {
        if parent != null {
          parent.children := RemoveFirst(parent.children, this);
        }
        parent := null;
      } else {
        if parent != null {
          parent.children := RemoveFirst(parent.children, this);
        }
        parent := newParent;
        parent.children := parent.children + [this];
      }
    }

    /** `Copy()`: a new transform with the same values, attached to the same parent. */
    method Copy() returns (t: Transform)
      modifies parent
      ensures fresh(t) && t.position == position && t.rotation == rotation && t.scale == scale
      ensures t.parent == parent && t.children == [] && t.objectAttachedTo == null
      ensures parent == old(parent)
      ensures parent != null ==> parent.children == old(parent.children) + [t]
      ensures KeepsValues(this) && (parent != null ==> KeepsValues(parent))
    {
      t := new Transform.WithParent(position, rotation, scale, parent);
    }

    /**
     * `SetRotation(q)`: stores `q` and, when an object is attached, rotates
     * its scaled vertices and recomputes its triangle normals.
     */
    method SetRotation(q: Quaternion, normalize: Vec3 -> Vec3)
      requires AttachmentReady()
      requires objectAttachedTo != null ==> NormSquared(q) != 0.0
      modifies this, Attached()
      ensures rotation == q
      ensures position == old(position) && scale == old(scale) && parent == old(parent) && children == old(children)
      ensures objectAttachedTo == old(objectAttachedTo) && AttachmentReady()
      ensures objectAttachedTo != null ==> objectAttachedTo.RotationApplied(old(objectAttachedTo.transformedTriangles[..]), normalize)
      ensures objectAttachedTo != null ==>
                objectAttachedTo.scaledVertices == old(objectAttachedTo.scaledVertices) &&
                objectAttachedTo.radius == old(objectAttachedTo.radius)
    {
      rotation := q;
      if objectAttachedTo != null {
        objectAttachedTo.UpdateTransformedMeshRotation(normalize);
      }
    }

    /** `Rotate(q)`: the rotation becomes `q * rotation`, through `SetRotation`. */
    method Rotate(q: Quaternion, normalize: Vec3 -> Vec3)
      requires AttachmentReady()
      requires objectAttachedTo != null ==> NormSquared(Mul(q, rotation)) != 0.0
      modifies this, Attached()
      ensures rotation == Rotated(old(rotation), q)
      ensures position == old(position) && scale == old(scale) && parent == old(parent) && children == old(children)
      ensures objectAttachedTo == old(objectAttachedTo) && AttachmentReady()
      ensures objectAttachedTo != null ==> objectAttachedTo.RotationApplied(old(objectAttachedTo.transformedTriangles[..]), normalize)
    {
      SetRotation(Mul(q, rotation), normalize);
    }

    /**
     * `SetScale(s)`: stores `s` and, when an object is attached, rescales its
     * vertices, rotates them again and recomputes its radius.
     */
    method SetScale(s: Vec3, sqrt: real -> real)
      requires AttachmentReady()
      requires objectAttachedTo != null ==> NormSquared(rotation) != 0.0
      modifies this, Attached()
      ensures scale == s
      ensures position == old(position) && rotation == old(rotation) && parent == old(parent) && children == old(children)
      ensures objectAttachedTo == old(objectAttachedTo) && AttachmentReady()
      ensures objectAttachedTo != null ==> objectAttachedTo.ScaleApplied(sqrt)
      ensures objectAttachedTo != null ==> objectAttachedTo.transformedTriangles[..] == old(objectAttachedTo.transformedTriangles[..])
    {
      scale := s;
      if objectAttachedTo != null {
        objectAttachedTo.UpdateTransformedMeshScale(sqrt);
      }
    }
  }

  // ---- the shaped object ----

  class Shaped3DObject {
    /** The authoring mesh, never changed. */
    const mesh: Mesh
    const transform: Transform
    /** `transformedMesh.triangles`: a private copy of the mesh's triangles whose normals follow the rotation. */
    const transformedTriangles: array<Triangle>
    var scaledVertices: seq<Vec3>
    /** `transformedMesh.vertices`. */
    var transformedVertices: seq<Vec3>
    /** The largest vertex magnitude of the transformed mesh, used for culling. */
    var radius: real

    /** The mesh is well formed and the triangle copy has one entry per mesh triangle. */
    predicate Sized() {
      WellFormed(mesh) && transformedTriangles.Length == |mesh.triangles|
    }

    /** In addition, both vertex arrays have one entry per mesh vertex. */
    predicate Ready()
      reads this
    {
      Sized() && |scaledVertices| == |mesh.vertices| && |transformedVertices| == |mesh.vertices|
    }

    /**
     * The state `UpdateTransformedMeshRotation` leaves: the transformed
     * vertices are the rotated scaled vertices, and each triangle of the
     * copy is its previous value with the normal recomputed from them.
     */
    ghost predicate RotationApplied(previous: seq<Triangle>, normalize: Vec3 -> Vec3)
      reads this, transform, transformedTriangles
    {
      Ready() && |previous| == transformedTriangles.Length && NormSquared(transform.rotation) != 0.0 &&
      transformedVertices == RotatedVertices(scaledVertices, transform.rotation) &&
      forall i :: 0 <= i < transformedTriangles.Length ==>
        transformedTriangles[i] == previous[i].(normal := NormalOf(mesh.triangles[i], transformedVertices, normalize))
    }

    /**
     * The state `UpdateTransformedMeshScale` leaves: the scaled vertices,
     * their rotation, and the radius over the result.
     */
    ghost predicate ScaleApplied(sqrt: real -> real)
      reads this, transform
    {
      Ready() && NormSquared(transform.rotation) != 0.0 &&
      scaledVertices == ScaledVertices(mesh.vertices, transform.scale) &&
      transformedVertices == RotatedVertices(scaledVertices, transform.rotation) &&
      radius == LargestMagnitude(transformedVertices, sqrt)
    }

    /**
     * The constructor: registers with the transform, copies the mesh's
     * triangles into a fresh array, then applies scale and rotation.
     */
    constructor (mesh: Mesh, transform: Transform, normalize: Vec3 -> Vec3, sqrt: real -> real)
      requires WellFormed(mesh) && NormSquared(transform.rotation) != 0.0
      modifies transform
      ensures this.mesh == mesh && this.transform == transform && transform.objectAttachedTo == this
      ensures transform.position == old(transform.position) && transform.rotation == old(transform.rotation)
      ensures transform.scale == old(transform.scale)
      ensures transform.parent == old(transform.parent) && transform.children == old(transform.children)
      ensures fresh(transformedTriangles) && ScaleApplied(sqrt)
      ensures RotationApplied(mesh.triangles, normalize)
    {
      this.transform := transform;
      this.mesh := mesh;
      transformedTriangles := new Triangle[|mesh.triangles|](i requires 0 <= i < |mesh.triangles| => mesh.triangles[i]);
      scaledVertices := [];
      transformedVertices := [];
      radius := 0.0;
      new;
      assert transformedTriangles[..] == mesh.triangles;
      transform.SetGameObjectReference(this);
      UpdateTransformedMeshScale(sqrt);
      UpdateTransformedMeshRotation(normalize);
    }

    /** `Copy()`: a new object over the same mesh with a copy of the transform. */
    method Copy(normalize: Vec3 -> Vec3, sqrt: real -> real) returns (so: Shaped3DObject)
      requires Sized() && NormSquared(transform.rotation) != 0.0
      modifies transform.parent
      ensures fresh(so) && fresh(so.transform) && so.mesh == mesh && so.transform.objectAttachedTo == so
      ensures so.transform.position == transform.position && so.transform.rotation == transform.rotation
      ensures so.transform.scale == transform.scale && so.transform.parent == transform.parent
      ensures transform.parent != null ==> transform.parent.children == old(transform.parent.children) + [so.transform]
      ensures so.ScaleApplied(sqrt) && so.RotationApplied(mesh.triangles, normalize)
    {
      var t := transform.Copy();
      so := new Shaped3DObject(mesh, t, normalize, sqrt);
      t.SetGameObjectReference(so);
    }

    /** `SetRadius()`: the running maximum of the transformed vertex magnitudes, from 0. */
    method SetRadius(sqrt: real -> real)
      modifies this
      ensures radius == LargestMagnitude(transformedVertices, sqrt)
      ensures scaledVertices == old(scaledVertices) && transformedVertices == old(transformedVertices)
    {
      var r := 0.0;
      for i := 0 to |transformedVertices|
        invariant r == LargestMagnitude(transformedVertices[..i], sqrt)
      {
        assert transformedVertices[..i + 1][..i] == transformedVertices[..i];
        var m := Magnitude(transformedVertices[i], sqrt);
        if m > r {
          r := m;
        }
      }
      assert transformedVertices[..|transformedVertices|] == transformedVertices;
      radius := r;
    }

    /**
     * `UpdateTransformedMeshRotation()`: rotates the scaled vertices by the
     * transform's rotation and recomputes, in place, the normal of each
     * triangle of the copy from the rotated apices; nothing else changes.
     */
    method UpdateTransformedMeshRotation(normalize: Vec3 -> Vec3)
      requires Ready() && NormSquared(transform.rotation) != 0.0
      modifies this, transformedTriangles
      ensures RotationApplied(old(transformedTriangles[..]), normalize)
      ensures scaledVertices == old(scaledVertices) && radius == old(radius)
    {
      var rotated := RotateVectorsBy(scaledVertices, transform.rotation);
      transformedVertices := rotated;
      var triangles := mesh.triangles;
      ghost var previous := transformedTriangles[..];
      for i := 0 to |triangles|
        modifies transformedTriangles
        invariant forall j :: 0 <= j < i ==>
                    transformedTriangles[j] == previous[j].(normal := NormalOf(triangles[j], rotated, normalize))
        invariant forall j :: i <= j < |triangles| ==> transformedTriangles[j] == previous[j]
      {
        var tri := triangles[i];
        var indices := tri.indices;
        assert IndicesFit(indices, rotated);
        var apices := [rotated[indices[0]], rotated[indices[1]], rotated[indices[2]]];
        assert apices == GetApices(tri, rotated);
        var newNormal := TriangleNormal(apices, normalize);
        transformedTriangles[i] := transformedTriangles[i].(normal := newNormal);
      }
    }

    /**
     * `UpdateTransformedMeshScale()`: scales the mesh vertices by the
     * transform's scale, rotates them, and recomputes the radius.
     */
    method UpdateTransformedMeshScale(sqrt: real -> real)
      requires Sized() && NormSquared(transform.rotation) != 0.0
      modifies this
      ensures ScaleApplied(sqrt)
    {
      var s := transform.scale;
      scaledVertices := ScaledVertices(mesh.vertices, s);
      transformedVertices := RotateVectorsBy(scaledVertices, transform.rotation);
      SetRadius(sqrt);
    }
  }
}
