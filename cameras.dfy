/**
 * `Camera`: a transform, the frustum in camera space (built once) and the
 * frustum in world space, which follows the camera's position and
 * rotation.  The tangent behind the field of view is a parameter.
 */
module Cameras {
  import opened Vec3Math
  import Vec2Math
  import opened Quaternions
  import opened Planes
  import opened Frustums
  import opened Scene

  /** A camera-space plane carried into the world: rotated, then moved to the camera position. */
  function WorldPlane(cameraPlane: Plane, position: Vec3, rotation: Quaternion): (pl: Plane)
    requires NormSquared(rotation) != 0.0
    ensures Consistent(pl) && pl.normal == RotateVector(cameraPlane.normal, rotation)
    ensures SignedDistance(pl, Add(position, RotateVector(cameraPlane.point, rotation))) == 0.0
  {
    MakePlane(Add(position, RotateVector(cameraPlane.point, rotation)), RotateVector(cameraPlane.normal, rotation))
  }

  /** Every camera-space plane carried into the world, in the same order. */
  function WorldPlanes(cameraPlanes: seq<Plane>, position: Vec3, rotation: Quaternion): (r: seq<Plane>)
    requires NormSquared(rotation) != 0.0
    ensures |r| == |cameraPlanes|
  {
    seq(|cameraPlanes|, i requires 0 <= i < |cameraPlanes| => WorldPlane(cameraPlanes[i], position, rotation))
  }

  /** What `Move` does to one plane: the point shifted by `movement`, `d` recomputed from it. */
  function MovedPlane(pl: Plane, movement: Vec3): Plane {
    MakePlane(Add(pl.point, movement), pl.normal)
  }

  /**
   * A moved plane keeps its normal and is consistent, and a point moved
   * along with it keeps its signed distance (for a consistent plane).
   * Two moves add up.
   */
  lemma MovedPlaneProperties(pl: Plane, movement: Vec3, p: Vec3, further: Vec3)
    ensures MovedPlane(pl, movement).normal == pl.normal && Consistent(MovedPlane(pl, movement))
    ensures Consistent(pl) ==> SignedDistance(MovedPlane(pl, movement), Add(p, movement)) == SignedDistance(pl, p)
    ensures MovedPlane(MovedPlane(pl, movement), further) == MovedPlane(pl, Add(movement, further))
  {
    var n, q := pl.normal, pl.point;
    var pl' := MovedPlane(pl, movement);
    if Consistent(pl) {
      TranslationPolynomial(n.x, n.y, n.z, p.x, p.y, p.z, q.x, q.y, q.z, movement.x, movement.y, movement.z);
      assert SignedDistance(pl', Add(p, movement)) == Dot(n, Add(p, movement)) - Dot(n, Add(q, movement));
    }
  }

  lemma TranslationPolynomial(nx: real, ny: real, nz: real, px: real, py: real, pz: real,
                              qx: real, qy: real, qz: real, mx: real, my: real, mz: real)
    ensures (nx * (px + mx) + ny * (py + my) + nz * (pz + mz)) - (nx * (qx + mx) + ny * (qy + my) + nz * (qz + mz))
         == (nx * px + ny * py + nz * pz) - (nx * qx + ny * qy + nz * qz)
  {
  }

  /**
   * Moving the world planes gives the same planes as carrying the
   * camera-space planes to the moved position: `Move`'s incremental update
   * agrees with a full `TransformFrustum`.
   */
  lemma MoveAgreesWithTransform(cameraPlane: Plane, position: Vec3, rotation: Quaternion, movement: Vec3)
    requires NormSquared(rotation) != 0.0
    ensures MovedPlane(WorldPlane(cameraPlane, position, rotation), movement)
         == WorldPlane(cameraPlane, Add(position, movement), rotation)
  {
    var r := RotateVector(cameraPlane.point, rotation);
    assert Add(Add(position, r), movement) == Add(Add(position, movement), r);
  }

  class Camera {
    const transform: Transform
    /** The frustum in camera space, never written after construction. */
    const cameraSpaceFrustum: RectangleFrustum
    /** The frustum in world space, following the camera. */
    const worldSpaceFrustum: RectangleFrustum
    const viewPortSize: Vec2Math.Vec2
    const viewPlaneDistance: real
    const nearClipPlaneDistance: real
    const farClipPlaneDistance: real
    const fov: real

    /**
     * Both frustums hold six planes in arrays of their own; the camera's
     * transform carries no object and a rotation that can be inverted.
     */
    ghost predicate Valid()
      reads this, transform
    {
      cameraSpaceFrustum.Valid() && worldSpaceFrustum.Valid() &&
      cameraSpaceFrustum.planes != worldSpaceFrustum.planes &&
      transform.objectAttachedTo == null && NormSquared(transform.rotation) != 0.0
    }

    /**
     * The constructor: the view plane distance from the field of view,
     * both frustums from the same parameters, then the world frustum
     * carried to the transform.
     */
    constructor (transform: Transform, fov: real, nearClipPlaneDistance: real, farClipPlaneDistance: real,
                 viewPortSize: Vec2Math.Vec2, deg2rad: real, tan: real -> real, normalize: Vec3 -> Vec3)
      requires tan(deg2rad * fov / 2.0) != 0.0
      requires transform.objectAttachedTo == null && NormSquared(transform.rotation) != 0.0
      ensures this.transform == transform && this.fov == fov && this.viewPortSize == viewPortSize
      ensures this.nearClipPlaneDistance == nearClipPlaneDistance && this.farClipPlaneDistance == farClipPlaneDistance
      ensures viewPlaneDistance == viewPortSize.x / (2.0 * tan(deg2rad * fov / 2.0))
      ensures Valid() && fresh(cameraSpaceFrustum) && fresh(worldSpaceFrustum)
      ensures fresh(cameraSpaceFrustum.planes) && fresh(worldSpaceFrustum.planes)
      ensures cameraSpaceFrustum.planes[..]
           == FrustumPlanes(viewPortSize, viewPlaneDistance, nearClipPlaneDistance, farClipPlaneDistance, normalize)
      ensures worldSpaceFrustum.planes[..]
           == WorldPlanes(cameraSpaceFrustum.planes[..], transform.position, transform.rotation)
    {
      this.fov := fov;
      this.transform := transform;
      this.viewPortSize := viewPortSize;
      var distance := viewPortSize.x / (2.0 * tan(deg2rad * fov / 2.0));
      viewPlaneDistance := distance;
      this.nearClipPlaneDistance := nearClipPlaneDistance;
      this.farClipPlaneDistance := farClipPlaneDistance;
      cameraSpaceFrustum := new RectangleFrustum(viewPortSize, distance, nearClipPlaneDistance, farClipPlaneDistance, normalize);
      worldSpaceFrustum := new RectangleFrustum(viewPortSize, distance, nearClipPlaneDistance, farClipPlaneDistance, normalize);
      new;
      TransformFrustum();
    }

    /**
     * `TransformFrustum()`: lays the six camera-space points and normals
     * out in one array, rotates them all, and rebuilds each world plane
     * through the camera position plus the rotated point.
     */
    method TransformFrustum()
      requires Valid()
      modifies worldSpaceFrustum.planes
      ensures worldSpaceFrustum.planes[..]
           == WorldPlanes(cameraSpaceFrustum.planes[..], transform.position, transform.rotation)
    {
      var cameraPlanes := cameraSpaceFrustum.planes;
      var toBeRotated := new Vec3[12];
      var i := 0;
      for k := 0 to PlaneCount
        invariant i == 2 * k
        invariant forall j :: 0 <= j < k ==>
                    toBeRotated[2 * j] == cameraPlanes[j].point && toBeRotated[2 * j + 1] == cameraPlanes[j].normal
      {
        var plane := cameraPlanes[k];
        toBeRotated[i] := plane.point;
        i := i + 1;
        toBeRotated[i] := plane.normal;
        i := i + 1;
      }
      var rotatedVecs := RotateVectorsBy(toBeRotated[..], transform.rotation);
      var j := 0;
      i := 0;
      while i < 12
        invariant 0 <= j <= PlaneCount && i == 2 * j
        invariant forall k :: 0 <= k < j ==>
                    worldSpaceFrustum.planes[k] == WorldPlane(cameraPlanes[k], transform.position, transform.rotation)
      {
        worldSpaceFrustum.planes[j] := MakePlane(Add(transform.position, rotatedVecs[i]), rotatedVecs[i + 1]);
        j := j + 1;
        i := i + 2;
      }
    }

    /**
     * `Move(movement)`: moves the transform, and moves each world plane's
     * point by the same vector, recomputing `d`; normals stay as they are.
     */
    method Move(movement: Vec3)
      requires Valid()
      modifies transform, worldSpaceFrustum.planes
      ensures Valid() && transform.position == Add(old(transform.position), movement)
      ensures transform.rotation == old(transform.rotation) && transform.scale == old(transform.scale)
      ensures transform.parent == old(transform.parent) && transform.children == old(transform.children)
      ensures forall i :: 0 <= i < PlaneCount ==>
                worldSpaceFrustum.planes[i] == MovedPlane(old(worldSpaceFrustum.planes[i]), movement)
    {
      transform.position := Add(transform.position, movement);
      var planes := worldSpaceFrustum.planes;
      for i := 0 to PlaneCount
        modifies planes
        invariant forall k :: 0 <= k < i ==> planes[k] == MovedPlane(old(planes[k]), movement)
        invariant forall k :: i <= k < PlaneCount ==> planes[k] == old(planes[k])
      {
        var newPoint := Add(planes[i].point, movement);
        planes[i] := planes[i].(point := newPoint);
        planes[i] := planes[i].(d := Dot(planes[i].normal, Neg(newPoint)));
      }
    }

    /** `SetRotation(rotation)`: stores the rotation and re-derives the whole world frustum. */
    method SetRotation(rotation: Quaternion, normalize: Vec3 -> Vec3)
      requires Valid() && NormSquared(rotation) != 0.0
      modifies transform, worldSpaceFrustum.planes
      ensures Valid() && transform.rotation == rotation
      ensures transform.position == old(transform.position) && transform.scale == old(transform.scale)
      ensures transform.parent == old(transform.parent) && transform.children == old(transform.children)
      ensures worldSpaceFrustum.planes[..] == WorldPlanes(cameraSpaceFrustum.planes[..], transform.position, rotation)
    {
      transform.SetRotation(rotation, normalize);
      TransformFrustum();
    }
  }
}
