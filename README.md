# ErisGameEngineSDL software renderer — a Dafny model

ErisGameEngineSDL draws a scene of meshes into a frame buffer with no GPU help.
This project models its core in Dafny and proves properties of that model:

- **The renderer** (`RenderPipeline`). It clears a colour buffer and a depth buffer, brings each object's vertices into camera space, and culls objects whose bounding sphere lies outside the camera frustum. It keeps only triangles that face the camera, plans the flat-top/flat-bottom split of a triangle for filling, and writes pixels through the depth test. It also draws triangle outlines as segments, with or without clipping against the frustum planes.
- **The camera and its frustum** (`Camera`, `RectangleFrustum`, `Plane`). Six planes are built in camera space and carried into the world by the camera's rotation and position. `Move` updates them incrementally, and `SetRotation` rebuilds them in full. The frustum tests points, spheres and triangles against them.
- **The scene graph** (`Transform`, `Shaped3DObject`, `Mesh`). A transform has a parent and children, and an object keeps a rotated and scaled copy of its mesh and a bounding radius.
- **The value types** (`Vec2`, `Vec2int`, `Vec3`, `Vec3int`, `Quaternion`, `ColorByte`, `IndexTriangle`, `ApexTriangle`). These cover vector arithmetic, quaternion products and rotation, and colour clamping and packing.
- **The older wireframe pipeline** (`Pipeline`). It projects game objects to pixel positions and merges their line lists.

Floating-point numbers are modelled as `real`. The square root, `tan`, `sin`, `cos` and the engine's float `normalized()` are passed in as function parameters, so every result is stated in terms of whatever those functions return. Integer casts are explicit: `(int)` truncates toward zero, and `Math.Round` rounds half to even.

The model follows the code, including where its behaviour is easy to misread:

- `ClipTriangles` only dispatches triangles with 0 or 3 apices inside. It never rebuilds the corners of a cut triangle.
- `RenderTriangles` drops the back faces before it tests whether the object is completely inside, not after.

Three places depart from the code, each a defect recorded under Findings. Each keeps the code as written beside the corrected version:

- **Colour subtraction (Findings row 1).** `Colors.Sub`, the member for the `-` operator of `ColorByte`, subtracts the second colour from the first. The `-` as written is kept as `SubAsWritten`, and `SubAsWrittenIsBlack` proves that it always yields black.
- **`ClipTriangles` (Findings row 2).** `Frustums.RectangleFrustum.ClipTriangles` returns the triangles it keeps. The code as written is kept as `ClipTrianglesAsWritten`, which always returns null.

The third is the frustum's six planes (Findings row 3). As the constructor writes them, no point is inside them. The model keeps those planes as `FrustumPlanesAsWritten` and proves that they admit nothing. `RectangleFrustum`, `Camera` and every render pass are built from the corrected planes `FrustumPlanes` instead. The correction keeps the four side planes as written and moves the near and far planes to positive depth, where the side planes open and where the renderer measures depth.

## Model

| member | source | states |
|---|---|---|
| Colors.FromBytes | ErisGameEngineSDL/ErisLibraries/ErisMath/Vectors/ColorByte.cs:29-32 | the three channels are the first three bytes of the array, in order |
| Colors.ByteUpperClamp | ErisGameEngineSDL/ErisLibraries/ErisMath/Vectors/ColorByte.cs:34-38 | a value up to 255 is kept, anything above becomes 255 |
| Colors.ByteLowerClamp | ErisGameEngineSDL/ErisLibraries/ErisMath/Vectors/ColorByte.cs:39-43 | a negative value becomes 0, a byte is kept, and a value above 255 keeps its low eight bits (the `(byte)` cast) |
| Colors.ToUint | ErisGameEngineSDL/ErisLibraries/ErisMath/Vectors/ColorByte.cs:44-47 | the packed value is below 2^24 and red, green and blue come back out of bits 16-23, 8-15 and 0-7 |
| Colors.PackedFields | ErisGameEngineSDL/ErisLibraries/ErisMath/Vectors/ColorByte.cs:46 | three bytes placed at 16, 8 and 0 bits stay below 2^24 and are recovered by division and remainder |
| Colors.ShiftOrIsSum | ErisGameEngineSDL/ErisLibraries/ErisMath/Vectors/ColorByte.cs:46 | on byte-sized fields the shift-and-OR packing equals shift-and-add, the form `ToUint` uses |
| Colors.ToUintInjective | ErisGameEngineSDL/ErisLibraries/ErisMath/Vectors/ColorByte.cs:44-47 | two colours pack to the same pixel value exactly when they are the same colour |
| Colors.AddSaturates | ErisGameEngineSDL/ErisLibraries/ErisMath/Vectors/ColorByte.cs:48-54 | each channel of `c1 + c2` is the smaller of 255 and the exact channel sum |
| Colors.AddLaws | ErisGameEngineSDL/ErisLibraries/ErisMath/Vectors/ColorByte.cs:48-54 | `+` is commutative, black is its unit and white absorbs every colour |
| Colors.SubAsWrittenIsBlack | ErisGameEngineSDL/ErisLibraries/ErisMath/Vectors/ColorByte.cs:55-61 | the subtraction as written returns black whatever its operands |
| Colors.SubAsWrittenCounterexample | ErisGameEngineSDL/ErisLibraries/ErisMath/Vectors/ColorByte.cs:55-61 | white minus black is not white as written |
| Colors.Sub | ErisGameEngineSDL/ErisLibraries/ErisMath/Vectors/ColorByte.cs:55-61 | the corrected `-`: each channel is the difference of the operands' channels, clamped at 0 |
| Colors.SubUndoesAdd | ErisGameEngineSDL/ErisLibraries/ErisMath/Vectors/ColorByte.cs:48-61 | the corrected `-` undoes a `+` that did not saturate; black is its right unit and `c - c` is black |
| Colors.EqualityIsValueEquality | ErisGameEngineSDL/ErisLibraries/ErisMath/Vectors/ColorByte.cs:67-68 | `==` holds exactly for equal colours (and exactly when the packed values agree), and `!=` is its complement |
| Vec3Math.Normalized | ErisGameEngineSDL/ErisLibraries/ErisMath/Vectors/Vec3.cs:28-34 | scaling the result by the magnitude gives back the vector |
| Vec3Math.ForwardAndBack | ErisGameEngineSDL/ErisLibraries/ErisMath/Vectors/Vec3.cs:22-23 | `back` is the negation of `forward`, a unit vector along negative z, and their dot product is -1 |
| Vec3Math.DotSymmetric | ErisGameEngineSDL/ErisLibraries/ErisMath/Vectors/Vec3.cs:35 | the dot product is symmetric |
| Vec3Math.CrossOrthogonal | ErisGameEngineSDL/ErisLibraries/ErisMath/Vectors/Vec3.cs:35-37 | the cross product is perpendicular to both operands |
| Vec3Math.CrossAntiCommutative | ErisGameEngineSDL/ErisLibraries/ErisMath/Vectors/Vec3.cs:36-37 | swapping the operands negates the cross product; a vector crossed with itself is zero |
| Vec3Math.AddSubInverse | ErisGameEngineSDL/ErisLibraries/ErisMath/Vectors/Vec3.cs:39-45 | `-` undoes `+`, negation is scaling by -1, subtraction is adding the negation, and `+` is commutative with zero as unit |
| Vec3Math.DotLinear | ErisGameEngineSDL/ErisLibraries/ErisMath/Vectors/Vec3.cs:35-47 | the dot product is linear in its first argument over `+`, `-`, scaling and negation |
| Vec3IntMath.Div | ErisGameEngineSDL/ErisLibraries/ErisMath/Vectors/Vec3int.cs:44 | each component's remainder is smaller than the divisor and has the dividend's sign (C# truncating division) |
| Vec3IntMath.DivTruncates | ErisGameEngineSDL/ErisLibraries/ErisMath/Vectors/Vec3int.cs:44 | (-7, 7, 0) / 2 is (-3, 3, 0), not Euclidean (-4, 3, 0) |
| Vec3IntMath.Normalized | ErisGameEngineSDL/ErisLibraries/ErisMath/Vectors/Vec3int.cs:28-34 | the float result scaled by the magnitude is the integer vector as floats |
| Vec3IntMath.DotSymmetric | ErisGameEngineSDL/ErisLibraries/ErisMath/Vectors/Vec3int.cs:35 | the integer dot product is symmetric |
| Vec3IntMath.CrossOrthogonal | ErisGameEngineSDL/ErisLibraries/ErisMath/Vectors/Vec3int.cs:35-37 | the integer cross product is perpendicular to both operands |
| Vec3IntMath.CrossAntiCommutative | ErisGameEngineSDL/ErisLibraries/ErisMath/Vectors/Vec3int.cs:36-37 | swapping the operands negates the integer cross product; `a x a` is zero |
| Vec3IntMath.AgreesWithReal | ErisGameEngineSDL/ErisLibraries/ErisMath/Vectors/Vec3int.cs:35-43 | `+`, `-`, negation, scaling, cross and dot on integer vectors agree with the float operations on the converted vectors |
| Vec2Math.Normalized | ErisGameEngineSDL/ErisLibraries/ErisMath/Vectors/Vec2.cs:27-34 | scaling the result by the magnitude gives back the vector |
| Vec2Math.ToInt | ErisGameEngineSDL/ErisLibraries/ErisMath/Vectors/Vec2.cs:35 | each component moves toward zero by less than 1 and never grows in magnitude (truncation, not floor) |
| Vec2Math.ToIntTruncates | ErisGameEngineSDL/ErisLibraries/ErisMath/Vectors/Vec2.cs:35 | (-1.5, 2.5) becomes (-1, 2) |
| Vec2Math.Vec2Laws | ErisGameEngineSDL/ErisLibraries/ErisMath/Vectors/Vec2.cs:36-49 | dot is symmetric, `-` undoes `+`, negation is scaling by -1, both argument orders of `*` agree, and elementwise product is commutative and generalises scaling |
| Vec2Math.DivInt | ErisGameEngineSDL/ErisLibraries/ErisMath/Vectors/Vec2int.cs:56 | each component's remainder is smaller than the divisor and zero or of the dividend's sign (truncating division) |
| Vec2Math.DivIntTruncates | ErisGameEngineSDL/ErisLibraries/ErisMath/Vectors/Vec2int.cs:56 | (-7, 7) / 2 is (-3, 3) |
| Vec2Math.ToFloat | ErisGameEngineSDL/ErisLibraries/ErisMath/Vectors/Vec2int.cs:40 | converting to floats and truncating back gives the same integer vector |
| Vec2Math.NormalizedInt | ErisGameEngineSDL/ErisLibraries/ErisMath/Vectors/Vec2int.cs:29-39 | below the 0.001 magnitude guard the result is zero; otherwise it scales back to the vector |
| Vec2Math.NormalizedIntZeroIff | ErisGameEngineSDL/ErisLibraries/ErisMath/Vectors/Vec2int.cs:34-39 | for a square root that is at least 1 on values at least 1, the result is zero exactly for the zero vector |
| Vec2Math.Vec2IntLaws | ErisGameEngineSDL/ErisLibraries/ErisMath/Vectors/Vec2int.cs:41-57 | integer dot, `+`, `-`, negation and scaling obey the usual laws, both operand orders of the mixed operators agree, and the mixed operators equal the float ones on the converted vector |
| Quaternions.Inverted | ErisGameEngineSDL/ErisLibraries/ErisMath/Quaternion.cs:57-64 | `inverted()` is the conjugate divided by the squared norm |
| Quaternions.InvertedIsInverse | ErisGameEngineSDL/ErisLibraries/ErisMath/Quaternion.cs:57-64 | for every non-zero quaternion, `q * q.inverted()` and `q.inverted() * q` are both the identity |
| Quaternions.InvertedOfUnit | ErisGameEngineSDL/ErisLibraries/ErisMath/Quaternion.cs:57-64 | a unit quaternion's inverse is its conjugate |
| Quaternions.InvertedIdentity | ErisGameEngineSDL/ErisLibraries/ErisMath/Quaternion.cs:23 | the identity has norm 1 and is its own inverse |
| Quaternions.IdentityIsUnit | ErisGameEngineSDL/ErisLibraries/ErisMath/Quaternion.cs:98-105 | the identity is a unit of the product on both sides |
| Quaternions.MulConjugate | ErisGameEngineSDL/ErisLibraries/ErisMath/Quaternion.cs:98-105 | a quaternion times its conjugate, either way round, is its squared norm |
| Quaternions.MulAssociative | ErisGameEngineSDL/ErisLibraries/ErisMath/Quaternion.cs:98-105 | the product is associative |
| Quaternions.RotatedComposes | ErisGameEngineSDL/ErisLibraries/ErisMath/Quaternion.cs:65 | `Rotate(q1)` then `Rotate(q2)` is one `Rotate(q2 * q1)`; rotating by the identity changes nothing; rotating by q and then by its inverse restores the rotation |
| Quaternions.RotateVectorIdentity | ErisGameEngineSDL/ErisLibraries/ErisMath/Quaternion.cs:70-75 | the sandwich with the identity leaves every vector unchanged |
| Quaternions.SandwichComposes | ErisGameEngineSDL/ErisLibraries/ErisMath/Quaternion.cs:70-75 | the sandwich with `q2 * q1` and its inverse is the sandwich with q1 followed by the sandwich with q2 |
| Quaternions.LookDirectionOfIdentity | ErisGameEngineSDL/ErisLibraries/ErisMath/Quaternion.cs:97 | the unrotated orientation looks along `Vec3.forward` |
| Quaternions.RotateVectors | ErisGameEngineSDL/ErisLibraries/ErisMath/Quaternion.cs:79-91 | a new array of the same length whose i-th entry is the sandwich of the i-th vector with the given rotation and inverse |
| Quaternions.RotateVectorsBy | ErisGameEngineSDL/ErisLibraries/ErisMath/Quaternion.cs:92-96 | the overload without an inverse: entry i is `RotateVector(vectors[i], bread)` |
| Quaternions.WrapAngle | ErisGameEngineSDL/ErisLibraries/ErisMath/Quaternion.cs:33-35 | the angle is brought into [-180, 180] and differs from the input by a whole number of turns |
| Quaternions.WrapAngleFixesSmall | ErisGameEngineSDL/ErisLibraries/ErisMath/Quaternion.cs:33-35 | an angle already in [-180, 180] is left as it is |
| Quaternions.AngleAxis | ErisGameEngineSDL/ErisLibraries/ErisMath/Quaternion.cs:31-42 | w is the cosine of half the wrapped angle in radians, and the vector part is the axis direction times the sine of that half angle |
| Quaternions.AngleAxisZeroIsIdentity | ErisGameEngineSDL/ErisLibraries/ErisMath/Quaternion.cs:31-42 | a zero angle gives the identity whatever the axis |
| Numerics.Truncate | ErisGameEngineSDL/ErisLibraries/ErisMath/Vectors/Vec2.cs:35 | the `(int)` cast: the integer toward zero from the value, less than 1 away |
| Numerics.TruncateVersusFloor | ErisGameEngineSDL/ErisLibraries/ErisMath/Vectors/Vec2.cs:35 | the cast agrees with floor exactly on non-negative values and integers |
| Numerics.TruncateMonotone | ErisGameEngineSDL/ErisLibraries/ErisMath/Vectors/Vec2.cs:35 | the cast never reverses an order |
| Numerics.TruncDiv | ErisGameEngineSDL/ErisLibraries/ErisMath/Vectors/Vec2int.cs:56 | C# integer `/`: the remainder is smaller than the divisor and zero or of the dividend's sign |
| Numerics.TruncDivIsNotEuclidean | ErisGameEngineSDL/ErisLibraries/ErisMath/Vectors/Vec2int.cs:56 | -7 / 2 is -3 in C# and -4 in Euclidean division |
| Numerics.FloatRemainder | ErisGameEngineSDL/ErisLibraries/ErisMath/Quaternion.cs:33 | C# float `%`: smaller in magnitude than the divisor, signed like the dividend, and a whole number of divisors away from it |
| Numerics.FloatRemainderBounds | ErisGameEngineSDL/ErisLibraries/ErisMath/Quaternion.cs:33 | the truncated-quotient remainder has those three properties |
| Numerics.RoundHalfEven | ErisGameEngineSDL/Pipeline.cs:104-106 | `Math.Round`: the nearest integer, and the even one on a tie |
| Numerics.RoundHalfEvenUnique | ErisGameEngineSDL/Pipeline.cs:104-106 | those two conditions determine the rounded value uniquely |
| Numerics.Ceiling | ErisGameEngineSDL/RenderPipeline.cs:479 | `(int)Math.Ceiling`: the least integer not below the value |
| Planes.MakePlane | ErisGameEngineSDL/ErisLibraries/ErisMath/Plane.cs:16-21 | point and normal are stored as given and `d` puts the stored point on the plane (signed distance 0) |
| Planes.RadiusTests | ErisGameEngineSDL/ErisLibraries/ErisMath/Plane.cs:22-24 | with radius 0 the radius tests reduce to the side test and its negation; a non-negative radius only widens the positive test; the negative test is "signed distance below the radius" |
| Planes.SegmentIntersectsSymmetric | ErisGameEngineSDL/ErisLibraries/ErisMath/Plane.cs:26-27 | the crossing test ignores the segment's direction and fails when both ends are on one side |
| Planes.LineIntersectionPoint | ErisGameEngineSDL/ErisLibraries/ErisMath/Plane.cs:28-34 | the point is A plus AB times the crossing factor, and it lies on a consistent plane |
| Planes.SignedDistanceAlong | ErisGameEngineSDL/ErisLibraries/ErisMath/Plane.cs:31-33 | the point at factor f along AB has signed distance `s(A) + f * dot(AB, normal)` |
| Planes.OffsetIsNegatedDistance | ErisGameEngineSDL/ErisLibraries/ErisMath/Plane.cs:32 | on a consistent plane the numerator `dot(point - A, normal)` is minus A's signed distance |
| Planes.DirectionIsDistanceChange | ErisGameEngineSDL/ErisLibraries/ErisMath/Plane.cs:32 | the denominator `dot(AB, normal)` is the change in signed distance from A to B |
| Planes.CrossingOnSegment | ErisGameEngineSDL/ErisLibraries/ErisMath/Plane.cs:26-34 | when the segment crosses a consistent plane the line is not parallel to it, the factor is in [0, 1] and the point is on the plane |
| Planes.ScaledNormalSide | ErisGameEngineSDL/ErisLibraries/ErisMath/Plane.cs:22 | a plane through the origin with normal `k * c`, k > 0, puts p on its positive side exactly when `dot(c, p) >= 0` |
| Planes.NegatedNormalSide | ErisGameEngineSDL/ErisLibraries/ErisMath/Plane.cs:22 | with normal `-(k * c)` the positive side is `dot(c, p) <= 0` |
| Frustums.SphereTests | ErisGameEngineSDL/ErisLibraries/ErisMath/RectangleFrustum.cs:47-66 | a sphere of non-negative radius completely inside is also partly inside; with radius 0 both tests are the point test |
| Frustums.CrossingNotParallel | ErisGameEngineSDL/ErisLibraries/ErisMath/RectangleFrustum.cs:72-73 | a plane the segment crosses is never parallel to it, so its crossing point is defined |
| Frustums.CrossingsFromPlanes | ErisGameEngineSDL/ErisLibraries/ErisMath/RectangleFrustum.cs:67-76 | at most one point per plane, and every point is the crossing of a plane the segment crosses |
| Frustums.QualifyingFrom | ErisGameEngineSDL/ErisLibraries/ErisMath/RectangleFrustum.cs:102-110 | every listed index names a plane, at or after the start, that the segment crosses |
| Frustums.QualifyingFromExact | ErisGameEngineSDL/ErisLibraries/ErisMath/RectangleFrustum.cs:102-110 | the list holds exactly the planes whose crossing is inside all the other planes, in increasing order |
| Frustums.QualifyingEntries | ErisGameEngineSDL/ErisLibraries/ErisMath/RectangleFrustum.cs:102-110 | every listed plane is crossed with its crossing inside all the other planes, and the list is strictly increasing |
| Frustums.QualifyingComplete | ErisGameEngineSDL/ErisLibraries/ErisMath/RectangleFrustum.cs:102-110 | every plane from the starting index on whose crossing is inside all the other planes is listed |
| Frustums.BothInsideHasNoCrossing | ErisGameEngineSDL/ErisLibraries/ErisMath/RectangleFrustum.cs:98-112 | with both endpoints inside no plane is crossed and nothing is returned |
| Frustums.ClippedEndsOnPlanes | ErisGameEngineSDL/ErisLibraries/ErisMath/RectangleFrustum.cs:98-120 | on consistent planes each end of a clipped segment is A, B, or a crossing point on the segment, on its plane and inside the other planes |
| Frustums.InsideIndices | ErisGameEngineSDL/ErisLibraries/ErisMath/RectangleFrustum.cs:132-138 | at most as many indices as given (the corrected list of inside indices) |
| Frustums.InsideIndicesExact | ErisGameEngineSDL/ErisLibraries/ErisMath/RectangleFrustum.cs:132-138 | the list holds exactly the given indices whose vertex is inside |
| Frustums.KeptTrianglesExact | ErisGameEngineSDL/ErisLibraries/ErisMath/RectangleFrustum.cs:139-145 | the kept triangles are exactly the input triangles with three inside vertices, unchanged |
| Frustums.KeptWholeIffAllInside | ErisGameEngineSDL/ErisLibraries/ErisMath/RectangleFrustum.cs:139-145 | a three-index triangle is kept exactly when all three of its vertices are inside |
| Frustums.FrustumPlanesAsWritten | ErisGameEngineSDL/ErisLibraries/ErisMath/RectangleFrustum.cs:24-37 | six planes, in the order near, far, up, down, left, right, as the constructor writes them |
| Frustums.AsWrittenNothingInside | ErisGameEngineSDL/ErisLibraries/ErisMath/RectangleFrustum.cs:29-32 | as written, the near plane admits only negative depth while the up and down planes together reject every point at negative depth, so no point is inside the frustum |
| Frustums.UpDownNormalised | ErisGameEngineSDL/ErisLibraries/ErisMath/RectangleFrustum.cs:31-32 | a point at negative depth is on the positive side of the up plane or of the down plane as written |
| Frustums.FrustumPlanes | ErisGameEngineSDL/ErisLibraries/ErisMath/RectangleFrustum.cs:24-37 | the corrected six planes are all consistent: near and far on the side of positive depth, the four side planes as written |
| Frustums.OnAxisInside | ErisGameEngineSDL/ErisLibraries/ErisMath/RectangleFrustum.cs:24-37 | with the corrected planes, a point on the view axis whose depth lies between the near and the far distance is inside |
| Frustums.DepthSides | ErisGameEngineSDL/ErisLibraries/ErisMath/RectangleFrustum.cs:29-30 | a point is on the negative side of the corrected near plane exactly when its depth is beyond the near distance, and of the far plane exactly when it is short of the far distance |
| Frustums.SideSides | ErisGameEngineSDL/ErisLibraries/ErisMath/RectangleFrustum.cs:31-34 | a point is on the negative side of the up, down, left and right planes exactly when it lies strictly within the viewport's pyramid, one inequality per plane |
| Frustums.InsideExactly | ErisGameEngineSDL/ErisLibraries/ErisMath/RectangleFrustum.cs:38-46 | inside the corrected frustum exactly when the depth lies strictly between near and far and the point lies strictly within the viewport's pyramid, both directions |
| Frustums.InsideHasPositiveDepth | ErisGameEngineSDL/ErisLibraries/ErisMath/RectangleFrustum.cs:29-30 | every point inside the corrected frustum has a depth beyond the near distance, hence a positive depth for a near plane in front of the camera |
| Frustums.CrossShapes | ErisGameEngineSDL/ErisLibraries/ErisMath/RectangleFrustum.cs:31-34 | the four edge cross products written out in terms of the distance and the half viewport size |
| Frustums.RectangleFrustum.constructor | ErisGameEngineSDL/ErisLibraries/ErisMath/RectangleFrustum.cs:24-37 | a fresh array of the six corrected planes, in the order near, far, up, down, left, right |
| Frustums.RectangleFrustum.AccessorsInOrder | ErisGameEngineSDL/ErisLibraries/ErisMath/RectangleFrustum.cs:18-23 | the six accessors name the six entries of the array in order |
| Frustums.RectangleFrustum.IsPointInside | ErisGameEngineSDL/ErisLibraries/ErisMath/RectangleFrustum.cs:38-46 | true exactly when no plane has the point on its positive side |
| Frustums.RectangleFrustum.IsObjectPartlyInside | ErisGameEngineSDL/ErisLibraries/ErisMath/RectangleFrustum.cs:47-56 | true exactly when every plane passes the negative-side-with-radius test |
| Frustums.RectangleFrustum.IsObjectCompletelyInside | ErisGameEngineSDL/ErisLibraries/ErisMath/RectangleFrustum.cs:57-66 | true exactly when no plane passes the positive-side-with-radius test |
| Frustums.RectangleFrustum.SegmentIntersectionPoints | ErisGameEngineSDL/ErisLibraries/ErisMath/RectangleFrustum.cs:67-76 | one crossing point per crossed plane, in plane order |
| Frustums.RectangleFrustum.IsIntersectionPointInsideFrustum | ErisGameEngineSDL/ErisLibraries/ErisMath/RectangleFrustum.cs:77-86 | true exactly when no plane but `planeIdx` has the point on its positive side |
| Frustums.RectangleFrustum.FrustumIntersectionPoint | ErisGameEngineSDL/ErisLibraries/ErisMath/RectangleFrustum.cs:87-97 | the crossing of the first crossed plane whose crossing is inside the others, else the zero vector |
| Frustums.RectangleFrustum.QualifyingCrossing | ErisGameEngineSDL/ErisLibraries/ErisMath/RectangleFrustum.cs:104-106 | a plane counts exactly when the segment crosses it and its crossing is inside every other plane, and the point it yields is then that crossing |
| Frustums.RectangleFrustum.CollectCrossings | ErisGameEngineSDL/ErisLibraries/ErisMath/RectangleFrustum.cs:100-110 | the loop gathers the crossings of the first qualifying planes in plane order, stops at the second, has fewer only when fewer planes qualify, and remembers the plane of the first |
| Frustums.RectangleFrustum.ClipSegment | ErisGameEngineSDL/ErisLibraries/ErisMath/RectangleFrustum.cs:98-120 | nothing without a qualifying crossing; with one, it replaces the endpoint on that plane's positive side; otherwise the first two crossings |
| Frustums.RectangleFrustum.VertexFlags | ErisGameEngineSDL/ErisLibraries/ErisMath/RectangleFrustum.cs:124-128 | a fresh flag array whose entry i is true exactly when vertex i is inside |
| Frustums.RectangleFrustum.ClipTrianglesAsWritten | ErisGameEngineSDL/ErisLibraries/ErisMath/RectangleFrustum.cs:121-158 | as written, the method returns null whatever the triangles |
| Frustums.RectangleFrustum.ClipTriangles | ErisGameEngineSDL/ErisLibraries/ErisMath/RectangleFrustum.cs:121-158 | corrected: the list of triangles with three inside vertices, unchanged and in order |
| Cameras.WorldPlane | ErisGameEngineSDL/ErisLibraries/Camera.cs:51 | the world plane's normal is the rotated camera-space normal, its `d` is consistent, and the camera position plus the rotated point lies on it |
| Cameras.MovedPlaneProperties | ErisGameEngineSDL/ErisLibraries/Camera.cs:58-63 | a moved plane keeps its normal and stays consistent, a point moved with it keeps its signed distance, and two moves add up |
| Cameras.MoveAgreesWithTransform | ErisGameEngineSDL/ErisLibraries/Camera.cs:38-64 | moving a world plane by a vector gives the plane `TransformFrustum` would build at the moved position |
| Cameras.Camera.constructor | ErisGameEngineSDL/ErisLibraries/Camera.cs:21-35 | the view plane distance is half the viewport width over the tangent of half the field of view; both frustums are fresh six-plane arrays; the world frustum is the camera-space one carried to the transform |
| Cameras.Camera.TransformFrustum | ErisGameEngineSDL/ErisLibraries/Camera.cs:38-53 | each world plane is the camera-space plane rotated by the camera rotation and moved to the camera position |
| Cameras.Camera.Move | ErisGameEngineSDL/ErisLibraries/Camera.cs:55-64 | the position moves by the vector, rotation and scale stay, and each world plane becomes the moved plane (point shifted, `d` recomputed, normal kept) |
| Cameras.Camera.SetRotation | ErisGameEngineSDL/ErisLibraries/Camera.cs:66-70 | the rotation is stored, position and scale stay, and the world frustum is rebuilt from the camera-space frustum |
| Scene.RemoveFirst | ErisGameEngineSDL/ErisLibraries/Transform.cs:88 | one entry fewer exactly when the item is present |
| Scene.RemoveFirstAbsent | ErisGameEngineSDL/ErisLibraries/Transform.cs:88 | removing an item that is not in the list leaves the list unchanged |
| Scene.RemoveFirstCut | ErisGameEngineSDL/ErisLibraries/Transform.cs:88 | removal cuts out exactly the first occurrence and keeps the order of the rest |
| Scene.RemoveFirstMultiset | ErisGameEngineSDL/ErisLibraries/Transform.cs:88 | removal takes one copy of the item out of the multiset of entries |
| Scene.ScaledVertices | ErisGameEngineSDL/ErisLibraries/Shaped3DObject.cs:97 | one scaled vertex per mesh vertex |
| Scene.RotatedVertices | ErisGameEngineSDL/ErisLibraries/Shaped3DObject.cs:75 | one rotated vertex per scaled vertex |
| Scene.ScaleByOne | ErisGameEngineSDL/ErisLibraries/Shaped3DObject.cs:97 | with unit scale the scaled vertices are the mesh's own |
| Scene.LargestMagnitudeBounds | ErisGameEngineSDL/ErisLibraries/Shaped3DObject.cs:59-68 | the radius is at least 0, at least every vertex magnitude, and either 0 or one of those magnitudes |
| Scene.Transform.WithParent | ErisGameEngineSDL/ErisLibraries/Transform.cs:32-39 | stores position, rotation and scale, has no children, and joins the end of the parent's children |
| Scene.Transform.Placed | ErisGameEngineSDL/ErisLibraries/Transform.cs:40-47 | stores position, rotation and scale, with no parent and no children |
| Scene.Transform.At | ErisGameEngineSDL/ErisLibraries/Transform.cs:48-55 | the given position with unit scale and identity rotation, no parent, no children |
| Scene.Transform.AtScaled | ErisGameEngineSDL/ErisLibraries/Transform.cs:56-64 | the given position and scale with identity rotation, no parent, no children |
| Scene.Transform.AtRotated | ErisGameEngineSDL/ErisLibraries/Transform.cs:65-72 | the given position and rotation with unit scale, no parent, no children |
| Scene.Transform.constructor | ErisGameEngineSDL/ErisLibraries/Transform.cs:73-80 | the origin with unit scale and identity rotation, no parent, no children |
| Scene.Transform.SetGameObjectReference | ErisGameEngineSDL/ErisLibraries/Transform.cs:81 | the attached object is set and nothing else of the transform changes |
| Scene.Transform.SetParent | ErisGameEngineSDL/ErisLibraries/Transform.cs:82-101 | the parent becomes the new one; the old parent loses the first occurrence of this transform; a non-null new parent gains it at the end; positions, rotations and scales stay |
| Scene.Transform.Copy | ErisGameEngineSDL/ErisLibraries/Transform.cs:102-105 | a fresh transform with the same values and parent, appended to that parent's children |
| Scene.Transform.SetRotation | ErisGameEngineSDL/ErisLibraries/Transform.cs:107-112 | the rotation is stored; an attached object gets its vertices rotated and every triangle normal recomputed, keeping its scaled vertices and radius |
| Scene.Transform.Rotate | ErisGameEngineSDL/ErisLibraries/Transform.cs:106 | the new rotation is the given quaternion times the old one, applied as by SetRotation |
| Scene.Transform.SetScale | ErisGameEngineSDL/ErisLibraries/Transform.cs:113-117 | the scale is stored; an attached object gets its vertices rescaled and rotated and its radius recomputed, keeping its triangles |
| Scene.Shaped3DObject.constructor | ErisGameEngineSDL/ErisLibraries/Shaped3DObject.cs:34-45 | the object registers with its transform, holds a fresh copy of the mesh triangles, and has scale and rotation applied |
| Scene.Shaped3DObject.Copy | ErisGameEngineSDL/ErisLibraries/Shaped3DObject.cs:53-58 | a fresh object over the same mesh, with a fresh transform of the same values attached to it and to the same parent |
| Scene.Shaped3DObject.SetRadius | ErisGameEngineSDL/ErisLibraries/Shaped3DObject.cs:59-68 | the radius is the running maximum of the transformed vertex magnitudes |
| Scene.Shaped3DObject.UpdateTransformedMeshRotation | ErisGameEngineSDL/ErisLibraries/Shaped3DObject.cs:69-91 | the transformed vertices are the rotated scaled vertices and each triangle copy keeps its indices and colour and gets the normal of its rotated apices |
| Scene.Shaped3DObject.UpdateTransformedMeshScale | ErisGameEngineSDL/ErisLibraries/Shaped3DObject.cs:92-100 | the scaled vertices, their rotation and the radius over the result |
| Meshes.TrianglesOfShape | ErisGameEngineSDL/ErisLibraries/Mesh.cs:48-62 | one triangle per complete group of three entries, holding those entries in order and the given colour, forming a well-formed mesh |
| Meshes.TrailingEntriesIgnored | ErisGameEngineSDL/ErisLibraries/Mesh.cs:53 | one or two entries after the last complete group change nothing |
| Meshes.TrianglesFromTrisInts | ErisGameEngineSDL/ErisLibraries/Mesh.cs:50-62 | the list built three entries at a time is exactly one triangle per complete group |
| Meshes.NextGroup | ErisGameEngineSDL/ErisLibraries/Mesh.cs:53-60 | each loop step appends the triangle built from the next three entries |
| Meshes.WholePrefix | ErisGameEngineSDL/ErisLibraries/Mesh.cs:53 | once fewer than three entries remain, every complete group has been read |
| Meshes.SingleTriangle | ErisGameEngineSDL/ErisLibraries/Mesh.cs:23-28 | the three fixed vertices and one triangle with indices 0, 2, 1 in the given colour |
| Meshes.OneTriangle | ErisGameEngineSDL/ErisLibraries/Mesh.cs:26-27 | a mesh of the given three vertices and one well-formed triangle with indices 0, 2, 1 |
| Meshes.CubeShape | ErisGameEngineSDL/ErisLibraries/Mesh.cs:29-47 | eight vertices and twelve triangles of the given colour, every index naming a vertex |
| Triangles.NormalPerpendicular | ErisGameEngineSDL/ErisLibraries/ErisMath/Triangle.cs:18-19 | before normalisation the normal is perpendicular to all three edges |
| Triangles.NormalScalesBack | ErisGameEngineSDL/ErisLibraries/ErisMath/Triangle.cs:18-19 | with the engine's normalisation, the normal scaled by the cross product's length gives the cross product back |
| Triangles.ThirdEdge | ErisGameEngineSDL/ErisLibraries/ErisMath/Triangle.cs:18-19 | the third edge is minus the sum of the two edges the cross product uses |
| Triangles.GetApices | ErisGameEngineSDL/ErisLibraries/ErisMath/IndexTriangle.cs:37-38 | an index triangle yields the three indexed vertices; an apex triangle yields its own apices |
| Triangles.ApexIgnoresVertices | ErisGameEngineSDL/ErisLibraries/ErisMath/ApexTriangle.cs:39 | an apex triangle's apices do not depend on the vertex array passed in |
| Triangles.MakeIndexTriangle | ErisGameEngineSDL/ErisLibraries/ErisMath/IndexTriangle.cs:23-35 | indices and colour are stored unchanged and the normal is the normal of the indexed apices |
| Triangles.MakeApexTriangle | ErisGameEngineSDL/ErisLibraries/ErisMath/ApexTriangle.cs:21-26 | apices, normal and colour are stored unchanged |
| Triangles.MakeApexTriangleFromApices | ErisGameEngineSDL/ErisLibraries/ErisMath/ApexTriangle.cs:27-36 | apices and colour are stored and the normal is computed from the apices |
| Triangles.VariantsAgreeOnNormal | ErisGameEngineSDL/ErisLibraries/ErisMath/Triangle.cs:18-19 | an index triangle and the apex triangle on its apices get the same normal |
| Triangles.CentroidProperties | ErisGameEngineSDL/ErisLibraries/ErisMath/Triangle.cs:21-27 | the offsets of the apices from the centroid sum to zero, the centroid does not depend on apex order, and three equal points are their own centroid |
| Rendering.EdgeIndices | ErisGameEngineSDL/RenderPipeline.cs:26 | six edge entries per triangle |
| Rendering.EdgeIndicesShape | ErisGameEngineSDL/RenderPipeline.cs:26 | the edge entries are AB, BC, CA: they chain round the triangle and use each corner exactly twice |
| Rendering.SegmentsOfShape | ErisGameEngineSDL/RenderPipeline.cs:424-435 | six entries per triangle, entries 6k to 6k+5 being triangle k's edges |
| Rendering.SegmentsInRange | ErisGameEngineSDL/RenderPipeline.cs:425-435 | indices that name vertices give edge entries that name vertices |
| Rendering.GetSegmentsFromIndexTriangles | ErisGameEngineSDL/RenderPipeline.cs:425-435 | the list built triangle by triangle is every triangle's edge entries in triangle order |
| Rendering.CameraFacingExact | ErisGameEngineSDL/RenderPipeline.cs:86-88 | the filter keeps exactly the triangles that face the camera, and nothing else |
| Rendering.FacingThreeWay | ErisGameEngineSDL/RenderPipeline.cs:77-84 | a triangle faces the camera exactly when one of its three apices has a non-negative dot product with the camera-space normal |
| Rendering.FacingIsFirstApexTest | ErisGameEngineSDL/RenderPipeline.cs:77-84 | when the normal is a multiple of the edge cross product, the three-apex test is the same as the test on the first apex |
| Rendering.SameDotAlongEdge | ErisGameEngineSDL/RenderPipeline.cs:81-83 | two apices along an edge perpendicular to the normal have the same dot product with it |
| Rendering.DepthTests | ErisGameEngineSDL/RenderPipeline.cs:312-325 | an unwritten cell takes the new depth, a written one keeps the nearer; the strict segment test differs only on a tie with a written cell |
| Rendering.ProjectFloatOnViewPlane | ErisGameEngineSDL/RenderPipeline.cs:337-343 | on the view plane the projection maps the viewport linearly onto the frame, its centre to the middle |
| Rendering.ClampToLast | ErisGameEngineSDL/RenderPipeline.cs:333-334 | a coordinate equal to the resolution is pulled back onto the last pixel; any other is kept |
| Rendering.Project | ErisGameEngineSDL/RenderPipeline.cs:328-336 | the truncated projection, clamped, lands on a pixel whenever the float projection lies in the frame |
| Rendering.Flat | ErisGameEngineSDL/RenderPipeline.cs:233-249 | the flat pair ordered by x around the same peak, flat-top exactly when the peak is below the first flat vertex |
| Rendering.DivisionPoint | ErisGameEngineSDL/RenderPipeline.cs:277-281 | the division point lies on the middle row, between top and bottom in x, with a reciprocal depth between theirs |
| Rendering.RowFraction | ErisGameEngineSDL/RenderPipeline.cs:277 | the fraction of the way from the top row to the bottom row is in [0, 1] |
| Rendering.DivisionX | ErisGameEngineSDL/RenderPipeline.cs:278 | the division point's x lies between the top and bottom x |
| Rendering.DivisionDepth | ErisGameEngineSDL/RenderPipeline.cs:279-281 | the division depth is positive and its reciprocal lies between the endpoint reciprocals |
| Rendering.ReciprocalLerp | ErisGameEngineSDL/RenderPipeline.cs:279-280 | the interpolated reciprocal depth is positive and between the two reciprocals |
| Rendering.DivideTriangle | ErisGameEngineSDL/RenderPipeline.cs:252-290 | the three vertices sorted by height, the division point on the top-bottom edge, and the middle vertex and division point ordered by x |
| Rendering.PlanRasterization | ErisGameEngineSDL/RenderPipeline.cs:292-299 | a triangle is skipped exactly when degenerate; otherwise a flat plan from the first row-sharing pair, or a split plan when all rows differ |
| Rendering.FlatCase | ErisGameEngineSDL/RenderPipeline.cs:296-298 | each flat call of the dispatch hands on a flat plan of the same three vertices |
| Rendering.SplitCase | ErisGameEngineSDL/RenderPipeline.cs:299 | the division of a triangle on three different rows is a split plan for it |
| Rendering.SegmentPairs | ErisGameEngineSDL/RenderPipeline.cs:459-469 | one segment per whole pair of entries |
| Rendering.PairLoopBound | ErisGameEngineSDL/RenderPipeline.cs:440 | the pair loops stop exactly after the last whole pair |
| Rendering.DrawnStep | ErisGameEngineSDL/RenderPipeline.cs:440-455 | one more segment adds what clipping leaves of it, or nothing |
| Rendering.AllInsideDrawsAll | ErisGameEngineSDL/RenderPipeline.cs:448 | with every endpoint inside, the clipping loop draws exactly the unclipped segments |
| Rendering.DrawnSegmentsEnds | ErisGameEngineSDL/RenderPipeline.cs:438-456 | at most one drawn segment per input segment, each ending at an input endpoint or at an inside crossing of that segment with a plane |
| Rendering.SegmentPixelColor | ErisGameEngineSDL/RenderPipeline.cs:491-496 | red and green stay below 255, and blue runs from 0 at the first sample to 255 at the last |
| Rendering.CameraSpaceVertices | ErisGameEngineSDL/RenderPipeline.cs:303-309 | one camera-space vertex per transformed vertex |
| Rendering.CameraSpaceOfUnrotatedCamera | ErisGameEngineSDL/RenderPipeline.cs:303-309 | for an unrotated camera, camera space is world space shifted to put the camera at the origin |
| Rendering.PassOfCases | ErisGameEngineSDL/RenderPipeline.cs:74-103 | an object is culled exactly when its sphere misses a plane's half-space; a sphere completely inside is drawn whole; the triangles handed on are the ones given |
| Rendering.EdgePairsAreOutlines | ErisGameEngineSDL/RenderPipeline.cs:398-401 | the unclipped edge pass draws, as segment i, edge i mod 3 of triangle i / 3: exactly the triangle outlines |
| Rendering.EdgeWindow | ErisGameEngineSDL/RenderPipeline.cs:425-435 | entries 6k to 6k+5 of the edge list are triangle k's edge entries |
| Rendering.ProgressInUnit | ErisGameEngineSDL/RenderPipeline.cs:483 | the progress of sample j of n lies in [0, 1] |
| Rendering.SampleCoordinate | ErisGameEngineSDL/RenderPipeline.cs:484-486 | a sample between two pixels of the frame truncates to a pixel of the frame |
| Rendering.SampleDepthBetween | ErisGameEngineSDL/RenderPipeline.cs:485 | the interpolated depth lies between the endpoint depths |
| Rendering.RenderPipeline.constructor | ErisGameEngineSDL/RenderPipeline.cs:38-51 | stores the resolution and the camera; both buffers are fresh, of that size and all zero |
| Rendering.RenderPipeline.BeginPass | ErisGameEngineSDL/RenderPipeline.cs:59-65 | fresh zeroed buffers, the camera rotation read anew and its inverse stored |
| Rendering.RenderPipeline.DepthWrite | ErisGameEngineSDL/RenderPipeline.cs:312-325 | a cell that passes the test takes the depth and the packed colour; otherwise, and for every other cell, both buffers are unchanged |
| Rendering.RenderPipeline.SegmentDepthWrite | ErisGameEngineSDL/RenderPipeline.cs:487-498 | the strict test: a passing cell takes the depth and the position colour; no other cell changes |
| Rendering.RenderPipeline.ObjectVerticesToCameraSpace | ErisGameEngineSDL/RenderPipeline.cs:303-309 | the object's vertices offset by its position relative to the camera and turned by the inverse camera rotation |
| Rendering.RenderPipeline.RasterizeSegments | ErisGameEngineSDL/RenderPipeline.cs:459-469 | the segments handed on are the entry pairs looked up, in order |
| Rendering.RenderPipeline.FrustumClipSegments | ErisGameEngineSDL/RenderPipeline.cs:438-456 | the segments handed on are each segment whole when inside, clipped otherwise, and skipped when clipping leaves nothing |
| Rendering.RenderPipeline.RasterizeSegment | ErisGameEngineSDL/RenderPipeline.cs:472-500 | every cell either keeps both values or holds a depth between the two endpoint depths |
| Rendering.RenderPipeline.FacingObject | ErisGameEngineSDL/RenderPipeline.cs:68-103 | the pass for one object: culled, or its camera-facing triangles drawn as they are or handed to the clipper |
| Rendering.RenderPipeline.FacingPassesUpTo | ErisGameEngineSDL/RenderPipeline.cs:66-112 | one pass per scene entry |
| Rendering.RenderPipeline.FacingPassAt | ErisGameEngineSDL/RenderPipeline.cs:66-112 | entry k of the passes does not depend on how many entries follow |
| Rendering.RenderPipeline.FacingPassesEntries | ErisGameEngineSDL/RenderPipeline.cs:66-112 | every pass is NoObject for a null entry and the object's pass otherwise |
| Rendering.RenderPipeline.FacingPasses | ErisGameEngineSDL/RenderPipeline.cs:66-112 | the loop over the scene array hands on each entry's pass in order |
| Rendering.RenderPipeline.RenderTriangles | ErisGameEngineSDL/RenderPipeline.cs:57-114 | fresh buffers and camera rotation; one pass per entry, NoObject for a null entry and culled, facing-as-they-are or facing-clipped for an object |
| Rendering.RenderPipeline.EdgeObject | ErisGameEngineSDL/RenderPipeline.cs:389-402 | the pass for one object: culled, every edge unclipped when completely inside, or the triangles handed to the clipper |
| Rendering.RenderPipeline.RenderTriangleSegments | ErisGameEngineSDL/RenderPipeline.cs:377-421 | fresh buffers and camera rotation; one pass per entry, as EdgeObject gives it |
| Rendering.RenderPipeline.ClipObjectEdges | ErisGameEngineSDL/RenderPipeline.cs:362-371 | the pass for one object: culled, or every edge clipped on its own against the camera-space frustum |
| Rendering.RenderPipeline.RenderTriangleSegmentsNoClip | ErisGameEngineSDL/RenderPipeline.cs:351-374 | fresh buffers and camera rotation; one pass per entry, as ClipObjectEdges gives it |
| Wireframe.PerspectiveAlongRay | ErisGameEngineSDL/Pipeline.cs:98-99 | scaling offset and depth by the same factor leaves the divide unchanged, and at the view distance the coordinate is kept |
| Wireframe.Pipeline.constructor | ErisGameEngineSDL/Pipeline.cs:23-35 | a viewport ten units high with the frame's aspect ratio, its half, the view distance from the field of view, the camera at (0, 0, -10), and buffers of the target size |
| Wireframe.Pipeline.ProjectionAlongRay | ErisGameEngineSDL/Pipeline.cs:95-101 | every point on a ray from the camera lands on the same viewport point, and a point at the view distance lands on its own x and y |
| Wireframe.Pipeline.ViewportToFramePos | ErisGameEngineSDL/Pipeline.cs:102-108 | a viewport point within the viewport lands on a frame coordinate between 0 and the resolution |
| Wireframe.Pipeline.CentreLandsMidFrame | ErisGameEngineSDL/Pipeline.cs:102-108 | the viewport centre lands on half the resolution, rounded half to even |
| Wireframe.Pipeline.WirePositions | ErisGameEngineSDL/Pipeline.cs:83-84 | one pixel position per mesh vertex |
| Wireframe.Pipeline.RenderWireFrame | ErisGameEngineSDL/Pipeline.cs:79-94 | each vertex's pixel position in order, and every triangle's six line entries, triangle after triangle |
| Wireframe.Pipeline.RenderGameObjectsWireFrame | ErisGameEngineSDL/Pipeline.cs:62-74 | the merged positions of the non-null objects, and their lines shifted by the positions collected before each |
| Wireframe.Pipeline.NullEntriesContributeNothing | ErisGameEngineSDL/Pipeline.cs:68 | a null entry adds neither positions nor lines |
| Wireframe.Pipeline.MergedLinesPointAtOwnPositions | ErisGameEngineSDL/Pipeline.cs:70-71 | each line index an object adds, looked up in the merged list, gives the pixel its own index gives in its own positions |
| Wireframe.Pipeline.MergedLinesInRange | ErisGameEngineSDL/Pipeline.cs:62-74 | every merged line index names an entry of the merged position list |
| Wireframe.Pipeline.IsGameObjectInsideFrustum | ErisGameEngineSDL/Pipeline.cs:110-126 | partly inside exactly when some vertex is inside, completely inside exactly when every vertex is |
| Wireframe.Pipeline.StubVerdict | ErisGameEngineSDL/Pipeline.cs:127-130 | with the stub that accepts every vertex, a mesh is partly inside exactly when it has vertices, and always completely inside |
| Wireframe.FrameCoordinate | ErisGameEngineSDL/Pipeline.cs:105-106 | within half the viewport of the centre the coordinate lies between 0 and the resolution, and the centre gives half the resolution |
| Wireframe.ViewportFraction | ErisGameEngineSDL/Pipeline.cs:105-106 | a viewport coordinate within half the viewport maps into [0, resolution]; the centre maps to half the resolution |
| Wireframe.UnitFraction | ErisGameEngineSDL/Pipeline.cs:105-106 | a coordinate within half the viewport of the centre is a fraction in [0, 1] of the viewport |

## Left out

- `Scene.ScaledVertices`: `Vec3` defines `*` only with an `int` or `float` scalar (Vec3.cs lines 42-45), so `v * scale` with a `Vec3` scale at Shaped3DObject.cs line 97 has no operator in the source. It is taken to be the elementwise product (`MulElementwise`).
- Square root, `tan`, `sin`, `cos` and float normalisation are parameters, not definitions. Rounding error in float arithmetic is not modelled.
- 32-bit overflow of `int` arithmetic (pixel coordinates, packed colours) is not modelled: integers are unbounded.
- Euler-angle conversion of quaternions and `Transform.UpdateTransformSpace` are not modelled. Both are trigonometric, and the renderer does not use them.
- `ColorByte` multiplication and division by a float are not modelled. Despite their "clamp" comments, they scale each channel by the float and then apply a bare, unchecked `(byte)` cast (ColorByte.cs lines 62-66). They never call `ByteUpperClamp` or `ByteLowerClamp`.
- `ColorByte.Random` is not modelled, because it draws from a random generator.
- The per-pixel fill of `RasterizeFlatTriangle` is not modelled: its interpolation numerics and its lighting are out of scope. Its plan (which vertices bound which flat triangle) is modelled by `DivideTriangle` and `PlanRasterization`.
- Console, `Debug` and `Game.instance` hooks are not modelled. This includes the diagnostic at RenderPipeline.cs line 126, which tests `aRel.z` three times.
- `GetTrianglePositionColor` is not modelled, because nothing calls it.
- Game.cs and Program.cs (the window, the event loop and the SDL calls) are not part of this model. Neither is the second, duplicate `Vec2` file.
- `Pipeline`'s objects are instances of a stale `GameObject` class (GameObject.cs) that no longer type-checks against `Mesh` and `Transform`. They are modelled as `WireObject`, which holds the two things `Pipeline` reads: `transform.position` and `mesh` (Pipeline.cs lines 81-86). The frame and depth buffers that `Pipeline` allocates are never drawn into.
- `ClipTriangles` (RectangleFrustum.cs line 121) takes and returns the older `ErisLibraries.Triangle` struct: an index triangle with `int[] indices`, a `Vec3` normal and a `Vec3` colour (Triangle.cs lines 11-20). Its callers at RenderPipeline.cs lines 103 and 404 pass `IndexTriangle[]` and read the result as `ITriangle[]`, so these calls do not type-check as written. Here both sides use the one `Triangle` datatype. Sphere tests take a centre and a radius rather than the object.
- Frustums.RectangleFrustum.ClipTriangles: the branches for one or two apices inside build no triangles, as in the source. Only whole triangles are kept.
- Rendering.RenderPipeline.RasterizeSegment: the contract states only that every cell keeps its values or holds a depth between the two endpoint depths, not which pixels are written. It requires both endpoints to project into the frame; the source would index out of range.
- Rendering.RenderPipeline.DepthWrite: requires x and y inside the frame, where the source would throw.
- Rendering.RenderPipeline.RenderTriangles: returns what each object hands to the rasterizer (its pass), not the contents of the frame buffer.
- Rendering.RenderPipeline.RenderTriangleSegments: returns each object's drawn segments, not the frame buffer contents.
- Rendering.RenderPipeline.RenderTriangleSegmentsNoClip: returns each object's pairs of segment ends, not the frame buffer contents.
- Rendering.RenderPipeline.FacingObject: this and `EdgeObject` and `ClipObjectEdges` are the per-object bodies of the `Render*` loops, factored out as methods.
- Rendering.DivideTriangle: requires positive depths, which the reciprocal-depth interpolation divides by. The same holds for `PlanRasterization`.
- Frustums.AsWrittenNothingInside: this, `SideSides`, `InsideExactly` and `OnAxisInside` require the normalisation parameter to keep the direction of the side-plane cross products (to scale each by a positive factor). Normalisation is not defined here.
- Scene.Shaped3DObject.constructor: requires a well-formed mesh, so every triangle is an index triangle whose indices name vertices. The source throws `IndexOutOfRangeException` at Shaped3DObject.cs line 86 on a bad index. `Copy` requires the same through `Sized`.
- Frustums.RectangleFrustum.ClipTriangles: requires every triangle's indices to name vertices. The source indexes the vertex array unchecked and throws `IndexOutOfRangeException` on a bad index. `ClipTrianglesAsWritten` requires the same.
- Quaternions.AngleAxis: requires a non-zero axis, because the axis is normalised; for a zero axis the source yields NaN components. `Vec3IntMath.Div` and `Vec2Math.DivInt` require a non-zero divisor; the source's integer division by zero throws `DivideByZeroException`.
- Quaternions.Inverted: requires a non-zero norm. For the zero quaternion the source divides by zero and yields NaN components.
- Scene.Transform.SetRotation: requires a rotation with non-zero norm. So do `Rotate`, `SetScale` and the camera, because the rotation is inverted.
- Cameras.Camera.constructor: requires a non-zero `tan` of half the field of view. The camera's transform carries no object.
- Wireframe.Pipeline.constructor: requires a positive resolution and a non-zero `tan` of half the field of view. `Projectable` requires every vertex to lie off the camera's depth plane, where the source would divide by zero.

## Findings

| source | as written | input that shows it | evidently intended | confidence | as-written member | corrected member |
|---|---|---|---|---|---|---|
| ErisGameEngineSDL/ErisLibraries/ErisMath/Vectors/ColorByte.cs:55-61 | the `-` operator subtracts `c1` from itself channel by channel, so the result is always black | white minus black gives black | subtract `c2` from `c1` channel by channel, clamped at 0 | not executed | Colors.SubAsWrittenCounterexample | Colors.Sub |
| ErisGameEngineSDL/ErisLibraries/ErisMath/RectangleFrustum.cs:121-158 | the LINQ `Append` calls discard their results, so the count stays 0 and the method returns `null`; the caller's `foreach` then throws | any triangle list, e.g. one triangle wholly inside | return the triangles kept inside the frustum | not executed | Frustums.RectangleFrustum.ClipTrianglesAsWritten | Frustums.RectangleFrustum.ClipTriangles |
| ErisGameEngineSDL/ErisLibraries/ErisMath/RectangleFrustum.cs:29-34 | the near and far planes sit at negative depth along `Vec3.forward` = (0, 0, -1), while the up, down, left and right planes open towards positive depth; the near plane then admits only points at negative depth, and the up and down planes together reject every such point, so nothing is ever inside | any point; for example (0, 0, -z) with z between the near and far distances passes the near and far planes but fails the up or down plane | near and far planes at positive depth, where the side planes open and where the renderer measures depth, so that a point is inside exactly when its depth is between near and far and it lies within the viewport's pyramid | not executed | Frustums.AsWrittenNothingInside | Frustums.InsideExactly |
