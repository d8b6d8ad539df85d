# A verified model of a small ray tracer's core

This project models the discrete and algebraic core of a C++ path tracer in Dafny and proves what that core promises. The core covers:

- vectors and rays;
- intervals of the extended real line and axis-aligned bounding boxes, with the ray-slab test;
- sphere and triangle intersection;
- the OBJ line interpreter;
- the bounding volume hierarchy (BVH): construction and traversal;
- the camera: image height, sample rays, the depth-bounded `ray_color` recursion, gamma correction and the RGB byte buffer;
- the colour quantisation and text output of `write_color`.

Doubles are modelled as exact reals, and the two infinities are added explicitly (`Numbers.Ext`). NaN is not a value of the model. Where the source would produce one, the model does one of two things:

- a precondition excludes the case: the slab test's 0 * inf, and inf - inf in an interval's size;
- the case gets an explicit outcome. `Vectors.UnitVector` returns the zero vector unchanged, where the source's components are NaN. The sphere test reports a miss for a zero direction, which is what the source reaches when its 0 / 0 roots fail every comparison.

Square root, tangent, sine and cosine are oracles passed in as function parameters. The only fact used about `sqrt` is `IsSqrt`: a non-negative result whose square is the argument.

The random generator is a class `Sampling.Rng`: a fixed stream of draws in [0, 1) and a position in it.

Scene objects are abstract wherever the code reaches headers outside this model (materials, `hittable`, `hittable_list`):

- a hit query returns the ray parameter `t` or nothing;
- a bounding box comes from a function;
- a material's scatter answers an attenuation and a scattered ray, or nothing when it absorbs.

Module layout, one file each: `Numbers`, `Vectors` (vec3.h), `Rays` (ray.h), `Intervals` (interval.h), `Boxes` (aabb.h), `Hits`, `Sampling` (the generator of rt.h and the rejection samplers of vec3.h), `Quadratics` and `Spheres` (sphere.h), `ObjLoader` (obj_loader.h), `Bvh` (bvh.h), `Meshes` (the hierarchy over triangles), `Colors` (color.h) and `Cameras` (camera.h).

Two inconsistencies between headers are resolved as follows:

- `ray.h` declares no time, but `sphere.h` reads `r.time()` and `camera.h` builds three-argument rays. The model's ray carries a time, and the two-argument constructor sets it to 0.
- `aabb.h` calls `interval::length()`, but `interval.h` only defines `size()`. The model reads it as `size()`.

## Model

| member | source | states |
|---|---|---|
| Vectors.LengthSquared | vec3.h:39-41 | the squared length is the dot product of the vector with itself |
| Vectors.LengthSquaredNonNegative | vec3.h:39-41 | a squared length is never negative |
| Vectors.DotSymmetric | vec3.h:91-93 | `dot(u, v) == dot(v, u)` |
| Vectors.CrossOrthogonal | vec3.h:95-99 | `cross(u, v)` is orthogonal to both `u` and `v` |
| Vectors.CrossAntiSymmetric | vec3.h:95-99 | `cross(u, v) == -cross(v, u)` |
| Vectors.Reflect | vec3.h:133-135 | for a unit normal n, the reflection's component along n is the negated component of v |
| Vectors.ReflectTwice | vec3.h:133-135 | reflecting twice about the same unit normal gives back v |
| Vectors.NearZeroBounds | vec3.h:43-47 | a near-zero vector has squared length below 3e-16, and a squared length below 1e-16 makes it near zero |
| Vectors.UnitVectorIsUnit | vec3.h:101-103 | given a genuine sqrt, a non-zero vector normalises to squared length 1 with y in [-1, 1] |
| Vectors.Vec3Cell.constructor | vec3.h:9-10 | the store holds the three given components |
| Vectors.Vec3Cell.AddAssign | vec3.h:21-24 | `+=` leaves the store holding the old value plus v, component-wise |
| Vectors.Vec3Cell.MulAssign | vec3.h:26-29 | `*=` leaves the store holding t times the old value |
| Vectors.Vec3Cell.DivAssign | vec3.h:31-33 | `/=` (t non-zero) leaves the old value scaled by 1/t, as `operator/` computes it |
| Rays.MakeRay | ray.h:10 | the two-argument ray has the given origin and direction and time 0 |
| Rays.AccessorsReturnArguments | ray.h:10-13 | `origin()` and `direction()` return exactly what the ray was built from |
| Rays.PointAtEnds | ray.h:15-17 | `rayPos(0)` is the origin and `rayPos(1)` is origin plus direction |
| Rays.PointAtAffine | ray.h:15-17 | `rayPos(a) - rayPos(b) == (a - b) * direction` |
| Intervals.Interval.Size | interval.h:17-19 | the size is finite exactly when both bounds are, equals max - min then, and is non-negative exactly when min <= max |
| Intervals.Default | interval.h:13 | the default interval runs from +inf to -inf and contains no real number |
| Intervals.Make | interval.h:15 | the two-argument constructor keeps both bounds as given, never reordered |
| Intervals.EmptyHoldsNothing | interval.h:29-31 | `empty()` contains and surrounds no real number, and equals the default interval |
| Intervals.UniverseHoldsEverything | interval.h:33-35 | `universe()` contains and surrounds every real number |
| Intervals.OpenWithinClosed | interval.h:21-27 | `surrounds` implies `contains`; a finite endpoint of a non-empty interval is contained but not surrounded |
| Intervals.ContainsSomethingIff | interval.h:21-23 | an interval contains some real exactly when min <= max and it is not one infinity repeated |
| Boxes.Span | aabb.h:16-19 | one axis of the two-point box runs from the smaller to the larger coordinate, holds both, and has min <= max |
| Boxes.FromPoints | aabb.h:16-19 | the two-point box is well formed, holds both points and lies inside every box that holds them |
| Boxes.PointsBox | aabb.h:16-19 | the constructor's loop over the three axes builds exactly the two-point box |
| Boxes.Hull | aabb.h:21-24 | one axis of the two-box box covers both intervals and lies inside every interval covering them |
| Boxes.Union | aabb.h:21-24 | the two-box box holds both boxes and is the smallest box that does |
| Boxes.UnionBox | aabb.h:21-24 | the constructor's loop over the three axes builds exactly the union |
| Boxes.UnionCommutativeIdempotent | aabb.h:21-24 | the union is commutative, and a box united with itself is unchanged |
| Boxes.UnionWellFormed | aabb.h:21-24 | the union with a well-formed box is well formed |
| Boxes.ZeroBoxHoldsOrigin | aabb.h:63 | `aabb::empty` is the zero-size box at the origin, so any union with it holds the origin |
| Boxes.UniverseBoxHoldsAll | aabb.h:64 | `aabb::universe` holds every point |
| Boxes.Clip | aabb.h:35-42 | one pass of the slab loop only narrows the working interval: min never decreases and max never increases |
| Boxes.Hit | aabb.h:30-48 | the loop with its early exit on `max <= min` returns the outcome of the slab test over the three axes, working on a copy of `ray_t`; the slab parameters are the intended smaller and larger values (see `Boxes.Clip` under Left out) |
| Boxes.ZeroDirectionAxis | aabb.h:36-45 | with a zero direction component, an origin strictly inside the slab leaves the interval unchanged, and an origin outside it makes the test fail |
| Boxes.SlabTMonotone | aabb.h:36-39 | the slab parameter grows with the bound for a non-negative direction component and shrinks for a negative one |
| Boxes.ClipMonotone | aabb.h:35-42 | clipping against a larger box, starting from a larger interval, gives a larger interval |
| Boxes.SlabMonotone | aabb.h:30-48 | a ray the test accepts for a box is accepted for every larger box and every larger interval |
| Boxes.ClipKeepsPoint | aabb.h:35-42 | clipping keeps every parameter at which the ray lies between that axis's faces |
| Boxes.InclusiveSlabSound | aabb.h:30-48 | with the inclusive exit `max < min`, a ray inside the closed box at some parameter of the interval is accepted |
| Boxes.StrictSlabMissesFlatBox | aabb.h:44-45 | the exit as written rejects a ray that meets a zero-thickness box in a single point |
| Boxes.LongestOf | aabb.h:50-58 | the chosen axis has the greatest extent, and every lower axis has a strictly smaller one, so ties go to the lowest index |
| Boxes.LongestAxis | aabb.h:50-58 | the loop with its strict `>` returns that axis |
| Sampling.Uniform | rt.h:41-44 | a draw in [0, 1) maps into [min, max) |
| Sampling.Rng.RandomDouble | rt.h:37-39 | returns the next draw, in [0, 1), and advances the stream by one |
| Sampling.Rng.RandomRange | rt.h:41-44 | returns the next draw mapped into [min, max), and advances by one |
| Sampling.RandomInUnitDisk | vec3.h:105-111 | the point returned has z = 0 and squared length below 1; it is the first accepted candidate of the stream, two draws per attempt, every earlier attempt rejected |
| Sampling.RandomInUnitSphere | vec3.h:113-119 | the point returned has squared length below 1 and every coordinate in [-1, 1); it is the first accepted candidate of the stream, three draws per attempt, every earlier attempt rejected |
| Sampling.RandomUnitVector | vec3.h:121-123 | the result is the normalised ball sample, of squared length 1 for a genuine sqrt and a non-zero sample |
| Sampling.OnHemisphere | vec3.h:125-131 | the result is v or -v, and its dot product with the normal is \|dot(v, normal)\| >= 0 |
| Sampling.RandomOnHemisphere | vec3.h:125-131 | the result is the unit sample or its negation, and never points away from the normal |
| Quadratics.SquaresAlongVector | sphere.h:34-37 | the squared distance from a point of the line to the centre is the quadratic in t with the coefficients the sphere test uses |
| Spheres.BoxAround | sphere.h:14-15 | the box about a centre spans [c - \|r\|, c + \|r\|] on every axis and holds the centre |
| Spheres.SphereHit | sphere.h:32-49 | a reported t lies strictly inside the interval; a negative discriminant or a zero direction is a miss |
| Spheres.SphereHitRoots | sphere.h:42-49 | the smaller root is reported when the interval surrounds it, otherwise the larger one when surrounded, otherwise a miss |
| Spheres.DistanceAlongRay | sphere.h:33-37 | `\|rayPos(t) - center\|^2 = a t^2 - 2 h t + \|oc\|^2` with the test's a and h |
| Spheres.QuadraticRoot | sphere.h:37-46 | a root `(h -/+ sqrtd) / a` of the discriminant makes that squared distance equal radius^2 |
| Spheres.RootOnSphere | sphere.h:37-46 | every root of the quadratic is a point of the sphere |
| Spheres.SphereHitOnSurface | sphere.h:32-52 | given a genuine sqrt, the point at a reported t lies on the sphere |
| Spheres.SphereHitNearest | sphere.h:42-49 | given a genuine sqrt, the reported t is the smallest root the interval surrounds |
| Spheres.SphereHitNarrowed | sphere.h:42-49 | searching again up to a reported t finds nothing |
| Spheres.ClampRadius | sphere.h:12 | the stored radius is `max(0, radius)` |
| Spheres.CenterAtEnds | sphere.h:87-91 | with `center_vec = center2 - center1`, time 0 gives center1 and time 1 gives center2 |
| Spheres.Sphere.Stationary | sphere.h:11-16 | stationary sphere: clamped radius, and the box built around the centre from the radius argument |
| Spheres.Sphere.Moving | sphere.h:20-30 | moving sphere: the box is the union of the boxes at both ends, and the centre moves from center1 at time 0 to center2 at time 1 |
| Spheres.Sphere.Hit | sphere.h:32-33 | the centre is taken at the ray's time for a moving sphere, and a reported t lies inside the interval |
| Spheres.Sphere.Update | sphere.h:63-67 | a moving sphere's `center_vec` becomes time times itself, a stationary sphere is unchanged, and centre, radius and box are kept, so the radius stays non-negative |
| Spheres.Sphere.SetCenter | sphere.h:73-77 | the centre moves and the box is rebuilt around it with the stored radius; radius and `center_vec` are kept, so the radius stays non-negative |
| Spheres.RotateY | sphere.h:128-132 | the rotated centre keeps its y coordinate |
| Spheres.RotateYKeepsRadius | sphere.h:128-132 | for cos^2 + sin^2 = 1 the rotation keeps the distance from the y axis |
| Spheres.RotatingSphere.constructor | sphere.h:114-115 | the wrapper holds the given globe and speed |
| Spheres.RotatingSphere.Hit | sphere.h:117-119 | the wrapper answers as its globe does |
| Spheres.RotatingSphere.Update | sphere.h:121-135 | the globe's centre is rotated about y by speed * time degrees, its y kept, its box rebuilt around it, and nothing else of the globe changes |
| ObjLoader.TriangleHit | obj_loader.h:21-55 | a hit exactly when the determinant is outside (-1e-8, 1e-8), u in [0, 1], v >= 0, u + v <= 1 and the open interval surrounds t; the hit is that t |
| ObjLoader.CoordinateU | obj_loader.h:31-33 | u is its numerator divided by the determinant |
| ObjLoader.CoordinateV | obj_loader.h:38-39 | v is its numerator divided by the determinant |
| ObjLoader.CoordinateT | obj_loader.h:44 | t is its numerator divided by the determinant |
| ObjLoader.CramerPoint | obj_loader.h:23-44 | for a non-zero determinant, `rayPos(t) == v0 + u (v1 - v0) + v (v2 - v0)` (the Moller-Trumbore identity) |
| ObjLoader.TriangleHitOnTriangle | obj_loader.h:21-55 | the point of a reported hit is a point of the triangle |
| ObjLoader.Min3 | obj_loader.h:58-62 | `std::min` of three is below all three and one of them |
| ObjLoader.Max3 | obj_loader.h:64-68 | `std::max` of three is above all three and one of them |
| ObjLoader.TriangleBox | obj_loader.h:57-71 | the box is the per-axis min/max of the vertices: well formed, holds all three, and inside every box that holds them |
| ObjLoader.BarycentricInBox | obj_loader.h:57-71 | every point of the triangle lies in its box |
| ObjLoader.TriangleHitInBox | obj_loader.h:21-71 | the point of a reported hit lies in the triangle's box |
| ObjLoader.LoadObj | obj_loader.h:83-114 | a file that cannot be opened gives no triangles; otherwise the loop produces the triangles of the face lines in order |
| ObjLoader.VerticesInOrder | obj_loader.h:99-103 | the vertex list is the points of the `v` lines, in file order |
| ObjLoader.TriangleCount | obj_loader.h:104-110 | the number of triangles equals the number of `f` lines |
| ObjLoader.TrianglesGrow | obj_loader.h:94-111 | reading more lines only appends triangles |
| ObjLoader.FaceMakesTriangle | obj_loader.h:104-110 | the n-th line, if a face, makes the triangle at index FaceCount(lines before it), from the 1-based vertices read so far |
| Bvh.Narrow | bvh.h:61 | the right child's interval keeps the lower bound, and ends at the left hit if there was one |
| Bvh.Nearer | bvh.h:60-63 | the node reports a hit exactly when one of the children does |
| Bvh.ObjectsInBox | bvh.h:52 | every object's box lies inside the box of every node above it |
| Bvh.ScanMissesOutsideBox | bvh.h:57-58 | a ray that fails a node's slab test hits none of the objects below it |
| Bvh.NearerOfNarrowed | bvh.h:60-63 | searching the first part over the interval and the second up to the first's hit gives the nearest hit of both parts; the second replaces the first only when strictly nearer |
| Bvh.NearestUnique | bvh.h:56-64 | the nearest hit of a set of objects over an interval is unique |
| Bvh.ResearchMisses | bvh.h:60-63 | searching an object again up to its own hit finds nothing, so a node with the same object twice reports that object's hit |
| Bvh.HitMatchesScan | bvh.h:56-64 | for objects whose hits lie inside their boxes, the hierarchy answers every query exactly as the front-to-back scan of its objects |
| Bvh.ScanNearest | bvh.h:60-63 | for objects that answer their own nearest hit, the scan answers the nearest hit of all of them inside the interval |
| Bvh.NodeHitNearest | bvh.h:56-64 | the hierarchy answers the nearest hit of all its objects strictly inside the interval, or nothing when the interval holds none |
| Bvh.Closer | bvh.h:60-63 | the closer of two answers is one of them, present when either is, and no farther than either |
| Bvh.CloserNearest | bvh.h:56-64 | the closer of the nearest hits of two parts is the nearest hit of both |
| Bvh.NodeIsCloserOfChildren | bvh.h:56-64 | past the box test, a node answers the closer of its children's answers over the whole interval; the right child's narrowed answer is strictly nearer than the left's whenever both hit, so a tie keeps the left record |
| Bvh.FoldBox | bvh.h:16-19 | the box folded from `aabb::empty` always holds the origin |
| Bvh.FoldBoxHoldsAll | bvh.h:16-19 | the folded box holds every object's box |
| Bvh.FoldBoxes | bvh.h:16-19 | the constructor's fold loop computes the folded box of the range |
| Bvh.NthElement | bvh.h:43-45 | `nth_element` permutes the range in place and leaves no larger key before nth and no smaller key after it; the rest of the array is untouched |
| Bvh.PartitionAt | bvh.h:43-45 | the partitioned copy is a permutation of the range with the nth element in its sorted place |
| Bvh.PartitionOrdered | bvh.h:43-49 | after the partition every key of the lower half is at most every key of the upper half |
| Bvh.OrderPair | bvh.h:31-40 | two objects: the first goes left only when its key is strictly smaller (`box_compare` is a strict `<`), so on a tie the second goes left; the right child's key is never smaller than the left's |
| Bvh.Build | bvh.h:14-53 | the node holds exactly the objects of the range, its boxes are unions of its children's, and it has the shape of one, two or a split of three or more objects on the longest axis |
| Bvh.BuildOnAxis | bvh.h:26-50 | the span of one object gives a node with both children that object; of two, an ordered pair; of more, a split |
| Bvh.BuildSplit | bvh.h:41-50 | three or more objects split at start + span / 2 into two non-empty, key-ordered halves |
| Bvh.BuildHalves | bvh.h:47-52 | the halves are built recursively and the node box is the union of theirs |
| Meshes.TriangleNearest | obj_loader.h:21-55 | the triangle's answer is its only plane hit, when that hit is inside the triangle and the interval surrounds it, and nothing otherwise |
| Meshes.TriangleBehaves | obj_loader.h:21-71 | under the inclusive slab test, a triangle's hits lie in its box and are its nearest hits |
| Meshes.MeshHitMatchesScan | bvh.h:56-64 | with the inclusive slab test, a hierarchy of triangles answers every query as the scan of its triangles, and that answer is the nearest triangle hit inside the interval |
| Meshes.FlatTriangleMissed | aabb.h:44-45 | with the slab test as written, the hierarchy over a flat triangle misses a ray the triangle is hit by at t = 1 |
| Colors.ToByte | color.h:15-17 | components at or below 0 give byte 0 and components at or above 1 give 255; every byte is in [0, 255] |
| Colors.ToByteInterior | color.h:15-17 | inside [0, 1) the byte is the whole part of 255.999 c |
| Colors.ToByteMonotone | color.h:15-17 | a larger component never gives a smaller byte |
| Colors.ToByteEnds | color.h:15-17 | 0 maps to 0 and 1.0 maps to 255 |
| Colors.Decimal | color.h:19 | an `int` prints as a non-empty run of digits without a leading zero |
| Colors.DecimalRoundTrip | color.h:19 | reading the printed digits gives the number back |
| Colors.WriteColorFields | color.h:19 | the line is exactly three numerals separated by single spaces and ended by a newline |
| Colors.WriteColorRoundTrip | color.h:9-20 | reading the printed line gives back the pixel's three bytes |
| Cameras.ImageHeight | camera.h:114-115 | the height is at least 1, and equals `int(image_width / aspect_ratio)` whenever that is at least 1 |
| Cameras.ImageHeightFits | camera.h:114-115 | for a width of at least one aspect ratio, `h * aspect <= width < (h + 1) * aspect` |
| Cameras.PixelGridSpansViewport | camera.h:137-142 | pixel (0, 0) sits half a step inside the upper-left corner, and half a step past the last pixel lies the opposite corner |
| Cameras.UnitY | camera.h:164-165 | the y of the normalised direction lies in [-1, 1], the zero vector included |
| Cameras.BackgroundBetween | camera.h:164-166 | every channel of the sky colour lies between white and (0.5, 0.7, 1.0) |
| Cameras.BackgroundEnds | camera.h:164-166 | straight up gives (0.5, 0.7, 1.0) and straight down gives white |
| Cameras.RayColorInUnitCube | camera.h:150-167 | with attenuations in [0, 1] every ray colour lies in [0, 1] |
| Cameras.ClosedSceneIsBlack | camera.h:150-162 | the recursion stops at depth 0 with black: where every ray hits and scatters, the colour is black |
| Cameras.AbsorbIsBlack | camera.h:159-161 | a hit on an absorbing material is black |
| Cameras.LinearToGamma | camera.h:218-224 | inputs at or below 0 give 0 |
| Cameras.GammaSquares | camera.h:218-224 | given a genuine sqrt, the gamma value is non-negative and squares back to the input |
| Cameras.GammaMonotone | camera.h:218-224 | gamma correction keeps the order of components |
| Cameras.AveragedBytes | camera.h:41-45 | with scale 1/n, an all-black sum gives byte 0 and a sum of n whites gives 255 |
| Cameras.PixelInBuffer | camera.h:38 | pixel (i, j) owns bytes (j w + i) 3 to (j w + i) 3 + 2, all inside the w h 3 buffer |
| Cameras.PixelsDisjoint | camera.h:38-45 | distinct pixels or channels write distinct bytes |
| Cameras.PixelsCover | camera.h:31-45 | every byte of the buffer is a channel of some pixel |
| Cameras.PixelOfIndex | camera.h:38 | pixel number j w + i is column i of row j |
| Cameras.Derive | camera.h:113-148 | the derived height is the image height, the sample scale times the sample count is 1, and the centre is `lookfrom` |
| Cameras.Camera.constructor | camera.h:11-22 | the default settings |
| Cameras.Camera.Initialize | camera.h:113-148 | the derived fields become those of the settings, and the settings are kept |
| Cameras.Camera.SampleSquare | camera.h:207-210 | the offset lies in [-0.5, 0.5)^2 at z = 0, from the next two draws |
| Cameras.Camera.DefocusDiskSample | camera.h:212-216 | the origin is the defocus-disk image of a point of the unit disk |
| Cameras.Camera.RayOrigin | camera.h:179 | without defocus the origin is the camera centre and no draw is used, otherwise a point of the defocus disk |
| Cameras.Camera.GetRay | camera.h:170-184 | the ray starts at the centre or on the disk, points at a jittered sample of pixel (i, j), and carries a drawn time in [0, 1) |
| Cameras.Camera.GetRayAt | camera.h:186-198 | the same ray with the given time |
| Cameras.Camera.SamplePixel | camera.h:33-37 | the pixel colour is the sum of the colours of `samples_per_pixel` rays through the pixel |
| Cameras.Camera.AddSample | camera.h:35-36 | one more ray through the pixel, its colour added to the sum |
| Cameras.Camera.Render | camera.h:28-49 | after `initialize`, each of the w h pixels' three bytes holds its averaged, gamma-corrected, quantised sample sum, and bytes past the image are untouched |
| Cameras.Camera.RenderRow | camera.h:32-46 | one more row of pixels is drawn |
| Cameras.Camera.RenderPixel | camera.h:33-45 | one more pixel is sampled and written at (j w + i) 3 |
| Cameras.Camera.WriteBytes | camera.h:43-45 | the three quantised channels are stored at index, index + 1 and index + 2 |
| Cameras.Camera.WrittenPixel | camera.h:38-45 | writing the next pixel's bytes extends the drawn prefix of the buffer by that pixel |
| Cameras.Camera.SampledAppend | camera.h:31-37 | the pixel appended as number j w + i has its rays through column i of row j |

## Left out

- `render_sequence` (camera.h:52-100) and `update_world` (camera.h:200-205) are not modelled: they drive SDL frames and event polling, and cast the world to a `hittable_list`, which is not part of this model. `main.cpp` (scene set-up and the window loop) is not part of this model either.
- The Mersenne Twister and `random_device` of rt.h are not modelled. The generator is a fixed stream of draws in [0, 1); `random_double(min, max)` maps a draw affinely into [min, max). `random_int` is not used by the core.
- C++ leaves the evaluation order of a call's arguments unspecified. Three places draw several random numbers as arguments of one call: `sample_square` (camera.h:208-209), `random_in_unit_disk` (vec3.h:107) and `vec3::random(min, max)` (vec3.h:53-55), which `random_in_unit_sphere` uses. The model fixes one order: `Cameras.Camera.SampleSquare`, `Sampling.RandomInUnitDisk` and `Sampling.RandomInUnitSphere` draw x first, then y, then z.
- Rounding and NaN are not modelled. Exact reals stand for doubles, so no contract accounts for floating-point error. Preconditions exclude the NaN cases:
  - the slab test's 0 * inf, where the origin lies on a face and the direction component is zero;
  - inf - inf in an interval's size.
- `Vectors.UnitVector`: the zero vector normalises to itself; the source divides by zero and gets NaN components.
- `length`, `unit_vector`, `linear_to_gamma`, the viewport (`tan`) and the rotating sphere (`sin`, `cos`) use oracle functions supplied by the caller. The properties proved about them assume only `IsSqrt`, or `cos^2 + sin^2 = 1`.
- `refract` and `get_sphere_uv` are not modelled: they are transcendental and feed only materials and textures, which are outside this model.
- `vec3::random` is not a separate member: `RandomInUnitSphere` draws its three coordinates inline. `operator<<` of `vec3` is output only and is not modelled. The compound assignments' returned references, used for chaining, are not modelled.
- Hit records carry only the ray parameter `t`. The hit point, the face normal (`set_face_normal`), the triangle's normal, texture coordinates and the material reference are not modelled. A material is a `scatter` function passed to the camera.
- The `update` methods of `bvh_node` and `Triangle` do nothing and are not modelled.
- Integer overflow of `int` in `image_height`, in the pixel index `(j * image_width + i) * 3` and in the buffer size is not modelled.
- `Colors.ToByte`: models the cast `(int)(255.999 * c)` as truncation towards zero on unbounded integers. In C++ the cast is undefined when the product lies outside the range of `int`, that is for |c| above about 8.39e6. The ensures `c <= 0 ==> b == 0` and `1 <= c ==> b == 255` therefore describe the source only for components inside that range. `Cameras.Camera.WriteBytes`, `Cameras.Camera.Render` and `Cameras.AveragedBytes` quantise through `Colors.ToByte` and carry the same limit.
- `Cameras.Camera.Render`: requires `aspect_ratio != 0`, `image_width >= 1` and `samples_per_pixel != 0`. Without them the source divides by zero in `initialize` and carries on with infinities.
- `Cameras.Camera.Render`: requires a buffer of at least `w * h * 3` bytes, which the caller must provide.
- `Cameras.Camera.Render` requires a stream from which the defocus disk's rejection loop always finishes, when defocus is on. `Sampling.RandomInUnitDisk` and `Sampling.RandomInUnitSphere` likewise require a stream that eventually yields an accepted candidate. The source loops forever otherwise.
- `Cameras.Derive`: states the height, the sample scale and the centre. The viewport vectors depend on the tangent and square-root oracles and are only computed, not constrained. `Cameras.PixelGridSpansViewport` states the grid's geometry separately.
- `ObjLoader.LoadObj`: requires every face index to name a vertex already read (1-based), because the source does not check the indices. File opening and number parsing are not modelled: the input is the already tokenised lines, or `None` when the file cannot be opened.
- `Bvh.Build`: requires a non-empty range, because the source recurses forever on an empty span. Objects are abstract values with a box function, and the copy of the object vector is a Dafny sequence, so the caller's vector is never reordered.
- `Bvh.NthElement`: specified by the guarantee of `std::nth_element`, namely the position of the nth element and a permutation of the range. The library's particular order is not modelled; the model selects the smallest remaining key into each position up to nth.
- `Bvh.HitMatchesScan` and `Bvh.NodeHitNearest` assume what `Bvh.Behaves` states of every object: for every interval, its hit query answers its nearest hit strictly inside the interval (as its own `isHit` predicate defines a hit), and a reported hit passes the slab test of its box. `Meshes.TriangleBehaves` proves this of triangles, and `Spheres.SphereHitNearest` states the sphere's nearest-root property. The reference scan (`Bvh.Scan`) is the plain list query of `hittable_list`, which is not part of this model.
- Hit records carry only `t`, so the model cannot tell two objects' records apart at the same `t`. `Bvh.NodeIsCloserOfChildren` states instead that the right child's record replaces the left's only for a strictly smaller `t`.
- `Boxes.Clip` and `Boxes.Hit`: at aabb.h:38-39 the source binds `auto [t0, t1]` to `std::minmax` of two temporaries. `std::minmax(const T&, const T&)` returns a pair of references, and both temporaries are destroyed at the end of that declaration. Reading `t0` and `t1` at aabb.h:41-42 is therefore undefined behaviour. The model uses the evident intent: `t0` and `t1` are the smaller and the larger of the two slab parameters, by value.
- The `Spheres.Sphere.Stationary` and `Spheres.Sphere.Moving` constructors build their boxes from the radius argument before clamping, as the source does. A negative radius therefore gets a box of half-width |radius| around a sphere of radius 0.

## Findings

| source | as written | input that shows it | evidently intended | confidence | as-written member | corrected member |
|---|---|---|---|---|---|---|
| aabb.h:44-45 | the slab loop fails when `ray_t.max <= ray_t.min`, so an interval clipped to a single point is rejected | triangle (0,0,0), (1,0,0), (0,1,0) in the plane z = 0; ray from (0.25, 0.25, 1) along (0, 0, -1); interval (0.001, +inf). The triangle's box has zero thickness in z, the z slab clips the interval to [1, 1], and the hierarchy reports no hit. The triangle alone, and a scan over it, report the hit at t = 1 | a box of zero thickness along an axis (any triangle lying in an axis-aligned plane) still lets through the rays that meet it; with the exit `max < min` the hierarchy answers as the scan does | high; not executed | Meshes.FlatTriangleMissed | Meshes.MeshHitMatchesScan |
