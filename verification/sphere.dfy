/**
 * Spheres (sphere.h): stationary and moving spheres, their ray intersection,
 * bounding boxes and the in-place updates used for animation, and the
 * rotating wrapper that moves a sphere's centre about the y axis.
 *
 * Materials, surface normals and texture coordinates are not modelled: a hit
 * is reported as the ray parameter t alone.
 */
module Spheres {
  import opened Numbers
  import opened Vectors
  import opened Rays
  import opened Intervals
  import opened Boxes
  import opened Hits
  import Quadratics

  /** The box `aabb(c - rvec, c + rvec)` with `rvec = (r, r, r)`. */
  function BoxAround(c: Vec3, r: real): (box: Aabb)
    ensures box.WellFormed() && box.ContainsPoint(c)
    ensures box.x == Interval(Fin(c.x - Abs(r)), Fin(c.x + Abs(r)))
    ensures box.y == Interval(Fin(c.y - Abs(r)), Fin(c.y + Abs(r)))
    ensures box.z == Interval(Fin(c.z - Abs(r)), Fin(c.z + Abs(r)))
  {
    var rvec := Vec3(r, r, r);
    FromPoints(Sub(c, rvec), Add(c, rvec))
  }

  /** The coefficients of the intersection quadratic for a sphere about
      `center`: a = |d|^2, h = d . (center - origin), and the discriminant
      h^2 - a (|center - origin|^2 - radius^2). */
  function CoefA(r: Ray): real {
    LengthSquared(r.dir)
  }

  function CoefH(center: Vec3, r: Ray): real {
    Dot(r.dir, Sub(center, r.orig))
  }

  function Discriminant(center: Vec3, radius: real, r: Ray): real {
    var h := CoefH(center, r);
    h * h - CoefA(r) * (LengthSquared(Sub(center, r.orig)) - radius * radius)
  }

  /**
   * `sphere::hit` for a sphere about `center`: a negative discriminant is a
   * miss; otherwise the nearer root (h - sqrtd) / a is taken if the open
   * interval surrounds it, else the farther root (h + sqrtd) / a, else a miss.
   * For a = 0 (zero direction) both roots are 0/0 = NaN, which no interval
   * surrounds, so the ray misses.
   */
  function SphereHit(center: Vec3, radius: real, r: Ray, rayT: Interval, sqrt: real -> real): (t: Option<real>)
    ensures t.Some? ==> rayT.Surrounds(t.value)
    ensures Discriminant(center, radius, r) < 0.0 ==> t.None?
    ensures CoefA(r) == 0.0 ==> t.None?
  {
    var a, h, disc := CoefA(r), CoefH(center, r), Discriminant(center, radius, r);
    if disc < 0.0 || a == 0.0 then None
    else
      var sqrtd := sqrt(disc);
      var near := (h - sqrtd) / a;
      if rayT.Surrounds(near) then Some(near)
      else
        var far := (h + sqrtd) / a;
        if rayT.Surrounds(far) then Some(far) else None
  }

  /** The root chosen is one of the two roots of the quadratic: the nearer one
      whenever the interval surrounds it. */
  lemma SphereHitRoots(center: Vec3, radius: real, r: Ray, rayT: Interval, sqrt: real -> real)
    requires CoefA(r) != 0.0 && 0.0 <= Discriminant(center, radius, r)
    ensures var a, h, s := CoefA(r), CoefH(center, r), sqrt(Discriminant(center, radius, r));
            var t := SphereHit(center, radius, r, rayT, sqrt);
            && (rayT.Surrounds((h - s) / a) ==> t == Some((h - s) / a))
            && (t.Some? ==> t.value == (h - s) / a || t.value == (h + s) / a)
            && (!rayT.Surrounds((h - s) / a) && !rayT.Surrounds((h + s) / a) ==> t.None?)
  {
  }

  /** |p|^2 of the point at parameter t, relative to the centre, as a
      polynomial in t. */
  lemma DistanceAlongRay(center: Vec3, r: Ray, t: real)
    ensures LengthSquared(Sub(r.PointAt(t), center))
         == t * t * CoefA(r) - 2.0 * t * CoefH(center, r) + LengthSquared(Sub(center, r.orig))
  {
    Quadratics.SquaresAlongVector(t, r.dir, r.orig, center);
  }

  /** The algebra behind `RootOnSphere`, over plain reals: l is the squared
      distance at parameter t, and a t = h - s or a t = h + s. */
  lemma QuadraticRoot(a: real, h: real, q: real, rr: real, s: real, t: real, l: real)
    requires a != 0.0
    requires l == t * t * a - 2.0 * t * h + q
    requires s * s == h * h - a * (q - rr)
    requires a * t == h - s || a * t == h + s
    ensures l == rr
  {
    var at := a * t;
    assert a * l == at * at - 2.0 * h * at + a * q;
    assert at * at - 2.0 * h * at == s * s - h * h;
    assert a * l == a * rr;
    MulCancel(a, l, rr);
  }

  /** A root of the quadratic lies on the sphere. */
  lemma RootOnSphere(center: Vec3, radius: real, r: Ray, t: real, s: real)
    requires CoefA(r) != 0.0
    requires s * s == Discriminant(center, radius, r)
    requires CoefA(r) * t == CoefH(center, r) - s || CoefA(r) * t == CoefH(center, r) + s
    ensures LengthSquared(Sub(r.PointAt(t), center)) == radius * radius
  {
    DistanceAlongRay(center, r, t);
    QuadraticRoot(CoefA(r), CoefH(center, r), LengthSquared(Sub(center, r.orig)), radius * radius, s, t,
                  LengthSquared(Sub(r.PointAt(t), center)));
  }

  /** Given a genuine square root, every reported parameter is a point of the
      sphere. */
  lemma SphereHitOnSurface(center: Vec3, radius: real, r: Ray, rayT: Interval, sqrt: real -> real)
    requires IsSqrt(sqrt)
    ensures var t := SphereHit(center, radius, r, rayT, sqrt);
            t.Some? ==> LengthSquared(Sub(r.PointAt(t.value), center)) == radius * radius
  {
    var t := SphereHit(center, radius, r, rayT, sqrt);
    if t.Some? {
      var a, h, disc := CoefA(r), CoefH(center, r), Discriminant(center, radius, r);
      var s := sqrt(disc);
      assert s * s == disc;
      assert a * ((h - s) / a) == h - s;
      assert a * ((h + s) / a) == h + s;
      RootOnSphere(center, radius, r, t.value, s);
    }
  }

  /** With a genuine square root the nearer root does not exceed the farther
      one, so the reported parameter is the smallest root the interval
      surrounds. */
  lemma SphereHitNearest(center: Vec3, radius: real, r: Ray, rayT: Interval, sqrt: real -> real)
    requires IsSqrt(sqrt) && 0.0 <= Discriminant(center, radius, r) && CoefA(r) != 0.0
    ensures var a, h, s := CoefA(r), CoefH(center, r), sqrt(Discriminant(center, radius, r));
            var t := SphereHit(center, radius, r, rayT, sqrt);
            && (h - s) / a <= (h + s) / a
            && (t.Some? && rayT.Surrounds((h - s) / a) ==> t.value <= (h - s) / a)
            && (t.Some? && rayT.Surrounds((h + s) / a) ==> t.value <= (h + s) / a)
  {
    var a, h, s := CoefA(r), CoefH(center, r), sqrt(Discriminant(center, radius, r));
    assert 0.0 <= s;
    assert 0.0 < a;
    MulMonotone(h - s, h + s, 1.0 / a);
  }

  /** Searching again up to a reported hit finds nothing: the property the
      BVH relies on when both children of a leaf are the same sphere. */
  lemma SphereHitNarrowed(center: Vec3, radius: real, r: Ray, rayT: Interval, sqrt: real -> real)
    requires IsSqrt(sqrt)
    ensures var t := SphereHit(center, radius, r, rayT, sqrt);
            t.Some? ==> SphereHit(center, radius, r, Interval(rayT.min, Fin(t.value)), sqrt).None?
  {
    var t := SphereHit(center, radius, r, rayT, sqrt);
    if t.Some? {
      SphereHitNearest(center, radius, r, rayT, sqrt);
    }
  }

  /** `std::fmax(0, radius)`. */
  function ClampRadius(radius: real): (c: real)
    ensures 0.0 <= c
    ensures 0.0 <= radius ==> c == radius
    ensures radius < 0.0 ==> c == 0.0
  {
    if radius < 0.0 then 0.0 else radius
  }

  /** `sphere_center(time) = center1 + time * center_vec`. */
  function CenterAt(center1: Vec3, centerVec: Vec3, time: real): Vec3 {
    Add(center1, Scale(time, centerVec))
  }

  /** With `center_vec = center2 - center1`, time 0 gives center1 and time 1
      gives center2. */
  lemma CenterAtEnds(center1: Vec3, center2: Vec3)
    ensures CenterAt(center1, Sub(center2, center1), 0.0) == center1
    ensures CenterAt(center1, Sub(center2, center1), 1.0) == center2
  {
  }

  class Sphere {
    var center1: Vec3
    var radius: real
    const isMoving: bool
    var centerVec: Vec3
    var bbox: Aabb

    /** The stored radius is clamped at zero and no method changes it. */
    ghost predicate Valid()
      reads this
    {
      0.0 <= radius
    }

    /** The stationary constructor. The box is built from the radius argument
        as passed, before clamping. */
    constructor Stationary(center: Vec3, radius: real)
      ensures Valid() && !isMoving
      ensures center1 == center && this.radius == ClampRadius(radius)
      ensures centerVec == Zero
      ensures bbox == BoxAround(center, radius)
    {
      center1 := center;
      this.radius := ClampRadius(radius);
      isMoving := false;
      centerVec := Zero;
      var rvec := Vec3(radius, radius, radius);
      bbox := FromPoints(Sub(center, rvec), Add(center, rvec));
    }

    /** The moving constructor: the box covers the sphere at both ends of
        its path, and the centre moves from center1 at time 0 to center2 at
        time 1. */
    constructor Moving(center1: Vec3, center2: Vec3, radius: real)
      ensures Valid() && isMoving
      ensures this.center1 == center1 && this.radius == ClampRadius(radius)
      ensures centerVec == Sub(center2, center1)
      ensures bbox == Union(BoxAround(center1, radius), BoxAround(center2, radius))
      ensures SphereCenter(0.0) == center1 && SphereCenter(1.0) == center2
    {
      this.center1 := center1;
      this.radius := ClampRadius(radius);
      isMoving := true;
      var rvec := Vec3(radius, radius, radius);
      var box1 := FromPoints(Sub(center1, rvec), Add(center1, rvec));
      var box2 := FromPoints(Sub(center2, rvec), Add(center2, rvec));
      bbox := Union(box1, box2);
      centerVec := Sub(center2, center1);
    }

    function SphereCenter(time: real): Vec3
      reads this
    {
      CenterAt(center1, centerVec, time)
    }

    function Center(): Vec3
      reads this
    {
      center1
    }

    function BoundingBox(): Aabb
      reads this
    {
      bbox
    }

    /** `hit`: the centre is taken at the ray's time for a moving sphere. */
    function Hit(r: Ray, rayT: Interval, sqrt: real -> real): (t: Option<real>)
      reads this
      ensures t.Some? ==> rayT.Surrounds(t.value)
      ensures t == SphereHit(if isMoving then SphereCenter(r.time) else center1, radius, r, rayT, sqrt)
    {
      var center := if isMoving then SphereCenter(r.time) else center1;
      SphereHit(center, radius, r, rayT, sqrt)
    }

    /** `update(time)`: a moving sphere's `center_vec` becomes
        `sphere_center(time) - center1`, that is time * center_vec; nothing
        else changes. */
    method Update(time: real)
      requires Valid()
      modifies this
      ensures Valid()
      ensures isMoving ==> centerVec == Scale(time, old(centerVec))
      ensures !isMoving ==> centerVec == old(centerVec)
      ensures center1 == old(center1) && radius == old(radius) && bbox == old(bbox)
    {
      if isMoving {
        centerVec := Sub(SphereCenter(time), center1);
      }
    }

    /** `set_center`: moves the centre and rebuilds the box around it with the
        stored (clamped) radius. */
    method SetCenter(newCenter: Vec3)
      requires Valid()
      modifies this
      ensures Valid()
      ensures center1 == newCenter && bbox == BoxAround(newCenter, radius)
      ensures radius == old(radius) && centerVec == old(centerVec)
    {
      center1 := newCenter;
      var rvec := Vec3(radius, radius, radius);
      bbox := FromPoints(Sub(center1, rvec), Add(center1, rvec));
    }
  }

  /** `pi / 180`, with the value of pi used by the renderer. */
  const DegreesToRadiansFactor: real := 3.1415926535897932385 / 180.0

  /** The rotation of a point about the y axis by the angle whose cosine and
      sine are given. */
  function RotateY(p: Vec3, cosR: real, sinR: real): (q: Vec3)
    ensures q.y == p.y
  {
    Vec3(p.x * cosR - p.z * sinR, p.y, p.x * sinR + p.z * cosR)
  }

  /** A genuine rotation keeps the distance from the y axis. */
  lemma RotateYKeepsRadius(p: Vec3, cosR: real, sinR: real)
    requires cosR * cosR + sinR * sinR == 1.0
    ensures var q := RotateY(p, cosR, sinR);
            q.x * q.x + q.z * q.z == p.x * p.x + p.z * p.z
  {
    var q := RotateY(p, cosR, sinR);
    assert q.x * q.x + q.z * q.z == (p.x * p.x + p.z * p.z) * (cosR * cosR + sinR * sinR);
  }

  class RotatingSphere {
    const globe: Sphere
    const rotationSpeed: real

    constructor (globe: Sphere, rotationSpeed: real)
      ensures this.globe == globe && this.rotationSpeed == rotationSpeed
    {
      this.globe := globe;
      this.rotationSpeed := rotationSpeed;
    }

    function Hit(r: Ray, rayT: Interval, sqrt: real -> real): (t: Option<real>)
      reads globe
      ensures t.Some? ==> rayT.Surrounds(t.value)
      ensures t == globe.Hit(r, rayT, sqrt)
    {
      globe.Hit(r, rayT, sqrt)
    }

    function BoundingBox(): Aabb
      reads globe
    {
      globe.bbox
    }

    /** `update(time)`: turns the globe's centre about the y axis by
        rotation_speed * time degrees; cos and sin are supplied by the caller.
        The centre's y coordinate is kept. */
    method Update(time: real, cos: real -> real, sin: real -> real)
      requires globe.Valid()
      modifies globe
      ensures globe.Valid()
      ensures globe.center1 == RotateY(old(globe.center1), cos(rotationSpeed * time * DegreesToRadiansFactor),
                                       sin(rotationSpeed * time * DegreesToRadiansFactor))
      ensures globe.center1.y == old(globe.center1.y)
      ensures globe.radius == old(globe.radius) && globe.centerVec == old(globe.centerVec)
      ensures globe.bbox == BoxAround(globe.center1, globe.radius)
    {
      var angle := rotationSpeed * time;
      var radians := angle * DegreesToRadiansFactor;
      var cosR := cos(radians);
      var sinR := sin(radians);
      var c := globe.Center();
      var rotated := Vec3(c.x * cosR - c.z * sinR, c.y, c.x * sinR + c.z * cosR);
      assert rotated == RotateY(c, cosR, sinR);
      assert c == old(globe.center1);
      assert radians == rotationSpeed * time * DegreesToRadiansFactor;
      globe.SetCenter(rotated);
      assert globe.center1 == rotated;
    }
  }
}
