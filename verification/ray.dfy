/**
 * Rays (ray.h). The header as shipped has no time field, but the moving
 * sphere reads `r.time()` and the camera builds rays from an origin, a
 * direction and a time, so the model carries the time as a third field; the
 * two-argument constructor gives time 0.
 */
module Rays {
  import opened Vectors

  datatype Ray = Ray(orig: Vec3, dir: Vec3, time: real) {

    function Origin(): Vec3 { orig }

    function Direction(): Vec3 { dir }

    /** `rayPos(t) = orig + t * dir`. */
    function PointAt(t: real): Vec3 {
      Add(orig, Scale(t, dir))
    }
  }

  /** The default-constructed ray: zero origin and direction. */
  const DefaultRay := Ray(Zero, Zero, 0.0)

  /** The two-argument constructor `ray(origin, direction)`. */
  function MakeRay(origin: Vec3, direction: Vec3): (r: Ray)
    ensures r.Origin() == origin && r.Direction() == direction
    ensures r.time == 0.0
  {
    Ray(origin, direction, 0.0)
  }

  /** The accessors give back exactly what the ray was built from. */
  lemma AccessorsReturnArguments(origin: Vec3, direction: Vec3, time: real)
    ensures Ray(origin, direction, time).Origin() == origin
    ensures Ray(origin, direction, time).Direction() == direction
  {
  }

  /** `rayPos(0)` is the origin and `rayPos(1)` is origin plus direction. */
  lemma PointAtEnds(r: Ray)
    ensures r.PointAt(0.0) == r.orig
    ensures r.PointAt(1.0) == Add(r.orig, r.dir)
  {
  }

  /** `rayPos` is affine in t: the difference of two positions is the
      difference of the parameters times the direction. */
  lemma PointAtAffine(r: Ray, a: real, b: real)
    ensures Sub(r.PointAt(a), r.PointAt(b)) == Scale(a - b, r.dir)
  {
  }
}
