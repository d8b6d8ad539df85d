/**
 * The squared distance from a point moving along a line to a fixed point, as
 * a polynomial in the line's parameter: the algebra behind the sphere's
 * quadratic.
 */
module Quadratics {
  import opened Numbers
  import opened Vectors

  /** One coordinate: p = (e + t d) - c and o = c - e give p^2 as a
      polynomial in t. */
  lemma Along(t: real, d: real, e: real, c: real, s: real, o: real, p: real)
    requires s == t * d && o == c - e && p == e + s - c
    ensures p * p == t * t * (d * d) - 2.0 * t * (d * o) + o * o
  {
    assert p == t * d - o;
    SquareAlong(t, d, o);
  }

  /** |(e + t d) - c|^2 as a polynomial in t, with o = c - e. */
  lemma SquaresAlongVector(t: real, d: Vec3, e: Vec3, c: Vec3)
    ensures LengthSquared(Sub(Add(e, Scale(t, d)), c))
         == t * t * LengthSquared(d) - 2.0 * t * Dot(d, Sub(c, e)) + LengthSquared(Sub(c, e))
  {
    var s, o := Scale(t, d), Sub(c, e);
    var p := Sub(Add(e, s), c);
    Along(t, d.x, e.x, c.x, s.x, o.x, p.x);
    Along(t, d.y, e.y, c.y, s.y, o.y, p.y);
    Along(t, d.z, e.z, c.z, s.z, o.z, p.z);
    Distribute(t * t, LengthSquared(d), d.x * d.x, d.y * d.y, d.z * d.z);
    Distribute(2.0 * t, Dot(d, o), d.x * o.x, d.y * o.y, d.z * o.z);
  }
}
