/**
 * Three-component vectors (vec3.h). Points, directions and colours share this
 * representation. The free operators are pure functions; the compound
 * assignments `+=`, `*=` and `/=` update a three-element store in place.
 */
module Vectors {
  import opened Numbers

  datatype Vec3 = Vec3(x: real, y: real, z: real) {

    /** `operator[]`: component i. */
    function At(i: nat): real
      requires i < 3
    {
      if i == 0 then x else if i == 1 then y else z
    }
  }

  /** The default-constructed vector. */
  const Zero := Vec3(0.0, 0.0, 0.0)

  function Neg(v: Vec3): Vec3 {
    Vec3(-v.x, -v.y, -v.z)
  }

  function Add(u: Vec3, v: Vec3): Vec3 {
    Vec3(u.x + v.x, u.y + v.y, u.z + v.z)
  }

  function Sub(u: Vec3, v: Vec3): Vec3 {
    Vec3(u.x - v.x, u.y - v.y, u.z - v.z)
  }

  /** Component-wise (Hadamard) product, used for colour attenuation. */
  function Mul(u: Vec3, v: Vec3): Vec3 {
    Vec3(u.x * v.x, u.y * v.y, u.z * v.z)
  }

  /** Scalar on the left: `t * v`. */
  function Scale(t: real, v: Vec3): Vec3 {
    Vec3(t * v.x, t * v.y, t * v.z)
  }

  /** Scalar on the right: `v * t`, defined by the source as `t * v`. */
  function ScaleRight(v: Vec3, t: real): Vec3 {
    Scale(t, v)
  }

  /** `v / t`, defined by the source as `(1/t) * v`. */
  function Div(v: Vec3, t: real): Vec3
    requires t != 0.0
  {
    Scale(1.0 / t, v)
  }

  function Dot(u: Vec3, v: Vec3): real {
    u.x * v.x + u.y * v.y + u.z * v.z
  }

  function LengthSquared(v: Vec3): (r: real)
    ensures r == Dot(v, v)
  {
    v.x * v.x + v.y * v.y + v.z * v.z
  }

  /** A squared length is never negative. */
  lemma LengthSquaredNonNegative(v: Vec3)
    ensures 0.0 <= LengthSquared(v)
  {
    SquareNonNegative(v.x);
    SquareNonNegative(v.y);
    SquareNonNegative(v.z);
  }

  /** The cross product. */
  function Cross(u: Vec3, v: Vec3): Vec3 {
    Vec3(u.y * v.z - u.z * v.y,
         u.z * v.x - u.x * v.z,
         u.x * v.y - u.y * v.x)
  }

  /** The cross product is orthogonal to both of its arguments. */
  lemma CrossOrthogonal(u: Vec3, v: Vec3)
    ensures Dot(Cross(u, v), u) == 0.0 && Dot(Cross(u, v), v) == 0.0
  {
  }

  function Abs(a: real): real {
    if a < 0.0 then -a else a
  }

  /** Threshold of `near_zero`. */
  const NearZeroEps: real := 0.00000001

  /** True when every component is within 1e-8 of zero. */
  predicate NearZero(v: Vec3) {
    Abs(v.x) < NearZeroEps && Abs(v.y) < NearZeroEps && Abs(v.z) < NearZeroEps
  }

  /** Mirror reflection of v about a unit normal n. */
  function Reflect(v: Vec3, n: Vec3): (r: Vec3)
    ensures Dot(n, n) == 1.0 ==> Dot(r, n) == -Dot(v, n)
  {
    var k := Dot(v, n);
    assert Dot(Sub(v, Scale(2.0 * k, n)), n) == k - 2.0 * k * Dot(n, n);
    Sub(v, Scale(2.0 * k, n))
  }

  /**
   * `unit_vector(v) = v / v.length()`, with the length taken from a square-root
   * oracle. For a zero length the source divides by zero and yields NaN
   * components; the model returns v unchanged there.
   */
  function UnitVector(v: Vec3, sqrt: real -> real): Vec3 {
    var len := sqrt(LengthSquared(v));
    if len == 0.0 then v else Div(v, len)
  }

  /** The dot product is symmetric. */
  lemma DotSymmetric(u: Vec3, v: Vec3)
    ensures Dot(u, v) == Dot(v, u)
  {
  }

  /** Swapping the arguments of the cross product negates it. */
  lemma CrossAntiSymmetric(u: Vec3, v: Vec3)
    ensures Cross(u, v) == Neg(Cross(v, u))
  {
  }

  /** Reflecting twice about the same unit normal gives back the vector. */
  lemma ReflectTwice(v: Vec3, n: Vec3)
    requires Dot(n, n) == 1.0
    ensures Reflect(Reflect(v, n), n) == v
  {
    var r := Reflect(v, n);
    assert Dot(r, n) == -Dot(v, n);
    assert Reflect(r, n) == Sub(r, Scale(2.0 * Dot(r, n), n));
  }

  /** A near-zero vector has a tiny squared length, and a vector of tiny
      squared length is near zero. */
  lemma NearZeroBounds(v: Vec3)
    ensures NearZero(v) ==> LengthSquared(v) < 3.0 * NearZeroEps * NearZeroEps
    ensures LengthSquared(v) < NearZeroEps * NearZeroEps ==> NearZero(v)
  {
    if NearZero(v) {
      SquareBelow(v.x, NearZeroEps);
      SquareBelow(v.y, NearZeroEps);
      SquareBelow(v.z, NearZeroEps);
    }
    if LengthSquared(v) < NearZeroEps * NearZeroEps {
      SquareNonNegative(v.x);
      SquareNonNegative(v.y);
      SquareNonNegative(v.z);
      SquareAbove(v.x, NearZeroEps);
      SquareAbove(v.y, NearZeroEps);
      SquareAbove(v.z, NearZeroEps);
    }
  }

  lemma SquareBelow(a: real, e: real)
    requires 0.0 < e && Abs(a) < e
    ensures a * a < e * e
  {
    AbsSquare(a);
    SquareLess(Abs(a), e);
  }

  lemma SquareAbove(a: real, e: real)
    requires 0.0 < e && a * a < e * e
    ensures Abs(a) < e
  {
    var b := Abs(a);
    AbsSquare(a);
    if b >= e {
      MulMonotone(e, b, b);
      MulMonotone(e, b, e);
    }
  }

  lemma AbsSquare(a: real)
    ensures Abs(a) * Abs(a) == a * a
  {
    if a < 0.0 {
      assert Abs(a) * Abs(a) == (-a) * (-a);
    }
  }

  /** Given a genuine square root, the normalised vector of a non-zero vector
      has unit squared length and every component in [-1, 1]. */
  lemma UnitVectorIsUnit(v: Vec3, sqrt: real -> real)
    requires IsSqrt(sqrt)
    requires LengthSquared(v) > 0.0
    ensures LengthSquared(UnitVector(v, sqrt)) == 1.0
    ensures -1.0 <= UnitVector(v, sqrt).y <= 1.0
  {
    var l2 := LengthSquared(v);
    var len := sqrt(l2);
    assert 0.0 <= len && len * len == l2;
    assert len != 0.0;
    var k := 1.0 / len;
    var u := UnitVector(v, sqrt);
    assert u == Scale(k, v);
    assert LengthSquared(u) == k * k * l2;
    assert k * k * (len * len) == (k * len) * (k * len);
    SquareNonNegative(u.x);
    SquareNonNegative(u.z);
    AbsBelowRoot(u.y, 1.0);
  }

  /**
   * The storage of a vec3 that the compound assignments update in place
   * (`std::array<double, 3> data`).
   */
  class Vec3Cell {
    var data: array<real>

    ghost predicate Valid()
      reads this
    {
      data.Length == 3
    }

    /** The vector currently held. */
    function Value(): Vec3
      reads this, data
      requires Valid()
    {
      Vec3(data[0], data[1], data[2])
    }

    constructor (v: Vec3)
      ensures Valid() && fresh(data)
      ensures Value() == v
    {
      data := new real[3][v.x, v.y, v.z];
    }

    /** `operator+=`. */
    method AddAssign(v: Vec3)
      requires Valid()
      modifies data
      ensures Valid()
      ensures Value() == Add(old(Value()), v)
    {
      data[0] := data[0] + v.x;
      data[1] := data[1] + v.y;
      data[2] := data[2] + v.z;
    }

    /** `operator*=`. */
    method MulAssign(t: real)
      requires Valid()
      modifies data
      ensures Valid()
      ensures Value() == Scale(t, old(Value()))
    {
      data[0] := data[0] * t;
      data[1] := data[1] * t;
      data[2] := data[2] * t;
    }

    /** `operator/=`, defined by the source as `*= 1/t`. */
    method DivAssign(t: real)
      requires Valid()
      requires t != 0.0
      modifies data
      ensures Valid()
      ensures Value() == Div(old(Value()), t)
    {
      MulAssign(1.0 / t);
    }
  }
}
