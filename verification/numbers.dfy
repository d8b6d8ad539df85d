/**
 * Numeric foundations of the renderer model.
 *
 * The renderer computes in IEEE doubles. The model computes in exact reals and
 * adds the two infinities explicitly (`Ext`), because the interval and slab code
 * relies on +inf and -inf. NaN is not a value of the model. Where the renderer
 * would produce one, either a precondition excludes the case (the slab test's
 * 0 * inf, inf - inf in an interval's size) or the model gives the case an
 * explicit outcome: `UnitVector` leaves the zero vector unchanged, and the
 * sphere test reports a miss for a zero direction.
 *
 * Square roots come from an oracle `sqrt: real -> real`; the only facts used
 * about it are those of `IsSqrt`.
 */
module Numbers {

  /** An extended real: a finite value or one of the two infinities. */
  datatype Ext = NegInf | Fin(v: real) | PosInf {

    /** `this <= b` in the extended order. */
    predicate Le(b: Ext) {
      NegInf? || b.PosInf? || (Fin? && b.Fin? && v <= b.v)
    }

    /** `this < b` in the extended order. */
    predicate Lt(b: Ext) {
      !b.Le(this)
    }
  }

  /** `std::max` of two extended reals. */
  function Max(a: Ext, b: Ext): (r: Ext)
    ensures a.Le(r) && b.Le(r)
    ensures r == a || r == b
  {
    if a.Lt(b) then b else a
  }

  /** `std::min` of two extended reals. */
  function Min(a: Ext, b: Ext): (r: Ext)
    ensures r.Le(a) && r.Le(b)
    ensures r == a || r == b
  {
    if b.Lt(a) then b else a
  }

  /** The IEEE difference `a - b`; inf - inf (NaN) is excluded. */
  function Minus(a: Ext, b: Ext): (r: Ext)
    requires !(a == b && !a.Fin?)
    ensures r.Fin? <==> a.Fin? && b.Fin?
    ensures Fin(0.0).Le(r) <==> b.Le(a)
  {
    match (a, b)
    case (Fin(x), Fin(y)) => Fin(x - y)
    case (PosInf, _) => PosInf
    case (_, NegInf) => PosInf
    case (NegInf, _) => NegInf
    case (_, PosInf) => NegInf
  }

  /** The facts about a square-root oracle that the model relies on. */
  ghost predicate IsSqrt(sqrt: real -> real) {
    forall x: real {:trigger sqrt(x)} :: 0.0 <= x ==> 0.0 <= sqrt(x) && sqrt(x) * sqrt(x) == x
  }

  /** C++ `(int)` of a double: truncation toward zero. */
  function Trunc(x: real): (n: int)
    ensures 0.0 <= x ==> n as real <= x < n as real + 1.0
    ensures x < 0.0 ==> n as real - 1.0 < x <= n as real
  {
    if 0.0 <= x then x.Floor else -((-x).Floor)
  }

  /** `std::clamp(n, lo, hi)`. */
  function Clamp(n: int, lo: int, hi: int): (r: int)
    requires lo <= hi
    ensures lo <= r <= hi
    ensures lo <= n <= hi ==> r == n
  {
    if n < lo then lo else if hi < n then hi else n
  }

  /** Truncation never reverses the order of its arguments. */
  lemma TruncMonotone(x: real, y: real)
    requires x <= y
    ensures Trunc(x) <= Trunc(y)
  {
  }

  /** A non-negative value is bounded by the square root of a larger square. */
  lemma AbsBelowRoot(y: real, s: real)
    requires 0.0 <= s && y * y <= s * s
    ensures -s <= y <= s
  {
    if y > s {
      MulPositive(y - s, y + s);
    } else if y < -s {
      MulPositive(s - y, -s - y);
    }
  }

  /** The product of two positive reals is positive. */
  lemma MulPositive(a: real, b: real)
    requires 0.0 < a && 0.0 < b
    ensures 0.0 < a * b
  {
  }

  /** The product of two non-negative reals is non-negative. */
  lemma MulNonNegative(a: real, b: real)
    requires 0.0 <= a && 0.0 <= b
    ensures 0.0 <= a * b
  {
    if a != 0.0 && b != 0.0 {
      MulPositive(a, b);
    }
  }

  /** Multiplying by a non-negative factor preserves order. */
  lemma MulMonotone(a: real, b: real, c: real)
    requires a <= b && 0.0 <= c
    ensures a * c <= b * c
  {
    assert b * c - a * c == (b - a) * c;
  }

  /** Multiplying by a positive factor preserves strict order. */
  lemma MulStrict(a: real, b: real, c: real)
    requires a < b && 0.0 < c
    ensures a * c < b * c
  {
    assert b * c - a * c == (b - a) * c;
    MulPositive(b - a, c);
  }

  /** Squaring is strictly increasing on the non-negative reals. */
  lemma SquareLess(b: real, e: real)
    requires 0.0 <= b < e
    ensures b * b < e * e
  {
    MulPositive(e - b, e + b);
    assert e * e - b * b == (e - b) * (e + b);
  }

  /** A non-zero factor can be cancelled from both sides of an equation. */
  lemma MulCancel(a: real, x: real, y: real)
    requires a != 0.0 && a * x == a * y
    ensures x == y
  {
    var k := 1.0 / a;
    assert a * k == 1.0;
    assert x == k * (a * x);
    assert y == k * (a * y);
  }

  /** Squares are non-negative. */
  lemma SquareNonNegative(a: real)
    ensures 0.0 <= a * a
  {
    if a < 0.0 {
      MulPositive(-a, -a);
    }
  }

  /** Distributing a factor over a sum of three. */
  lemma Distribute(k: real, s: real, a: real, b: real, c: real)
    requires s == a + b + c
    ensures k * s == k * a + k * b + k * c
  {
  }

  /** The square of t d - o, expanded. */
  lemma SquareAlong(t: real, d: real, o: real)
    ensures (t * d - o) * (t * d - o) == t * t * (d * d) - 2.0 * t * (d * o) + o * o
  {
  }
}
