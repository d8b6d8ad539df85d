/**
 * Intervals of the extended real line (interval.h). The bounds are stored as
 * given; an interval whose minimum exceeds its maximum is empty.
 */
module Intervals {
  import opened Numbers

  datatype Interval = Interval(min: Ext, max: Ext) {

    /** Closed membership: `min <= x && x <= max`. */
    predicate Contains(x: real) {
      min.Le(Fin(x)) && Fin(x).Le(max)
    }

    /** Open membership: `min < x && x < max`. */
    predicate Surrounds(x: real) {
      min.Lt(Fin(x)) && Fin(x).Lt(max)
    }

    /** `max - min` is defined unless both bounds are the same infinity. */
    predicate HasSize() {
      !(min == max && !min.Fin?)
    }

    /** `size()`: max - min. */
    function Size(): (s: Ext)
      requires HasSize()
      ensures s.Fin? <==> min.Fin? && max.Fin?
      ensures s.Fin? ==> s.v == max.v - min.v
      ensures Fin(0.0).Le(s) <==> min.Le(max)
    {
      Minus(max, min)
    }
  }

  /** `interval::empty()`: +inf to -inf. */
  const Empty := Interval(PosInf, NegInf)

  /** `interval::universe()`: -inf to +inf. */
  const Universe := Interval(NegInf, PosInf)

  /** (0.001, +inf): the interval a scene is searched over for the next
      bounce, skipping hits at the ray's own origin. */
  const Forward := Interval(Fin(0.001), PosInf)

  /** The default constructor. */
  function Default(): (i: Interval)
    ensures i.min == PosInf && i.max == NegInf
    ensures forall x: real :: !i.Contains(x)
  {
    Interval(PosInf, NegInf)
  }

  /** The two-argument constructor `interval(min, max)`: bounds kept as given. */
  function Make(lo: Ext, hi: Ext): (i: Interval)
    ensures i.min == lo && i.max == hi
  {
    Interval(lo, hi)
  }

  /** The empty interval contains and surrounds no real number. */
  lemma EmptyHoldsNothing(x: real)
    ensures !Empty.Contains(x) && !Empty.Surrounds(x)
    ensures Default() == Empty
  {
  }

  /** The universe contains and surrounds every real number. */
  lemma UniverseHoldsEverything(x: real)
    ensures Universe.Contains(x) && Universe.Surrounds(x)
  {
  }

  /** `surrounds` is the open and `contains` the closed membership: the first
      implies the second, and a finite endpoint is contained but not
      surrounded. */
  lemma OpenWithinClosed(i: Interval, x: real)
    ensures i.Surrounds(x) ==> i.Contains(x)
    ensures i.min == Fin(x) && i.min.Le(i.max) ==> i.Contains(x) && !i.Surrounds(x)
    ensures i.max == Fin(x) && i.min.Le(i.max) ==> i.Contains(x) && !i.Surrounds(x)
  {
  }

  /** An interval contains something exactly when its minimum does not exceed
      its maximum and it is not one infinity repeated. */
  lemma ContainsSomethingIff(i: Interval)
    ensures (exists x: real :: i.Contains(x)) <==> i.min.Le(i.max) && i.HasSize()
  {
    if i.min.Le(i.max) && i.HasSize() {
      var x: real := if i.min.Fin? then i.min.v else if i.max.Fin? then i.max.v else 0.0;
      assert i.Contains(x);
    }
  }
}
