/**
 * Axis-aligned bounding boxes (aabb.h): one interval per axis, the three
 * constructors, the ray-slab test and the longest-axis query.
 */
module Boxes {
  import opened Numbers
  import opened Vectors
  import opened Rays
  import opened Intervals

  datatype Aabb = Aabb(x: Interval, y: Interval, z: Interval) {

    /** `axis_interval(n)`: the stored interval of axis n. */
    function AxisInterval(n: nat): Interval
      requires n < 3
    {
      if n == 0 then x else if n == 1 then y else z
    }

    /** The box holds point p (closed on every face). */
    predicate ContainsPoint(p: Vec3) {
      x.Contains(p.x) && y.Contains(p.y) && z.Contains(p.z)
    }

    /** Every axis interval has min <= max. */
    predicate WellFormed() {
      x.min.Le(x.max) && y.min.Le(y.max) && z.min.Le(z.max)
    }
  }

  /** Interval i lies inside interval j, bound by bound. */
  predicate IntervalWithin(i: Interval, j: Interval) {
    j.min.Le(i.min) && i.max.Le(j.max)
  }

  /** Box a lies inside box b, axis by axis. */
  predicate Within(a: Aabb, b: Aabb) {
    IntervalWithin(a.x, b.x) && IntervalWithin(a.y, b.y) && IntervalWithin(a.z, b.z)
  }

  /** `aabb::empty`: the zero-size box at the origin (not an empty box). */
  const ZeroBox := Aabb(Interval(Fin(0.0), Fin(0.0)), Interval(Fin(0.0), Fin(0.0)), Interval(Fin(0.0), Fin(0.0)))

  /** `aabb::universe`. */
  const UniverseBox := Aabb(Universe, Universe, Universe)

  /** One axis of the two-point constructor: from the smaller to the larger
      coordinate. */
  function Span(a: real, b: real): (i: Interval)
    ensures i.min.Le(i.max)
    ensures i.Contains(a) && i.Contains(b)
    ensures (i.min == Fin(a) || i.min == Fin(b)) && (i.max == Fin(a) || i.max == Fin(b))
  {
    Interval(Min(Fin(a), Fin(b)), Max(Fin(a), Fin(b)))
  }

  /** `aabb(a, b)`: the smallest box holding both points. */
  function FromPoints(a: Vec3, b: Vec3): (box: Aabb)
    ensures box.WellFormed()
    ensures box.ContainsPoint(a) && box.ContainsPoint(b)
    ensures forall c: Aabb :: c.ContainsPoint(a) && c.ContainsPoint(b) ==> Within(box, c)
  {
    Aabb(Span(a.x, b.x), Span(a.y, b.y), Span(a.z, b.z))
  }

  /** One axis of the two-box constructor. */
  function Hull(i: Interval, j: Interval): (h: Interval)
    ensures IntervalWithin(i, h) && IntervalWithin(j, h)
    ensures forall k: Interval {:trigger IntervalWithin(h, k)} :: IntervalWithin(i, k) && IntervalWithin(j, k) ==> IntervalWithin(h, k)
  {
    Interval(Min(i.min, j.min), Max(i.max, j.max))
  }

  /** `aabb(box0, box1)`: the smallest box holding both boxes. */
  function Union(a: Aabb, b: Aabb): (box: Aabb)
    ensures Within(a, box) && Within(b, box)
    ensures forall c: Aabb {:trigger Within(box, c)} :: Within(a, c) && Within(b, c) ==> Within(box, c)
  {
    Aabb(Hull(a.x, b.x), Hull(a.y, b.y), Hull(a.z, b.z))
  }

  /** The loop of the two-point constructor, one axis per iteration. */
  method PointsBox(a: Vec3, b: Vec3) returns (box: Aabb)
    ensures box == FromPoints(a, b)
  {
    var intervals := new Interval[3];
    for i := 0 to 3
      invariant forall k :: 0 <= k < i ==> intervals[k] == Span(a.At(k), b.At(k))
    {
      intervals[i] := Span(a.At(i), b.At(i));
    }
    box := Aabb(intervals[0], intervals[1], intervals[2]);
  }

  /** The loop of the two-box constructor, one axis per iteration. */
  method UnionBox(a: Aabb, b: Aabb) returns (box: Aabb)
    ensures box == Union(a, b)
  {
    var intervals := new Interval[3];
    for i := 0 to 3
      invariant forall k :: 0 <= k < i ==> intervals[k] == Hull(a.AxisInterval(k), b.AxisInterval(k))
    {
      intervals[i] := Hull(a.AxisInterval(i), b.AxisInterval(i));
    }
    box := Aabb(intervals[0], intervals[1], intervals[2]);
  }

  /** The union does not depend on the order of its arguments and adds
      nothing to a box united with itself. */
  lemma UnionCommutativeIdempotent(a: Aabb, b: Aabb)
    ensures Union(a, b) == Union(b, a)
    ensures Union(a, a) == a
  {
  }

  /** Uniting well-formed boxes gives a well-formed box. */
  lemma UnionWellFormed(a: Aabb, b: Aabb)
    requires a.WellFormed() || b.WellFormed()
    ensures Union(a, b).WellFormed()
  {
  }

  /** A box united with `aabb::empty` always holds the origin. */
  lemma ZeroBoxHoldsOrigin(b: Aabb)
    ensures Union(ZeroBox, b).ContainsPoint(Zero)
    ensures Union(b, ZeroBox).ContainsPoint(Zero)
    ensures ZeroBox.ContainsPoint(Zero) && ZeroBox.WellFormed()
  {
  }

  /** The universe box holds every point. */
  lemma UniverseBoxHoldsAll(p: Vec3)
    ensures UniverseBox.ContainsPoint(p)
  {
  }

  // ---------------------------------------------------------------- slab test

  /** The slab parameter `(bound - o) * (1 / d)` is a number: it is NaN
      (0 * inf) only when the direction component is zero and the origin lies
      on the bound. */
  predicate Defined(bound: Ext, o: real, d: real) {
    !(d == 0.0 && bound == Fin(o))
  }

  /**
   * `(bound - o) * adinv` with `adinv = 1 / d`. A zero component gives
   * adinv = +inf; with -0 it would be -inf, which changes the two parameters
   * of an axis only by swapping them and so not the outcome of the test.
   */
  function SlabT(bound: Ext, o: real, d: real): Ext
    requires Defined(bound, o, d)
  {
    match bound
    case Fin(b) =>
      if d != 0.0 then Fin((b - o) * (1.0 / d))
      else if o < b then PosInf else NegInf
    case PosInf => if d < 0.0 then NegInf else PosInf
    case NegInf => if d < 0.0 then PosInf else NegInf
  }

  predicate AxisDefined(box: Aabb, r: Ray, axis: nat)
    requires axis < 3
  {
    var o, d := r.orig.At(axis), r.dir.At(axis);
    Defined(box.AxisInterval(axis).min, o, d) && Defined(box.AxisInterval(axis).max, o, d)
  }

  /** No slab parameter of the test is NaN. */
  predicate NoNaN(box: Aabb, r: Ray) {
    AxisDefined(box, r, 0) && AxisDefined(box, r, 1) && AxisDefined(box, r, 2)
  }

  /** One iteration of the slab loop: the working interval clipped to the
      parameters at which the ray is between the two faces of one axis. The
      two slab parameters are ordered by value (`t0`, `t1`), which is what the
      `std::minmax` call is meant to produce. */
  function Clip(box: Aabb, r: Ray, rayT: Interval, axis: nat): (clipped: Interval)
    requires axis < 3 && AxisDefined(box, r, axis)
    ensures IntervalWithin(clipped, rayT)
  {
    var ax := box.AxisInterval(axis);
    var o, d := r.orig.At(axis), r.dir.At(axis);
    var a0, a1 := SlabT(ax.min, o, d), SlabT(ax.max, o, d);
    var t0, t1 := Min(a0, a1), Max(a0, a1);
    Interval(Max(t0, rayT.min), Min(t1, rayT.max))
  }

  /** The early exit: as written `max <= min`; the inclusive variant
      `max < min` keeps a single-point interval. */
  predicate Rejects(rayT: Interval, inclusive: bool) {
    if inclusive then rayT.max.Lt(rayT.min) else rayT.max.Le(rayT.min)
  }

  /** The slab test from the given axis on. */
  function SlabFrom(box: Aabb, r: Ray, rayT: Interval, inclusive: bool, axis: nat): bool
    requires axis <= 3 && NoNaN(box, r)
    decreases 3 - axis
  {
    if axis == 3 then true
    else
      var clipped := Clip(box, r, rayT, axis);
      if Rejects(clipped, inclusive) then false
      else SlabFrom(box, r, clipped, inclusive, axis + 1)
  }

  /** The outcome of `aabb::hit` (with `inclusive` false) or of its inclusive
      variant. */
  predicate Slab(box: Aabb, r: Ray, rayT: Interval, inclusive: bool)
    requires NoNaN(box, r)
  {
    SlabFrom(box, r, rayT, inclusive, 0)
  }

  /** `aabb::hit`: narrows a copy of `ray_t` axis by axis and fails as soon as
      it becomes empty or a single point. */
  method Hit(box: Aabb, r: Ray, rayT: Interval) returns (hit: bool)
    requires NoNaN(box, r)
    ensures hit == Slab(box, r, rayT, false)
  {
    var t := rayT;
    for axis := 0 to 3
      invariant SlabFrom(box, r, t, false, axis) == Slab(box, r, rayT, false)
    {
      t := Clip(box, r, t, axis);
      if t.max.Le(t.min) {
        return false;
      }
    }
    return true;
  }

  /** With a zero direction component, an origin strictly between the faces
      leaves the interval as it is, and an origin outside them empties it. */
  lemma ZeroDirectionAxis(box: Aabb, r: Ray, rayT: Interval, axis: nat)
    requires axis < 3 && AxisDefined(box, r, axis)
    requires r.dir.At(axis) == 0.0
    ensures box.AxisInterval(axis).Surrounds(r.orig.At(axis)) ==> Clip(box, r, rayT, axis) == rayT
    ensures box.AxisInterval(axis).min.Le(box.AxisInterval(axis).max) && !box.AxisInterval(axis).Contains(r.orig.At(axis))
      ==> Rejects(Clip(box, r, rayT, axis), false)
  {
  }

  /** The slab parameter grows with the bound for d >= 0 and shrinks with it
      for d < 0. */
  lemma SlabTMonotone(b1: Ext, b2: Ext, o: real, d: real)
    requires b1.Le(b2) && Defined(b1, o, d) && Defined(b2, o, d)
    ensures 0.0 <= d ==> SlabT(b1, o, d).Le(SlabT(b2, o, d))
    ensures d < 0.0 ==> SlabT(b2, o, d).Le(SlabT(b1, o, d))
  {
    if b1.Fin? && b2.Fin? && d != 0.0 {
      if 0.0 < d {
        MulMonotone(b1.v - o, b2.v - o, 1.0 / d);
      } else {
        MulMonotone(b1.v - o, b2.v - o, -1.0 / d);
        assert (b1.v - o) * (-1.0 / d) == -((b1.v - o) * (1.0 / d));
        assert (b2.v - o) * (-1.0 / d) == -((b2.v - o) * (1.0 / d));
      }
    }
  }

  /** Clipping against a larger well-formed slab, starting from a larger
      interval, gives a larger interval. */
  lemma ClipMonotone(small: Aabb, big: Aabb, r: Ray, i: Interval, j: Interval, axis: nat)
    requires axis < 3 && AxisDefined(small, r, axis) && AxisDefined(big, r, axis)
    requires small.WellFormed() && Within(small, big) && IntervalWithin(i, j)
    ensures IntervalWithin(Clip(small, r, i, axis), Clip(big, r, j, axis))
  {
    var s, b := small.AxisInterval(axis), big.AxisInterval(axis);
    var o, d := r.orig.At(axis), r.dir.At(axis);
    assert IntervalWithin(s, b);
    SlabTMonotone(b.min, s.min, o, d);
    SlabTMonotone(s.min, s.max, o, d);
    SlabTMonotone(s.max, b.max, o, d);
  }

  /** The slab test accepts for a larger box whenever it accepts for a smaller
      well-formed box inside it. */
  lemma {:induction false} SlabMonotone(small: Aabb, big: Aabb, r: Ray, i: Interval, j: Interval, inclusive: bool, axis: nat)
    requires axis <= 3 && NoNaN(small, r) && NoNaN(big, r)
    requires small.WellFormed() && Within(small, big) && IntervalWithin(i, j)
    requires SlabFrom(small, r, i, inclusive, axis)
    ensures SlabFrom(big, r, j, inclusive, axis)
    decreases 3 - axis
  {
    if axis < 3 {
      ClipMonotone(small, big, r, i, j, axis);
      SlabMonotone(small, big, r, Clip(small, r, i, axis), Clip(big, r, j, axis), inclusive, axis + 1);
    }
  }

  /** A bound below the point at parameter t gives a slab parameter on the
      matching side of t. */
  lemma SlabTBelow(lo: Ext, o: real, d: real, t: real)
    requires Defined(lo, o, d) && lo.Le(Fin(o + t * d))
    ensures 0.0 <= d ==> SlabT(lo, o, d).Le(Fin(t))
    ensures d < 0.0 ==> Fin(t).Le(SlabT(lo, o, d))
  {
    if lo.Fin? && d != 0.0 {
      var k := 1.0 / d;
      assert d * k == 1.0;
      assert t * d * k == t * (d * k);
      if 0.0 < d {
        MulMonotone(lo.v - o, t * d, k);
      } else {
        MulMonotone(lo.v - o, t * d, -k);
        assert (lo.v - o) * (-k) == -((lo.v - o) * k);
        assert (t * d) * (-k) == -(t * d * k);
      }
    }
  }

  /** A bound above the point at parameter t gives a slab parameter on the
      matching side of t. */
  lemma SlabTAbove(hi: Ext, o: real, d: real, t: real)
    requires Defined(hi, o, d) && Fin(o + t * d).Le(hi)
    ensures 0.0 <= d ==> Fin(t).Le(SlabT(hi, o, d))
    ensures d < 0.0 ==> SlabT(hi, o, d).Le(Fin(t))
  {
    if hi.Fin? && d != 0.0 {
      var k := 1.0 / d;
      assert d * k == 1.0;
      assert t * d * k == t * (d * k);
      if 0.0 < d {
        MulMonotone(t * d, hi.v - o, k);
      } else {
        MulMonotone(t * d, hi.v - o, -k);
        assert (hi.v - o) * (-k) == -((hi.v - o) * k);
        assert (t * d) * (-k) == -(t * d * k);
      }
    }
  }

  /** Clipping keeps every parameter at which the ray is inside the slab. */
  lemma ClipKeepsPoint(box: Aabb, r: Ray, rayT: Interval, axis: nat, t: real)
    requires axis < 3 && AxisDefined(box, r, axis)
    requires rayT.Contains(t) && box.AxisInterval(axis).Contains(r.PointAt(t).At(axis))
    ensures Clip(box, r, rayT, axis).Contains(t)
  {
    var ax := box.AxisInterval(axis);
    var o, d := r.orig.At(axis), r.dir.At(axis);
    assert r.PointAt(t).At(axis) == o + t * d;
    SlabTBelow(ax.min, o, d, t);
    SlabTAbove(ax.max, o, d, t);
  }

  /** The inclusive slab test accepts whenever the ray is inside the closed box
      at a parameter of the interval. */
  lemma {:induction false} InclusiveSlabSound(box: Aabb, r: Ray, rayT: Interval, t: real, axis: nat)
    requires axis <= 3 && NoNaN(box, r)
    requires rayT.Contains(t) && box.ContainsPoint(r.PointAt(t))
    ensures SlabFrom(box, r, rayT, true, axis)
    decreases 3 - axis
  {
    if axis < 3 {
      ClipKeepsPoint(box, r, rayT, axis, t);
      InclusiveSlabSound(box, r, Clip(box, r, rayT, axis), t, axis + 1);
    }
  }

  /** The zero-thickness box [0,1] x [0,1] x [0,0]. */
  const ThinBox := Aabb(Interval(Fin(0.0), Fin(1.0)), Interval(Fin(0.0), Fin(1.0)), Interval(Fin(0.0), Fin(0.0)))

  /** The ray from (0.25, 0.25, 1) along (0, 0, -1). */
  const DownRay := Ray(Vec3(0.25, 0.25, 1.0), Vec3(0.0, 0.0, -1.0), 0.0)

  /** Along x and y the ray runs parallel to the faces and strictly between
      them, so clipping keeps the interval. */
  lemma ThinBoxSides(rayT: Interval)
    ensures NoNaN(ThinBox, DownRay)
    ensures Clip(ThinBox, DownRay, rayT, 0) == rayT && Clip(ThinBox, DownRay, rayT, 1) == rayT
  {
    assert SlabT(Fin(0.0), 0.25, 0.0) == NegInf && SlabT(Fin(1.0), 0.25, 0.0) == PosInf;
  }

  /** Along z both faces are met at t = 1, so (0.001, +inf) shrinks to [1, 1]. */
  lemma ThinBoxFloor()
    ensures NoNaN(ThinBox, DownRay)
    ensures Clip(ThinBox, DownRay, Forward, 2) == Interval(Fin(1.0), Fin(1.0))
  {
    assert SlabT(Fin(0.0), 1.0, -1.0) == Fin(1.0);
  }

  /** The test as written rejects a ray that meets a zero-thickness box in a
      single point, which the inclusive test accepts: the downward ray is in
      the thin box at t = 1, inside (0.001, +inf). */
  lemma StrictSlabMissesFlatBox()
    ensures NoNaN(ThinBox, DownRay)
    ensures ThinBox.ContainsPoint(DownRay.PointAt(1.0)) && Forward.Surrounds(1.0)
    ensures !Slab(ThinBox, DownRay, Forward, false) && Slab(ThinBox, DownRay, Forward, true)
  {
    ThinBoxSides(Forward);
    ThinBoxFloor();
    assert DownRay.PointAt(1.0) == Vec3(0.25, 0.25, 0.0);
    var floor := Interval(Fin(1.0), Fin(1.0));
    assert SlabFrom(ThinBox, DownRay, floor, true, 3);
    assert !SlabFrom(ThinBox, DownRay, Forward, false, 2) && SlabFrom(ThinBox, DownRay, Forward, true, 2);
  }

  // ------------------------------------------------------------ longest axis

  /** Every axis extent `max - min` is defined. */
  predicate SizesDefined(box: Aabb) {
    box.x.HasSize() && box.y.HasSize() && box.z.HasSize()
  }

  /** The axis of greatest extent; on a tie the lower axis wins. */
  function LongestOf(box: Aabb): (n: nat)
    requires SizesDefined(box)
    ensures n < 3
    ensures forall k: nat :: k < 3 ==> box.AxisInterval(k).Size().Le(box.AxisInterval(n).Size())
    ensures forall k: nat :: k < n ==> box.AxisInterval(k).Size().Lt(box.AxisInterval(n).Size())
  {
    var sx, sy, sz := box.x.Size(), box.y.Size(), box.z.Size();
    if sx.Lt(sy) then (if sy.Lt(sz) then 2 else 1)
    else if sx.Lt(sz) then 2 else 0
  }

  /** `longest_axis`: keeps the first axis whose extent is strictly greater
      than that of the best so far. */
  method LongestAxis(box: Aabb) returns (longest: nat)
    requires SizesDefined(box)
    ensures longest == LongestOf(box)
  {
    longest := 0;
    for i := 1 to 3
      invariant longest < i
      invariant forall k: nat :: k < i ==> box.AxisInterval(k).Size().Le(box.AxisInterval(longest).Size())
      invariant forall k: nat :: k < longest ==> box.AxisInterval(k).Size().Lt(box.AxisInterval(longest).Size())
    {
      if box.AxisInterval(longest).Size().Lt(box.AxisInterval(i).Size()) {
        longest := i;
      }
    }
  }
}
