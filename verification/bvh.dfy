/**
 * The bounding volume hierarchy (bvh.h).
 *
 * Scene objects are abstract: an object type T comes with `boxOf`, its
 * bounding box, and `hitOf`, its hit query returning the nearest ray parameter
 * inside an open interval. A child of a node is either an object (`Leaf`) or
 * another node. A node built over a single object points both children at
 * that object; it is kept as its own case, `Twin`.
 */
module Bvh {
  import opened Numbers
  import opened Vectors
  import opened Rays
  import opened Intervals
  import opened Boxes
  import opened Hits

  datatype Tree<T> =
    | Leaf(obj: T)
    | Twin(obj: T, bbox: Aabb)
    | Node(left: Tree<T>, right: Tree<T>, bbox: Aabb)

  /** `bounding_box()` of a child: the object's box, or the node's stored box. */
  function BoxOf<T>(tree: Tree<T>, boxOf: T -> Aabb): Aabb {
    match tree
    case Leaf(o) => boxOf(o)
    case Twin(_, bbox) => bbox
    case Node(_, _, bbox) => bbox
  }

  /** The objects under a tree, left to right, each leaf once. */
  function Objects<T>(tree: Tree<T>): seq<T> {
    match tree
    case Leaf(o) => [o]
    case Twin(o, _) => [o]
    case Node(l, r, _) => Objects(l) + Objects(r)
  }

  /** Every node's box is the union of its children's boxes, as the last
      statement of the constructor sets it. */
  ghost predicate BoxesAreUnions<T>(tree: Tree<T>, boxOf: T -> Aabb) {
    match tree
    case Leaf(_) => true
    case Twin(o, bbox) => bbox == Union(boxOf(o), boxOf(o))
    case Node(l, r, bbox) =>
      bbox == Union(BoxOf(l, boxOf), BoxOf(r, boxOf)) && BoxesAreUnions(l, boxOf) && BoxesAreUnions(r, boxOf)
  }

  /** No slab parameter of any node box is NaN for this ray. */
  predicate TreeNoNaN<T>(tree: Tree<T>, r: Ray) {
    match tree
    case Leaf(_) => true
    case Twin(_, bbox) => NoNaN(bbox, r)
    case Node(left, right, bbox) => NoNaN(bbox, r) && TreeNoNaN(left, r) && TreeNoNaN(right, r)
  }

  /** The search interval for the right child: up to the left child's hit, or
      unchanged if the left child missed. */
  function Narrow(rayT: Interval, h: Option<real>): (j: Interval)
    ensures j.min == rayT.min
  {
    Interval(rayT.min, if h.Some? then Fin(h.value) else rayT.max)
  }

  /** `hit_left || hit_right` with the record of the later successful call. */
  function Nearer(hl: Option<real>, hr: Option<real>): (h: Option<real>)
    ensures h.Some? <==> hl.Some? || hr.Some?
  {
    if hr.Some? then hr else hl
  }

  /**
   * `bvh_node::hit`. A ray that fails the slab test of the node's box misses.
   * Otherwise the left child is searched over the interval and the right child
   * over the interval narrowed to the left child's hit. `inclusive` selects the
   * slab test: false is `aabb::hit` as written.
   */
  function NodeHit<T>(tree: Tree<T>, r: Ray, rayT: Interval, hitOf: (T, Ray, Interval) -> Option<real>,
                      inclusive: bool): Option<real>
    requires TreeNoNaN(tree, r)
  {
    match tree
    case Leaf(o) => hitOf(o, r, rayT)
    case Twin(o, bbox) =>
      if !Slab(bbox, r, rayT, inclusive) then None
      else
        var hl := hitOf(o, r, rayT);
        var hr := hitOf(o, r, Narrow(rayT, hl));
        Nearer(hl, hr)
    case Node(left, right, bbox) =>
      if !Slab(bbox, r, rayT, inclusive) then None
      else
        var hl := NodeHit(left, r, rayT, hitOf, inclusive);
        var hr := NodeHit(right, r, Narrow(rayT, hl), hitOf, inclusive);
        Nearer(hl, hr)
  }

  /**
   * The reference query: a linear scan over the objects, front to back, each
   * searched up to the closest hit so far, keeping the last hit found. This
   * is how a plain list of objects answers a hit query.
   */
  function Scan<T>(objs: seq<T>, r: Ray, rayT: Interval, hitOf: (T, Ray, Interval) -> Option<real>): Option<real> {
    if objs == [] then None
    else
      var h := hitOf(objs[0], r, rayT);
      Nearer(h, Scan(objs[1..], r, Narrow(rayT, h), hitOf))
  }

  /** The ray meets one of the objects at parameter t. `isHit(o, r, t)` is
      the object's own notion of being hit at t: the sphere's roots, the
      triangle's plane parameter. */
  ghost predicate HitsAny<T>(objs: seq<T>, r: Ray, isHit: (T, Ray, real) -> bool, t: real) {
    exists o :: o in objs && isHit(o, r, t)
  }

  /** h is the nearest hit of the objects strictly inside the interval, or
      None when the interval holds no hit of theirs. */
  ghost predicate NearestIn<T>(h: Option<real>, objs: seq<T>, r: Ray, rayT: Interval, isHit: (T, Ray, real) -> bool) {
    if h.Some? then
      && rayT.Surrounds(h.value) && HitsAny(objs, r, isHit, h.value)
      && forall s :: rayT.Surrounds(s) && HitsAny(objs, r, isHit, s) ==> h.value <= s
    else
      forall s :: rayT.Surrounds(s) ==> !HitsAny(objs, r, isHit, s)
  }

  /** What the hierarchy needs of an object for one ray: its box is well
      formed and free of NaN slab parameters, and for every interval its hit
      query answers its nearest hit inside the interval, passing the slab
      test of its box whenever it reports one. */
  ghost predicate Behaves<T>(o: T, r: Ray, hitOf: (T, Ray, Interval) -> Option<real>, isHit: (T, Ray, real) -> bool,
                             boxOf: T -> Aabb, inclusive: bool) {
    && boxOf(o).WellFormed() && NoNaN(boxOf(o), r)
    && forall rayT: Interval {:trigger hitOf(o, r, rayT)} ::
         && NearestIn(hitOf(o, r, rayT), [o], r, rayT, isHit)
         && (hitOf(o, r, rayT).Some? ==> Slab(boxOf(o), r, rayT, inclusive))
  }

  ghost predicate AllBehave<T>(objs: seq<T>, r: Ray, hitOf: (T, Ray, Interval) -> Option<real>,
                               isHit: (T, Ray, real) -> bool, boxOf: T -> Aabb, inclusive: bool) {
    forall o :: o in objs ==> Behaves(o, r, hitOf, isHit, boxOf, inclusive)
  }

  /** A hit of a concatenation is a hit of one of its parts. */
  lemma HitsAnyConcat<T>(a: seq<T>, b: seq<T>, r: Ray, isHit: (T, Ray, real) -> bool, t: real)
    ensures HitsAny(a + b, r, isHit, t) <==> HitsAny(a, r, isHit, t) || HitsAny(b, r, isHit, t)
  {
    if HitsAny(a + b, r, isHit, t) {
      var o :| o in a + b && isHit(o, r, t);
      assert o in a || o in b;
    }
    if HitsAny(a, r, isHit, t) {
      var o :| o in a && isHit(o, r, t);
      assert o in a + b;
    }
    if HitsAny(b, r, isHit, t) {
      var o :| o in b && isHit(o, r, t);
      assert o in a + b;
    }
  }

  /** The nearest hit is unique. */
  lemma NearestUnique<T>(h1: Option<real>, h2: Option<real>, objs: seq<T>, r: Ray, rayT: Interval,
                         isHit: (T, Ray, real) -> bool)
    requires NearestIn(h1, objs, r, rayT, isHit) && NearestIn(h2, objs, r, rayT, isHit)
    ensures h1 == h2
  {
  }

  /**
   * The step of `bvh_node::hit` and of the scan (bvh.h:60-63): the first part
   * is searched over the interval, the second up to the first part's hit, and
   * the later hit overwrites the earlier. If each search answers its part's
   * nearest hit, the outcome is the nearest hit of both parts, and the second
   * part's record replaces the first's only when it is strictly nearer, so a
   * tie keeps the first part's record.
   */
  lemma NearerOfNarrowed<T>(a: seq<T>, b: seq<T>, hl: Option<real>, hr: Option<real>, r: Ray, rayT: Interval,
                            isHit: (T, Ray, real) -> bool)
    requires NearestIn(hl, a, r, rayT, isHit) && NearestIn(hr, b, r, Narrow(rayT, hl), isHit)
    ensures NearestIn(Nearer(hl, hr), a + b, r, rayT, isHit)
    ensures hl.Some? && hr.Some? ==> hr.value < hl.value
  {
    var j := Narrow(rayT, hl);
    forall s | rayT.Surrounds(s)
      ensures HitsAny(a + b, r, isHit, s) <==> HitsAny(a, r, isHit, s) || HitsAny(b, r, isHit, s)
    {
      HitsAnyConcat(a, b, r, isHit, s);
    }
    if hl.None? {
      assert j == rayT;
    } else if hr.None? {
      forall s | rayT.Surrounds(s) && HitsAny(b, r, isHit, s) ensures hl.value <= s {
        assert !j.Surrounds(s);
      }
    } else {
      assert rayT.Surrounds(hr.value);
      forall s | rayT.Surrounds(s) && HitsAny(a, r, isHit, s) ensures hr.value <= s {
        assert hl.value <= s;
      }
      forall s | rayT.Surrounds(s) && HitsAny(b, r, isHit, s) ensures hr.value <= s {
        if s < hl.value {
          assert j.Surrounds(s);
        }
      }
    }
    if Nearer(hl, hr).Some? {
      HitsAnyConcat(a, b, r, isHit, Nearer(hl, hr).value);
    }
  }

  /** Searching an object again up to its own hit finds nothing. */
  lemma ResearchMisses<T>(o: T, r: Ray, rayT: Interval, hitOf: (T, Ray, Interval) -> Option<real>,
                          isHit: (T, Ray, real) -> bool, boxOf: T -> Aabb, inclusive: bool)
    requires Behaves(o, r, hitOf, isHit, boxOf, inclusive) && hitOf(o, r, rayT).Some?
    ensures hitOf(o, r, Narrow(rayT, hitOf(o, r, rayT))).None?
  {
    var hl := hitOf(o, r, rayT);
    var hr := hitOf(o, r, Narrow(rayT, hl));
    assert NearestIn(hl, [o], r, rayT, isHit);
    assert NearestIn(hr, [o], r, Narrow(rayT, hl), isHit);
    NearerOfNarrowed([o], [o], hl, hr, r, rayT, isHit);
  }

  /** Scanning a concatenation is scanning the first part, then the second
      part up to the first part's hit. */
  lemma {:induction false} ScanConcat<T>(a: seq<T>, b: seq<T>, r: Ray, rayT: Interval,
                                         hitOf: (T, Ray, Interval) -> Option<real>)
    ensures var ha := Scan(a, r, rayT, hitOf);
            Scan(a + b, r, rayT, hitOf) == Nearer(ha, Scan(b, r, Narrow(rayT, ha), hitOf))
  {
    if a == [] {
      assert a + b == b;
    } else {
      var h := hitOf(a[0], r, rayT);
      var j := Narrow(rayT, h);
      assert (a + b)[0] == a[0];
      assert (a + b)[1..] == a[1..] + b;
      ScanConcat(a[1..], b, r, j, hitOf);
    }
  }

  /** Every hit the scan reports lies strictly inside the interval and passes
      the slab test of the box of one of the objects. */
  lemma {:induction false} ScanWitness<T>(objs: seq<T>, r: Ray, rayT: Interval,
                                          hitOf: (T, Ray, Interval) -> Option<real>, isHit: (T, Ray, real) -> bool,
                                          boxOf: T -> Aabb, inclusive: bool)
    requires AllBehave(objs, r, hitOf, isHit, boxOf, inclusive)
    ensures var h := Scan(objs, r, rayT, hitOf);
            h.Some? ==> rayT.Surrounds(h.value)
                        && exists o :: o in objs && NoNaN(boxOf(o), r) && Slab(boxOf(o), r, rayT, inclusive)
  {
    if objs != [] {
      var o := objs[0];
      var h := hitOf(o, r, rayT);
      var j := Narrow(rayT, h);
      assert Behaves(o, r, hitOf, isHit, boxOf, inclusive);
      assert AllBehave(objs[1..], r, hitOf, isHit, boxOf, inclusive) by {
        forall x | x in objs[1..] ensures x in objs { }
      }
      ScanWitness(objs[1..], r, j, hitOf, isHit, boxOf, inclusive);
      var rest := Scan(objs[1..], r, j, hitOf);
      if rest.Some? {
        var x :| x in objs[1..] && NoNaN(boxOf(x), r) && Slab(boxOf(x), r, j, inclusive);
        assert IntervalWithin(j, rayT);
        assert Behaves(x, r, hitOf, isHit, boxOf, inclusive);
        SlabMonotone(boxOf(x), boxOf(x), r, j, rayT, inclusive, 0);
      } else if h.Some? {
        assert NearestIn(h, [o], r, rayT, isHit);
        assert NoNaN(boxOf(o), r) && Slab(boxOf(o), r, rayT, inclusive);
      }
    }
  }

  lemma WithinTransitive(a: Aabb, b: Aabb, c: Aabb)
    requires Within(a, b) && Within(b, c)
    ensures Within(a, c)
  {
  }

  /** Every object's box lies inside the box of a tree holding it. */
  lemma {:induction false} ObjectsInBox<T>(tree: Tree<T>, boxOf: T -> Aabb, o: T)
    requires BoxesAreUnions(tree, boxOf) && o in Objects(tree)
    ensures Within(boxOf(o), BoxOf(tree, boxOf))
  {
    match tree
    case Leaf(_) =>
    case Twin(_, _) =>
    case Node(l, r, bbox) =>
      if o in Objects(l) {
        ObjectsInBox(l, boxOf, o);
        WithinTransitive(boxOf(o), BoxOf(l, boxOf), bbox);
      } else {
        ObjectsInBox(r, boxOf, o);
        WithinTransitive(boxOf(o), BoxOf(r, boxOf), bbox);
      }
  }

  /** A ray that fails the slab test of a tree's box hits none of its objects
      when they are scanned one by one. */
  lemma ScanMissesOutsideBox<T>(tree: Tree<T>, r: Ray, rayT: Interval, hitOf: (T, Ray, Interval) -> Option<real>,
                                isHit: (T, Ray, real) -> bool, boxOf: T -> Aabb, inclusive: bool)
    requires BoxesAreUnions(tree, boxOf) && !tree.Leaf?
    requires NoNaN(tree.bbox, r) && AllBehave(Objects(tree), r, hitOf, isHit, boxOf, inclusive)
    requires !Slab(tree.bbox, r, rayT, inclusive)
    ensures Scan(Objects(tree), r, rayT, hitOf).None?
  {
    ScanWitness(Objects(tree), r, rayT, hitOf, isHit, boxOf, inclusive);
    if Scan(Objects(tree), r, rayT, hitOf).Some? {
      var o :| o in Objects(tree) && NoNaN(boxOf(o), r) && Slab(boxOf(o), r, rayT, inclusive);
      ObjectsInBox(tree, boxOf, o);
      SlabMonotone(boxOf(o), tree.bbox, r, rayT, rayT, inclusive, 0);
    }
  }

  /**
   * The hierarchy answers every hit query exactly as the linear scan over its
   * objects does, for objects that behave under the chosen slab test: a
   * subtree whose box the ray misses holds no hit, and a node visits its
   * objects left to right as the scan does.
   */
  lemma {:induction false} HitMatchesScan<T>(tree: Tree<T>, r: Ray, rayT: Interval,
                                             hitOf: (T, Ray, Interval) -> Option<real>, isHit: (T, Ray, real) -> bool,
                                             boxOf: T -> Aabb, inclusive: bool)
    requires BoxesAreUnions(tree, boxOf) && TreeNoNaN(tree, r)
    requires AllBehave(Objects(tree), r, hitOf, isHit, boxOf, inclusive)
    ensures NodeHit(tree, r, rayT, hitOf, inclusive) == Scan(Objects(tree), r, rayT, hitOf)
  {
    match tree
    case Leaf(o) =>
      assert Objects(tree)[1..] == [];
    case Twin(o, bbox) =>
      assert Objects(tree)[1..] == [];
      if !Slab(bbox, r, rayT, inclusive) {
        ScanMissesOutsideBox(tree, r, rayT, hitOf, isHit, boxOf, inclusive);
      } else if hitOf(o, r, rayT).Some? {
        ResearchMisses(o, r, rayT, hitOf, isHit, boxOf, inclusive);
      } else {
        assert Narrow(rayT, None) == rayT;
      }
    case Node(left, right, bbox) =>
      if !Slab(bbox, r, rayT, inclusive) {
        ScanMissesOutsideBox(tree, r, rayT, hitOf, isHit, boxOf, inclusive);
      } else {
        assert AllBehave(Objects(left), r, hitOf, isHit, boxOf, inclusive);
        assert AllBehave(Objects(right), r, hitOf, isHit, boxOf, inclusive);
        HitMatchesScan(left, r, rayT, hitOf, isHit, boxOf, inclusive);
        var hl := NodeHit(left, r, rayT, hitOf, inclusive);
        HitMatchesScan(right, r, Narrow(rayT, hl), hitOf, isHit, boxOf, inclusive);
        ScanConcat(Objects(left), Objects(right), r, rayT, hitOf);
      }
  }

  /** The scan answers the nearest hit of all its objects inside the interval. */
  lemma {:induction false} ScanNearest<T>(objs: seq<T>, r: Ray, rayT: Interval,
                                          hitOf: (T, Ray, Interval) -> Option<real>, isHit: (T, Ray, real) -> bool,
                                          boxOf: T -> Aabb, inclusive: bool)
    requires AllBehave(objs, r, hitOf, isHit, boxOf, inclusive)
    ensures NearestIn(Scan(objs, r, rayT, hitOf), objs, r, rayT, isHit)
  {
    if objs != [] {
      var o := objs[0];
      var h := hitOf(o, r, rayT);
      assert Behaves(o, r, hitOf, isHit, boxOf, inclusive);
      assert NearestIn(h, [o], r, rayT, isHit);
      assert AllBehave(objs[1..], r, hitOf, isHit, boxOf, inclusive) by {
        forall x | x in objs[1..] ensures x in objs { }
      }
      ScanNearest(objs[1..], r, Narrow(rayT, h), hitOf, isHit, boxOf, inclusive);
      NearerOfNarrowed([o], objs[1..], h, Scan(objs[1..], r, Narrow(rayT, h), hitOf), r, rayT, isHit);
      assert [o] + objs[1..] == objs;
    }
  }

  /** The hierarchy answers the nearest hit of its objects inside the
      interval: a tree behaves towards its parent as an object does. */
  lemma NodeHitNearest<T>(tree: Tree<T>, r: Ray, rayT: Interval, hitOf: (T, Ray, Interval) -> Option<real>,
                          isHit: (T, Ray, real) -> bool, boxOf: T -> Aabb, inclusive: bool)
    requires BoxesAreUnions(tree, boxOf) && TreeNoNaN(tree, r)
    requires AllBehave(Objects(tree), r, hitOf, isHit, boxOf, inclusive)
    ensures NearestIn(NodeHit(tree, r, rayT, hitOf, inclusive), Objects(tree), r, rayT, isHit)
  {
    HitMatchesScan(tree, r, rayT, hitOf, isHit, boxOf, inclusive);
    ScanNearest(Objects(tree), r, rayT, hitOf, isHit, boxOf, inclusive);
  }

  /** The nearer of two answers, the first one on a tie. */
  function Closer(a: Option<real>, b: Option<real>): (h: Option<real>)
    ensures h == a || h == b
    ensures h.Some? <==> a.Some? || b.Some?
    ensures a.Some? && b.Some? ==> h.value <= a.value && h.value <= b.value
  {
    if a.None? then b
    else if b.None? then a
    else if b.value < a.value then b
    else a
  }

  /** The closer of the nearest hits of two parts is the nearest hit of both. */
  lemma CloserNearest<T>(a: seq<T>, b: seq<T>, ha: Option<real>, hb: Option<real>, r: Ray, rayT: Interval,
                         isHit: (T, Ray, real) -> bool)
    requires NearestIn(ha, a, r, rayT, isHit) && NearestIn(hb, b, r, rayT, isHit)
    ensures NearestIn(Closer(ha, hb), a + b, r, rayT, isHit)
  {
    forall s | rayT.Surrounds(s)
      ensures HitsAny(a + b, r, isHit, s) <==> HitsAny(a, r, isHit, s) || HitsAny(b, r, isHit, s)
    {
      HitsAnyConcat(a, b, r, isHit, s);
    }
    if Closer(ha, hb).Some? {
      HitsAnyConcat(a, b, r, isHit, Closer(ha, hb).value);
    }
  }

  /**
   * `bvh_node::hit` (bvh.h:56-64) for a node whose box the ray passes: the
   * answer is the closer of the two children's answers over the whole
   * interval, and the right child's record overwrites the left's only for a
   * strictly nearer hit, so a tie keeps the left child's record.
   */
  lemma NodeIsCloserOfChildren<T>(left: Tree<T>, right: Tree<T>, bbox: Aabb, r: Ray, rayT: Interval,
                                  hitOf: (T, Ray, Interval) -> Option<real>, isHit: (T, Ray, real) -> bool,
                                  boxOf: T -> Aabb, inclusive: bool)
    requires BoxesAreUnions(Node(left, right, bbox), boxOf) && TreeNoNaN(Node(left, right, bbox), r)
    requires AllBehave(Objects(Node(left, right, bbox)), r, hitOf, isHit, boxOf, inclusive)
    requires Slab(bbox, r, rayT, inclusive)
    ensures NodeHit(Node(left, right, bbox), r, rayT, hitOf, inclusive)
            == Closer(NodeHit(left, r, rayT, hitOf, inclusive), NodeHit(right, r, rayT, hitOf, inclusive))
    ensures var hl := NodeHit(left, r, rayT, hitOf, inclusive);
            var hr := NodeHit(right, r, Narrow(rayT, hl), hitOf, inclusive);
            hl.Some? && hr.Some? ==> hr.value < hl.value
  {
    var tree := Node(left, right, bbox);
    assert AllBehave(Objects(left), r, hitOf, isHit, boxOf, inclusive);
    assert AllBehave(Objects(right), r, hitOf, isHit, boxOf, inclusive);
    var hl := NodeHit(left, r, rayT, hitOf, inclusive);
    var hr := NodeHit(right, r, Narrow(rayT, hl), hitOf, inclusive);
    var hb := NodeHit(right, r, rayT, hitOf, inclusive);
    NodeHitNearest(left, r, rayT, hitOf, isHit, boxOf, inclusive);
    NodeHitNearest(right, r, Narrow(rayT, hl), hitOf, isHit, boxOf, inclusive);
    NodeHitNearest(right, r, rayT, hitOf, isHit, boxOf, inclusive);
    NodeHitNearest(tree, r, rayT, hitOf, isHit, boxOf, inclusive);
    NearerOfNarrowed(Objects(left), Objects(right), hl, hr, r, rayT, isHit);
    CloserNearest(Objects(left), Objects(right), hl, hb, r, rayT, isHit);
    NearestUnique(NodeHit(tree, r, rayT, hitOf, inclusive), Closer(hl, hb), Objects(tree), r, rayT, isHit);
  }

  // ------------------------------------------------------------ construction

  /** The box folded over the objects from `aabb::empty`, which is the
      zero-size box at the origin: so the fold always holds the origin. */
  function FoldBox<T>(objs: seq<T>, boxOf: T -> Aabb): (box: Aabb)
    ensures box.ContainsPoint(Zero) && SizesDefined(box)
  {
    if objs == [] then ZeroBox
    else Union(FoldBox(objs[..|objs| - 1], boxOf), boxOf(objs[|objs| - 1]))
  }

  /** The folded box holds the box of every object folded into it. */
  lemma {:induction false} FoldBoxHoldsAll<T>(objs: seq<T>, boxOf: T -> Aabb, i: nat)
    requires i < |objs|
    ensures Within(boxOf(objs[i]), FoldBox(objs, boxOf))
  {
    var last := |objs| - 1;
    if i < last {
      FoldBoxHoldsAll(objs[..last], boxOf, i);
      WithinTransitive(boxOf(objs[i]), FoldBox(objs[..last], boxOf), FoldBox(objs, boxOf));
    }
  }

  /** `box_compare`'s key: the lower bound of an object's box on the axis. */
  function Key<T>(boxOf: T -> Aabb, axis: nat, o: T): Ext
    requires axis < 3
  {
    boxOf(o).AxisInterval(axis).min
  }

  /** Every key in the first part is at most every key in the second. */
  ghost predicate KeysOrdered<T>(first: seq<T>, second: seq<T>, boxOf: T -> Aabb, axis: nat)
    requires axis < 3
  {
    forall x, y :: x in first && y in second ==> Key(boxOf, axis, x).Le(Key(boxOf, axis, y))
  }

  /** The position of a smallest key in a[lo..hi]. */
  method MinIndex<T>(a: array<T>, lo: nat, hi: nat, boxOf: T -> Aabb, axis: nat) returns (m: nat)
    requires lo < hi <= a.Length && axis < 3
    ensures lo <= m < hi
    ensures forall i :: lo <= i < hi ==> Key(boxOf, axis, a[m]).Le(Key(boxOf, axis, a[i]))
  {
    m := lo;
    for i := lo + 1 to hi
      invariant lo <= m < hi
      invariant forall j :: lo <= j < i ==> Key(boxOf, axis, a[m]).Le(Key(boxOf, axis, a[j]))
    {
      if Key(boxOf, axis, a[i]).Lt(Key(boxOf, axis, a[m])) {
        m := i;
      }
    }
  }

  /** The sequence with the elements at i and j exchanged. */
  function Swapped<T>(s: seq<T>, i: nat, j: nat): (t: seq<T>)
    requires i < |s| && j < |s|
    ensures |t| == |s| && t[i] == s[j] && t[j] == s[i]
    ensures forall n :: 0 <= n < |s| && n != i && n != j ==> t[n] == s[n]
  {
    s[i := s[j]][j := s[i]]
  }

  /** Exchanging two elements inside [lo, hi) keeps the rest of the sequence
      and the multiset of the range. */
  lemma SwapInRange<T>(s: seq<T>, lo: nat, hi: nat, i: nat, j: nat)
    requires lo <= i < hi && lo <= j < hi && hi <= |s|
    ensures Swapped(s, i, j)[..lo] == s[..lo] && Swapped(s, i, j)[hi..] == s[hi..]
    ensures multiset(Swapped(s, i, j)[lo..hi]) == multiset(s[lo..hi])
  {
    var t := Swapped(s, i, j);
    assert t[..lo] == s[..lo];
    assert t[hi..] == s[hi..];
    assert multiset(t[lo..hi]) == multiset(s[lo..hi]) by {
      assert t[lo..hi] == s[lo..hi][i - lo := s[j]][j - lo := s[i]];
    }
  }

  /** Positions start..k-1 hold the smallest keys of the range, in order. */
  ghost predicate PrefixSelected<T>(s: seq<T>, start: nat, k: nat, end: nat, boxOf: T -> Aabb, axis: nat)
    requires end <= |s| && axis < 3
  {
    forall i, j :: start <= i < k && i < j < end ==> Key(boxOf, axis, s[i]).Le(Key(boxOf, axis, s[j]))
  }

  /** Moving a smallest key of [k, end) to position k extends the selected
      prefix by one. */
  lemma SelectStep<T>(s: seq<T>, start: nat, k: nat, m: nat, end: nat, boxOf: T -> Aabb, axis: nat)
    requires start <= k <= m < end <= |s| && axis < 3
    requires PrefixSelected(s, start, k, end, boxOf, axis)
    requires forall i :: k <= i < end ==> Key(boxOf, axis, s[m]).Le(Key(boxOf, axis, s[i]))
    ensures PrefixSelected(Swapped(s, k, m), start, k + 1, end, boxOf, axis)
  {
    var t := Swapped(s, k, m);
    forall i, j | start <= i < k + 1 && i < j < end
      ensures Key(boxOf, axis, t[i]).Le(Key(boxOf, axis, t[j]))
    {
      if i < k {
        assert t[i] == s[i];
        if j == m {
          assert t[j] == s[k];
        } else if j != k {
          assert t[j] == s[j];
        }
      } else {
        assert t[i] == s[m];
        if j == m {
          assert t[j] == s[k];
        } else {
          assert t[j] == s[j];
        }
      }
    }
  }

  /**
   * `std::nth_element` on a[start..end] by key: reorders that range in place
   * so that the element at `nth` has no larger key before it and no smaller
   * key after it. The library leaves the order otherwise unspecified; this
   * model selects the smallest remaining element into each position up to
   * `nth`.
   */
  method NthElement<T>(a: array<T>, start: nat, nth: nat, end: nat, boxOf: T -> Aabb, axis: nat)
    requires start <= nth < end <= a.Length && axis < 3
    modifies a
    ensures a[..start] == old(a[..start]) && a[end..] == old(a[end..])
    ensures multiset(a[start..end]) == old(multiset(a[start..end]))
    ensures forall i :: start <= i < nth ==> Key(boxOf, axis, a[i]).Le(Key(boxOf, axis, a[nth]))
    ensures forall j :: nth < j < end ==> Key(boxOf, axis, a[nth]).Le(Key(boxOf, axis, a[j]))
  {
    var k := start;
    while k <= nth
      invariant start <= k <= nth + 1
      invariant a[..start] == old(a[..start]) && a[end..] == old(a[end..])
      invariant multiset(a[start..end]) == old(multiset(a[start..end]))
      invariant PrefixSelected(a[..], start, k, end, boxOf, axis)
    {
      var m := MinIndex(a, k, end, boxOf, axis);
      ghost var before := a[..];
      SwapInRange(before, start, end, k, m);
      SelectStep(before, start, k, m, end, boxOf, axis);
      a[k], a[m] := a[m], a[k];
      assert a[..] == Swapped(before, k, m);
      k := k + 1;
    }
    assert PrefixSelected(a[..], start, nth + 1, end, boxOf, axis);
  }

  /** The fold loop of the constructor over objects[start..end]. */
  method FoldBoxes<T>(objects: seq<T>, start: nat, end: nat, boxOf: T -> Aabb) returns (bbox: Aabb)
    requires start <= end <= |objects|
    ensures bbox == FoldBox(objects[start..end], boxOf)
  {
    bbox := ZeroBox;
    var i := start;
    while i < end
      invariant start <= i <= end
      invariant bbox == FoldBox(objects[start..i], boxOf)
    {
      FoldBoxStep(objects, start, i, boxOf);
      bbox := Union(bbox, boxOf(objects[i]));
      i := i + 1;
    }
  }

  /** Folding one more object unites its box with the fold so far. */
  lemma FoldBoxStep<T>(objects: seq<T>, start: nat, i: nat, boxOf: T -> Aabb)
    requires start <= i < |objects|
    ensures FoldBox(objects[start..i + 1], boxOf) == Union(FoldBox(objects[start..i], boxOf), boxOf(objects[i]))
  {
    var longer := objects[start..i + 1];
    assert longer[..|longer| - 1] == objects[start..i];
    assert longer[|longer| - 1] == objects[i];
  }

  /** `nth_element` applied to the vector `objects`: the vector is put in an
      array, partitioned in place at `nth`, and read back. */
  method PartitionAt<T>(objects: seq<T>, start: nat, nth: nat, end: nat, boxOf: T -> Aabb, axis: nat)
    returns (sorted: seq<T>)
    requires start <= nth < end <= |objects| && axis < 3
    ensures |sorted| == |objects|
    ensures multiset(sorted[start..end]) == multiset(objects[start..end])
    ensures forall i :: start <= i < nth ==> Key(boxOf, axis, sorted[i]).Le(Key(boxOf, axis, sorted[nth]))
    ensures forall j :: nth < j < end ==> Key(boxOf, axis, sorted[nth]).Le(Key(boxOf, axis, sorted[j]))
  {
    var a := new T[|objects|](i requires 0 <= i < |objects| => objects[i]);
    assert a[start..end] == objects[start..end];
    NthElement(a, start, nth, end, boxOf, axis);
    sorted := a[..];
    assert sorted[start..end] == a[start..end];
  }

  /** After the partition at mid, every object of the lower half has a key no
      larger than any object of the upper half. */
  lemma PartitionOrdered<T>(s: seq<T>, start: nat, mid: nat, end: nat, boxOf: T -> Aabb, axis: nat,
                            lower: seq<T>, upper: seq<T>)
    requires start <= mid < end <= |s| && axis < 3
    requires forall i :: start <= i < mid ==> Key(boxOf, axis, s[i]).Le(Key(boxOf, axis, s[mid]))
    requires forall j :: mid < j < end ==> Key(boxOf, axis, s[mid]).Le(Key(boxOf, axis, s[j]))
    requires multiset(lower) == multiset(s[start..mid]) && multiset(upper) == multiset(s[mid..end])
    ensures KeysOrdered(lower, upper, boxOf, axis)
  {
    forall x, y | x in lower && y in upper
      ensures Key(boxOf, axis, x).Le(Key(boxOf, axis, y))
    {
      assert x in multiset(s[start..mid]);
      var i :| start <= i < mid && s[i] == x;
      assert y in multiset(s[mid..end]);
      var j :| mid <= j < end && s[j] == y;
    }
  }

  /** A node (not a bare object) whose boxes are unions and which holds
      exactly the given objects. */
  ghost predicate Holds<T>(tree: Tree<T>, objs: seq<T>, boxOf: T -> Aabb) {
    !tree.Leaf? && BoxesAreUnions(tree, boxOf) && multiset(Objects(tree)) == multiset(objs)
  }

  /** The two-object shape: two objects, the right one's key not smaller. */
  ghost predicate PairOrdered<T>(tree: Tree<T>, boxOf: T -> Aabb, axis: nat)
    requires axis < 3
  {
    && tree.Node? && tree.left.Leaf? && tree.right.Leaf?
    && !Key(boxOf, axis, tree.right.obj).Lt(Key(boxOf, axis, tree.left.obj))
  }

  /** The split shape: the given numbers of objects on each side, and every
      key on the left at most every key on the right. */
  ghost predicate SplitAt<T>(tree: Tree<T>, lower: nat, upper: nat, boxOf: T -> Aabb, axis: nat)
    requires axis < 3
  {
    && tree.Node? && |Objects(tree.left)| == lower && |Objects(tree.right)| == upper
    && KeysOrdered(Objects(tree.left), Objects(tree.right), boxOf, axis)
  }

  /**
   * The `bvh_node` constructor over src[start..end]. It works on a local copy
   * of the objects: folds their boxes to choose the longest axis, then makes a
   * twin node for one object, orders two objects by their key on that axis,
   * and otherwise partitions the range at its middle with `nth_element` and
   * builds the two halves. The node's box is the union of its children's.
   */
  method Build<T>(src: seq<T>, start: nat, end: nat, boxOf: T -> Aabb) returns (tree: Tree<T>)
    requires start < end <= |src|
    ensures Holds(tree, src[start..end], boxOf)
    ensures var axis := LongestOf(FoldBox(src[start..end], boxOf));
            && (end - start == 1 ==> tree == Twin(src[start], Union(boxOf(src[start]), boxOf(src[start]))))
            && (end - start == 2 ==> PairOrdered(tree, boxOf, axis))
            && (end - start >= 3 ==> SplitAt(tree, (end - start) / 2, end - start - (end - start) / 2, boxOf, axis))
    decreases end - start, 3
  {
    var bbox := FoldBoxes(src, start, end, boxOf);
    var axis := LongestAxis(bbox);
    tree := BuildOnAxis(src, start, end, boxOf, axis);
  }

  /** `Build` once the axis is chosen. */
  method BuildOnAxis<T>(src: seq<T>, start: nat, end: nat, boxOf: T -> Aabb, axis: nat) returns (tree: Tree<T>)
    requires start < end <= |src| && axis < 3
    ensures Holds(tree, src[start..end], boxOf)
    ensures end - start == 1 ==> tree == Twin(src[start], Union(boxOf(src[start]), boxOf(src[start])))
    ensures end - start == 2 ==> PairOrdered(tree, boxOf, axis)
    ensures end - start >= 3 ==> SplitAt(tree, (end - start) / 2, end - start - (end - start) / 2, boxOf, axis)
    decreases end - start, 2
  {
    var span := end - start;
    if span == 1 {
      var o := src[start];
      tree := Twin(o, Union(boxOf(o), boxOf(o)));
      SliceOfOne(src, start, end);
    } else if span == 2 {
      tree := OrderPair(src[start], src[start + 1], boxOf, axis);
      SliceOfTwo(src, start, end);
    } else {
      tree := BuildSplit(src, start, end, boxOf, axis);
    }
  }

  lemma SliceOfOne<T>(src: seq<T>, start: nat, end: nat)
    requires start < end <= |src| && end - start == 1
    ensures src[start..end] == [src[start]]
  {
  }

  lemma SliceOfTwo<T>(src: seq<T>, start: nat, end: nat)
    requires start < end <= |src| && end - start == 2
    ensures src[start..end] == [src[start], src[start + 1]]
  {
  }

  /** Three or more objects: partition a copy of the range at its middle
      with `nth_element`, then build the two halves. */
  method BuildSplit<T>(src: seq<T>, start: nat, end: nat, boxOf: T -> Aabb, axis: nat) returns (tree: Tree<T>)
    requires start + 3 <= end <= |src| && axis < 3
    ensures Holds(tree, src[start..end], boxOf)
    ensures SplitAt(tree, (end - start) / 2, end - start - (end - start) / 2, boxOf, axis)
    decreases end - start, 1
  {
    var mid := start + (end - start) / 2;
    var objects := PartitionAt(src, start, mid, end, boxOf, axis);
    tree := BuildHalves(objects, start, mid, end, boxOf, axis);
  }

  /** The case of three or more objects after the partition: one subtree per
      half, and the node's box is the union of theirs. */
  method BuildHalves<T>(sorted: seq<T>, start: nat, mid: nat, end: nat, boxOf: T -> Aabb, axis: nat)
    returns (tree: Tree<T>)
    requires start < mid < end <= |sorted| && axis < 3
    requires forall i :: start <= i < mid ==> Key(boxOf, axis, sorted[i]).Le(Key(boxOf, axis, sorted[mid]))
    requires forall j :: mid < j < end ==> Key(boxOf, axis, sorted[mid]).Le(Key(boxOf, axis, sorted[j]))
    ensures Holds(tree, sorted[start..end], boxOf)
    ensures SplitAt(tree, mid - start, end - mid, boxOf, axis)
    decreases end - start, 0
  {
    assert sorted[start..end] == sorted[start..mid] + sorted[mid..end];
    var left := Build(sorted, start, mid, boxOf);
    var right := Build(sorted, mid, end, boxOf);
    tree := Node(left, right, Union(BoxOf(left, boxOf), BoxOf(right, boxOf)));
    NodeHolds(left, right, sorted[start..mid], sorted[mid..end], boxOf);
    PartitionOrdered(sorted, start, mid, end, boxOf, axis, Objects(left), Objects(right));
  }

  /** A node over two subtrees holding two parts, with the union of their
      boxes, holds both parts, and each child has as many objects as its part. */
  lemma NodeHolds<T>(left: Tree<T>, right: Tree<T>, lower: seq<T>, upper: seq<T>, boxOf: T -> Aabb)
    requires Holds(left, lower, boxOf) && Holds(right, upper, boxOf)
    ensures Holds(Node(left, right, Union(BoxOf(left, boxOf), BoxOf(right, boxOf))), lower + upper, boxOf)
    ensures |Objects(left)| == |lower| && |Objects(right)| == |upper|
  {
    assert |multiset(Objects(left))| == |multiset(lower)|;
    assert |multiset(Objects(right))| == |multiset(upper)|;
  }

  /** The two-object case: the first object goes left if its key is strictly
      smaller than the second's, otherwise the second goes left. */
  method OrderPair<T>(a: T, b: T, boxOf: T -> Aabb, axis: nat) returns (tree: Tree<T>)
    requires axis < 3
    ensures Holds(tree, [a, b], boxOf)
    ensures PairOrdered(tree, boxOf, axis)
    ensures tree.Node? && tree.left == Leaf(if Key(boxOf, axis, a).Lt(Key(boxOf, axis, b)) then a else b)
    ensures tree.right == Leaf(if Key(boxOf, axis, a).Lt(Key(boxOf, axis, b)) then b else a)
  {
    var left, right;
    if Key(boxOf, axis, a).Lt(Key(boxOf, axis, b)) {
      left, right := a, b;
    } else {
      left, right := b, a;
    }
    tree := Node(Leaf(left), Leaf(right), Union(boxOf(left), boxOf(right)));
  }
}
