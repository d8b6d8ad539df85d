/**
 * A bounding volume hierarchy over the triangles of a loaded mesh: the
 * triangle's hit query and bounding box plugged into the generic hierarchy.
 *
 * With the strict slab test of `aabb::hit` a flat triangle (one lying in an
 * axis-aligned plane) has a zero-thickness box, which no ray passes, so the
 * hierarchy loses hits that a plain scan of the triangles finds. With the
 * inclusive slab test every triangle behaves and the hierarchy answers as the
 * scan does.
 */
module Meshes {
  import opened Numbers
  import opened Vectors
  import opened Rays
  import opened Intervals
  import opened Boxes
  import opened Hits
  import opened ObjLoader
  import opened Bvh

  /** A triangle has at most one hit parameter, so its hit query answers the
      nearest hit inside every interval. */
  lemma TriangleNearest(tri: Triangle, r: Ray, rayT: Interval)
    ensures NearestIn(TriangleHit(tri, r, rayT), [tri], r, rayT, TriangleAt)
  {
    forall s: real
      ensures HitsAny([tri], r, TriangleAt, s) <==> TriangleAt(tri, r, s)
    {
      if HitsAny([tri], r, TriangleAt, s) {
        var o :| o in [tri] && TriangleAt(o, r, s);
        assert o == tri;
      }
      if TriangleAt(tri, r, s) {
        assert tri in [tri];
      }
    }
  }

  /** A triangle behaves under the inclusive slab test: its box is well
      formed, its hit query answers the nearest hit, and every hit lies in
      the box. */
  lemma TriangleBehaves(tri: Triangle, r: Ray)
    requires NoNaN(TriangleBox(tri), r)
    ensures Behaves(tri, r, TriangleHit, TriangleAt, TriangleBox, true)
  {
    forall rayT: Interval
      ensures NearestIn(TriangleHit(tri, r, rayT), [tri], r, rayT, TriangleAt)
      ensures TriangleHit(tri, r, rayT).Some? ==> Slab(TriangleBox(tri), r, rayT, true)
    {
      TriangleNearest(tri, r, rayT);
      if TriangleHit(tri, r, rayT).Some? {
        var t := TriangleHit(tri, r, rayT).value;
        OpenWithinClosed(rayT, t);
        TriangleHitInBox(tri, r, rayT);
        InclusiveSlabSound(TriangleBox(tri), r, rayT, t, 0);
      }
    }
  }

  /** With the inclusive slab test a hierarchy of triangles answers every hit
      query as the scan over its triangles does, and that answer is the
      nearest triangle hit inside the interval. */
  lemma MeshHitMatchesScan(tree: Tree<Triangle>, r: Ray, rayT: Interval)
    requires BoxesAreUnions(tree, TriangleBox) && TreeNoNaN(tree, r)
    requires forall tri :: tri in Objects(tree) ==> NoNaN(TriangleBox(tri), r)
    ensures NodeHit(tree, r, rayT, TriangleHit, true) == Scan(Objects(tree), r, rayT, TriangleHit)
    ensures NearestIn(NodeHit(tree, r, rayT, TriangleHit, true), Objects(tree), r, rayT, TriangleAt)
  {
    forall tri | tri in Objects(tree)
      ensures Behaves(tri, r, TriangleHit, TriangleAt, TriangleBox, true)
    {
      TriangleBehaves(tri, r);
    }
    HitMatchesScan(tree, r, rayT, TriangleHit, TriangleAt, TriangleBox, true);
    NodeHitNearest(tree, r, rayT, TriangleHit, TriangleAt, TriangleBox, true);
  }

  /** The flat triangle (0,0,0), (1,0,0), (0,1,0), lying in the plane z = 0,
      and the ray from (0.25, 0.25, 1) straight down. */
  predicate FlatSetup(tri: Triangle, r: Ray) {
    && tri.v0 == Vec3(0.0, 0.0, 0.0) && tri.v1 == Vec3(1.0, 0.0, 0.0) && tri.v2 == Vec3(0.0, 1.0, 0.0)
    && r.orig == Vec3(0.25, 0.25, 1.0) && r.dir == Vec3(0.0, 0.0, -1.0)
  }

  /** With a unit determinant the coordinates are the numerators themselves. */
  lemma UnitDeterminant(tri: Triangle, r: Ray)
    requires Det(tri, r) == 1.0
    ensures BaryU(tri, r) == Dot(Sub(r.orig, tri.v0), Cross(r.dir, tri.Edge2()))
    ensures BaryV(tri, r) == Dot(r.dir, Cross(Sub(r.orig, tri.v0), tri.Edge1()))
    ensures ParamT(tri, r) == Dot(tri.Edge2(), Cross(Sub(r.orig, tri.v0), tri.Edge1()))
  {
    CoordinateU(tri, r, 1.0, Dot(Sub(r.orig, tri.v0), Cross(r.dir, tri.Edge2())));
    CoordinateV(tri, r, 1.0, Dot(r.dir, Cross(Sub(r.orig, tri.v0), tri.Edge1())));
    CoordinateT(tri, r, 1.0, Dot(tri.Edge2(), Cross(Sub(r.orig, tri.v0), tri.Edge1())));
  }

  /** The vectors of the flat setup: the edges are the unit x and y vectors,
      the origin lies at (0.25, 0.25, 1) from v0, dir x edge2 is the unit x
      vector and s x edge1 is (0, 1, -0.25). */
  lemma FlatVectors(tri: Triangle, r: Ray)
    requires FlatSetup(tri, r)
    ensures tri.Edge1() == Vec3(1.0, 0.0, 0.0) && tri.Edge2() == Vec3(0.0, 1.0, 0.0)
    ensures r.dir == Vec3(0.0, 0.0, -1.0) && Sub(r.orig, tri.v0) == Vec3(0.25, 0.25, 1.0)
    ensures Cross(r.dir, tri.Edge2()) == Vec3(1.0, 0.0, 0.0)
    ensures Cross(Sub(r.orig, tri.v0), tri.Edge1()) == Vec3(0.0, 1.0, -0.25)
  {
    var e1, e2, s := Vec3(1.0, 0.0, 0.0), Vec3(0.0, 1.0, 0.0), Vec3(0.25, 0.25, 1.0);
    assert tri.Edge1() == e1 && tri.Edge2() == e2 && Sub(r.orig, tri.v0) == s;
    assert Cross(Vec3(0.0, 0.0, -1.0), e2) == Vec3(1.0, 0.0, 0.0);
    assert Cross(s, e1) == Vec3(0.0, 1.0, -0.25);
  }

  /** A dot product with the unit x vector picks the x component. */
  lemma DotUnitX(u: Vec3, c: Vec3)
    requires c == Vec3(1.0, 0.0, 0.0)
    ensures Dot(u, c) == u.x
  {
  }

  /** The determinant is 1. */
  lemma FlatDet(tri: Triangle, r: Ray)
    requires FlatSetup(tri, r)
    ensures Det(tri, r) == 1.0
  {
    FlatVectors(tri, r);
    DotUnitX(tri.Edge1(), Cross(r.dir, tri.Edge2()));
  }

  /** The numerator of u is 0.25. */
  lemma FlatNumeratorU(tri: Triangle, r: Ray)
    requires FlatSetup(tri, r)
    ensures Dot(Sub(r.orig, tri.v0), Cross(r.dir, tri.Edge2())) == 0.25
  {
    FlatVectors(tri, r);
    DotUnitX(Sub(r.orig, tri.v0), Cross(r.dir, tri.Edge2()));
  }

  /** The numerator of v is 0.25. */
  lemma FlatNumeratorV(tri: Triangle, r: Ray)
    requires FlatSetup(tri, r)
    ensures Dot(r.dir, Cross(Sub(r.orig, tri.v0), tri.Edge1())) == 0.25
  {
    FlatVectors(tri, r);
  }

  /** The numerator of t is 1. */
  lemma FlatNumeratorT(tri: Triangle, r: Ray)
    requires FlatSetup(tri, r)
    ensures Dot(tri.Edge2(), Cross(Sub(r.orig, tri.v0), tri.Edge1())) == 1.0
  {
    FlatVectors(tri, r);
  }

  /** The ray meets the triangle at t = 1 in the point with coordinates
      (0.25, 0.25); one coordinate per lemma keeps each proof small. */
  lemma FlatU(tri: Triangle, r: Ray)
    requires FlatSetup(tri, r)
    ensures Det(tri, r) == 1.0 && BaryU(tri, r) == 0.25
  {
    FlatDet(tri, r);
    FlatNumeratorU(tri, r);
    UnitDeterminant(tri, r);
  }

  lemma FlatV(tri: Triangle, r: Ray)
    requires FlatSetup(tri, r)
    ensures Det(tri, r) == 1.0 && BaryV(tri, r) == 0.25
  {
    FlatDet(tri, r);
    FlatNumeratorV(tri, r);
    UnitDeterminant(tri, r);
  }

  lemma FlatT(tri: Triangle, r: Ray)
    requires FlatSetup(tri, r)
    ensures Det(tri, r) == 1.0 && ParamT(tri, r) == 1.0
  {
    FlatDet(tri, r);
    FlatNumeratorT(tri, r);
    UnitDeterminant(tri, r);
  }

  /** Coordinates (0.25, 0.25) inside the triangle and t = 1 inside the
      interval make a hit at t = 1. */
  lemma HitAtCoordinates(tri: Triangle, r: Ray, rayT: Interval)
    requires Det(tri, r) == 1.0 && BaryU(tri, r) == 0.25 && BaryV(tri, r) == 0.25 && ParamT(tri, r) == 1.0
    requires rayT == Forward
    ensures TriangleHit(tri, r, rayT) == Some(1.0)
  {
  }

  /** The triangle's own test reports the hit at t = 1 ... */
  lemma FlatTriangleHits(tri: Triangle, r: Ray, rayT: Interval)
    requires FlatSetup(tri, r) && rayT == Forward
    ensures TriangleHit(tri, r, rayT) == Some(1.0)
  {
    FlatU(tri, r);
    FlatV(tri, r);
    FlatT(tri, r);
    HitAtCoordinates(tri, r, rayT);
  }

  /** ... and nothing before it. */
  lemma FlatNothingBefore(tri: Triangle, r: Ray, rayT: Interval)
    requires FlatSetup(tri, r) && rayT == Interval(Forward.min, Fin(1.0))
    ensures TriangleHit(tri, r, rayT) == None
  {
    FlatT(tri, r);
  }

  /** The triangle's box is the thin box [0,1] x [0,1] x [0,0]. */
  lemma FlatBox(tri: Triangle, r: Ray)
    requires FlatSetup(tri, r)
    ensures TriangleBox(tri) == ThinBox
  {
  }

  /** The discrepancy for one triangle, ray and interval: the node holding
      the triangle twice under its box reports no hit under the strict slab
      test, while the scan of the triangle and the node under the inclusive
      test both report the hit at t. */
  ghost predicate StrictNodeMisses(tri: Triangle, r: Ray, rayT: Interval, t: real) {
    var tree := Twin(tri, Union(TriangleBox(tri), TriangleBox(tri)));
    && TreeNoNaN(tree, r)
    && Scan([tri], r, rayT, TriangleHit) == Some(t)
    && NodeHit(tree, r, rayT, TriangleHit, false) == None
    && NodeHit(tree, r, rayT, TriangleHit, true) == Some(t)
  }

  /** A triangle whose box the strict slab test rejects but the inclusive
      one accepts, and which the ray hits at t and not before, is missed by
      its node under the strict test only. */
  lemma TwinMisses(tri: Triangle, r: Ray, rayT: Interval, t: real)
    requires NoNaN(TriangleBox(tri), r)
    requires !Slab(TriangleBox(tri), r, rayT, false) && Slab(TriangleBox(tri), r, rayT, true)
    requires TriangleHit(tri, r, rayT) == Some(t) && TriangleHit(tri, r, Interval(rayT.min, Fin(t))) == None
    ensures StrictNodeMisses(tri, r, rayT, t)
  {
    UnionCommutativeIdempotent(TriangleBox(tri), TriangleBox(tri));
    assert [tri][1..] == [];
  }

  /** The flat triangle, the downward ray and the forward interval meet the
      conditions of `TwinMisses` with t = 1. */
  lemma FlatWitness(tri: Triangle, r: Ray, rayT: Interval)
    requires FlatSetup(tri, r) && rayT == Forward
    ensures NoNaN(TriangleBox(tri), r)
    ensures !Slab(TriangleBox(tri), r, rayT, false) && Slab(TriangleBox(tri), r, rayT, true)
  {
    FlatBox(tri, r);
    StrictSlabMissesFlatBox();
  }

  /**
   * The hierarchy built over the single flat triangle is the node holding it
   * twice under its box. The ray hits the triangle at t = 1, as the scan
   * finds, but the strict slab test of the box rejects the ray, so the
   * hierarchy as written reports no hit. The inclusive test keeps the hit.
   */
  lemma FlatTriangleMissed(tri: Triangle, r: Ray, rayT: Interval)
    requires FlatSetup(tri, r) && rayT == Forward
    ensures StrictNodeMisses(tri, r, rayT, 1.0)
  {
    FlatWitness(tri, r, rayT);
    FlatTriangleHits(tri, r, rayT);
    FlatNothingBefore(tri, r, Interval(rayT.min, Fin(1.0)));
    TwinMisses(tri, r, rayT, 1.0);
  }
}
