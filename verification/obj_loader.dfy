/**
 * Triangles and the OBJ reader (obj_loader.h).
 *
 * `Triangle::hit` is the Moller-Trumbore test: it rejects a ray nearly parallel
 * to the triangle's plane, then rejects barycentric coordinates outside the
 * triangle, then accepts the ray parameter if it lies strictly inside the
 * search interval. `load_obj` reads a file line by line; the model receives
 * the lines already split into tokens.
 */
module ObjLoader {
  import opened Numbers
  import opened Vectors
  import opened Rays
  import opened Intervals
  import opened Boxes
  import opened Hits

  datatype Triangle = Triangle(v0: Vec3, v1: Vec3, v2: Vec3) {
    function Edge1(): Vec3 { Sub(v1, v0) }
    function Edge2(): Vec3 { Sub(v2, v0) }
  }

  /** The determinant cut-off of the parallel-ray test. */
  const DeterminantEps: real := 0.00000001

  /** The determinant `a = edge1 . (dir x edge2)`. */
  function Det(tri: Triangle, r: Ray): real {
    Dot(tri.Edge1(), Cross(r.dir, tri.Edge2()))
  }

  /** `a > -1e-8 && a < 1e-8`: the ray is taken as parallel to the plane. */
  predicate NearlyParallel(tri: Triangle, r: Ray) {
    -DeterminantEps < Det(tri, r) < DeterminantEps
  }

  /** The barycentric coordinate u = f (s . h), with f = 1 / a and
      s = origin - v0. */
  function BaryU(tri: Triangle, r: Ray): real
    requires Det(tri, r) != 0.0
  {
    (1.0 / Det(tri, r)) * Dot(Sub(r.orig, tri.v0), Cross(r.dir, tri.Edge2()))
  }

  /** The barycentric coordinate v = f (dir . q), with q = s x edge1. */
  function BaryV(tri: Triangle, r: Ray): real
    requires Det(tri, r) != 0.0
  {
    (1.0 / Det(tri, r)) * Dot(r.dir, Cross(Sub(r.orig, tri.v0), tri.Edge1()))
  }

  /** The ray parameter t = f (edge2 . q). */
  function ParamT(tri: Triangle, r: Ray): real
    requires Det(tri, r) != 0.0
  {
    (1.0 / Det(tri, r)) * Dot(tri.Edge2(), Cross(Sub(r.orig, tri.v0), tri.Edge1()))
  }

  /** The point with barycentric coordinates (u, v): v0 + u edge1 + v edge2. */
  function Barycentric(tri: Triangle, u: real, v: real): Vec3 {
    Add(Add(tri.v0, Scale(u, tri.Edge1())), Scale(v, tri.Edge2()))
  }

  /** The barycentric coordinates lie in the triangle: u in [0, 1], v >= 0
      and u + v <= 1. */
  predicate InsideTriangle(u: real, v: real) {
    0.0 <= u <= 1.0 && 0.0 <= v && u + v <= 1.0
  }

  /**
   * `Triangle::hit`. The result is the parameter t exactly when the ray is not
   * nearly parallel, the barycentric coordinates are inside the triangle and
   * the open interval surrounds t; otherwise the ray misses.
   */
  function TriangleHit(tri: Triangle, r: Ray, rayT: Interval): (t: Option<real>)
    ensures NearlyParallel(tri, r) ==> t.None?
    ensures t.Some? ==> rayT.Surrounds(t.value)
    ensures t.Some? <==> !NearlyParallel(tri, r)
                         && InsideTriangle(BaryU(tri, r), BaryV(tri, r))
                         && rayT.Surrounds(ParamT(tri, r))
    ensures t.Some? ==> t.value == ParamT(tri, r)
  {
    var a := Det(tri, r);
    if -DeterminantEps < a && a < DeterminantEps then None
    else
      var u := BaryU(tri, r);
      if u < 0.0 || u > 1.0 then None
      else
        var v := BaryV(tri, r);
        if v < 0.0 || u + v > 1.0 then None
        else
          var t := ParamT(tri, r);
          if rayT.min.Lt(Fin(t)) && Fin(t).Lt(rayT.max) then Some(t) else None
  }

  /** The ray meets the triangle at parameter t: it is not nearly parallel,
      its barycentric coordinates lie in the triangle, and t is the parameter
      at which it crosses the triangle's plane. */
  predicate TriangleAt(tri: Triangle, r: Ray, t: real) {
    !NearlyParallel(tri, r) && InsideTriangle(BaryU(tri, r), BaryV(tri, r)) && t == ParamT(tri, r)
  }

  /** The numerators of Cramer's rule for s = u edge1 + v edge2 - t dir: the
      determinant a and the numerators p, q and w of u, v and t. */
  ghost predicate Numerators(e1: Vec3, e2: Vec3, d: Vec3, s: Vec3, a: real, p: real, q: real, w: real) {
    && a == Dot(e1, Cross(d, e2)) && p == Dot(s, Cross(d, e2))
    && q == Dot(d, Cross(s, e1)) && w == Dot(e2, Cross(s, e1))
  }

  /** The first coordinate of Cramer's rule, multiplied through by the
      determinant. */
  lemma CramerX(e1: Vec3, e2: Vec3, d: Vec3, s: Vec3, a: real, p: real, q: real, w: real)
    requires Numerators(e1, e2, d, s, a, p, q, w)
    ensures a * s.x == p * e1.x + q * e2.x - w * d.x
  {
  }

  /** Cyclic rotation of the coordinates. */
  function Rot(v: Vec3): Vec3 {
    Vec3(v.y, v.z, v.x)
  }

  lemma RotInvariant(u: Vec3, v: Vec3)
    ensures Dot(Rot(u), Rot(v)) == Dot(u, v)
    ensures Cross(Rot(u), Rot(v)) == Rot(Cross(u, v))
  {
  }

  /** Dividing the scaled Cramer identity of one coordinate by the determinant:
      origin + t d equals v0 + u e1 + v e2 along that axis. */
  lemma ScaleBack(a: real, p: real, q: real, w: real, ox: real, vx: real, ex: real, fx: real, dx: real)
    requires a != 0.0 && a * (ox - vx) == p * ex + q * fx - w * dx
    ensures ox + ((1.0 / a) * w) * dx == (vx + ((1.0 / a) * p) * ex) + ((1.0 / a) * q) * fx
  {
    var k := 1.0 / a;
    assert k * a == 1.0;
    assert ox - vx == k * (a * (ox - vx));
    assert k * (p * ex + q * fx - w * dx) == (k * p) * ex + (k * q) * fx - (k * w) * dx;
  }

  /** Rotating all four vectors keeps the numerators. */
  lemma RotNumerators(e1: Vec3, e2: Vec3, d: Vec3, s: Vec3, a: real, p: real, q: real, w: real)
    requires Numerators(e1, e2, d, s, a, p, q, w)
    ensures Numerators(Rot(e1), Rot(e2), Rot(d), Rot(s), a, p, q, w)
  {
    RotInvariant(d, e2);
    RotInvariant(s, e1);
    RotInvariant(e1, Cross(d, e2));
    RotInvariant(s, Cross(d, e2));
    RotInvariant(d, Cross(s, e1));
    RotInvariant(e2, Cross(s, e1));
  }

  /** The second coordinate of the same identity, by rotating the first. */
  lemma CramerY(e1: Vec3, e2: Vec3, d: Vec3, s: Vec3, a: real, p: real, q: real, w: real)
    requires Numerators(e1, e2, d, s, a, p, q, w)
    ensures a * s.y == p * e1.y + q * e2.y - w * d.y
  {
    RotNumerators(e1, e2, d, s, a, p, q, w);
    CramerX(Rot(e1), Rot(e2), Rot(d), Rot(s), a, p, q, w);
  }

  /** The third coordinate, by rotating the second. */
  lemma CramerZ(e1: Vec3, e2: Vec3, d: Vec3, s: Vec3, a: real, p: real, q: real, w: real)
    requires Numerators(e1, e2, d, s, a, p, q, w)
    ensures a * s.z == p * e1.z + q * e2.z - w * d.z
  {
    RotNumerators(e1, e2, d, s, a, p, q, w);
    CramerY(Rot(e1), Rot(e2), Rot(d), Rot(s), a, p, q, w);
  }

  /** The Moller-Trumbore identity: for a non-zero determinant, the point of
      the ray at t is the point of the plane with coordinates (u, v). */
  lemma CramerPoint(tri: Triangle, r: Ray)
    requires Det(tri, r) != 0.0
    ensures r.PointAt(ParamT(tri, r)) == Barycentric(tri, BaryU(tri, r), BaryV(tri, r))
  {
    var e1, e2, d, s := tri.Edge1(), tri.Edge2(), r.dir, Sub(r.orig, tri.v0);
    var a, p, q, w := Det(tri, r), Dot(s, Cross(d, e2)), Dot(d, Cross(s, e1)), Dot(e2, Cross(s, e1));
    CramerX(e1, e2, d, s, a, p, q, w);
    CramerY(e1, e2, d, s, a, p, q, w);
    CramerZ(e1, e2, d, s, a, p, q, w);
    PlanePoint(a, p, q, w, r.orig, tri.v0, s, e1, e2, d);
    CoordinateU(tri, r, a, p);
    CoordinateV(tri, r, a, q);
    CoordinateT(tri, r, a, w);
  }

  /** Each coordinate is its numerator divided by the determinant. */
  lemma CoordinateU(tri: Triangle, r: Ray, a: real, p: real)
    requires a == Det(tri, r) && a != 0.0 && p == Dot(Sub(r.orig, tri.v0), Cross(r.dir, tri.Edge2()))
    ensures BaryU(tri, r) == (1.0 / a) * p
  {
  }

  lemma CoordinateV(tri: Triangle, r: Ray, a: real, q: real)
    requires a == Det(tri, r) && a != 0.0 && q == Dot(r.dir, Cross(Sub(r.orig, tri.v0), tri.Edge1()))
    ensures BaryV(tri, r) == (1.0 / a) * q
  {
  }

  lemma CoordinateT(tri: Triangle, r: Ray, a: real, w: real)
    requires a == Det(tri, r) && a != 0.0 && w == Dot(tri.Edge2(), Cross(Sub(r.orig, tri.v0), tri.Edge1()))
    ensures ParamT(tri, r) == (1.0 / a) * w
  {
  }

  /** The three coordinates of the scaled identity give the vector identity. */
  lemma PlanePoint(a: real, p: real, q: real, w: real, o: Vec3, v0: Vec3, s: Vec3, e1: Vec3, e2: Vec3, d: Vec3)
    requires a != 0.0 && s == Sub(o, v0)
    requires a * s.x == p * e1.x + q * e2.x - w * d.x
    requires a * s.y == p * e1.y + q * e2.y - w * d.y
    requires a * s.z == p * e1.z + q * e2.z - w * d.z
    ensures Add(o, Scale((1.0 / a) * w, d)) == Add(Add(v0, Scale((1.0 / a) * p, e1)), Scale((1.0 / a) * q, e2))
  {
    ScaleBack(a, p, q, w, o.x, v0.x, e1.x, e2.x, d.x);
    ScaleBack(a, p, q, w, o.y, v0.y, e1.y, e2.y, d.y);
    ScaleBack(a, p, q, w, o.z, v0.z, e1.z, e2.z, d.z);
  }

  /** Every reported hit is the point of the triangle with the reported
      parameter: the point of the ray at t has barycentric coordinates (u, v)
      inside the triangle. */
  lemma TriangleHitOnTriangle(tri: Triangle, r: Ray, rayT: Interval)
    ensures var t := TriangleHit(tri, r, rayT);
            t.Some? ==> exists u: real, v: real :: InsideTriangle(u, v) && r.PointAt(t.value) == Barycentric(tri, u, v)
  {
    var t := TriangleHit(tri, r, rayT);
    if t.Some? {
      CramerPoint(tri, r);
      var u, v := BaryU(tri, r), BaryV(tri, r);
      assert InsideTriangle(u, v) && r.PointAt(t.value) == Barycentric(tri, u, v);
    }
  }

  /** `std::min({a, b, c})`. */
  function Min3(a: real, b: real, c: real): (m: real)
    ensures m <= a && m <= b && m <= c
    ensures m == a || m == b || m == c
  {
    if b < a then (if c < b then c else b) else (if c < a then c else a)
  }

  /** `std::max({a, b, c})`. */
  function Max3(a: real, b: real, c: real): (m: real)
    ensures a <= m && b <= m && c <= m
    ensures m == a || m == b || m == c
  {
    if a < b then (if b < c then c else b) else (if a < c then c else a)
  }

  /**
   * `Triangle::bounding_box`: the box from the per-axis minimum corner to the
   * per-axis maximum corner, which is the smallest box holding the three
   * vertices.
   */
  function TriangleBox(tri: Triangle): (box: Aabb)
    ensures box.x == Interval(Fin(Min3(tri.v0.x, tri.v1.x, tri.v2.x)), Fin(Max3(tri.v0.x, tri.v1.x, tri.v2.x)))
    ensures box.y == Interval(Fin(Min3(tri.v0.y, tri.v1.y, tri.v2.y)), Fin(Max3(tri.v0.y, tri.v1.y, tri.v2.y)))
    ensures box.z == Interval(Fin(Min3(tri.v0.z, tri.v1.z, tri.v2.z)), Fin(Max3(tri.v0.z, tri.v1.z, tri.v2.z)))
    ensures box.WellFormed()
    ensures box.ContainsPoint(tri.v0) && box.ContainsPoint(tri.v1) && box.ContainsPoint(tri.v2)
    ensures forall c: Aabb :: c.ContainsPoint(tri.v0) && c.ContainsPoint(tri.v1) && c.ContainsPoint(tri.v2)
                              ==> Within(box, c)
  {
    var lo := Vec3(Min3(tri.v0.x, tri.v1.x, tri.v2.x), Min3(tri.v0.y, tri.v1.y, tri.v2.y), Min3(tri.v0.z, tri.v1.z, tri.v2.z));
    var hi := Vec3(Max3(tri.v0.x, tri.v1.x, tri.v2.x), Max3(tri.v0.y, tri.v1.y, tri.v2.y), Max3(tri.v0.z, tri.v1.z, tri.v2.z));
    FromPoints(lo, hi)
  }

  /** A convex combination of three reals lies between their minimum and
      maximum. */
  lemma ConvexBetween(u: real, v: real, a: real, b: real, c: real)
    requires InsideTriangle(u, v)
    ensures Interval(Fin(Min3(a, b, c)), Fin(Max3(a, b, c))).Contains(a + u * (b - a) + v * (c - a))
  {
    WeightedAbove(u, v, Min3(a, b, c), a, b, c);
    WeightedBelow(u, v, Max3(a, b, c), a, b, c);
  }

  lemma WeightedAbove(u: real, v: real, lo: real, a: real, b: real, c: real)
    requires InsideTriangle(u, v)
    requires lo <= a && lo <= b && lo <= c
    ensures lo <= a + u * (b - a) + v * (c - a)
  {
    var w := 1.0 - u - v;
    MulNonNegative(w, a - lo);
    MulNonNegative(u, b - lo);
    MulNonNegative(v, c - lo);
    assert a + u * (b - a) + v * (c - a) - lo == w * (a - lo) + u * (b - lo) + v * (c - lo);
  }

  lemma WeightedBelow(u: real, v: real, hi: real, a: real, b: real, c: real)
    requires InsideTriangle(u, v)
    requires a <= hi && b <= hi && c <= hi
    ensures a + u * (b - a) + v * (c - a) <= hi
  {
    var w := 1.0 - u - v;
    MulNonNegative(w, hi - a);
    MulNonNegative(u, hi - b);
    MulNonNegative(v, hi - c);
    assert hi - (a + u * (b - a) + v * (c - a)) == w * (hi - a) + u * (hi - b) + v * (hi - c);
  }

  /** Every point of the triangle lies in its bounding box. */
  lemma BarycentricInBox(tri: Triangle, u: real, v: real)
    requires InsideTriangle(u, v)
    ensures TriangleBox(tri).ContainsPoint(Barycentric(tri, u, v))
  {
    var p, box := Barycentric(tri, u, v), TriangleBox(tri);
    BarycentricCoordinates(tri, u, v);
    var px, py, pz := p.x, p.y, p.z;
    BarycentricAxes(tri, u, v);
    assert box.x.Contains(px) && box.y.Contains(py) && box.z.Contains(pz);
  }

  lemma BarycentricAxes(tri: Triangle, u: real, v: real)
    requires InsideTriangle(u, v)
    ensures TriangleBox(tri).x.Contains(tri.v0.x + u * (tri.v1.x - tri.v0.x) + v * (tri.v2.x - tri.v0.x))
    ensures TriangleBox(tri).y.Contains(tri.v0.y + u * (tri.v1.y - tri.v0.y) + v * (tri.v2.y - tri.v0.y))
    ensures TriangleBox(tri).z.Contains(tri.v0.z + u * (tri.v1.z - tri.v0.z) + v * (tri.v2.z - tri.v0.z))
  {
    ConvexBetween(u, v, tri.v0.x, tri.v1.x, tri.v2.x);
    ConvexBetween(u, v, tri.v0.y, tri.v1.y, tri.v2.y);
    ConvexBetween(u, v, tri.v0.z, tri.v1.z, tri.v2.z);
  }

  lemma BarycentricCoordinates(tri: Triangle, u: real, v: real)
    ensures Barycentric(tri, u, v).x == tri.v0.x + u * (tri.v1.x - tri.v0.x) + v * (tri.v2.x - tri.v0.x)
    ensures Barycentric(tri, u, v).y == tri.v0.y + u * (tri.v1.y - tri.v0.y) + v * (tri.v2.y - tri.v0.y)
    ensures Barycentric(tri, u, v).z == tri.v0.z + u * (tri.v1.z - tri.v0.z) + v * (tri.v2.z - tri.v0.z)
  {
  }

  /** The point of a reported hit lies in the triangle's bounding box. */
  lemma TriangleHitInBox(tri: Triangle, r: Ray, rayT: Interval)
    ensures var t := TriangleHit(tri, r, rayT);
            t.Some? ==> TriangleBox(tri).ContainsPoint(r.PointAt(t.value))
  {
    var t := TriangleHit(tri, r, rayT);
    if t.Some? {
      CramerPoint(tri, r);
      BarycentricInBox(tri, BaryU(tri, r), BaryV(tri, r));
    }
  }

  /** A tokenised line of an OBJ file: `v x y z`, `f i j k`, or anything else,
      which the reader skips. */
  datatype Line = VertexLine(x: real, y: real, z: real) | FaceLine(i: int, j: int, k: int) | OtherLine

  /** The vertices read from the given lines, in file order. */
  function VerticesOf(lines: seq<Line>): seq<Vec3>
  {
    if lines == [] then []
    else
      var last := lines[|lines| - 1];
      VerticesOf(lines[..|lines| - 1]) + (if last.VertexLine? then [Vec3(last.x, last.y, last.z)] else [])
  }

  /** The 1-based face indices refer to vertices already read. */
  predicate IndicesInRange(line: Line, count: nat)
    requires line.FaceLine?
  {
    1 <= line.i <= count && 1 <= line.j <= count && 1 <= line.k <= count
  }

  /** Every face line refers only to vertices read before it. */
  predicate FacesValid(lines: seq<Line>) {
    forall n :: 0 <= n < |lines| && lines[n].FaceLine? ==> IndicesInRange(lines[n], |VerticesOf(lines[..n])|)
  }

  lemma FacesValidPrefix(lines: seq<Line>, m: nat)
    requires FacesValid(lines) && m <= |lines|
    ensures FacesValid(lines[..m])
  {
    forall n | 0 <= n < m && lines[..m][n].FaceLine?
      ensures IndicesInRange(lines[..m][n], |VerticesOf(lines[..m][..n])|)
    {
      assert lines[..m][..n] == lines[..n];
    }
  }

  /** The triangles built from the given lines, in file order. */
  function TrianglesOf(lines: seq<Line>): seq<Triangle>
    requires FacesValid(lines)
  {
    if lines == [] then []
    else
      var prefix := lines[..|lines| - 1];
      var last := lines[|lines| - 1];
      assert FacesValid(prefix) by { FacesValidPrefix(lines, |lines| - 1); }
      var vertices := VerticesOf(prefix);
      TrianglesOf(prefix) +
        (if last.FaceLine? then
           assert IndicesInRange(last, |vertices|);
           [Triangle(vertices[last.i - 1], vertices[last.j - 1], vertices[last.k - 1])]
         else [])
  }

  /**
   * `OBJLoader::load_obj`. A file that cannot be opened is `None` and yields
   * no triangles. Otherwise each vertex line appends a vertex, each face line
   * appends the triangle of the three vertices it names, and other lines are
   * skipped.
   */
  method LoadObj(file: Option<seq<Line>>) returns (triangles: seq<Triangle>)
    requires file.Some? ==> FacesValid(file.value)
    ensures file.None? ==> triangles == []
    ensures file.Some? ==> triangles == TrianglesOf(file.value)
  {
    triangles := [];
    if file.None? {
      return;
    }
    var lines := file.value;
    var vertices: seq<Vec3> := [];
    var n := 0;
    while n < |lines|
      invariant 0 <= n <= |lines|
      invariant FacesValid(lines[..n])
      invariant vertices == VerticesOf(lines[..n])
      invariant triangles == TrianglesOf(lines[..n])
      decreases |lines| - n
    {
      assert lines[..n + 1][..n] == lines[..n];
      FacesValidPrefix(lines, n + 1);
      match lines[n] {
        case VertexLine(x, y, z) =>
          vertices := vertices + [Vec3(x, y, z)];
        case FaceLine(i, j, k) =>
          assert IndicesInRange(lines[n], |vertices|);
          triangles := triangles + [Triangle(vertices[i - 1], vertices[j - 1], vertices[k - 1])];
        case OtherLine =>
      }
      n := n + 1;
    }
    assert lines[..n] == lines;
  }

  /** The number of face lines, counted from the front. */
  function FaceCount(lines: seq<Line>): nat {
    if lines == [] then 0 else (if lines[0].FaceLine? then 1 else 0) + FaceCount(lines[1..])
  }

  /** The points of the vertex lines, collected from the front. */
  function Points(lines: seq<Line>): seq<Vec3> {
    if lines == [] then []
    else (if lines[0].VertexLine? then [Vec3(lines[0].x, lines[0].y, lines[0].z)] else []) + Points(lines[1..])
  }

  lemma {:induction false} FaceCountAppend(lines: seq<Line>, extra: seq<Line>)
    ensures FaceCount(lines + extra) == FaceCount(lines) + FaceCount(extra)
  {
    if lines == [] {
      assert lines + extra == extra;
    } else {
      assert (lines + extra)[1..] == lines[1..] + extra;
      FaceCountAppend(lines[1..], extra);
    }
  }

  lemma {:induction false} PointsAppend(lines: seq<Line>, extra: seq<Line>)
    ensures Points(lines + extra) == Points(lines) + Points(extra)
  {
    if lines == [] {
      assert lines + extra == extra;
    } else {
      var both := lines + extra;
      assert both[0] == lines[0] && both[1..] == lines[1..] + extra;
      PointsAppend(lines[1..], extra);
      var head := if lines[0].VertexLine? then [Vec3(lines[0].x, lines[0].y, lines[0].z)] else [];
      assert Points(both) == head + Points(both[1..]);
      assert Points(lines) == head + Points(lines[1..]);
    }
  }

  /** Vertex lines add vertices in file order: the reader's vertex list is
      the sequence of all vertex-line points. */
  lemma {:induction false} VerticesInOrder(lines: seq<Line>)
    ensures VerticesOf(lines) == Points(lines)
  {
    if lines != [] {
      var prefix, last := lines[..|lines| - 1], lines[|lines| - 1];
      VerticesInOrder(prefix);
      assert lines == prefix + [last];
      PointsAppend(prefix, [last]);
    }
  }

  /** Each face line adds exactly one triangle, and nothing else adds one. */
  lemma {:induction false} TriangleCount(lines: seq<Line>)
    requires FacesValid(lines)
    ensures |TrianglesOf(lines)| == FaceCount(lines)
  {
    if lines != [] {
      var prefix, last := lines[..|lines| - 1], lines[|lines| - 1];
      FacesValidPrefix(lines, |lines| - 1);
      TriangleCount(prefix);
      assert lines == prefix + [last];
      FaceCountAppend(prefix, [last]);
    }
  }

  /** Reading more lines only appends triangles. */
  lemma {:induction false} TrianglesGrow(lines: seq<Line>, m: nat)
    requires FacesValid(lines) && m <= |lines|
    ensures FacesValid(lines[..m])
    ensures TrianglesOf(lines[..m]) <= TrianglesOf(lines)
    decreases |lines| - m
  {
    FacesValidPrefix(lines, m);
    if m < |lines| {
      TrianglesGrow(lines, m + 1);
      var longer := lines[..m + 1];
      assert longer[..|longer| - 1] == lines[..m];
    } else {
      assert lines[..m] == lines;
    }
  }

  /** The face line at position n produces triangle number FaceCount of the
      lines before it, made of the vertices it names among those read so far. */
  lemma FaceMakesTriangle(lines: seq<Line>, n: nat)
    requires FacesValid(lines) && n < |lines| && lines[n].FaceLine?
    ensures FacesValid(lines[..n])
    ensures var line, vertices := lines[n], VerticesOf(lines[..n]);
            var index := FaceCount(lines[..n]);
            && IndicesInRange(line, |vertices|)
            && index < |TrianglesOf(lines)|
            && TrianglesOf(lines)[index] == Triangle(vertices[line.i - 1], vertices[line.j - 1], vertices[line.k - 1])
  {
    var longer := lines[..n + 1];
    FacesValidPrefix(lines, n + 1);
    assert longer[..n] == lines[..n] && longer[n] == lines[n];
    LastFace(longer);
    TriangleCount(lines[..n]);
    TrianglesGrow(lines, n + 1);
  }

  /** A last line that is a face adds its triangle after those of the lines
      before it. */
  lemma LastFace(lines: seq<Line>)
    requires FacesValid(lines) && lines != [] && lines[|lines| - 1].FaceLine?
    ensures var prefix, last := lines[..|lines| - 1], lines[|lines| - 1];
            var vertices := VerticesOf(prefix);
            && FacesValid(prefix)
            && IndicesInRange(last, |vertices|)
            && TrianglesOf(lines) == TrianglesOf(prefix) + [Triangle(vertices[last.i - 1], vertices[last.j - 1], vertices[last.k - 1])]
  {
    FacesValidPrefix(lines, |lines| - 1);
  }
}
