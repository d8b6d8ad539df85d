/**
 * Random sampling (rt.h's generator as used by vec3.h). The generator is an
 * endless stream of draws in [0, 1) and a position in it; each draw consumes
 * one element. The `while (true)` rejection loops draw candidates until one
 * lies inside the unit disk or ball; they terminate only if the stream holds
 * such a candidate, which is their precondition.
 */
module Sampling {
  import opened Numbers
  import opened Vectors

  /** `random_double(min, max)` for a draw u of `random_double()`. */
  function Uniform(lo: real, hi: real, u: real): (x: real)
    requires 0.0 <= u < 1.0
    ensures lo < hi ==> lo <= x < hi
    ensures lo == hi ==> x == lo
  {
    var x := lo + u * (hi - lo);
    assert lo < hi ==> lo <= x < hi by {
      if lo < hi {
        var d := hi - lo;
        MulStrict(u, 1.0, d);
        MulMonotone(0.0, u, d);
        assert 0.0 <= u * d < d;
      }
    }
    x
  }

  /** The generator: the draws it will produce and how many it has produced. */
  class Rng {
    const sample: nat -> real
    var pos: nat

    ghost predicate Valid()
    {
      forall n: nat :: 0.0 <= sample(n) < 1.0
    }

    constructor (sample: nat -> real)
      requires forall n: nat :: 0.0 <= sample(n) < 1.0
      ensures Valid() && this.sample == sample && pos == 0
    {
      this.sample := sample;
      pos := 0;
    }

    /** `random_double()`: the next draw, in [0, 1). */
    method RandomDouble() returns (u: real)
      requires Valid()
      modifies this
      ensures 0.0 <= u < 1.0
      ensures u == sample(old(pos)) && pos == old(pos) + 1
    {
      u := sample(pos);
      pos := pos + 1;
    }

    /** `random_double(min, max)`: the next draw mapped to [min, max). */
    method RandomRange(lo: real, hi: real) returns (x: real)
      requires Valid()
      modifies this
      ensures lo < hi ==> lo <= x < hi
      ensures x == Uniform(lo, hi, sample(old(pos))) && pos == old(pos) + 1
    {
      var u := RandomDouble();
      x := Uniform(lo, hi, u);
    }
  }

  /** The disk candidate built from the two draws at position p. */
  function DiskCandidate(sample: nat -> real, p: nat): Vec3
    requires forall n: nat :: 0.0 <= sample(n) < 1.0
  {
    Vec3(Uniform(-1.0, 1.0, sample(p)), Uniform(-1.0, 1.0, sample(p + 1)), 0.0)
  }

  /** Attempt k of a disk loop started at position p is accepted. */
  predicate DiskAccepts(sample: nat -> real, p: nat, k: nat)
    requires forall n: nat :: 0.0 <= sample(n) < 1.0
  {
    LengthSquared(DiskCandidate(sample, p + 2 * k)) < 1.0
  }

  /** The ball candidate built from the three draws at position p. */
  function BallCandidate(sample: nat -> real, p: nat): Vec3
    requires forall n: nat :: 0.0 <= sample(n) < 1.0
  {
    Vec3(Uniform(-1.0, 1.0, sample(p)), Uniform(-1.0, 1.0, sample(p + 1)), Uniform(-1.0, 1.0, sample(p + 2)))
  }

  /** Attempt k of a ball loop started at position p is accepted. */
  predicate BallAccepts(sample: nat -> real, p: nat, k: nat)
    requires forall n: nat :: 0.0 <= sample(n) < 1.0
  {
    LengthSquared(BallCandidate(sample, p + 3 * k)) < 1.0
  }

  /** A disk loop started at position p terminates. */
  ghost predicate DiskEventually(sample: nat -> real, p: nat)
    requires forall n: nat :: 0.0 <= sample(n) < 1.0
  {
    exists k: nat :: DiskAccepts(sample, p, k)
  }

  /** A disk loop started at any position terminates. */
  ghost predicate DiskFair(sample: nat -> real)
    requires forall n: nat :: 0.0 <= sample(n) < 1.0
  {
    forall p: nat :: DiskEventually(sample, p)
  }

  /** `random_in_unit_disk`: a point of the open unit disk in the plane z = 0,
      namely the first accepted candidate of the stream: the loop consumed two
      draws per attempt and rejected every earlier attempt. */
  method RandomInUnitDisk(rng: Rng) returns (p: Vec3, ghost rejected: nat)
    requires rng.Valid() && DiskEventually(rng.sample, rng.pos)
    modifies rng
    ensures p.z == 0.0 && LengthSquared(p) < 1.0
    ensures -1.0 <= p.x < 1.0 && -1.0 <= p.y < 1.0
    ensures rng.pos == old(rng.pos) + 2 * rejected + 2
    ensures p == DiskCandidate(rng.sample, old(rng.pos) + 2 * rejected)
    ensures forall k: nat :: k < rejected ==> !DiskAccepts(rng.sample, old(rng.pos), k)
  {
    ghost var start := rng.pos;
    ghost var bound: nat :| DiskAccepts(rng.sample, start, bound);
    ghost var tries: nat := 0;
    while true
      invariant rng.pos == start + 2 * tries && tries <= bound
      invariant forall k: nat :: k < tries ==> !DiskAccepts(rng.sample, start, k)
      decreases bound - tries
    {
      var x := rng.RandomRange(-1.0, 1.0);
      var y := rng.RandomRange(-1.0, 1.0);
      p := Vec3(x, y, 0.0);
      assert p == DiskCandidate(rng.sample, start + 2 * tries);
      if LengthSquared(p) < 1.0 {
        rejected := tries;
        return;
      }
      tries := tries + 1;
    }
  }

  /** `random_in_unit_sphere`: a point of the open unit ball, namely the first
      accepted candidate of the stream: three draws per attempt, every earlier
      attempt rejected. */
  method RandomInUnitSphere(rng: Rng) returns (p: Vec3, ghost rejected: nat)
    requires rng.Valid() && exists k: nat :: BallAccepts(rng.sample, rng.pos, k)
    modifies rng
    ensures LengthSquared(p) < 1.0
    ensures -1.0 <= p.x < 1.0 && -1.0 <= p.y < 1.0 && -1.0 <= p.z < 1.0
    ensures rng.pos == old(rng.pos) + 3 * rejected + 3
    ensures p == BallCandidate(rng.sample, old(rng.pos) + 3 * rejected)
    ensures forall k: nat :: k < rejected ==> !BallAccepts(rng.sample, old(rng.pos), k)
  {
    ghost var start := rng.pos;
    ghost var bound: nat :| BallAccepts(rng.sample, start, bound);
    ghost var tries: nat := 0;
    while true
      invariant rng.pos == start + 3 * tries && tries <= bound
      invariant forall k: nat :: k < tries ==> !BallAccepts(rng.sample, start, k)
      decreases bound - tries
    {
      var x := rng.RandomRange(-1.0, 1.0);
      var y := rng.RandomRange(-1.0, 1.0);
      var z := rng.RandomRange(-1.0, 1.0);
      p := Vec3(x, y, z);
      assert p == BallCandidate(rng.sample, start + 3 * tries);
      if LengthSquared(p) < 1.0 {
        rejected := tries;
        return;
      }
      tries := tries + 1;
    }
  }

  /** The sign choice of `random_on_hemisphere`: v if it points to the side of
      the normal, otherwise -v. */
  function OnHemisphere(v: Vec3, normal: Vec3): (r: Vec3)
    ensures r == v || r == Neg(v)
    ensures 0.0 <= Dot(r, normal) && Dot(r, normal) == Abs(Dot(v, normal))
  {
    if Dot(v, normal) > 0.0 then v else Neg(v)
  }

  /** `random_unit_vector`: the normalised ball sample. */
  method RandomUnitVector(rng: Rng, sqrt: real -> real) returns (u: Vec3, ghost p: Vec3)
    requires rng.Valid() && exists k: nat :: BallAccepts(rng.sample, rng.pos, k)
    modifies rng
    ensures LengthSquared(p) < 1.0 && u == UnitVector(p, sqrt)
    ensures IsSqrt(sqrt) && 0.0 < LengthSquared(p) ==> LengthSquared(u) == 1.0
  {
    var q, _ := RandomInUnitSphere(rng);
    p := q;
    u := UnitVector(q, sqrt);
    if IsSqrt(sqrt) && 0.0 < LengthSquared(p) {
      UnitVectorIsUnit(p, sqrt);
    }
  }

  /** `random_on_hemisphere(normal)`: a unit-ball direction, normalised and
      turned to the side of the normal. */
  method RandomOnHemisphere(rng: Rng, normal: Vec3, sqrt: real -> real) returns (r: Vec3, ghost p: Vec3)
    requires rng.Valid() && exists k: nat :: BallAccepts(rng.sample, rng.pos, k)
    modifies rng
    ensures LengthSquared(p) < 1.0
    ensures r == UnitVector(p, sqrt) || r == Neg(UnitVector(p, sqrt))
    ensures 0.0 <= Dot(r, normal)
    ensures IsSqrt(sqrt) && 0.0 < LengthSquared(p) ==> LengthSquared(r) == 1.0
  {
    var u;
    u, p := RandomUnitVector(rng, sqrt);
    r := OnHemisphere(u, normal);
  }
}
