// The soft body behind a ClusterSlime: its Verlet particles and springs,
// registered with the global physics world. `calculateProperties`
// (sketch.js:705-727) derives the slime's centre, velocity and radius
// from the particles; `destroy` (sketch.js:871-880) unregisters them.

module SoftBody {
  import opened Slimes

  /** A Verlet particle: its current and previous position; its velocity
      (`getVelocity`) is the difference of the two. */
  datatype Particle = Particle(id: nat, pos: Vec, prev: Vec)
  {
    function Velocity(): Vec { Vec(pos.x - prev.x, pos.y - prev.y) }
  }

  /** A spring between two particles, named by its identity. */
  datatype Spring = Spring(id: nat, a: nat, b: nat)

  /** The sum of the particles' positions. */
  function SumPos(ps: seq<Particle>): Vec
  {
    if ps == [] then Vec(0.0, 0.0) else SumPos(ps[..|ps| - 1]).Plus(ps[|ps| - 1].pos)
  }

  /** The sum of the particles' velocities. */
  function SumVel(ps: seq<Particle>): Vec
  {
    if ps == [] then Vec(0.0, 0.0) else SumVel(ps[..|ps| - 1]).Plus(ps[|ps| - 1].Velocity())
  }

  /** The identities of the particles. */
  function ParticleIds(ps: seq<Particle>): set<nat>
  {
    if ps == [] then {} else ParticleIds(ps[..|ps| - 1]) + {ps[|ps| - 1].id}
  }

  /** The identities of the springs. */
  function SpringIds(ss: seq<Spring>): set<nat>
  {
    if ss == [] then {} else SpringIds(ss[..|ss| - 1]) + {ss[|ss| - 1].id}
  }

  /** The sum of the offsets of the particles from the point `c`. */
  function Offset(ps: seq<Particle>, c: Vec): Vec
  {
    if ps == [] then Vec(0.0, 0.0)
    else Offset(ps[..|ps| - 1], c).Plus(Vec(ps[|ps| - 1].pos.x - c.x, ps[|ps| - 1].pos.y - c.y))
  }

  /** Summing the offsets from `c` is summing the positions less |ps|
      copies of `c`. */
  lemma {:induction false} OffsetSum(ps: seq<Particle>, c: Vec)
    ensures Offset(ps, c) == Vec(SumPos(ps).x - |ps| as real * c.x, SumPos(ps).y - |ps| as real * c.y)
  {
    if ps != [] {
      OffsetSum(ps[..|ps| - 1], c);
    }
  }

  /** The centroid balances the particles: their offsets from it sum to
      zero. */
  lemma CentroidBalances(ps: seq<Particle>, c: Vec)
    requires IsMean(c, SumPos(ps), |ps|)
    ensures Offset(ps, c) == Vec(0.0, 0.0)
  {
    OffsetSum(ps, c);
  }

  /** Scaling a sum by 1/n and back by n gives the sum. */
  lemma MeanTimesCount(total: real, n: real)
    requires 0.0 < n
    ensures (1.0 / n * total) * n == total
  {
  }

  /** `distanceTo` from a particle to a point. */
  function DistTo(p: Particle, x: real, y: real, sqrt: real -> real): (d: real)
    requires IsSqrt(sqrt)
    ensures 0.0 <= d
  {
    sqrt(DistSq(p.pos.x, p.pos.y, x, y))
  }

  /** `mean` is `total` divided by `count`, component by component. */
  predicate IsMean(mean: Vec, total: Vec, count: nat)
  {
    mean.x * count as real == total.x && mean.y * count as real == total.y
  }

  /** The first loop of `calculateProperties` and the scaling after it:
      the centroid of the particles and their mean velocity. */
  method Means(ps: seq<Particle>) returns (com: Vec, v: Vec)
    requires ps != []
    ensures IsMean(com, SumPos(ps), |ps|) && IsMean(v, SumVel(ps), |ps|)
  {
    com := Vec(0.0, 0.0);
    v := Vec(0.0, 0.0);
    for k := 0 to |ps|
      invariant com == SumPos(ps[..k]) && v == SumVel(ps[..k])
    {
      assert ps[..k + 1][..k] == ps[..k];
      com := com.Plus(ps[k].pos);
      v := v.Plus(ps[k].Velocity());
    }
    assert ps[..|ps|] == ps;
    var n := |ps| as real;
    ghost var sumPos, sumVel := com, v;
    com := com.Scale(1.0 / n);
    v := v.Scale(1.0 / n);
    MeanTimesCount(sumPos.x, n);
    MeanTimesCount(sumPos.y, n);
    MeanTimesCount(sumVel.x, n);
    MeanTimesCount(sumVel.y, n);
  }

  /** The second loop of `calculateProperties`: the largest distance from
      (cx, cy) to a particle, starting from 0; it bounds every particle's
      distance and is attained by one of them. */
  method MaxDistance(ps: seq<Particle>, cx: real, cy: real, sqrt: real -> real) returns (maxDist: real)
    requires IsSqrt(sqrt) && ps != []
    ensures 0.0 <= maxDist
    ensures forall m :: 0 <= m < |ps| ==> DistTo(ps[m], cx, cy, sqrt) <= maxDist
    ensures exists m :: 0 <= m < |ps| && DistTo(ps[m], cx, cy, sqrt) == maxDist
  {
    maxDist := 0.0;
    for k := 0 to |ps|
      invariant 0.0 <= maxDist
      invariant forall m :: 0 <= m < k ==> DistTo(ps[m], cx, cy, sqrt) <= maxDist
      invariant k == 0 ==> maxDist == 0.0
      invariant 0 < k ==> exists m :: 0 <= m < k && DistTo(ps[m], cx, cy, sqrt) == maxDist
    {
      var d := DistTo(ps[k], cx, cy, sqrt);
      if d > maxDist {
        maxDist := d;
      }
      assert DistTo(ps[k], cx, cy, sqrt) == maxDist || exists m :: 0 <= m < k && DistTo(ps[m], cx, cy, sqrt) == maxDist;
    }
  }

  /** The registry of the global physics world: the particles and springs
      it integrates, by identity. */
  class Physics {
    var particles: set<nat>
    var springs: set<nat>

    constructor ()
      ensures particles == {} && springs == {}
    {
      particles := {};
      springs := {};
    }

    /** `removeParticle`: the world stops integrating the particle. */
    method RemoveParticle(id: nat)
      modifies this
      ensures particles == old(particles) - {id} && springs == old(springs)
    {
      particles := particles - {id};
    }

    /** `removeSpring`: the world stops applying the spring. */
    method RemoveSpring(id: nat)
      modifies this
      ensures springs == old(springs) - {id} && particles == old(particles)
    {
      springs := springs - {id};
    }
  }

  /** The fields of a ClusterSlime that its soft body drives. */
  class ClusterBody {
    var x: real
    var y: real
    var r: real
    var vel: Vec
    var particles: seq<Particle>
    var springs: seq<Spring>

    constructor (x: real, y: real, r: real, vel: Vec, particles: seq<Particle>, springs: seq<Spring>)
      ensures this.x == x && this.y == y && this.r == r && this.vel == vel
      ensures this.particles == particles && this.springs == springs
    {
      this.x, this.y, this.r, this.vel := x, y, r, vel;
      this.particles, this.springs := particles, springs;
    }

    /** `calculateProperties`: with no particles nothing changes; otherwise
        the centre is the particles' centroid, the velocity their mean
        velocity, and the radius the largest distance from the centre to a
        particle, so every particle lies within it and one lies on it. */
    method CalculateProperties(sqrt: real -> real)
      requires IsSqrt(sqrt)
      modifies this
      ensures particles == old(particles) && springs == old(springs)
      ensures particles == [] ==> x == old(x) && y == old(y) && r == old(r) && vel == old(vel)
      ensures particles != [] ==>
        && IsMean(Vec(x, y), SumPos(particles), |particles|)
        && IsMean(vel, SumVel(particles), |particles|)
        && 0.0 <= r
        && (forall k :: 0 <= k < |particles| ==> DistTo(particles[k], x, y, sqrt) <= r)
        && (exists k :: 0 <= k < |particles| && DistTo(particles[k], x, y, sqrt) == r)
    {
      if |particles| == 0 {
        return;
      }
      var com, v := Means(particles);
      x := com.x;
      y := com.y;
      vel := Vec(v.x, v.y);
      var maxDist := MaxDistance(particles, com.x, com.y, sqrt);
      r := maxDist;
    }

    /** `destroy`: every particle and spring of the body is removed from the
        physics world, which keeps everything else, and the body is left
        with none; on a body already destroyed it removes nothing. */
    method Destroy(physics: Physics)
      modifies this, physics
      ensures physics.particles == old(physics.particles) - ParticleIds(old(particles))
      ensures physics.springs == old(physics.springs) - SpringIds(old(springs))
      ensures old(particles) == [] && old(springs) == [] ==>
        physics.particles == old(physics.particles) && physics.springs == old(physics.springs)
      ensures particles == [] && springs == []
      ensures x == old(x) && y == old(y) && r == old(r) && vel == old(vel)
    {
      for k := 0 to |particles|
        modifies physics
        invariant physics.particles == old(physics.particles) - ParticleIds(particles[..k])
        invariant physics.springs == old(physics.springs)
      {
        assert particles[..k + 1][..k] == particles[..k];
        physics.RemoveParticle(particles[k].id);
      }
      assert particles[..|particles|] == particles;
      for k := 0 to |springs|
        modifies physics
        invariant physics.particles == old(physics.particles) - ParticleIds(particles)
        invariant physics.springs == old(physics.springs) - SpringIds(springs[..k])
      {
        assert springs[..k + 1][..k] == springs[..k];
        physics.RemoveSpring(springs[k].id);
      }
      assert springs[..|springs|] == springs;
      particles := [];
      springs := [];
    }
  }
}
