// The target selection of `KillerSlime.calculateSteering`
// (sketch.js:938-971): which agents the killer flees and which one it
// hunts. The forces built from them (`seek`, `flee`, `setMag`, `limit`)
// are not modelled.

module Steering {
  import opened Slimes

  datatype Option<T> = None | Some(value: T)

  /** A bigger agent closer than the killer's radius plus this is fled. */
  const FleeMargin := 100.0

  /** `dist` between the centres of two agents. */
  function Dist(a: Agent, b: Agent, sqrt: real -> real): (d: real)
    requires IsSqrt(sqrt)
    ensures 0.0 <= d
  {
    sqrt(DistSq(a.x, a.y, b.x, b.y))
  }

  /** Agent k is a predator of the killer at index `me`: another agent,
      strictly larger, within the flee radius. */
  predicate IsPredator(slimes: seq<Agent>, me: nat, k: nat, sqrt: real -> real)
    requires IsSqrt(sqrt) && me < |slimes| && k < |slimes|
  {
    k != me && slimes[k].r > slimes[me].r && Dist(slimes[me], slimes[k], sqrt) < slimes[me].r + FleeMargin
  }

  /** Agent k is prey of the killer at index `me`: another agent no larger
      than it, however far away. */
  predicate IsPrey(slimes: seq<Agent>, me: nat, k: nat)
    requires me < |slimes| && k < |slimes|
  {
    k != me && slimes[k].r <= slimes[me].r
  }

  /** The predators among the first m agents, in index order. */
  function Predators(slimes: seq<Agent>, me: nat, sqrt: real -> real, m: nat): seq<nat>
    requires IsSqrt(sqrt) && me < |slimes| && m <= |slimes|
  {
    if m == 0 then []
    else Predators(slimes, me, sqrt, m - 1) + if IsPredator(slimes, me, m - 1, sqrt) then [m - 1] else []
  }

  /** The predators are exactly the agents that are predators, each listed
      once, in increasing index order. */
  lemma {:induction false} PredatorsExactly(slimes: seq<Agent>, me: nat, sqrt: real -> real, m: nat)
    requires IsSqrt(sqrt) && me < |slimes| && m <= |slimes|
    ensures forall k: nat :: k in Predators(slimes, me, sqrt, m) <==> k < m && IsPredator(slimes, me, k, sqrt)
    ensures forall p, q :: 0 <= p < q < |Predators(slimes, me, sqrt, m)| ==>
      Predators(slimes, me, sqrt, m)[p] < Predators(slimes, me, sqrt, m)[q]
  {
    if m > 0 {
      PredatorsExactly(slimes, me, sqrt, m - 1);
      var before := Predators(slimes, me, sqrt, m - 1);
      var after := Predators(slimes, me, sqrt, m);
      assert forall p :: 0 <= p < |before| ==> before[p] < m - 1 by {
        forall p | 0 <= p < |before| ensures before[p] < m - 1 {
          assert before[p] in before;
        }
      }
      if IsPredator(slimes, me, m - 1, sqrt) {
        assert after == before + [m - 1];
      } else {
        assert after == before;
      }
    }
  }

  /** The first loop of `calculateSteering` and the choice of
      `this.target`: the predators in order; no target when fleeing or
      when there is no prey; otherwise the closest prey, the first one
      found on a tie. */
  method SelectTarget(slimes: seq<Agent>, me: nat, sqrt: real -> real) returns (predators: seq<nat>, target: Option<nat>)
    requires IsSqrt(sqrt) && me < |slimes|
    ensures predators == Predators(slimes, me, sqrt, |slimes|)
    ensures predators != [] ==> target == None
    ensures predators == [] ==>
      (target == None <==> forall k :: 0 <= k < |slimes| ==> !IsPrey(slimes, me, k))
    ensures target.Some? ==>
      var t := target.value;
      && t < |slimes| && IsPrey(slimes, me, t)
      && (forall k :: 0 <= k < |slimes| && IsPrey(slimes, me, k) ==>
            Dist(slimes[me], slimes[t], sqrt) <= Dist(slimes[me], slimes[k], sqrt))
      && (forall k :: 0 <= k < t && IsPrey(slimes, me, k) ==>
            Dist(slimes[me], slimes[t], sqrt) < Dist(slimes[me], slimes[k], sqrt))
  {
    var self := slimes[me];
    predators := [];
    var closestPrey: Option<nat> := None;
    var closestDist := 0.0;
    for k := 0 to |slimes|
      invariant predators == Predators(slimes, me, sqrt, k)
      invariant closestPrey.None? <==> forall m :: 0 <= m < k ==> !IsPrey(slimes, me, m)
      invariant closestPrey.Some? ==>
        var t := closestPrey.value;
        && t < k && IsPrey(slimes, me, t)
        && closestDist == Dist(self, slimes[t], sqrt)
        && (forall m :: 0 <= m < k && IsPrey(slimes, me, m) ==> closestDist <= Dist(self, slimes[m], sqrt))
        && (forall m :: 0 <= m < t && IsPrey(slimes, me, m) ==> closestDist < Dist(self, slimes[m], sqrt))
    {
      if k != me {
        var other := slimes[k];
        var d := Dist(self, other, sqrt);
        if other.r > self.r {
          if d < self.r + FleeMargin {
            predators := predators + [k];
          }
        } else {
          if closestPrey.None? || d < closestDist {
            closestDist := d;
            closestPrey := Some(k);
          }
        }
      }
      assert closestPrey.None? ==> !IsPrey(slimes, me, k);
      assert closestPrey.Some? ==> IsPrey(slimes, me, closestPrey.value) && closestPrey.value < k + 1;
    }
    if |predators| > 0 {
      target := None;
    } else {
      target := closestPrey;
    }
  }
}
