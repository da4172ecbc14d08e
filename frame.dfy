// The collision pass of draw() (sketch.js:105-210) as pure functions: the
// scan over unordered pairs i < j with the `mergedIndices` exclusion set,
// the dispatch of each colliding pair, and the next generation. A log of
// events, one per resolved pair, carries the exclusivity argument; it is
// not part of the sketch's state.

module Frame {
  import opened Slimes
  import opened Collisions

  /** What `createPaintSplatter` is given: the midpoint of the two bombs'
      centres, their two colours and the splatter size. The droplets it
      paints are random and not modelled. */
  datatype Splatter = Splatter(x: real, y: real, c1: Rgba, c2: Rgba, size: real)

  /** How one colliding pair was resolved, by index into the population. */
  datatype Event =
    | Consumed(hole: nat, prey: nat)
    | Detonated(first: nat, second: nat)
    | Merged(first: nat, second: nat)

  /** The state of the scan: the population (whose black holes grow in
      place), `mergedIndices`, `newSlimes`, the splatters painted so far
      and the event log. */
  datatype Scan = Scan(slimes: seq<Agent>, resolved: set<nat>, born: seq<Agent>,
                       splatters: seq<Splatter>, events: seq<Event>)

  /** The scan before the first pair. */
  function Start(slimes: seq<Agent>): Scan
  {
    Scan(slimes, {}, [], [], [])
  }

  /** The splatter of two colliding agents of which one is a bomb. */
  function Explosion(a: Agent, b: Agent): (p: Splatter)
    ensures p.x == (a.x + b.x) / 2.0 && p.y == (a.y + b.y) / 2.0
    ensures Between(p.x, a.x, b.x) && Between(p.y, a.y, b.y)
    ensures p.size == a.r + b.r && p.c1 == a.color && p.c2 == b.color
  {
    Splatter((a.x + b.x) / 2.0, (a.y + b.y) / 2.0, a.color, b.color, a.r + b.r)
  }

  /** One iteration of the inner loop: a pair with a resolved index, or
      that does not intersect, is skipped; otherwise a black hole meeting
      a non-black-hole consumes it, else a bomb detonates both, else the
      two merge. */
  function ResolvePair(s: Scan, i: nat, j: nat, sqrt: real -> real): (t: Scan)
    requires IsSqrt(sqrt) && i < j < |s.slimes|
    ensures |t.slimes| == |s.slimes|
    ensures s.resolved <= t.resolved <= s.resolved + {i, j}
    ensures i in s.resolved || j in s.resolved || !Intersects(s.slimes[i], s.slimes[j]) ==> t == s
    ensures t != s ==> i in t.resolved || j in t.resolved
  {
    var a, b := s.slimes[i], s.slimes[j];
    if i in s.resolved || j in s.resolved || !Intersects(a, b) then
      s
    else if a.kind == BlackHoleSlime && b.kind != BlackHoleSlime then
      s.(slimes := s.slimes[i := Consume(a, b, sqrt)],
         resolved := s.resolved + {j},
         events := s.events + [Consumed(i, j)])
    else if b.kind == BlackHoleSlime && a.kind != BlackHoleSlime then
      s.(slimes := s.slimes[j := Consume(b, a, sqrt)],
         resolved := s.resolved + {i},
         events := s.events + [Consumed(j, i)])
    else if a.shape == Bomb || b.shape == Bomb then
      s.(resolved := s.resolved + {i, j},
         splatters := s.splatters + [Explosion(a, b)],
         events := s.events + [Detonated(i, j)])
    else
      IntersectingHaveArea(a, b);
      s.(resolved := s.resolved + {i, j},
         born := s.born + [Merge(a, b, sqrt)],
         events := s.events + [Merged(i, j)])
  }

  /** The pairs (i, i + 1), ..., (i, j - 1) of row i, in order. */
  function ScanRow(s: Scan, i: nat, j: nat, sqrt: real -> real): (t: Scan)
    requires IsSqrt(sqrt) && i < j <= |s.slimes|
    ensures |t.slimes| == |s.slimes|
    decreases j
  {
    if j == i + 1 then s else ResolvePair(ScanRow(s, i, j - 1, sqrt), i, j - 1, sqrt)
  }

  /** Rows 0, ..., k - 1 in order. */
  function ScanRows(s: Scan, k: nat, sqrt: real -> real): (t: Scan)
    requires IsSqrt(sqrt) && k <= |s.slimes|
    ensures |t.slimes| == |s.slimes|
  {
    if k == 0 then s else ScanRow(ScanRows(s, k - 1, sqrt), k - 1, |s.slimes|, sqrt)
  }

  /** The whole scan of one frame. */
  function ScanFrame(slimes: seq<Agent>, sqrt: real -> real): (f: Scan)
    requires IsSqrt(sqrt)
    ensures |f.slimes| == |slimes|
  {
    ScanRows(Start(slimes), |slimes|, sqrt)
  }

  /** The agents among the first m whose index is not in S, in order. */
  function Survivors(slimes: seq<Agent>, S: set<nat>, m: nat): seq<Agent>
    requires m <= |slimes|
  {
    if m == 0 then []
    else Survivors(slimes, S, m - 1) + (if m - 1 in S then [] else [slimes[m - 1]])
  }

  /** `nextGeneration.concat(newSlimes)`: the unresolved agents in index
      order, then the merge results in the order they were made. */
  function NextGeneration(f: Scan): (g: seq<Agent>)
    ensures |f.born| <= |g| && g[|g| - |f.born|..] == f.born
  {
    Survivors(f.slimes, f.resolved, |f.slimes|) + f.born
  }

  // ---------------------------------------------------------------------
  // The event log

  /** The indices an event marks in `mergedIndices`: only the prey of a
      consumption, both agents otherwise. */
  function Removes(e: Event): set<nat>
  {
    match e
    case Consumed(_, prey) => {prey}
    case Detonated(a, b) => {a, b}
    case Merged(a, b) => {a, b}
  }

  /** The indices of the pair an event resolved. */
  function Involves(e: Event): set<nat>
  {
    match e
    case Consumed(hole, prey) => {hole, prey}
    case Detonated(a, b) => {a, b}
    case Merged(a, b) => {a, b}
  }

  /** The event is about two distinct indices of a population of n. */
  predicate WellFormed(e: Event, n: nat)
  {
    match e
    case Consumed(hole, prey) => hole < n && prey < n && hole != prey
    case Detonated(a, b) => a < b < n
    case Merged(a, b) => a < b < n
  }

  function RemovedBy(events: seq<Event>): set<nat>
  {
    if events == [] then {} else RemovedBy(events[..|events| - 1]) + Removes(events[|events| - 1])
  }

  /** The indices removed by detonations. */
  function Bombed(events: seq<Event>): set<nat>
  {
    if events == [] then {}
    else Bombed(events[..|events| - 1]) +
         (if events[|events| - 1].Detonated? then Removes(events[|events| - 1]) else {})
  }

  /** No event involves an index that an earlier event removed. */
  predicate Exclusive(events: seq<Event>)
  {
    events == [] ||
    (Exclusive(events[..|events| - 1]) && Involves(events[|events| - 1]) !! RemovedBy(events[..|events| - 1]))
  }

  function CountConsumed(events: seq<Event>): nat
  {
    if events == [] then 0
    else CountConsumed(events[..|events| - 1]) + if events[|events| - 1].Consumed? then 1 else 0
  }

  function CountDetonated(events: seq<Event>): nat
  {
    if events == [] then 0
    else CountDetonated(events[..|events| - 1]) + if events[|events| - 1].Detonated? then 1 else 0
  }

  function CountMerged(events: seq<Event>): nat
  {
    if events == [] then 0
    else CountMerged(events[..|events| - 1]) + if events[|events| - 1].Merged? then 1 else 0
  }

  /** How many events removed index k. */
  function Removals(events: seq<Event>, k: nat): nat
  {
    if events == [] then 0
    else Removals(events[..|events| - 1], k) + if k in Removes(events[|events| - 1]) then 1 else 0
  }

  lemma Appended(events: seq<Event>, e: Event)
    ensures RemovedBy(events + [e]) == RemovedBy(events) + Removes(e)
    ensures Bombed(events + [e]) == Bombed(events) + if e.Detonated? then Removes(e) else {}
    ensures Exclusive(events + [e]) <==> Exclusive(events) && Involves(e) !! RemovedBy(events)
    ensures CountConsumed(events + [e]) == CountConsumed(events) + if e.Consumed? then 1 else 0
    ensures CountDetonated(events + [e]) == CountDetonated(events) + if e.Detonated? then 1 else 0
    ensures CountMerged(events + [e]) == CountMerged(events) + if e.Merged? then 1 else 0
  {
    assert (events + [e])[..|events|] == events;
  }

  lemma {:induction false} BombedAreRemoved(events: seq<Event>)
    ensures Bombed(events) <= RemovedBy(events)
  {
    if events != [] {
      BombedAreRemoved(events[..|events| - 1]);
    }
  }

  /** In an exclusive log an index is removed at most once: once in
      `mergedIndices` it is skipped by every later pair. A black hole is
      never removed by its consumptions, so it may consume several. */
  lemma {:induction false} RemovedAtMostOnce(events: seq<Event>, k: nat)
    requires Exclusive(events)
    ensures Removals(events, k) <= 1
    ensures Removals(events, k) == 1 <==> k in RemovedBy(events)
  {
    if events != [] {
      var init, e := events[..|events| - 1], events[|events| - 1];
      RemovedAtMostOnce(init, k);
      assert k in Removes(e) ==> k in Involves(e);
    }
  }

  /** Each consumption removes one index and each detonation or merge two,
      all different. */
  lemma {:induction false} RemovedCount(events: seq<Event>, n: nat)
    requires Exclusive(events)
    requires forall e :: e in events ==> WellFormed(e, n)
    ensures |RemovedBy(events)| == CountConsumed(events) + 2 * (CountDetonated(events) + CountMerged(events))
  {
    if events != [] {
      var init, e := events[..|events| - 1], events[|events| - 1];
      assert forall x :: x in init ==> x in events;
      RemovedCount(init, n);
      assert e in events;
      assert Removes(e) <= Involves(e);
      assert |RemovedBy(init) + Removes(e)| == |RemovedBy(init)| + |Removes(e)|;
    }
  }

  // ---------------------------------------------------------------------
  // Sums of areas

  /** The area of the agents among the first m whose membership in S is
      `inside`. */
  function AreaWhere(slimes: seq<Agent>, S: set<nat>, inside: bool, m: nat): real
    requires m <= |slimes|
  {
    if m == 0 then 0.0
    else AreaWhere(slimes, S, inside, m - 1) + if (m - 1 in S) == inside then Area(slimes[m - 1]) else 0.0
  }

  /** The total area of a population. */
  function SumArea(slimes: seq<Agent>): real
  {
    if slimes == [] then 0.0 else SumArea(slimes[..|slimes| - 1]) + Area(slimes[|slimes| - 1])
  }

  lemma {:induction false} SumAreaAppend(a: seq<Agent>, b: seq<Agent>)
    ensures SumArea(a + b) == SumArea(a) + SumArea(b)
  {
    if b == [] {
      assert a + b == a;
    } else {
      SumAreaAppend(a, b[..|b| - 1]);
      assert (a + b)[..|a + b| - 1] == a + b[..|b| - 1];
    }
  }

  lemma {:induction false} AreaWhereInsert(slimes: seq<Agent>, S: set<nat>, inside: bool, k: nat, m: nat)
    requires m <= |slimes| && k !in S
    ensures AreaWhere(slimes, S + {k}, inside, m) ==
            AreaWhere(slimes, S, inside, m) +
            (if k < m then (if inside then Area(slimes[k]) else -Area(slimes[k])) else 0.0)
  {
    if m > 0 {
      AreaWhereInsert(slimes, S, inside, k, m - 1);
    }
  }

  lemma {:induction false} AreaWhereUpdate(slimes: seq<Agent>, S: set<nat>, inside: bool, k: nat, v: Agent, m: nat)
    requires m <= |slimes| && k < |slimes|
    ensures AreaWhere(slimes[k := v], S, inside, m) ==
            AreaWhere(slimes, S, inside, m) +
            (if k < m && (k in S) == inside then Area(v) - Area(slimes[k]) else 0.0)
  {
    if m > 0 {
      AreaWhereUpdate(slimes, S, inside, k, v, m - 1);
    }
  }

  lemma {:induction false} AreaWhereEmpty(slimes: seq<Agent>, m: nat)
    requires m <= |slimes|
    ensures AreaWhere(slimes, {}, true, m) == 0.0
    ensures AreaWhere(slimes, {}, false, m) == SumArea(slimes[..m])
  {
    if m > 0 {
      AreaWhereEmpty(slimes, m - 1);
      assert slimes[..m][..m - 1] == slimes[..m - 1];
    }
  }

  lemma {:induction false} SurvivorsArea(slimes: seq<Agent>, S: set<nat>, m: nat)
    requires m <= |slimes|
    ensures SumArea(Survivors(slimes, S, m)) == AreaWhere(slimes, S, false, m)
  {
    if m > 0 {
      SurvivorsArea(slimes, S, m - 1);
      SumAreaAppend(Survivors(slimes, S, m - 1), if m - 1 in S then [] else [slimes[m - 1]]);
      assert SumArea([slimes[m - 1]]) == Area(slimes[m - 1]) by {
        assert [slimes[m - 1]][..0] == [];
      }
    }
  }

  // ---------------------------------------------------------------------
  // The scan invariant

  /** What a frame may do to one agent: nothing, or, for a black hole,
      grow its radius. */
  predicate Evolved(before: Agent, after: Agent)
  {
    after == before ||
    (before.kind == BlackHoleSlime && after == before.(r := after.r) && before.r <= after.r)
  }

  /** The invariant of the scan of the population `orig`: the log is
      exclusive and agrees with `mergedIndices`, `newSlimes` and the
      splatters; only black holes changed, by growing; and the area of
      the unresolved agents, the merge results and the detonated agents
      adds up to the area the frame started with. */
  predicate Inv(orig: seq<Agent>, s: Scan)
  {
    && |s.slimes| == |orig|
    && (forall e :: e in s.events ==> WellFormed(e, |orig|))
    && Exclusive(s.events)
    && s.resolved == RemovedBy(s.events)
    && |s.born| == CountMerged(s.events)
    && |s.splatters| == CountDetonated(s.events)
    && (forall k :: 0 <= k < |orig| ==> Evolved(orig[k], s.slimes[k]))
    && AreaWhere(s.slimes, s.resolved, false, |orig|) + SumArea(s.born) +
       AreaWhere(s.slimes, Bombed(s.events), true, |orig|) == SumArea(orig)
  }

  lemma StartInv(slimes: seq<Agent>)
    ensures Inv(slimes, Start(slimes))
  {
    AreaWhereEmpty(slimes, |slimes|);
    assert slimes[..|slimes|] == slimes;
  }

  lemma PairInv(orig: seq<Agent>, s: Scan, i: nat, j: nat, sqrt: real -> real, t: Scan)
    requires IsSqrt(sqrt) && i < j < |s.slimes| && Inv(orig, s)
    requires t == ResolvePair(s, i, j, sqrt)
    ensures Inv(orig, t)
  {
    var a, b := s.slimes[i], s.slimes[j];
    if i in s.resolved || j in s.resolved || !Intersects(a, b) {
    } else if a.kind == BlackHoleSlime && b.kind != BlackHoleSlime {
      ConsumedInv(orig, s, i, j, Consume(a, b, sqrt));
    } else if b.kind == BlackHoleSlime && a.kind != BlackHoleSlime {
      ConsumedInv(orig, s, j, i, Consume(b, a, sqrt));
    } else if a.shape == Bomb || b.shape == Bomb {
      DetonatedInv(orig, s, i, j, Explosion(a, b));
    } else {
      IntersectingHaveArea(a, b);
      MergedInv(orig, s, i, j, Merge(a, b, sqrt));
    }
  }

  /** A consumption keeps the invariant: the hole's gain is the prey's
      loss. */
  lemma ConsumedInv(orig: seq<Agent>, s: Scan, h: nat, p: nat, c: Agent)
    requires Inv(orig, s) && h < |s.slimes| && p < |s.slimes| && h != p
    requires h !in s.resolved && p !in s.resolved
    requires s.slimes[h].kind == BlackHoleSlime
    requires c == s.slimes[h].(r := c.r) && s.slimes[h].r <= c.r
    requires Area(c) == Area(s.slimes[h]) + Area(s.slimes[p])
    ensures Inv(orig, s.(slimes := s.slimes[h := c], resolved := s.resolved + {p},
                         events := s.events + [Consumed(h, p)]))
  {
    var t := s.(slimes := s.slimes[h := c], resolved := s.resolved + {p}, events := s.events + [Consumed(h, p)]);
    var n, R, B := |orig|, s.resolved, Bombed(s.events);
    Appended(s.events, Consumed(h, p));
    BombedAreRemoved(s.events);
    AreaWhereUpdate(s.slimes, R + {p}, false, h, c, n);
    AreaWhereInsert(s.slimes, R, false, p, n);
    AreaWhereUpdate(s.slimes, B, true, h, c, n);
    forall k | 0 <= k < n
      ensures Evolved(orig[k], t.slimes[k])
    {
      assert Evolved(orig[k], s.slimes[k]);
    }
    assert h !in B;
    assert Bombed(t.events) == B;
    assert AreaWhere(t.slimes, B, true, n) == AreaWhere(s.slimes, B, true, n);
    assert AreaWhere(t.slimes, R + {p}, false, n) == AreaWhere(s.slimes, R + {p}, false, n) + Area(c) - Area(s.slimes[h]);
    assert AreaWhere(s.slimes, R + {p}, false, n) == AreaWhere(s.slimes, R, false, n) - Area(s.slimes[p]);
    assert AreaWhere(t.slimes, t.resolved, false, |orig|) + SumArea(t.born) +
       AreaWhere(t.slimes, Bombed(t.events), true, |orig|) == SumArea(orig);
  }

  /** A detonation keeps the invariant: the two agents' area moves from
      the unresolved to the detonated. */
  lemma DetonatedInv(orig: seq<Agent>, s: Scan, i: nat, j: nat, splat: Splatter)
    requires Inv(orig, s) && i < j < |s.slimes|
    requires i !in s.resolved && j !in s.resolved
    ensures Inv(orig, s.(resolved := s.resolved + {i, j}, splatters := s.splatters + [splat],
                         events := s.events + [Detonated(i, j)]))
  {
    var n, R, B := |orig|, s.resolved, Bombed(s.events);
    Appended(s.events, Detonated(i, j));
    BombedAreRemoved(s.events);
    assert R + {i, j} == (R + {i}) + {j};
    assert B + {i, j} == (B + {i}) + {j};
    AreaWhereInsert(s.slimes, R, false, i, n);
    AreaWhereInsert(s.slimes, R + {i}, false, j, n);
    AreaWhereInsert(s.slimes, B, true, i, n);
    AreaWhereInsert(s.slimes, B + {i}, true, j, n);
  }

  /** A merge keeps the invariant: the two agents' area moves from the
      unresolved to the new agent. */
  lemma MergedInv(orig: seq<Agent>, s: Scan, i: nat, j: nat, m: Agent)
    requires Inv(orig, s) && i < j < |s.slimes|
    requires i !in s.resolved && j !in s.resolved
    requires Area(m) == Area(s.slimes[i]) + Area(s.slimes[j])
    ensures Inv(orig, s.(resolved := s.resolved + {i, j}, born := s.born + [m],
                         events := s.events + [Merged(i, j)]))
  {
    var n, R := |orig|, s.resolved;
    Appended(s.events, Merged(i, j));
    assert R + {i, j} == (R + {i}) + {j};
    AreaWhereInsert(s.slimes, R, false, i, n);
    AreaWhereInsert(s.slimes, R + {i}, false, j, n);
    SumAreaAppend(s.born, [m]);
    assert SumArea([m]) == Area(m) by {
      assert [m][..0] == [];
    }
    assert Bombed(s.events + [Merged(i, j)]) == Bombed(s.events);
    assert AreaWhere(s.slimes, R + {i, j}, false, n) ==
           AreaWhere(s.slimes, R, false, n) - Area(s.slimes[i]) - Area(s.slimes[j]);
  }

  /** One more pair of a row keeps the invariant. */
  lemma RowStepInv(orig: seq<Agent>, s: Scan, i: nat, j: nat, sqrt: real -> real)
    requires IsSqrt(sqrt) && i + 1 < j <= |s.slimes| && Inv(orig, ScanRow(s, i, j - 1, sqrt))
    ensures Inv(orig, ScanRow(s, i, j, sqrt))
  {
    PairInv(orig, ScanRow(s, i, j - 1, sqrt), i, j - 1, sqrt, ScanRow(s, i, j, sqrt));
  }

  lemma {:induction false} RowInv(orig: seq<Agent>, s: Scan, i: nat, j: nat, sqrt: real -> real)
    requires IsSqrt(sqrt) && i < j <= |s.slimes| && Inv(orig, s)
    ensures Inv(orig, ScanRow(s, i, j, sqrt))
    decreases j
  {
    if j > i + 1 {
      RowInv(orig, s, i, j - 1, sqrt);
      RowStepInv(orig, s, i, j, sqrt);
    }
  }

  lemma {:induction false} RowsInv(orig: seq<Agent>, s: Scan, k: nat, sqrt: real -> real)
    requires IsSqrt(sqrt) && k <= |s.slimes| && Inv(orig, s)
    ensures Inv(orig, ScanRows(s, k, sqrt))
  {
    if k > 0 {
      RowsInv(orig, s, k - 1, sqrt);
      RowInv(orig, ScanRows(s, k - 1, sqrt), k - 1, |s.slimes|, sqrt);
    }
  }

  lemma {:induction false} SurvivorsLength(slimes: seq<Agent>, S: set<nat>, m: nat)
    requires m <= |slimes|
    ensures |Survivors(slimes, S, m)| == m - |set k | k in S && k < m|
  {
    if m > 0 {
      SurvivorsLength(slimes, S, m - 1);
      var below := set k | k in S && k < m - 1;
      if m - 1 in S {
        assert (set k | k in S && k < m) == below + {m - 1};
      } else {
        assert (set k | k in S && k < m) == below;
      }
    }
  }

  /** What one frame's collision pass does to a population of n agents:
      every index is resolved at most once (a black hole may consume
      several agents); each consumption removes one agent, each detonation
      two and paints one splatter, each merge two and makes one; so the
      next generation has n - consumed - 2 * detonated - merged agents.
      Only black holes change, by growing; and the area of the next
      generation plus that of the detonated agents is the area of the
      population the frame started with. */
  lemma FrameOutcome(slimes: seq<Agent>, sqrt: real -> real)
    requires IsSqrt(sqrt)
    ensures var f := ScanFrame(slimes, sqrt);
      && Exclusive(f.events)
      && (forall k :: Removals(f.events, k) <= 1)
      && f.resolved == RemovedBy(f.events)
      && |f.born| == CountMerged(f.events)
      && |f.splatters| == CountDetonated(f.events)
      && |NextGeneration(f)| ==
           |slimes| - CountConsumed(f.events) - 2 * CountDetonated(f.events) - CountMerged(f.events)
      && (forall k :: 0 <= k < |slimes| ==> Evolved(slimes[k], f.slimes[k]))
      && SumArea(NextGeneration(f)) + AreaWhere(f.slimes, Bombed(f.events), true, |slimes|) == SumArea(slimes)
  {
    var n := |slimes|;
    StartInv(slimes);
    RowsInv(slimes, Start(slimes), n, sqrt);
    var f := ScanFrame(slimes, sqrt);
    forall k | true
      ensures Removals(f.events, k) <= 1
    {
      RemovedAtMostOnce(f.events, k);
    }
    RemovedCount(f.events, n);
    SurvivorsLength(f.slimes, f.resolved, n);
    assert (set k | k in f.resolved && k < n) == f.resolved by {
      forall k | k in f.resolved
        ensures k < n
      {
        RemovedIndexInRange(f.events, n, k);
      }
    }
    SurvivorsArea(f.slimes, f.resolved, n);
    SumAreaAppend(Survivors(f.slimes, f.resolved, n), f.born);
  }

  lemma {:induction false} RemovedIndexInRange(events: seq<Event>, n: nat, k: nat)
    requires forall e :: e in events ==> WellFormed(e, n)
    requires k in RemovedBy(events)
    ensures k < n
  {
    var init, e := events[..|events| - 1], events[|events| - 1];
    assert e in events;
    if k !in Removes(e) {
      assert forall x :: x in init ==> x in events;
      RemovedIndexInRange(init, n, k);
    }
  }

  /** The dispatch of one colliding pair whose indices are both
      unresolved: consumption when exactly one is a black hole (only the
      other is removed, the hole's area grows by the prey's), else
      detonation when either is a bomb (both removed, one splatter at the
      midpoint of size rA + rB, no new agent), else a merge (both removed,
      one new agent with the combined area). */
  lemma PairOutcome(s: Scan, i: nat, j: nat, sqrt: real -> real)
    requires IsSqrt(sqrt) && i < j < |s.slimes|
    requires i !in s.resolved && j !in s.resolved && Intersects(s.slimes[i], s.slimes[j])
    ensures var a, b, t := s.slimes[i], s.slimes[j], ResolvePair(s, i, j, sqrt);
      && ((a.kind == BlackHoleSlime) != (b.kind == BlackHoleSlime) ==>
            var (h, p) := if a.kind == BlackHoleSlime then (i, j) else (j, i);
            && t.resolved == s.resolved + {p}
            && t.slimes == s.slimes[h := t.slimes[h]]
            && t.slimes[h] == s.slimes[h].(r := t.slimes[h].r)
            && Area(t.slimes[h]) == Area(s.slimes[h]) + Area(s.slimes[p])
            && (s.slimes[p].r != 0.0 ==> s.slimes[h].r < t.slimes[h].r)
            && t.born == s.born && t.splatters == s.splatters)
      && ((a.kind == BlackHoleSlime) == (b.kind == BlackHoleSlime) && (a.shape == Bomb || b.shape == Bomb) ==>
            && t.resolved == s.resolved + {i, j}
            && t.slimes == s.slimes && t.born == s.born
            && t.splatters == s.splatters + [Splatter((a.x + b.x) / 2.0, (a.y + b.y) / 2.0, a.color, b.color, a.r + b.r)])
      && ((a.kind == BlackHoleSlime) == (b.kind == BlackHoleSlime) && a.shape != Bomb && b.shape != Bomb ==>
            && t.resolved == s.resolved + {i, j}
            && t.slimes == s.slimes && t.splatters == s.splatters
            && |t.born| == |s.born| + 1 && t.born[..|s.born|] == s.born
            && t.born[|s.born|] == Merge(a, b, sqrt)
            && Area(t.born[|s.born|]) == Area(a) + Area(b))
  {
    var a, b := s.slimes[i], s.slimes[j];
    if (a.kind == BlackHoleSlime) != (b.kind == BlackHoleSlime) {
      var (h, p) := if a.kind == BlackHoleSlime then (i, j) else (j, i);
      AreaSign(s.slimes[p]);
    }
  }

  /** Two colliding black holes are neither consumed nor consumer: unless
      one is tagged bomb they merge into a plain Slime that keeps the
      shape tag BlackHole. */
  lemma BlackHolesMerge(s: Scan, i: nat, j: nat, sqrt: real -> real)
    requires IsSqrt(sqrt) && i < j < |s.slimes|
    requires i !in s.resolved && j !in s.resolved && Intersects(s.slimes[i], s.slimes[j])
    requires s.slimes[i].kind == BlackHoleSlime && s.slimes[j].kind == BlackHoleSlime
    requires s.slimes[i].shape == BlackHole && s.slimes[j].shape == BlackHole
    ensures var t := ResolvePair(s, i, j, sqrt);
      && t.events == s.events + [Merged(i, j)]
      && t.born[|s.born|].kind == Slime && t.born[|s.born|].shape == BlackHole
  {
    IntersectingHaveArea(s.slimes[i], s.slimes[j]);
    MergeEscalates(s.slimes[i], s.slimes[j], sqrt);
  }
}
