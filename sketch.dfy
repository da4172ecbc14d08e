// The sketch's global state and the two handlers that change the
// population: draw()'s collision pass (sketch.js:105-210) and
// mousePressed (sketch.js:281-312).

module Program {
  import opened Slimes
  import opened Collisions
  import opened Splitting
  import opened Frame
  import opened Cannons

  /** A clicked agent must be larger than this to split. */
  const MinSplitRadius := 3.5

  /** The index of the topmost agent under the point: the last one drawn,
      so the highest index; -1 when there is none. */
  function Topmost(slimes: seq<Agent>, px: real, py: real): (k: int)
    ensures -1 <= k < |slimes|
    ensures k >= 0 ==> IsClicked(slimes[k], px, py)
    ensures forall m :: k < m < |slimes| ==> !IsClicked(slimes[m], px, py)
  {
    if slimes == [] then -1
    else if IsClicked(slimes[|slimes| - 1], px, py) then |slimes| - 1
    else Topmost(slimes[..|slimes| - 1], px, py)
  }

  /** The loop of mousePressed that searches down from the top for the
      clicked agent, stopping at the first hit. */
  method FindTopmost(slimes: seq<Agent>, px: real, py: real) returns (i: int)
    ensures i == Topmost(slimes, px, py)
  {
    i := |slimes| - 1;
    while i >= 0
      invariant -1 <= i < |slimes|
      invariant forall m :: i < m < |slimes| ==> !IsClicked(slimes[m], px, py)
      decreases i
    {
      if IsClicked(slimes[i], px, py) {
        break;
      }
      i := i - 1;
    }
    TopmostIsUnique(slimes, px, py, i);
  }

  /** An index that is clicked (or -1) with nothing clicked above it is
      the topmost one. */
  lemma {:induction false} TopmostIsUnique(slimes: seq<Agent>, px: real, py: real, i: int)
    requires -1 <= i < |slimes|
    requires i >= 0 ==> IsClicked(slimes[i], px, py)
    requires forall m :: i < m < |slimes| ==> !IsClicked(slimes[m], px, py)
    ensures i == Topmost(slimes, px, py)
  {
    if slimes != [] && i != |slimes| - 1 {
      TopmostIsUnique(slimes[..|slimes| - 1], px, py, i);
    }
  }

  /** Pushing both children and then splicing out index i (below the
      old length) leaves the others in order followed by the children. */
  lemma PushedThenSpliced(s: seq<Agent>, i: nat, children: seq<Agent>)
    requires i < |s| && |children| == 2
    ensures var pushed := s + [children[0]] + [children[1]];
      pushed[..i] + pushed[i + 1..] == s[..i] + s[i + 1..] + children
  {
    var pushed := s + [children[0]] + [children[1]];
    assert pushed[..i] == s[..i];
    assert pushed[i + 1..] == s[i + 1..] + children;
  }

  /** The population after a click: a shot from the cannon when the
      cannon is hit; otherwise the topmost clicked agent, if larger than
      3.5 and its split gives children, is removed and its two children
      are appended. */
  function Clicked(slimes: seq<Agent>, cannon: Cannon, px: real, py: real,
                   shot: ShotDraws, draws: SplitDraws, sqrt: real -> real): (after: seq<Agent>)
    requires ValidShot(shot) && ValidDraws(draws) && IsSqrt(sqrt)
    ensures |after| == |slimes| || |after| == |slimes| + 1
  {
    if cannon.IsClicked(px, py) then
      slimes + [CannonShot(cannon, shot)]
    else
      var i := Topmost(slimes, px, py);
      if i < 0 || slimes[i].r <= MinSplitRadius then slimes
      else
        var children := Split(slimes[i], draws, sqrt);
        if |children| == 0 then slimes
        else slimes[..i] + slimes[i + 1..] + children
  }

  /** A click that hits the cannon only appends the shot. */
  lemma ClickOnCannon(slimes: seq<Agent>, cannon: Cannon, px: real, py: real,
                      shot: ShotDraws, draws: SplitDraws, sqrt: real -> real)
    requires ValidShot(shot) && ValidDraws(draws) && IsSqrt(sqrt)
    requires cannon.IsClicked(px, py)
    ensures var after := Clicked(slimes, cannon, px, py, shot, draws, sqrt);
      && |after| == |slimes| + 1 && after[..|slimes|] == slimes
      && after[|slimes|].kind != BlackHoleSlime && after[|slimes|].shape != Bomb
  {
  }

  /** A click that splits removes exactly the topmost clicked agent,
      keeping the others in order, and appends its two children, which do
      not intersect each other: a net gain of one agent. */
  lemma ClickSplits(slimes: seq<Agent>, cannon: Cannon, px: real, py: real,
                    shot: ShotDraws, draws: SplitDraws, sqrt: real -> real)
    requires ValidShot(shot) && ValidDraws(draws) && IsSqrt(sqrt)
    requires !cannon.IsClicked(px, py) && Clicked(slimes, cannon, px, py, shot, draws, sqrt) != slimes
    ensures var after, i := Clicked(slimes, cannon, px, py, shot, draws, sqrt), Topmost(slimes, px, py);
      && 0 <= i && MinSplitRadius < slimes[i].r
      && |after| == |slimes| + 1
      && after[..|slimes| - 1] == slimes[..i] + slimes[i + 1..]
      && after[|slimes| - 1..] == Split(slimes[i], draws, sqrt)
      && !Intersects(after[|slimes| - 1], after[|slimes|])
  {
    var i := Topmost(slimes, px, py);
    var children := Split(slimes[i], draws, sqrt);
    SplitChildrenApart(slimes[i], draws, sqrt);
    var after := slimes[..i] + slimes[i + 1..] + children;
    assert after[..|slimes| - 1] == slimes[..i] + slimes[i + 1..];
    assert after[|slimes| - 1..] == children;
  }

  /** A click off the cannon leaves the population as it is exactly when
      no agent is under the point, the topmost one is no larger than 3.5,
      or it is a cluster too small to split (r * r < 200). */
  lemma ClickKeeps(slimes: seq<Agent>, cannon: Cannon, px: real, py: real,
                   shot: ShotDraws, draws: SplitDraws, sqrt: real -> real)
    requires ValidShot(shot) && ValidDraws(draws) && IsSqrt(sqrt)
    requires !cannon.IsClicked(px, py)
    ensures var i := Topmost(slimes, px, py);
      Clicked(slimes, cannon, px, py, shot, draws, sqrt) == slimes <==>
        i < 0 || slimes[i].r <= MinSplitRadius || TooSmallToSplit(slimes[i])
  {
    var i := Topmost(slimes, px, py);
    var after := Clicked(slimes, cannon, px, py, shot, draws, sqrt);
    if 0 <= i && MinSplitRadius < slimes[i].r {
      var children := Split(slimes[i], draws, sqrt);
      assert after == if children == [] then slimes else slimes[..i] + slimes[i + 1..] + children;
      SplitFails(slimes[i], draws, sqrt);
      if children != [] {
        assert |after| == |slimes| + 1;
      }
    } else {
      assert after == slimes;
    }
  }

  /** The globals of the sketch that the handlers change: the canvas size,
      the cannon, the population `slimes`, and the paint splatters laid on
      `paintCanvas`. */
  class Sketch {
    var width: real
    var height: real
    var cannon: Cannon
    var slimes: seq<Agent>
    var splatters: seq<Splatter>

    /** The state `setup()` leaves: a cannon for the canvas and the
        initial population, drawn at random and passed in. */
    constructor (width: real, height: real, population: seq<Agent>)
      ensures this.width == width && this.height == height
      ensures cannon == NewCannon(width, height)
      ensures slimes == population && splatters == []
    {
      this.width := width;
      this.height := height;
      cannon := NewCannon(width, height);
      slimes := population;
      splatters := [];
    }

    /** The collision pass of draw() and the rebuild of the population:
        the new population is the next generation of the frame's scan and
        the frame's splatters are painted. */
    method Draw(sqrt: real -> real)
      requires IsSqrt(sqrt)
      modifies this
      ensures slimes == NextGeneration(ScanFrame(old(slimes), sqrt))
      ensures splatters == old(splatters) + ScanFrame(old(slimes), sqrt).splatters
      ensures width == old(width) && height == old(height) && cannon == old(cannon)
    {
      var population := slimes;
      var n := |population|;
      var mergedIndices: set<nat> := {};
      var newSlimes: seq<Agent> := [];
      var painted: seq<Splatter> := [];
      ghost var events: seq<Event> := [];
      ghost var start := Start(population);
      for i := 0 to n
        modifies {}
        invariant |population| == n
        invariant Scan(population, mergedIndices, newSlimes, painted, events) == ScanRows(start, i, sqrt)
      {
        ghost var rowStart := Scan(population, mergedIndices, newSlimes, painted, events);
        for j := i + 1 to n
          modifies {}
          invariant |population| == n
          invariant Scan(population, mergedIndices, newSlimes, painted, events) == ScanRow(rowStart, i, j, sqrt)
        {
          if i !in mergedIndices && j !in mergedIndices && Intersects(population[i], population[j]) {
            var slimeA, slimeB := population[i], population[j];
            var blackHole, otherSlime := -1, -1;
            if slimeA.kind == BlackHoleSlime && slimeB.kind != BlackHoleSlime {
              blackHole, otherSlime := i, j;
            } else if slimeB.kind == BlackHoleSlime && slimeA.kind != BlackHoleSlime {
              blackHole, otherSlime := j, i;
            }
            if blackHole >= 0 {
              population := population[blackHole := Consume(population[blackHole], population[otherSlime], sqrt)];
              mergedIndices := mergedIndices + {otherSlime};
              events := events + [Consumed(blackHole, otherSlime)];
            } else if slimeA.shape == Bomb || slimeB.shape == Bomb {
              painted := painted + [Explosion(slimeA, slimeB)];
              mergedIndices := mergedIndices + {i, j};
              events := events + [Detonated(i, j)];
            } else {
              IntersectingHaveArea(slimeA, slimeB);
              newSlimes := newSlimes + [Merge(slimeA, slimeB, sqrt)];
              mergedIndices := mergedIndices + {i, j};
              events := events + [Merged(i, j)];
            }
          }
        }
      }
      var nextGeneration: seq<Agent> := [];
      for k := 0 to n
        modifies {}
        invariant nextGeneration == Survivors(population, mergedIndices, k)
      {
        if k !in mergedIndices {
          nextGeneration := nextGeneration + [population[k]];
        }
      }
      slimes := nextGeneration + newSlimes;
      splatters := splatters + painted;
    }

    /** mousePressed: a click on the cannon fires a shot; otherwise the
        topmost agent under the point is split if it is larger than 3.5,
        its children pushed and it spliced out. */
    method MousePressed(px: real, py: real, shot: ShotDraws, draws: SplitDraws, sqrt: real -> real)
      requires ValidShot(shot) && ValidDraws(draws) && IsSqrt(sqrt)
      modifies this
      ensures slimes == Clicked(old(slimes), cannon, px, py, shot, draws, sqrt)
      ensures width == old(width) && height == old(height) && cannon == old(cannon)
      ensures splatters == old(splatters)
    {
      if cannon.IsClicked(px, py) {
        slimes := slimes + [CannonShot(cannon, shot)];
        return;
      }
      var i := FindTopmost(slimes, px, py);
      if i >= 0 && slimes[i].r > MinSplitRadius {
        var newSlimes := Split(slimes[i], draws, sqrt);
        if |newSlimes| > 0 {
          ghost var before := slimes;
          assert Clicked(before, cannon, px, py, shot, draws, sqrt) == before[..i] + before[i + 1..] + newSlimes;
          slimes := slimes + [newSlimes[0]];
          slimes := slimes + [newSlimes[1]];
          PushedThenSpliced(before, i, newSlimes);
          slimes := slimes[..i] + slimes[i + 1..];
        }
      }
    }
  }
}
