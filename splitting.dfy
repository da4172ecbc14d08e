// What a click does to one agent: `Slime.split` (sketch.js:333-387) and
// `ClusterSlime.split` (sketch.js:832-869). Every random draw is passed in,
// as the fraction in [0, 1) that p5's `random` scales to its range.

module Splitting {
  import opened Slimes
  import opened Collisions

  /** The draws of one split: the split axis (`p5.Vector.random2D`), the
      fractions behind the first child's three colour channels, the
      black-hole roll `random(1)` and the two `random(weightedShapes)`
      picks. */
  datatype SplitDraws = SplitDraws(dir: Vec, red: real, green: real, blue: real,
                                   roll: real, shape1: real, shape2: real)

  /** A value p5's `random()` can return. */
  predicate Fraction(u: real)
  {
    0.0 <= u < 1.0
  }

  /** The axis is a unit vector and every other draw a fraction. */
  predicate ValidDraws(d: SplitDraws)
  {
    && d.dir.x * d.dir.x + d.dir.y * d.dir.y == 1.0
    && Fraction(d.red) && Fraction(d.green) && Fraction(d.blue)
    && Fraction(d.roll) && Fraction(d.shape1) && Fraction(d.shape2)
  }

  /** The radius factor of `Slime.split`, an approximation of 1 / sqrt(2). */
  const SplitScale := 0.707
  /** The `separationSpeed` kick given to each child. */
  const SeparationSpeed := 5.0
  /** A parent must be larger than this for a black hole to appear. */
  const HoleRadius := 60.0
  /** The `blackHoleChance` of a split of a large parent. */
  const HoleChance := 0.1
  /** `ClusterSlime.split` refuses to make children smaller than this. */
  const MinClusterRadius := 10.0

  function Max(a: real, b: real): real { if a < b then b else a }
  function Min(a: real, b: real): real { if a < b then a else b }

  /** `random(lo, hi)`: p5 scales the fraction `u` onto the range. */
  function RandomBetween(lo: real, hi: real, u: real): (v: real)
    requires Fraction(u)
    ensures Between(v, lo, hi)
    ensures lo < hi ==> lo <= v < hi
  {
    ScaledFractionBounds(lo, hi, u);
    lo + u * (hi - lo)
  }

  lemma ScaledFractionBounds(lo: real, hi: real, u: real)
    requires Fraction(u)
    ensures Between(lo + u * (hi - lo), lo, hi)
    ensures lo < hi ==> lo <= lo + u * (hi - lo) < hi
  {
    if lo <= hi {
      NonNegativeProduct(u, hi - lo);
      NonNegativeProduct(1.0 - u, hi - lo);
      if lo < hi {
        PositiveProduct(1.0 - u, hi - lo);
      }
    } else {
      NonNegativeProduct(u, lo - hi);
      NonNegativeProduct(1.0 - u, lo - hi);
    }
  }

  /** The bounds `minR1` and `maxR1` of the first child's channel. */
  function PickLow(p: real): real { Max(0.0, 2.0 * p - 255.0) }
  function PickHigh(p: real): real { Min(255.0, 2.0 * p) }

  /** A colour whose channels are all in p5's range [0, 255]. */
  predicate InGamut(c: Rgba)
  {
    0.0 <= c.red <= 255.0 && 0.0 <= c.green <= 255.0 &&
    0.0 <= c.blue <= 255.0 && 0.0 <= c.alpha <= 255.0
  }

  /** For a channel p in [0, 255], the pick range is exactly the set of
      first-child values for which both children stay in [0, 255]. */
  lemma PickRangeIsExact(p: real, c1: real)
    requires 0.0 <= p <= 255.0
    ensures PickLow(p) <= PickHigh(p)
    ensures PickLow(p) <= c1 <= PickHigh(p) <==> 0.0 <= c1 <= 255.0 && 0.0 <= 2.0 * p - c1 <= 255.0
  {
  }

  /** Two colours that average to `p` channel by channel, both with p's
      alpha. */
  predicate Complementary(c1: Rgba, c2: Rgba, p: Rgba)
  {
    && c1.alpha == p.alpha && c2.alpha == p.alpha
    && c1.red + c2.red == 2.0 * p.red
    && c1.green + c2.green == 2.0 * p.green
    && c1.blue + c2.blue == 2.0 * p.blue
  }

  /** The colours of the two children: the first channel drawn from the
      pick range, the second its complement `2 * p - c1`, alpha kept. */
  function SplitColours(parent: Rgba, d: SplitDraws): (cs: (Rgba, Rgba))
    requires ValidDraws(d)
    ensures Complementary(cs.0, cs.1, parent)
    ensures InGamut(parent) ==> InGamut(cs.0) && InGamut(cs.1)
  {
    var r1 := RandomBetween(PickLow(parent.red), PickHigh(parent.red), d.red);
    var g1 := RandomBetween(PickLow(parent.green), PickHigh(parent.green), d.green);
    var b1 := RandomBetween(PickLow(parent.blue), PickHigh(parent.blue), d.blue);
    (Rgba(r1, g1, b1, parent.alpha),
     Rgba(2.0 * parent.red - r1, 2.0 * parent.green - g1, 2.0 * parent.blue - b1, parent.alpha))
  }

  /** `random(array)`: p5 takes the entry at floor(u * length), so entry
      k is drawn exactly for u in [k / length, (k + 1) / length). */
  function Pick(ss: seq<Shape>, u: real): (s: Shape)
    requires |ss| > 0 && Fraction(u)
    ensures s in ss
    ensures forall k :: 0 <= k < |ss| && k as real <= u * |ss| as real < (k + 1) as real ==> s == ss[k]
  {
    FloorIndex(u, |ss|);
    ss[(u * |ss| as real).Floor]
  }

  lemma FloorIndex(u: real, n: nat)
    requires Fraction(u) && 0 < n
    ensures 0 <= (u * n as real).Floor < n
  {
    NonNegativeProduct(u, n as real);
    PositiveProduct(1.0 - u, n as real);
  }

  /** `random(weightedShapes)`: entry k of the 62 for a draw in
      [k / 62, (k + 1) / 62), so each shape for Weight / 62 of the draws. */
  function WeightedPick(u: real): (s: Shape)
    requires Fraction(u)
    ensures |WeightedShapes()| == 62
    ensures forall k :: 0 <= k < 62 && k as real / 62.0 <= u < (k + 1) as real / 62.0 ==> s == WeightedShapes()[k]
  {
    WeightedShapesLength();
    Pick(WeightedShapes(), u)
  }

  /** The rare shapes of a split: an arrow only for a draw in
      [40 / 62, 41 / 62) and a killer only for one in [41 / 62, 42 / 62),
      one draw in 62 each. */
  lemma RarePicks(u: real)
    requires Fraction(u)
    ensures WeightedPick(u) == Arrow <==> 40.0 / 62.0 <= u < 41.0 / 62.0
    ensures WeightedPick(u) == Killer <==> 41.0 / 62.0 <= u < 42.0 / 62.0
  {
    var k := (u * 62.0).Floor;
    FloorIndex(u, 62);
    assert k as real / 62.0 <= u < (k + 1) as real / 62.0;
    WeightedShapesLayout();
    var w := WeightedShapes();
    assert WeightedPick(u) == w[k];
    assert w[k] == Arrow <==> k == 40;
    assert w[k] == Killer <==> k == 41;
  }

  /** The centre of a child: the parent's centre moved by `k` along `dir`. */
  function Offset(x: real, y: real, dir: Vec, k: real): (real, real)
  {
    (x + dir.x * k, y + dir.y * k)
  }

  /** Two children of equal radius set on either side of (x, y), each
      its radius plus one away along `dir`. */
  predicate Placed(a: Agent, b: Agent, x: real, y: real, dir: Vec)
  {
    && a.r == b.r
    && (a.x, a.y) == Offset(x, y, dir, a.r + 1.0)
    && (b.x, b.y) == Offset(x, y, dir, -a.r - 1.0)
  }

  /** A fresh `BlackHoleSlime`: stationary, black, tagged BlackHole. */
  function NewBlackHole(x: real, y: real, r: real): (h: Agent)
    ensures h.kind == BlackHoleSlime && h.shape == BlackHole
    ensures h.vel == Vec(0.0, 0.0) && h.color == Black
  {
    Agent(BlackHoleSlime, BlackHole, x, y, Vec(0.0, 0.0), r, Black)
  }

  /** The black-hole roll is made only for a parent larger than 60. */
  predicate MakesHole(parent: Agent, d: SplitDraws)
  {
    parent.r > HoleRadius && d.roll < HoleChance
  }

  /** `Slime.split`, also used by killers and black holes: two plain
      slimes of radius 0.707 r kicked apart, or a slime and a new black
      hole. */
  function SlimeSplit(parent: Agent, d: SplitDraws): (children: seq<Agent>)
    requires ValidDraws(d)
    ensures |children| == 2
    ensures children[0].kind == Slime && children[0].shape == WeightedPick(d.shape1)
    ensures children[0].r == children[1].r == SplitScale * parent.r
    ensures children[0].vel == d.dir.Scale(SeparationSpeed)
    ensures children[1].kind == BlackHoleSlime <==> MakesHole(parent, d)
    ensures children[1].kind != BlackHoleSlime ==>
      children[1].kind == Slime && children[1].shape == WeightedPick(d.shape2) &&
      children[1].vel == d.dir.Scale(-SeparationSpeed)
    ensures children[1].kind == BlackHoleSlime ==>
      children[1] == NewBlackHole(children[1].x, children[1].y, children[1].r)
    ensures InGamut(parent.color) ==> InGamut(children[0].color) && InGamut(children[1].color)
    ensures parent.r != 0.0 ==> 0.0 < Area(children[0]) && 0.0 < Area(children[1])
    ensures Placed(children[0], children[1], parent.x, parent.y, d.dir)
    ensures children[0].color.alpha == parent.color.alpha
    ensures children[1].kind != BlackHoleSlime ==>
      Complementary(children[0].color, children[1].color, parent.color)
  {
    var newR := parent.r * SplitScale;
    var (x1, y1) := Offset(parent.x, parent.y, d.dir, newR + 1.0);
    var (x2, y2) := Offset(parent.x, parent.y, d.dir, -newR - 1.0);
    var (c1, c2) := SplitColours(parent.color, d);
    var s1 := Agent(Slime, WeightedPick(d.shape1), x1, y1, d.dir.Scale(SeparationSpeed), newR, c1);
    if MakesHole(parent, d) then
      AreaSign(s1);
      AreaSign(NewBlackHole(x2, y2, newR));
      [s1, NewBlackHole(x2, y2, newR)]
    else
      var s2 := Agent(Slime, WeightedPick(d.shape2), x2, y2, d.dir.Scale(-SeparationSpeed), newR, c2);
      AreaSign(s1);
      AreaSign(s2);
      [s1, s2]
  }

  /** The radius of a cluster's children: the root of half its area. */
  function ClusterChildRadius(parent: Agent, sqrt: real -> real): (newR: real)
    requires IsSqrt(sqrt)
    ensures 0.0 <= newR && 2.0 * (newR * newR) == parent.r * parent.r
  {
    SquareNonNegative(parent.r);
    sqrt(parent.r * parent.r / 2.0)
  }

  /** `ClusterSlime.split`: nothing when the children would be smaller
      than 10; otherwise two clusters with half the area each, kicked
      apart on top of the parent's velocity, or a cluster and a new black
      hole. */
  function ClusterSplit(parent: Agent, d: SplitDraws, sqrt: real -> real): (children: seq<Agent>)
    requires ValidDraws(d) && IsSqrt(sqrt)
    ensures children == [] <==> parent.r * parent.r < 2.0 * MinClusterRadius * MinClusterRadius
    ensures children != [] ==> |children| == 2
    ensures children != [] ==>
      && children[0].kind == ClusterSlime && children[0].shape == Cluster
      && MinClusterRadius <= children[0].r == children[1].r
      && 2.0 * Area(children[0]) == Area(parent)
      && children[0].vel == parent.vel.Plus(d.dir.Scale(SeparationSpeed))
      && (children[1].kind == BlackHoleSlime <==> MakesHole(parent, d))
      && (children[1].kind != BlackHoleSlime ==>
            children[1].kind == ClusterSlime && children[1].shape == Cluster &&
            children[1].vel == parent.vel.Plus(d.dir.Scale(-SeparationSpeed)))
    ensures children != [] ==> Placed(children[0], children[1], parent.x, parent.y, d.dir)
    ensures children != [] ==> children[0].color.alpha == parent.color.alpha
    ensures children != [] && children[1].kind != BlackHoleSlime ==>
      Complementary(children[0].color, children[1].color, parent.color)
    ensures children != [] && children[1].kind == BlackHoleSlime ==>
      children[1] == NewBlackHole(children[1].x, children[1].y, children[1].r)
    ensures children != [] && InGamut(parent.color) ==>
      InGamut(children[0].color) && InGamut(children[1].color)
  {
    var newR := ClusterChildRadius(parent, sqrt);
    ClusterRadiusThreshold(newR, parent.r);
    if newR < MinClusterRadius then
      []
    else
      var (x1, y1) := Offset(parent.x, parent.y, d.dir, newR + 1.0);
      var (x2, y2) := Offset(parent.x, parent.y, d.dir, -newR - 1.0);
      var (c1, c2) := SplitColours(parent.color, d);
      var s1 := Agent(ClusterSlime, Cluster, x1, y1, parent.vel.Plus(d.dir.Scale(SeparationSpeed)), newR, c1);
      if MakesHole(parent, d) then
        [s1, NewBlackHole(x2, y2, newR)]
      else
        [s1, Agent(ClusterSlime, Cluster, x2, y2, parent.vel.Plus(d.dir.Scale(-SeparationSpeed)), newR, c2)]
  }

  lemma ClusterRadiusThreshold(newR: real, r: real)
    requires 0.0 <= newR && 2.0 * (newR * newR) == r * r
    ensures newR < MinClusterRadius <==> r * r < 2.0 * MinClusterRadius * MinClusterRadius
  {
    if newR < MinClusterRadius {
      SquareStrict(newR, MinClusterRadius);
    } else {
      SquareMonotone(MinClusterRadius, newR);
    }
  }

  /** `slimes[i].split()`: a cluster splits as a cluster, every other
      class (killers and black holes included) by `Slime.split`. */
  function Split(parent: Agent, d: SplitDraws, sqrt: real -> real): (children: seq<Agent>)
    requires ValidDraws(d) && IsSqrt(sqrt)
    ensures |children| == 0 || |children| == 2
    ensures parent.kind != ClusterSlime ==> |children| == 2
    ensures |children| == 2 ==> Placed(children[0], children[1], parent.x, parent.y, d.dir)
  {
    if parent.kind == ClusterSlime then ClusterSplit(parent, d, sqrt) else SlimeSplit(parent, d)
  }

  /** A cluster whose children would be smaller than 10. */
  predicate TooSmallToSplit(parent: Agent)
  {
    parent.kind == ClusterSlime && parent.r * parent.r < 2.0 * MinClusterRadius * MinClusterRadius
  }

  /** A split gives no children exactly when the parent is a cluster with
      r * r < 200, so that its children would be smaller than 10. */
  lemma SplitFails(parent: Agent, d: SplitDraws, sqrt: real -> real)
    requires ValidDraws(d) && IsSqrt(sqrt)
    ensures Split(parent, d, sqrt) == [] <==> TooSmallToSplit(parent)
  {
    if parent.kind == ClusterSlime {
      assert Split(parent, d, sqrt) == ClusterSplit(parent, d, sqrt);
    }
  }

  /** The two children sit 2 * newR + 2 apart along the axis, so they do
      not intersect and are not merged by the next collision pass. */
  lemma SplitChildrenApart(parent: Agent, d: SplitDraws, sqrt: real -> real)
    requires ValidDraws(d) && IsSqrt(sqrt)
    requires |Split(parent, d, sqrt)| == 2
    ensures var cs := Split(parent, d, sqrt);
      && DistSq(cs[0].x, cs[0].y, cs[1].x, cs[1].y) == (2.0 * cs[0].r + 2.0) * (2.0 * cs[0].r + 2.0)
      && !Intersects(cs[0], cs[1])
  {
    var cs := Split(parent, d, sqrt);
    Apart(cs[0], cs[1], parent.x, parent.y, d.dir);
  }

  lemma Apart(a: Agent, b: Agent, x: real, y: real, dir: Vec)
    requires dir.x * dir.x + dir.y * dir.y == 1.0
    requires Placed(a, b, x, y, dir)
    ensures DistSq(a.x, a.y, b.x, b.y) == (2.0 * a.r + 2.0) * (2.0 * a.r + 2.0)
    ensures !Intersects(a, b)
  {
    var k := 2.0 * a.r + 2.0;
    assert a.x - b.x == dir.x * k;
    assert a.y - b.y == dir.y * k;
    assert (dir.x * k) * (dir.x * k) == (dir.x * dir.x) * (k * k);
    assert (dir.y * k) * (dir.y * k) == (dir.y * dir.y) * (k * k);
    assert DistSq(a.x, a.y, b.x, b.y) == (dir.x * dir.x + dir.y * dir.y) * (k * k);
    if 0.0 < a.r + b.r {
      SquareMonotone(a.r + b.r, k);
    }
  }

  /** Merging the two children of a cluster split that made no black hole
      gives back the parent exactly: the radius from the two halves of the
      area, the centre and velocity from the opposite kicks, each colour
      channel from the complementary picks. */
  lemma ClusterSplitMergeRestores(parent: Agent, d: SplitDraws, sqrt: real -> real)
    requires ValidDraws(d) && IsSqrt(sqrt)
    requires parent.kind == ClusterSlime && parent.shape == Cluster && 0.0 <= parent.r
    requires ClusterSplit(parent, d, sqrt) != [] && !MakesHole(parent, d)
    ensures var cs := ClusterSplit(parent, d, sqrt);
      Merge(cs[0], cs[1], sqrt) == parent
  {
    var cs := ClusterSplit(parent, d, sqrt);
    var a, b := cs[0], cs[1];
    assert Area(a) == Area(b);
    AreaSign(a);
    Centred(a, b, parent.x, parent.y, d.dir);
    MirroredMerge(a, b, parent, sqrt);
    var m := Merge(a, b, sqrt);
    SameRoot(m.r, parent.r);
    assert a.vel.x + b.vel.x == 2.0 * parent.vel.x;
    assert a.vel.y + b.vel.y == 2.0 * parent.vel.y;
  }

  /** Merging the two slimes of a `Slime.split` that made no black hole
      restores the centre and the colour, but not the velocity (the kicks
      cancel to zero) and, because 0.707 is not exactly 1 / sqrt(2), not
      quite the area. */
  lemma SlimeSplitMergeRestores(parent: Agent, d: SplitDraws, sqrt: real -> real)
    requires ValidDraws(d) && IsSqrt(sqrt)
    requires parent.r != 0.0 && !MakesHole(parent, d)
    ensures var cs := SlimeSplit(parent, d);
      var m := Merge(cs[0], cs[1], sqrt);
      && m.x == parent.x && m.y == parent.y
      && m.vel == Vec(0.0, 0.0)
      && m.color == parent.color
      && Area(m) == 2.0 * SplitScale * SplitScale * Area(parent)
  {
    var cs := SlimeSplit(parent, d);
    var a, b := cs[0], cs[1];
    Centred(a, b, parent.x, parent.y, d.dir);
    ScaledArea(a, parent);
    ScaledArea(b, parent);
    MirroredMerge(a, b, parent, sqrt);
    assert a.vel.x + b.vel.x == 0.0;
    assert a.vel.y + b.vel.y == 0.0;
  }

  /** Two children of equal area, centred on the parent, with colours
      that average to the parent's, merge back to the parent's centre and
      colour, with the mean of their velocities. */
  lemma MirroredMerge(a: Agent, b: Agent, parent: Agent, sqrt: real -> real)
    requires IsSqrt(sqrt) && Area(a) == Area(b) && 0.0 < Area(a) + Area(b)
    requires a.x + b.x == 2.0 * parent.x && a.y + b.y == 2.0 * parent.y
    requires Complementary(a.color, b.color, parent.color)
    ensures var m := Merge(a, b, sqrt);
      && m.x == parent.x && m.y == parent.y && m.color == parent.color
      && m.vel == Vec((a.vel.x + b.vel.x) / 2.0, (a.vel.y + b.vel.y) / 2.0)
      && Area(m) == Area(a) + Area(b)
  {
    MergeOfEqualAreas(a, b, sqrt);
  }

  /** A child of radius 0.707 r has 0.707² of the parent's area. */
  lemma ScaledArea(child: Agent, parent: Agent)
    requires child.r == SplitScale * parent.r
    ensures Area(child) == SplitScale * SplitScale * Area(parent)
  {
  }

  /** Children placed on either side of (x, y) are centred on it. */
  lemma Centred(a: Agent, b: Agent, x: real, y: real, dir: Vec)
    requires Placed(a, b, x, y, dir)
    ensures a.x + b.x == 2.0 * x && a.y + b.y == 2.0 * y
  {
  }

  lemma SameRoot(a: real, b: real)
    requires 0.0 <= a && 0.0 <= b && a * a == b * b
    ensures a == b
  {
    if a < b {
      SquareStrict(a, b);
    } else if b < a {
      SquareStrict(b, a);
    }
  }
}
