// The slime agents of sketch.js: their state, the shape tables, the disk
// tests used for collisions and clicks, and the wall bounce.

module Slimes {

  /** A 2-D vector (the x and y of a p5.Vector). */
  datatype Vec = Vec(x: real, y: real)
  {
    function Plus(o: Vec): Vec { Vec(x + o.x, y + o.y) }
    function Scale(k: real): Vec { Vec(k * x, k * y) }
  }

  /** A p5 colour as its four channels, each normally in [0, 255]. */
  datatype Rgba = Rgba(red: real, green: real, blue: real, alpha: real)

  /** The shape tag, the `shape` string of every slime. */
  datatype Shape = Circle | Square | Triangle | Bomb | Arrow | Killer | Cluster | BlackHole

  /** The class an agent was built from; independent of its shape tag
      (a plain Slime may carry the tag Killer, Cluster or BlackHole). */
  datatype Kind = Slime | KillerSlime | ClusterSlime | BlackHoleSlime

  /** One slime of the population: class, shape tag, centre, velocity,
      radius and fill colour. */
  datatype Agent = Agent(kind: Kind, shape: Shape, x: real, y: real, vel: Vec, r: real, color: Rgba)

  /** The colour `color(0)`: opaque black, given to every new black hole. */
  const Black := Rgba(0.0, 0.0, 0.0, 255.0)

  /** The `shapes` table, in declaration order. */
  const Shapes := [Circle, Square, Triangle, Bomb, Arrow, Killer, Cluster, BlackHole]

  // ---------------------------------------------------------------------
  // The weighted shape table

  /** How many times a shape is entered in the weighted table. */
  function Weight(s: Shape): nat
  {
    if s == Killer || s == Arrow then 1 else 10
  }

  function Copies(s: Shape, n: nat): (c: seq<Shape>)
    ensures |c| == n && forall k :: 0 <= k < n ==> c[k] == s
  {
    seq(n, _ => s)
  }

  /** Each shape of `ss`, in order, entered Weight times. */
  function Weighted(ss: seq<Shape>): seq<Shape>
  {
    if ss == [] then [] else Weighted(ss[..|ss| - 1]) + Copies(ss[|ss| - 1], Weight(ss[|ss| - 1]))
  }

  /** The `weightedShapes` table that random shape picks index into. */
  function WeightedShapes(): seq<Shape>
  {
    Weighted(Shapes)
  }

  /** The loop that fills `weightedShapes` at load time. */
  method BuildWeightedShapes() returns (w: seq<Shape>)
    ensures w == WeightedShapes()
  {
    w := [];
    for k := 0 to |Shapes|
      invariant w == Weighted(Shapes[..k])
    {
      var shape := Shapes[k];
      assert Shapes[..k + 1][..k] == Shapes[..k];
      if shape == Killer || shape == Arrow {
        w := w + [shape];
      } else {
        for i := 0 to 10
          invariant w == Weighted(Shapes[..k]) + Copies(shape, i)
        {
          w := w + [shape];
        }
      }
    }
    assert Shapes[..|Shapes|] == Shapes;
  }

  lemma {:induction false} WeightedCount(ss: seq<Shape>, t: Shape)
    requires forall i, j :: 0 <= i < j < |ss| ==> ss[i] != ss[j]
    ensures multiset(Weighted(ss))[t] == if t in ss then Weight(t) else 0
  {
    if ss != [] {
      var init, last := ss[..|ss| - 1], ss[|ss| - 1];
      WeightedCount(init, t);
      assert ss == init + [last];
      assert multiset(Copies(last, Weight(last)))[t] == if t == last then Weight(t) else 0 by {
        CopiesCount(last, Weight(last), t);
      }
      assert t == last ==> t !in init;
    }
  }

  lemma {:induction false} CopiesCount(s: Shape, n: nat, t: Shape)
    ensures multiset(Copies(s, n))[t] == if t == s then n else 0
  {
    if n > 0 {
      CopiesCount(s, n - 1, t);
      assert Copies(s, n) == Copies(s, n - 1) + [s];
    }
  }

  /** Every shape is entered in the weighted table exactly Weight times. */
  lemma WeightedShapeCounts(t: Shape)
    ensures multiset(WeightedShapes())[t] == Weight(t)
  {
    assert forall i, j :: 0 <= i < j < |Shapes| ==> Shapes[i] != Shapes[j];
    WeightedCount(Shapes, t);
  }

  /** Killer and Arrow are each entered once and every other shape ten
      times: it is killers and arrows that are rare, bombs are as likely
      as circles. */
  lemma RareShapes()
    ensures multiset(WeightedShapes())[Bomb] == multiset(WeightedShapes())[Circle] == 10
    ensures multiset(WeightedShapes())[Killer] == multiset(WeightedShapes())[Arrow] == 1
  {
    WeightedShapeCounts(Bomb);
    WeightedShapeCounts(Circle);
    WeightedShapeCounts(Killer);
    WeightedShapeCounts(Arrow);
  }

  /** One more shape of the prefix adds its copies at the end. */
  lemma WeightedStep(ss: seq<Shape>, k: nat)
    requires 1 <= k <= |ss|
    ensures Weighted(ss[..k]) == Weighted(ss[..k - 1]) + Copies(ss[k - 1], Weight(ss[k - 1]))
  {
    assert ss[..k][..k - 1] == ss[..k - 1];
  }

  /** The weighted table has 62 entries. */
  lemma WeightedShapesLength()
    ensures |WeightedShapes()| == 62
  {
    var lengths := [0, 10, 20, 30, 40, 41, 42, 52, 62];
    for k := 0 to |Shapes|
      invariant |Weighted(Shapes[..k])| == lengths[k]
    {
      assert Shapes[..k + 1][..k] == Shapes[..k];
    }
    assert Shapes[..|Shapes|] == Shapes;
  }

  /** The first four shapes of the table, ten copies each. */
  lemma WeightedFront()
    ensures Weighted(Shapes[..4]) == Copies(Circle, 10) + Copies(Square, 10) + Copies(Triangle, 10) + Copies(Bomb, 10)
  {
    WeightedStep(Shapes, 1);
    WeightedStep(Shapes, 2);
    WeightedStep(Shapes, 3);
    WeightedStep(Shapes, 4);
  }

  /** The weighted table entry by entry: ten circles, squares, triangles
      and bombs, then the one arrow at index 40 and the one killer at 41,
      then ten clusters and ten black holes. */
  lemma WeightedShapesLayout()
    ensures WeightedShapes() ==
      Copies(Circle, 10) + Copies(Square, 10) + Copies(Triangle, 10) + Copies(Bomb, 10) +
      [Arrow, Killer] + Copies(Cluster, 10) + Copies(BlackHole, 10)
  {
    WeightedFront();
    WeightedStep(Shapes, 5);
    WeightedStep(Shapes, 6);
    WeightedStep(Shapes, 7);
    WeightedStep(Shapes, 8);
    assert Shapes[..|Shapes|] == Shapes;
  }

  // ---------------------------------------------------------------------
  // Square roots and distances

  /** `sqrt` returns the exact non-negative square root of every
      non-negative real; it stands for the floating-point `sqrt`. */
  ghost predicate IsSqrt(sqrt: real -> real)
  {
    forall a :: 0.0 <= a ==> 0.0 <= sqrt(a) && sqrt(a) * sqrt(a) == a
  }

  /** The squared Euclidean distance between two points. */
  function DistSq(x1: real, y1: real, x2: real, y2: real): (d: real)
    ensures 0.0 <= d
  {
    (x1 - x2) * (x1 - x2) + (y1 - y2) * (y1 - y2)
  }

  /** The distance whose square is `dsq` is strictly below `bound`. */
  predicate Within(dsq: real, bound: real)
  {
    0.0 < bound && dsq < bound * bound
  }

  /** Within on a squared distance is the strict comparison of the
      distance itself. */
  lemma WithinIsDistanceBelow(d: real, bound: real)
    requires 0.0 <= d
    ensures Within(d * d, bound) <==> d < bound
  {
    if d < bound {
      SquareStrict(d, bound);
    }
    if 0.0 < bound && bound <= d {
      SquareMonotone(bound, d);
    }
  }

  lemma SquareMonotone(a: real, b: real)
    requires 0.0 <= a <= b
    ensures a * a <= b * b
  {
    assert a * a <= a * b;
    assert a * b <= b * b;
  }

  lemma SquareStrict(a: real, b: real)
    requires 0.0 <= a < b
    ensures a * a < b * b
  {
    PositiveProduct(b - a, b + a);
    assert (b - a) * (b + a) == b * b - a * a;
  }

  lemma PositiveProduct(x: real, y: real)
    requires 0.0 < x && 0.0 < y
    ensures 0.0 < x * y
  {
  }

  /** `intersects`: the centres are closer than the sum of the radii. */
  predicate Intersects(a: Agent, b: Agent)
  {
    Within(DistSq(a.x, a.y, b.x, b.y), a.r + b.r)
  }

  /** `isClicked`: the point is strictly inside the disk. */
  predicate IsClicked(a: Agent, px: real, py: real)
  {
    Within(DistSq(px, py, a.x, a.y), a.r)
  }

  /** Given the centre distance `d`, `intersects` is `d < a.r + b.r`, and
      it does not depend on the order of the two agents. */
  lemma IntersectsIsDiskOverlap(a: Agent, b: Agent, d: real)
    requires 0.0 <= d && d * d == DistSq(a.x, a.y, b.x, b.y)
    ensures Intersects(a, b) <==> d < a.r + b.r
    ensures Intersects(a, b) == Intersects(b, a)
  {
    WithinIsDistanceBelow(d, a.r + b.r);
    assert DistSq(a.x, a.y, b.x, b.y) == DistSq(b.x, b.y, a.x, a.y);
  }

  /** Given the distance `d` from the point to the centre, `isClicked` is
      `d < a.r`. */
  lemma IsClickedIsInsideDisk(a: Agent, px: real, py: real, d: real)
    requires 0.0 <= d && d * d == DistSq(px, py, a.x, a.y)
    ensures IsClicked(a, px, py) <==> d < a.r
  {
    WithinIsDistanceBelow(d, a.r);
  }

  // ---------------------------------------------------------------------
  // Walls

  /** `bounceOffWalls`: an edge that the disk crosses clamps the centre to
      it and reverses the velocity along that axis. */
  method BounceOffWalls(s: Agent, width: real, height: real) returns (t: Agent)
    ensures t == s.(x := t.x, y := t.y, vel := t.vel)
    ensures s.x > width - s.r ==> t.x == width - s.r
    ensures s.x <= width - s.r && s.x < s.r ==> t.x == s.r
    ensures s.y > height - s.r ==> t.y == height - s.r
    ensures s.y <= height - s.r && s.y < s.r ==> t.y == s.r
    ensures 2.0 * s.r <= width ==> s.r <= t.x <= width - s.r
    ensures 2.0 * s.r <= height ==> s.r <= t.y <= height - s.r
    ensures s.r <= s.x <= width - s.r ==> t.x == s.x
    ensures s.r <= s.y <= height - s.r ==> t.y == s.y
    ensures t.vel.x == if t.x == s.x then s.vel.x else -s.vel.x
    ensures t.vel.y == if t.y == s.y then s.vel.y else -s.vel.y
  {
    t := s;
    if t.x > width - t.r {
      t := t.(x := width - t.r, vel := t.vel.(x := t.vel.x * -1.0));
    } else if t.x < t.r {
      t := t.(x := t.r, vel := t.vel.(x := t.vel.x * -1.0));
    }
    if t.y > height - t.r {
      t := t.(y := height - t.r, vel := t.vel.(y := t.vel.y * -1.0));
    } else if t.y < t.r {
      t := t.(y := t.r, vel := t.vel.(y := t.vel.y * -1.0));
    }
  }
}
