// The cannon at the bottom of the canvas (sketch.js:1185-1218) and the
// slime it fires when clicked (sketch.js:283-297).

module Cannons {
  import opened Slimes
  import opened Splitting

  /** A `Cannon`: its centre and the size of its barrel. */
  datatype Cannon = Cannon(x: real, y: real, w: real, h: real)
  {
    /** `Cannon.isClicked`: the point is strictly inside the box spanning
        the barrel's top and the base arc, 1.2 times the barrel wide. */
    predicate IsClicked(px: real, py: real)
    {
      var top, bottom := y - h / 2.0, y + h;
      var left, right := x - (w * 1.2) / 2.0, x + (w * 1.2) / 2.0;
      px > left && px < right && py > top && py < bottom
    }
  }

  /** The cannon of a canvas of the given size: a 100 by 60 barrel centred
      horizontally and resting on the bottom edge. */
  function NewCannon(width: real, height: real): (c: Cannon)
    ensures c.w == 100.0 && c.h == 60.0
    ensures c.x == width / 2.0 && c.y + c.h / 2.0 == height
  {
    Cannon(width / 2.0, height - 60.0 / 2.0, 100.0, 60.0)
  }

  /** On a canvas of the given size the click box is the open rectangle
      within 60 of the vertical centre line and within the bottom 60 of
      the canvas (reaching 30 below it); the nozzle point on the barrel's
      top edge is not inside. */
  lemma ClickBox(width: real, height: real, px: real, py: real)
    ensures NewCannon(width, height).IsClicked(px, py) <==>
      width / 2.0 - 60.0 < px < width / 2.0 + 60.0 && height - 60.0 < py < height + 30.0
    ensures var c := NewCannon(width, height); !c.IsClicked(c.x, c.y - c.h / 2.0)
  {
  }

  /** The draws of one shot: `random(15, 30)`, `random(-2, 2)`, the shape
      pick and the three colour channels `random(100, 255)`. */
  datatype ShotDraws = ShotDraws(radius: real, vx: real, shape: real, red: real, green: real, blue: real)

  predicate ValidShot(d: ShotDraws)
  {
    Fraction(d.radius) && Fraction(d.vx) && Fraction(d.shape) &&
    Fraction(d.red) && Fraction(d.green) && Fraction(d.blue)
  }

  /** `shapes.filter(s => s !== 'bomb' && s !== 'killer')`. */
  function Loadable(ss: seq<Shape>): (r: seq<Shape>)
    ensures forall s :: s in r <==> s in ss && s != Bomb && s != Killer
  {
    if ss == [] then []
    else Loadable(ss[..|ss| - 1]) + if ss[|ss| - 1] in {Bomb, Killer} then [] else [ss[|ss| - 1]]
  }

  /** The shapes the cannon fires. */
  function CannonShapes(): seq<Shape>
  {
    Loadable(Shapes)
  }

  lemma CannonShapesAre()
    ensures CannonShapes() == [Circle, Square, Triangle, Arrow, Cluster, BlackHole]
  {
    var expected := [[], [Circle], [Circle, Square], [Circle, Square, Triangle],
                     [Circle, Square, Triangle], [Circle, Square, Triangle, Arrow],
                     [Circle, Square, Triangle, Arrow], [Circle, Square, Triangle, Arrow, Cluster],
                     [Circle, Square, Triangle, Arrow, Cluster, BlackHole]];
    for k := 0 to |Shapes|
      invariant Loadable(Shapes[..k]) == expected[k]
    {
      assert Shapes[..k + 1][..k] == Shapes[..k];
    }
    assert Shapes[..|Shapes|] == Shapes;
  }

  /** The slime fired from the nozzle: radius in [15, 30), straight up at
      speed 12 with a sideways drift in [-2, 2), a translucent colour with
      channels in [100, 255); never a bomb, a killer or a real black hole
      (a 'blackhole' pick makes a plain Slime with that tag), and a
      ClusterSlime exactly when the pick is 'cluster'. */
  function CannonShot(c: Cannon, d: ShotDraws): (s: Agent)
    requires ValidShot(d)
    ensures s.shape != Bomb && s.shape != Killer
    ensures s.kind != KillerSlime && s.kind != BlackHoleSlime
    ensures s.kind == ClusterSlime <==> s.shape == Cluster
    ensures 15.0 <= s.r < 30.0
    ensures s.x == c.x && s.y == c.y - c.h / 2.0
    ensures s.vel.y == -12.0 && -2.0 <= s.vel.x < 2.0
    ensures 100.0 <= s.color.red < 255.0 && 100.0 <= s.color.green < 255.0 && 100.0 <= s.color.blue < 255.0
    ensures s.color.alpha == 60.0
  {
    CannonShapesAre();
    var radius := RandomBetween(15.0, 30.0, d.radius);
    var vel := Vec(RandomBetween(-2.0, 2.0, d.vx), -12.0);
    var shape := Pick(CannonShapes(), d.shape);
    var col := Rgba(RandomBetween(100.0, 255.0, d.red), RandomBetween(100.0, 255.0, d.green),
                    RandomBetween(100.0, 255.0, d.blue), 60.0);
    if shape == Cluster then
      Agent(ClusterSlime, Cluster, c.x, c.y - c.h / 2.0, vel, radius, col)
    else
      Agent(Slime, shape, c.x, c.y - c.h / 2.0, vel, radius, col)
  }
}
