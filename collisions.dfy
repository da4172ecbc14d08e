// What one colliding pair turns into in draw(): the area-weighted merge
// and the black hole's growth by consumption. Areas are r * r: the
// factor PI cancels from every ratio in sketch.js:135-166.

module Collisions {
  import opened Slimes

  /** The area of an agent, without the factor PI. */
  function Area(a: Agent): real
  {
    a.r * a.r
  }

  /** `v` lies between `p` and `q`, in whichever order they come. */
  predicate Between(v: real, p: real, q: real)
  {
    (p <= v <= q) || (q <= v <= p)
  }

  /** `v` is the average of `p` and `q` weighted by `wp` and `wq`: the
      total weight at `v` balances the two weights at `p` and `q`. */
  predicate Balances(v: real, p: real, wp: real, q: real, wq: real)
  {
    v * (wp + wq) == p * wp + q * wq
  }

  /** The average of `p` and `q` weighted by `wp` and `wq`. */
  function WeightedAverage(p: real, wp: real, q: real, wq: real): (v: real)
    requires 0.0 <= wp && 0.0 <= wq && 0.0 < wp + wq
    ensures Balances(v, p, wp, q, wq)
    ensures Between(v, p, q)
    ensures wp == wq ==> v == (p + q) / 2.0
  {
    var v := (p * wp + q * wq) / (wp + wq);
    AverageBetween(p, wp, q, wq, v);
    v
  }

  lemma AverageBetween(p: real, wp: real, q: real, wq: real, v: real)
    requires 0.0 <= wp && 0.0 <= wq && 0.0 < wp + wq
    requires v == (p * wp + q * wq) / (wp + wq)
    ensures v * (wp + wq) == p * wp + q * wq
    ensures Between(v, p, q)
    ensures wp == wq ==> v == (p + q) / 2.0
  {
    var w := wp + wq;
    assert v * w == p * wp + q * wq;
    // p * w - v * w == (p - q) * wq and q * w - v * w == (q - p) * wp
    assert (p - v) * w == (p - q) * wq;
    assert (q - v) * w == (q - p) * wp;
    if p <= q {
      NonNegativeProduct(q - p, wq);
      NonNegativeProduct(q - p, wp);
      SignOfProduct(v - p, w);
      SignOfProduct(q - v, w);
    } else {
      NonNegativeProduct(p - q, wq);
      NonNegativeProduct(p - q, wp);
      SignOfProduct(p - v, w);
      SignOfProduct(v - q, w);
    }
    if wp == wq {
      var gap := 2.0 * v - (p + q);
      assert gap * wp == 0.0;
      if gap != 0.0 {
        NonZeroProduct(gap, wp);
        assert false;
      }
    }
  }

  lemma NonNegativeProduct(x: real, y: real)
    requires 0.0 <= x && 0.0 <= y
    ensures 0.0 <= x * y
  {
  }

  lemma NonZeroProduct(x: real, y: real)
    requires x != 0.0 && y != 0.0
    ensures x * y != 0.0
  {
    if (x < 0.0) == (y < 0.0) {
      assert x * y == (-x) * (-y);
      if x < 0.0 { PositiveProduct(-x, -y); } else { PositiveProduct(x, y); }
    } else {
      if x < 0.0 { PositiveProduct(-x, y); } else { PositiveProduct(x, -y); }
    }
  }

  lemma SignOfProduct(x: real, w: real)
    requires 0.0 < w && 0.0 <= x * w
    ensures 0.0 <= x
  {
    if x < 0.0 {
      PositiveProduct(-x, w);
    }
  }

  /** The generic merge of two colliding agents (sketch.js:160-194). */
  function Merge(a: Agent, b: Agent, sqrt: real -> real): (m: Agent)
    requires IsSqrt(sqrt)
    requires 0.0 < Area(a) + Area(b)
    ensures 0.0 < m.r && Area(m) == Area(a) + Area(b)
    ensures Balances(m.x, a.x, Area(a), b.x, Area(b))
    ensures Balances(m.y, a.y, Area(a), b.y, Area(b))
    ensures Balances(m.vel.x, a.vel.x, Area(a), b.vel.x, Area(b))
    ensures Balances(m.vel.y, a.vel.y, Area(a), b.vel.y, Area(b))
    ensures Balances(m.color.red, a.color.red, Area(a), b.color.red, Area(b))
    ensures Balances(m.color.green, a.color.green, Area(a), b.color.green, Area(b))
    ensures Balances(m.color.blue, a.color.blue, Area(a), b.color.blue, Area(b))
    ensures Between(m.x, a.x, b.x) && Between(m.y, a.y, b.y)
    ensures Between(m.vel.x, a.vel.x, b.vel.x) && Between(m.vel.y, a.vel.y, b.vel.y)
    ensures Between(m.color.red, a.color.red, b.color.red)
    ensures Between(m.color.green, a.color.green, b.color.green)
    ensures Between(m.color.blue, a.color.blue, b.color.blue)
    ensures m.color.alpha == a.color.alpha
  {
    var areaA, areaB := Area(a), Area(b);
    assert 0.0 <= areaA && 0.0 <= areaB by {
      SquareNonNegative(a.r);
      SquareNonNegative(b.r);
    }
    var combined := areaA + areaB;
    var newRadius := sqrt(combined);
    assert 0.0 < newRadius by {
      assert newRadius * newRadius == combined;
    }
    var kind :=
      if a.kind == KillerSlime || b.kind == KillerSlime then KillerSlime
      else if a.kind == ClusterSlime || b.kind == ClusterSlime then ClusterSlime
      else Slime;
    var shape :=
      if kind == KillerSlime then Killer
      else if kind == ClusterSlime then Cluster
      else if a.r > b.r then a.shape else b.shape;
    var m := Agent(kind, shape,
          WeightedAverage(a.x, areaA, b.x, areaB),
          WeightedAverage(a.y, areaA, b.y, areaB),
          Vec(WeightedAverage(a.vel.x, areaA, b.vel.x, areaB),
              WeightedAverage(a.vel.y, areaA, b.vel.y, areaB)),
          newRadius,
          Rgba(WeightedAverage(a.color.red, areaA, b.color.red, areaB),
               WeightedAverage(a.color.green, areaA, b.color.green, areaB),
               WeightedAverage(a.color.blue, areaA, b.color.blue, areaB),
               a.color.alpha));
    assert Area(m) == combined;
    m
  }

  lemma SquareNonNegative(x: real)
    ensures 0.0 <= x * x
    ensures x != 0.0 ==> 0.0 < x * x
  {
    if x < 0.0 {
      PositiveProduct(-x, -x);
      assert (-x) * (-x) == x * x;
    } else if 0.0 < x {
      PositiveProduct(x, x);
    }
  }

  /** Two agents of equal area merge to the plain midpoint of their
      centres, velocities and colours. */
  lemma MergeOfEqualAreas(a: Agent, b: Agent, sqrt: real -> real)
    requires IsSqrt(sqrt) && Area(a) == Area(b) && 0.0 < Area(a) + Area(b)
    ensures var m := Merge(a, b, sqrt);
      && m.x == (a.x + b.x) / 2.0 && m.y == (a.y + b.y) / 2.0
      && m.vel == Vec((a.vel.x + b.vel.x) / 2.0, (a.vel.y + b.vel.y) / 2.0)
      && m.color == Rgba((a.color.red + b.color.red) / 2.0, (a.color.green + b.color.green) / 2.0,
                         (a.color.blue + b.color.blue) / 2.0, a.color.alpha)
  {
  }

  /** The class of a merge result escalates: a killer if either parent is
      one, else a cluster if either parent is one, else a plain slime,
      never a black hole. A plain result takes the shape of the strictly
      larger parent, and B's on a tie; so two black holes merge into a
      plain slime that still carries the shape tag BlackHole. */
  lemma MergeEscalates(a: Agent, b: Agent, sqrt: real -> real)
    requires IsSqrt(sqrt) && 0.0 < Area(a) + Area(b)
    ensures var m := Merge(a, b, sqrt);
      && (m.kind == KillerSlime <==> a.kind == KillerSlime || b.kind == KillerSlime)
      && (m.kind == ClusterSlime <==>
            a.kind != KillerSlime && b.kind != KillerSlime && (a.kind == ClusterSlime || b.kind == ClusterSlime))
      && m.kind != BlackHoleSlime
      && (m.kind == KillerSlime ==> m.shape == Killer)
      && (m.kind == ClusterSlime ==> m.shape == Cluster)
      && (m.kind == Slime ==> m.shape == if a.r > b.r then a.shape else b.shape)
    ensures a.kind == BlackHoleSlime && b.kind == BlackHoleSlime && a.shape == BlackHole && b.shape == BlackHole
      ==> Merge(a, b, sqrt).kind == Slime && Merge(a, b, sqrt).shape == BlackHole
  {
  }

  /** The black hole's growth when it swallows `prey` (sketch.js:134-138):
      its area grows by the prey's area and nothing else changes. */
  function Consume(hole: Agent, prey: Agent, sqrt: real -> real): (c: Agent)
    requires IsSqrt(sqrt)
    ensures c == hole.(r := c.r)
    ensures 0.0 <= c.r && Area(c) == Area(hole) + Area(prey)
    ensures hole.r <= c.r
    ensures 0.0 < Area(prey) ==> hole.r < c.r
  {
    SquareNonNegative(hole.r);
    SquareNonNegative(prey.r);
    var grown := sqrt(Area(hole) + Area(prey));
    Grows(hole.r, grown, Area(prey));
    hole.(r := grown)
  }

  /** A radius whose square exceeds r * r by a non-negative amount is at
      least r, and strictly more when the amount is positive. */
  lemma Grows(r: real, r': real, extra: real)
    requires 0.0 <= r' && 0.0 <= extra && r' * r' == r * r + extra
    ensures r <= r'
    ensures 0.0 < extra ==> r < r'
  {
    if r' < r {
      SquareStrict(r', r);
    } else if r' == r {
      assert r' * r' == r * r;
    }
  }

  /** An area is never negative, and positive exactly when the radius is
      non-zero. */
  lemma AreaSign(a: Agent)
    ensures 0.0 <= Area(a)
    ensures a.r != 0.0 ==> 0.0 < Area(a)
  {
    calc {
      Area(a);
    ==
      a.r * a.r;
    >= { SquareNonNegative(a.r); }
      0.0;
    }
    if a.r != 0.0 {
      calc {
        Area(a);
      ==
        a.r * a.r;
      > { SquareNonNegative(a.r); }
        0.0;
      }
    }
  }

  /** Two agents that intersect have a positive combined area, so their
      merge is defined. */
  lemma IntersectingHaveArea(a: Agent, b: Agent)
    requires Intersects(a, b)
    ensures 0.0 < Area(a) + Area(b)
  {
    AreaSign(a);
    AreaSign(b);
  }
}
