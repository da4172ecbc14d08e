// The flow field that steers the plain slimes (sketch.js:1132-1181): a
// grid of unit vectors, one per `resolution`-sized cell of the canvas,
// and `lookup`, which maps a point to the vector of its cell, clamping
// points off the grid to the nearest edge cell. The vectors themselves
// come from Perlin noise and are passed in.

module Flow {
  import opened Slimes

  /** The field: its cell size, its column and row counts, and the
      vectors, indexed `field[column][row]`. */
  datatype FlowField = FlowField(resolution: real, cols: int, rows: int, field: seq<seq<Vec>>)
  {
    /** A field `lookup` can index: at least one cell, and every column
        holding `rows` vectors. */
    predicate Valid()
    {
      && 0.0 < resolution && 1 <= cols && 1 <= rows && |field| == cols
      && forall i :: 0 <= i < cols ==> |field[i]| == rows
    }
  }

  /** The number of whole cells of size `resolution` along `extent`
      (`floor(width / resolution)`). */
  function CellCount(extent: real, resolution: real): (n: int)
    requires 0.0 < resolution
    ensures n as real * resolution <= extent < (n + 1) as real * resolution
  {
    var n := (extent / resolution).Floor;
    WithinCell(extent, resolution, n);
    n
  }

  /** The field built by the constructor for a `width` by `height` canvas,
      with the noise-drawn vectors given. */
  function NewFlowField(width: real, height: real, resolution: real, field: seq<seq<Vec>>): (f: FlowField)
    requires 0.0 < resolution
    ensures f.cols as real * resolution <= width && f.rows as real * resolution <= height
    ensures width < (f.cols + 1) as real * resolution && height < (f.rows + 1) as real * resolution
  {
    FlowField(resolution, CellCount(width, resolution), CellCount(height, resolution), field)
  }

  /** p5's `constrain`: `max(min(v, high), low)`. */
  function Constrain(v: real, low: real, high: real): (c: real)
    requires low <= high
    ensures low <= c <= high
    ensures low <= v <= high ==> c == v
    ensures v < low ==> c == low
    ensures high < v ==> c == high
  {
    var m := if v < high then v else high;
    if m > low then m else low
  }

  /** The column (or row) of a coordinate:
      `floor(constrain(coord / resolution, 0, count - 1))`. */
  function Cell(coord: real, resolution: real, count: int): (c: int)
    requires 0.0 < resolution && 1 <= count
    ensures 0 <= c < count
  {
    Constrain(coord / resolution, 0.0, (count - 1) as real).Floor
  }

  /** `lookup`: the vector of the cell the point falls in, after clamping. */
  function Lookup(f: FlowField, p: Vec): (v: Vec)
    requires f.Valid()
    ensures exists i, j :: 0 <= i < f.cols && 0 <= j < f.rows && v == f.field[i][j]
  {
    var i := Cell(p.x, f.resolution, f.cols);
    var j := Cell(p.y, f.resolution, f.rows);
    f.field[i][j]
  }

  /** `n` is the floor of `coord / resolution` exactly when the cell
      [n * resolution, (n + 1) * resolution) holds `coord`. */
  lemma WithinCell(coord: real, resolution: real, n: int)
    requires 0.0 < resolution
    ensures n == (coord / resolution).Floor <==>
      n as real * resolution <= coord < (n + 1) as real * resolution
  {
    var q := coord / resolution;
    assert coord == q * resolution;
    var f := q.Floor;
    assert f as real <= q < f as real + 1.0;
    if n as real <= q < (n + 1) as real {
      assert f == n;
    }
    if n as real <= q {
      MultiplyOrder(n as real, q, resolution);
    } else {
      StrictMultiplyOrder(q, n as real, resolution);
    }
    if q < (n + 1) as real {
      StrictMultiplyOrder(q, (n + 1) as real, resolution);
    } else {
      MultiplyOrder((n + 1) as real, q, resolution);
    }
  }

  lemma MultiplyOrder(a: real, b: real, k: real)
    requires a <= b && 0.0 < k
    ensures a * k <= b * k
  {
    assert b * k - a * k == (b - a) * k;
  }

  lemma StrictMultiplyOrder(a: real, b: real, k: real)
    requires a < b && 0.0 < k
    ensures a * k < b * k
  {
    assert b * k - a * k == (b - a) * k;
    PositiveProduct(b - a, k);
  }

  /** A coordinate on the grid maps to the one cell that holds it:
      clamping never moves it. */
  lemma CellOnGrid(coord: real, resolution: real, count: int)
    requires 0.0 < resolution && 1 <= count
    requires 0.0 <= coord < count as real * resolution
    ensures var c := Cell(coord, resolution, count);
      c as real * resolution <= coord < (c + 1) as real * resolution
  {
    var q := coord / resolution;
    var n := q.Floor;
    WithinCell(coord, resolution, n);
    assert 0 <= n by {
      if n < 0 {
        MultiplyOrder((n + 1) as real, 0.0, resolution);
      }
    }
    assert n < count by {
      if count <= n {
        MultiplyOrder(count as real, n as real, resolution);
      }
    }
    var c := Constrain(q, 0.0, (count - 1) as real);
    assert c.Floor == n;
  }

  /** A coordinate before the grid maps to the first cell, and one past
      the start of the last cell to the last cell. */
  lemma CellClamps(coord: real, resolution: real, count: int)
    requires 0.0 < resolution && 1 <= count
    ensures coord < 0.0 ==> Cell(coord, resolution, count) == 0
    ensures (count - 1) as real * resolution <= coord ==> Cell(coord, resolution, count) == count - 1
  {
    var q := coord / resolution;
    assert coord == q * resolution;
    if coord < 0.0 && 0.0 <= q {
      MultiplyOrder(0.0, q, resolution);
    }
    if (count - 1) as real * resolution <= coord && q < (count - 1) as real {
      StrictMultiplyOrder(q, (count - 1) as real, resolution);
    }
  }

  /** A point on the grid reads the vector of the cell that holds it. */
  lemma LookupOnGrid(f: FlowField, p: Vec, i: int, j: int)
    requires f.Valid()
    requires 0 <= i < f.cols && 0 <= j < f.rows
    requires i as real * f.resolution <= p.x < (i + 1) as real * f.resolution
    requires j as real * f.resolution <= p.y < (j + 1) as real * f.resolution
    ensures Lookup(f, p) == f.field[i][j]
  {
    WithinCell(p.x, f.resolution, i);
    WithinCell(p.y, f.resolution, j);
    CellOnGridIsFloor(p.x, f.resolution, f.cols, i);
    CellOnGridIsFloor(p.y, f.resolution, f.rows, j);
  }

  /** On the grid, the cell index is the floor of coord / resolution. */
  lemma CellOnGridIsFloor(coord: real, resolution: real, count: int, n: int)
    requires 0.0 < resolution && 0 <= n < count
    requires n == (coord / resolution).Floor
    ensures Cell(coord, resolution, count) == n
  {
    var q := coord / resolution;
    var c := Constrain(q, 0.0, (count - 1) as real);
    if (count - 1) as real < q {
      assert n == count - 1;
    }
  }
}
