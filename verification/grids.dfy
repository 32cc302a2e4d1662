/** Points, planar bounds and dense row-major matrices (the Eigen types of the height-map code). */
module Grids {

  /** A 3-D position (`Eigen::Vector3d`): planar `x`, `y` and elevation `z`. */
  datatype Point = Point(x: real, y: real, z: real)

  /** Planar bounds (`BoundsT`, a 2x2 matrix holding the min corner in row 0 and the max corner in row 1). */
  datatype Bounds = Bounds(minX: real, minY: real, maxX: real, maxY: real)

  /** A dense `rows` x `cols` matrix of reals, stored row by row. The dimensions are kept
      explicitly so that a matrix with no rows still knows how many columns it has. */
  datatype Matrix = Matrix(rows: nat, cols: nat, cells: seq<seq<real>>)
  {
    /** The cell sequence really has the stated shape. */
    ghost predicate Valid()
    {
      Shaped(cells, rows, cols)
    }
  }

  /** `g` has `rows` rows of `cols` entries each. */
  ghost predicate Shaped(g: seq<seq<real>>, rows: nat, cols: nat)
  {
    |g| == rows && forall r :: 0 <= r < rows ==> |g[r]| == cols
  }

  /** An all-zero grid (`setZero()`). */
  function Zeros(rows: nat, cols: nat): (g: seq<seq<real>>)
    ensures Shaped(g, rows, cols)
    ensures forall r, c :: 0 <= r < rows && 0 <= c < cols ==> g[r][c] == 0.0
  {
    seq(rows, _ => seq(cols, _ => 0.0))
  }

  /** The sum of one row. */
  function RowSum(row: seq<real>): real
  {
    if |row| == 0 then 0.0 else row[0] + RowSum(row[1..])
  }

  /** The sum of every entry of a grid. */
  function GridSum(g: seq<seq<real>>): real
  {
    if |g| == 0 then 0.0 else RowSum(g[0]) + GridSum(g[1..])
  }

  /** Overwriting one entry changes a row's sum by exactly the difference. */
  lemma {:induction false} RowSumUpdate(row: seq<real>, c: nat, v: real)
    requires c < |row|
    ensures RowSum(row[c := v]) == RowSum(row) - row[c] + v
  {
    if c == 0 {
      assert row[c := v][1..] == row[1..];
    } else {
      assert row[c := v][1..] == row[1..][c - 1 := v];
      RowSumUpdate(row[1..], c - 1, v);
    }
  }

  /** Replacing one row changes a grid's sum by exactly the difference of the row sums. */
  lemma {:induction false} GridSumUpdate(g: seq<seq<real>>, r: nat, row: seq<real>)
    requires r < |g|
    ensures GridSum(g[r := row]) == GridSum(g) - RowSum(g[r]) + RowSum(row)
  {
    if r == 0 {
      assert g[r := row][1..] == g[1..];
    } else {
      assert g[r := row][1..] == g[1..][r - 1 := row];
      GridSumUpdate(g[1..], r - 1, row);
    }
  }

  /** Adding `d` to one cell adds exactly `d` to the grid's total. */
  lemma CellAddSum(g: seq<seq<real>>, r: nat, c: nat, d: real)
    requires r < |g| && c < |g[r]|
    ensures GridSum(g[r := g[r][c := g[r][c] + d]]) == GridSum(g) + d
  {
    RowSumUpdate(g[r], c, g[r][c] + d);
    GridSumUpdate(g, r, g[r][c := g[r][c] + d]);
  }

  /** A grid whose every entry is zero sums to zero. */
  lemma {:induction false} ZeroGridSum(g: seq<seq<real>>)
    requires forall r, c :: 0 <= r < |g| && 0 <= c < |g[r]| ==> g[r][c] == 0.0
    ensures GridSum(g) == 0.0
  {
    if |g| > 0 {
      ZeroRowSum(g[0]);
      ZeroGridSum(g[1..]);
    }
  }

  lemma {:induction false} ZeroRowSum(row: seq<real>)
    requires forall c :: 0 <= c < |row| ==> row[c] == 0.0
    ensures RowSum(row) == 0.0
  {
    if |row| > 0 {
      ZeroRowSum(row[1..]);
    }
  }
}
