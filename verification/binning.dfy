/** Grid binning (`height_map_from_cloud`, `height_map_from_pings` in mesh_map.cpp):
    scattered points are binned into a planar grid whose cells hold the mean elevation of
    the points that fall into them; a cell that receives no point holds the "no data" value 0. */
module HeightMap {
  import opened Results
  import opened Numerics
  import opened Grids

  /** The grid laid over a bounding box: its min corner, its square cell size and its dimensions. */
  datatype Layout = Layout(minX: real, minY: real, res: real, rows: nat, cols: nat)

  /** A grid cell, addressed (row, col) as in `means(row, col)`. */
  datatype Cell = Cell(row: nat, col: nat)

  /** One multibeam ping (`mbes_ping`): the vehicle position `pos_` and the beam hits `beams`. */
  datatype Ping = Ping(pos: Point, beams: seq<Point>)

  function Xs(pts: seq<Point>): (xs: seq<real>)
    ensures |xs| == |pts| && forall i :: 0 <= i < |pts| ==> xs[i] == pts[i].x
  {
    seq(|pts|, i requires 0 <= i < |pts| => pts[i].x)
  }

  function Ys(pts: seq<Point>): (ys: seq<real>)
    ensures |ys| == |pts| && forall i :: 0 <= i < |pts| ==> ys[i] == pts[i].y
  {
    seq(|pts|, i requires 0 <= i < |pts| => pts[i].y)
  }

  /** The grid over the box [minX, maxX] x [minY, maxY] with cells of side `res`. */
  function MakeLayout(minX: real, minY: real, maxX: real, maxY: real, res: real): (l: Layout)
    requires 0.0 < res && minX <= maxX && minY <= maxY
    ensures l.minX == minX && l.minY == minY && l.res == res
    ensures l.cols as real - 1.0 < (maxX - minX) / res <= l.cols as real
    ensures l.rows as real - 1.0 < (maxY - minY) / res <= l.rows as real
  {
    DivCompare(maxX - minX, res, 0.0);
    DivCompare(maxY - minY, res, 0.0);
    Layout(minX, minY, res, Ceil((maxY - minY) / res), Ceil((maxX - minX) / res))
  }

  /** A box of zero height gets a grid with no rows at all. */
  lemma FlatExtentNoRows(minX: real, minY: real, maxX: real, maxY: real, res: real)
    requires 0.0 < res && minX <= maxX && minY == maxY
    ensures MakeLayout(minX, minY, maxX, maxY, res).rows == 0
  {
    assert (maxY - minY) / res == 0.0;
  }

  /** A box wider than one cell gets at least two columns. */
  lemma WideExtentCols(minX: real, minY: real, maxX: real, maxY: real, res: real)
    requires 0.0 < res && minX + res < maxX && minY <= maxY
    ensures 2 <= MakeLayout(minX, minY, maxX, maxY, res).cols
  {
    DivCompare(maxX - minX, res, 1.0);
  }

  /** The returned bounds: the max corner pushed out to `min + cols*res`, `min + rows*res`. */
  function LayoutBounds(l: Layout): (b: Bounds)
    ensures b.minX == l.minX && b.minY == l.minY
    ensures 0.0 < l.res ==> (b.maxX - b.minX) / l.res == l.cols as real && (b.maxY - b.minY) / l.res == l.rows as real
  {
    Bounds(l.minX, l.minY, l.minX + l.cols as real * l.res, l.minY + l.rows as real * l.res)
  }

  /** The grown max corner covers the original box and overshoots it by less than one cell,
      so the bounds tile into exactly `cols` x `rows` whole cells. */
  lemma GrownBoundsCover(minX: real, minY: real, maxX: real, maxY: real, res: real)
    requires 0.0 < res && minX <= maxX && minY <= maxY
    ensures var b := LayoutBounds(MakeLayout(minX, minY, maxX, maxY, res));
      && b.minX == minX && b.minY == minY
      && maxX <= b.maxX < maxX + res
      && maxY <= b.maxY < maxY + res
  {
    AxisGrown(minX, maxX, res);
    AxisGrown(minY, maxY, res);
  }

  /** One axis of the grown bounds: `lo + ceil((hi - lo)/res)*res` reaches `hi` and
      overshoots it by less than one cell. */
  lemma AxisGrown(lo: real, hi: real, res: real)
    requires 0.0 < res
    ensures hi <= lo + Ceil((hi - lo) / res) as real * res < hi + res
  {
    ScaleEdge(lo, hi, res, Ceil((hi - lo) / res));
  }

  /** `n - 1 < (hi - lo)/res <= n` scaled by the positive `res`: `lo + n*res` reaches `hi`
      and overshoots it by less than `res`. */
  lemma ScaleEdge(lo: real, hi: real, res: real, n: int)
    requires 0.0 < res && n as real - 1.0 < (hi - lo) / res <= n as real
    ensures hi <= lo + n as real * res < hi + res
  {
    var d := hi - lo;
    DivCompare(d, res, n as real);
    DivCompare(d, res, n as real - 1.0);
    assert (n as real - 1.0) * res == n as real * res - res;
  }

  /** The cell a point is binned into, if any: `col = int((x-minX)/res)`, `row = int((y-minY)/res)`,
      kept only when `0 <= col < cols` and `0 <= row < rows`. */
  function BinOf(l: Layout, p: Point): (c: Option<Cell>)
    requires 0.0 < l.res
    ensures c.Some? ==> c.value.row < l.rows && c.value.col < l.cols
  {
    match (AxisIndex(p.x, l.minX, l.res, l.cols), AxisIndex(p.y, l.minY, l.res, l.rows))
    case (Some(col), Some(row)) => Some(Cell(row, col))
    case _ => None
  }

  /** One axis of the binning: the truncated index `int((v-lo)/res)` when it lies in `[0, n)`. */
  function AxisIndex(v: real, lo: real, res: real, n: nat): (k: Option<nat>)
    requires 0.0 < res
    ensures k.Some? ==> k.value < n
  {
    var t := Trunc((v - lo) / res);
    if 0 <= t < n then Some(t) else None
  }

  /** Which coordinates one axis keeps, and where: exactly those in the open strip
      `(lo - res, lo + n*res)`; at or above `lo` the index is the whole cell the coordinate
      lies in, below `lo` it is 0, because `int(...)` truncates toward zero. */
  lemma AxisIndexCatchment(v: real, lo: real, res: real, n: nat)
    requires 0.0 < res
    ensures var k := AxisIndex(v, lo, res, n);
      && (k.Some? <==> 0 < n && lo - res < v < lo + n as real * res)
      && (k.Some? && lo <= v ==> lo + k.value as real * res <= v < lo + (k.value + 1) as real * res)
      && (k.Some? && v < lo ==> k.value == 0)
  {
    AxisKept(v, lo, res, n);
    AxisCell(v, lo, res, Trunc((v - lo) / res));
  }

  /** Which points the grid keeps, and in which cell. A point is kept exactly when it lies in
      the open box `(minX - res, minX + cols*res) x (minY - res, minY + rows*res)`: the extra cell
      below the min corner comes from truncation toward zero, which sends a point less than one
      cell below `minX` (`minY`) to column (row) 0 instead of dropping it. */
  lemma BinOfCatchment(l: Layout, p: Point)
    requires 0.0 < l.res
    ensures var c := BinOf(l, p);
      && (c.Some? <==>
          && 0 < l.cols && 0 < l.rows
          && l.minX - l.res < p.x < l.minX + l.cols as real * l.res
          && l.minY - l.res < p.y < l.minY + l.rows as real * l.res)
      && (c.Some? && l.minX <= p.x ==>
          l.minX + c.value.col as real * l.res <= p.x < l.minX + (c.value.col + 1) as real * l.res)
      && (c.Some? && l.minY <= p.y ==>
          l.minY + c.value.row as real * l.res <= p.y < l.minY + (c.value.row + 1) as real * l.res)
      && (c.Some? && p.x < l.minX ==> c.value.col == 0)
      && (c.Some? && p.y < l.minY ==> c.value.row == 0)
  {
    BinOfKept(l, p);
    BinOfColumn(l, p);
    BinOfRow(l, p);
  }

  /** The kept points: both axis indices are in range. */
  lemma BinOfKept(l: Layout, p: Point)
    requires 0.0 < l.res
    ensures BinOf(l, p).Some? <==>
      && 0 < l.cols && 0 < l.rows
      && l.minX - l.res < p.x < l.minX + l.cols as real * l.res
      && l.minY - l.res < p.y < l.minY + l.rows as real * l.res
  {
    AxisIndexCatchment(p.x, l.minX, l.res, l.cols);
    AxisIndexCatchment(p.y, l.minY, l.res, l.rows);
  }

  /** The column of a kept point is its x axis index. */
  lemma BinOfColumn(l: Layout, p: Point)
    requires 0.0 < l.res
    ensures var c := BinOf(l, p);
      && (c.Some? && l.minX <= p.x ==>
          l.minX + c.value.col as real * l.res <= p.x < l.minX + (c.value.col + 1) as real * l.res)
      && (c.Some? && p.x < l.minX ==> c.value.col == 0)
  {
    var kx := AxisIndex(p.x, l.minX, l.res, l.cols);
    AxisIndexCatchment(p.x, l.minX, l.res, l.cols);
    assert BinOf(l, p).Some? ==> BinOf(l, p).value.col == kx.value;
  }

  /** The row of a kept point is its y axis index. */
  lemma BinOfRow(l: Layout, p: Point)
    requires 0.0 < l.res
    ensures var c := BinOf(l, p);
      && (c.Some? && l.minY <= p.y ==>
          l.minY + c.value.row as real * l.res <= p.y < l.minY + (c.value.row + 1) as real * l.res)
      && (c.Some? && p.y < l.minY ==> c.value.row == 0)
  {
    var ky := AxisIndex(p.y, l.minY, l.res, l.rows);
    AxisIndexCatchment(p.y, l.minY, l.res, l.rows);
    assert BinOf(l, p).Some? ==> BinOf(l, p).value.row == ky.value;
  }

  /** The coordinates whose truncated index lies in `[0, n)`. */
  lemma AxisKept(v: real, lo: real, res: real, n: int)
    requires 0.0 < res
    ensures 0 <= Trunc((v - lo) / res) < n <==> 0 < n && lo - res < v < lo + n as real * res
  {
    TruncInRange((v - lo) / res, n);
    DivCompare(v - lo, res, n as real);
    DivCompare(v - lo, res, -1.0);
  }

  /** The strip of coordinates a kept index stands for. */
  lemma AxisCell(v: real, lo: real, res: real, k: int)
    requires 0.0 < res && k == Trunc((v - lo) / res)
    ensures lo <= v ==> lo + k as real * res <= v < lo + (k + 1) as real * res
    ensures 0 <= k && v < lo ==> k == 0
  {
    DivCompare(v - lo, res, 0.0);
    DivCompare(v - lo, res, k as real);
    DivCompare(v - lo, res, (k + 1) as real);
  }

  /** Number of points of `pts` binned into `cell`. */
  function CellCount(l: Layout, pts: seq<Point>, cell: Cell): nat
    requires 0.0 < l.res
  {
    if |pts| == 0 then 0
    else CellCount(l, pts[..|pts| - 1], cell) + (if BinOf(l, pts[|pts| - 1]) == Some(cell) then 1 else 0)
  }

  /** Sum of the elevations of the points of `pts` binned into `cell`. */
  function CellSum(l: Layout, pts: seq<Point>, cell: Cell): real
    requires 0.0 < l.res
  {
    if |pts| == 0 then 0.0
    else CellSum(l, pts[..|pts| - 1], cell) + (if BinOf(l, pts[|pts| - 1]) == Some(cell) then pts[|pts| - 1].z else 0.0)
  }

  /** Number of points of `pts` that land inside the grid at all. */
  function KeptCount(l: Layout, pts: seq<Point>): nat
    requires 0.0 < l.res
  {
    if |pts| == 0 then 0
    else KeptCount(l, pts[..|pts| - 1]) + (if BinOf(l, pts[|pts| - 1]).Some? then 1 else 0)
  }

  /** The arithmetic mean of the elevations binned into `cell`, or the "no data" value 0. */
  function CellMean(l: Layout, pts: seq<Point>, cell: Cell): real
    requires 0.0 < l.res
  {
    var n := CellCount(l, pts, cell);
    if n == 0 then 0.0 else CellSum(l, pts, cell) / n as real
  }

  /** Binning is additive over concatenation: the tallies of `a + b` in a cell are those of `a`
      plus those of `b`, so every point is counted once, in the order it comes. */
  lemma {:induction false} TallyAppend(l: Layout, a: seq<Point>, b: seq<Point>, cell: Cell)
    requires 0.0 < l.res
    ensures CellCount(l, a + b, cell) == CellCount(l, a, cell) + CellCount(l, b, cell)
    ensures CellSum(l, a + b, cell) == CellSum(l, a, cell) + CellSum(l, b, cell)
    ensures KeptCount(l, a + b) == KeptCount(l, a) + KeptCount(l, b)
    decreases |b|
  {
    if |b| == 0 {
      assert a + b == a;
    } else {
      var n := |b| - 1;
      assert (a + b)[..|a + b| - 1] == a + b[..n];
      assert (a + b)[|a + b| - 1] == b[n];
      TallyAppend(l, a, b[..n], cell);
    }
  }

  /** A kept point of `pts` is counted in the cell it is binned into. */
  lemma {:induction false} KeptPointCounted(l: Layout, pts: seq<Point>, p: Point)
    requires 0.0 < l.res && p in pts && BinOf(l, p).Some?
    ensures 0 < CellCount(l, pts, BinOf(l, p).value)
    decreases |pts|
  {
    var n := |pts| - 1;
    if pts[n] != p {
      assert p in pts[..n] by {
        var k :| 0 <= k < |pts| && pts[k] == p;
        assert pts[..n][k] == p;
      }
      KeptPointCounted(l, pts[..n], p);
    }
  }

  /** The centre of a grid cell, measured in absolute coordinates, is binned into that cell. */
  lemma CellCentreBinned(l: Layout, y: nat, x: nat, z: real)
    requires 0.0 < l.res && y < l.rows && x < l.cols
    ensures BinOf(l, Point(l.minX + (x as real + 0.5) * l.res, l.minY + (y as real + 0.5) * l.res, z)) == Some(Cell(y, x))
  {
    var px := l.minX + (x as real + 0.5) * l.res;
    var py := l.minY + (y as real + 0.5) * l.res;
    assert px - l.minX == (x as real + 0.5) * l.res;
    assert py - l.minY == (y as real + 0.5) * l.res;
    DivCompare(px - l.minX, l.res, x as real + 0.5);
    DivCompare(py - l.minY, l.res, y as real + 0.5);
    assert Trunc(x as real + 0.5) == x;
    assert Trunc(y as real + 0.5) == y;
  }

  /** The reference height map: every cell holds the mean of the points binned into it. */
  function MeanGrid(l: Layout, pts: seq<Point>): (hm: Matrix)
    requires 0.0 < l.res
    ensures hm.Valid() && hm.rows == l.rows && hm.cols == l.cols
    ensures forall r, c :: 0 <= r < l.rows && 0 <= c < l.cols ==> hm.cells[r][c] == CellMean(l, pts, Cell(r, c))
  {
    Matrix(l.rows, l.cols,
      seq(l.rows, r requires 0 <= r < l.rows =>
        seq(l.cols, c requires 0 <= c < l.cols => CellMean(l, pts, Cell(r, c)))))
  }

  /** A cell that receives no point is a hole (value 0) of the mean-height map. */
  lemma EmptyCellIsHole(l: Layout, pts: seq<Point>, r: nat, c: nat)
    requires 0.0 < l.res && r < l.rows && c < l.cols && CellCount(l, pts, Cell(r, c)) == 0
    ensures MeanGrid(l, pts).cells[r][c] == 0.0
  {
  }

  /** A cell whose binned elevations sum to 0 is 0 in the mean-height map, whatever its count. */
  lemma ZeroSumCellIsHole(l: Layout, pts: seq<Point>, r: nat, c: nat)
    requires 0.0 < l.res && r < l.rows && c < l.cols && CellSum(l, pts, Cell(r, c)) == 0.0
    ensures MeanGrid(l, pts).cells[r][c] == 0.0
  {
    assert CellMean(l, pts, Cell(r, c)) == 0.0;
  }

  /** A cell that receives no point has a zero sum. */
  lemma {:induction false} EmptyCellSum(l: Layout, pts: seq<Point>, cell: Cell)
    requires 0.0 < l.res
    requires CellCount(l, pts, cell) == 0
    ensures CellSum(l, pts, cell) == 0.0
  {
    if |pts| > 0 {
      EmptyCellSum(l, pts[..|pts| - 1], cell);
    }
  }

  /** `sums` and `counts` hold, cell by cell, the elevation sum and the number of the points of
      `pts` binned there, and the counts add up to the number of kept points. */
  ghost predicate Tallied(l: Layout, pts: seq<Point>, sums: seq<seq<real>>, counts: seq<seq<real>>)
    requires 0.0 < l.res && Shaped(sums, l.rows, l.cols) && Shaped(counts, l.rows, l.cols)
  {
    && (forall r, c :: 0 <= r < l.rows && 0 <= c < l.cols ==>
          sums[r][c] == CellSum(l, pts, Cell(r, c)) && counts[r][c] == CellCount(l, pts, Cell(r, c)) as real)
    && GridSum(counts) == KeptCount(l, pts) as real
  }

  /** The accumulation loop: per-cell sum of z (`means`) and per-cell count (`counts`).
      Every point adds to exactly one cell or is discarded, so the counts add up to the
      number of kept points. */
  method Accumulate(l: Layout, pts: seq<Point>) returns (sums: seq<seq<real>>, counts: seq<seq<real>>)
    requires 0.0 < l.res
    ensures Shaped(sums, l.rows, l.cols) && Shaped(counts, l.rows, l.cols)
    ensures forall r, c :: 0 <= r < l.rows && 0 <= c < l.cols ==>
      sums[r][c] == CellSum(l, pts, Cell(r, c)) && counts[r][c] == CellCount(l, pts, Cell(r, c)) as real
    ensures GridSum(counts) == KeptCount(l, pts) as real
  {
    sums := Zeros(l.rows, l.cols);
    counts := Zeros(l.rows, l.cols);
    ZeroGridSum(counts);
    var i := 0;
    while i < |pts|
      invariant 0 <= i <= |pts|
      invariant Shaped(sums, l.rows, l.cols) && Shaped(counts, l.rows, l.cols)
      invariant Tallied(l, pts[..i], sums, counts)
    {
      sums, counts := AddPoint(l, pts, i, sums, counts);
      i := i + 1;
    }
    assert pts[..|pts|] == pts;
  }

  /** One iteration of the accumulation loop: point `i` adds its elevation and 1 to its cell,
      or nothing when it falls outside the grid. */
  method AddPoint(l: Layout, pts: seq<Point>, i: nat, sums0: seq<seq<real>>, counts0: seq<seq<real>>)
    returns (sums: seq<seq<real>>, counts: seq<seq<real>>)
    requires 0.0 < l.res && i < |pts|
    requires Shaped(sums0, l.rows, l.cols) && Shaped(counts0, l.rows, l.cols)
    requires Tallied(l, pts[..i], sums0, counts0)
    ensures Shaped(sums, l.rows, l.cols) && Shaped(counts, l.rows, l.cols)
    ensures Tallied(l, pts[..i + 1], sums, counts)
  {
    var p := pts[i];
    assert pts[..i + 1][..i] == pts[..i];
    sums, counts := sums0, counts0;
    match BinOf(l, p) {
      case Some(cell) =>
        var row, col := cell.row, cell.col;
        sums := sums[row := sums[row][col := sums[row][col] + p.z]];
        CellAddSum(counts, row, col, 1.0);
        counts := counts[row := counts[row][col := counts[row][col] + 1.0]];
      case None =>
    }
  }

  /** The final division `means /= counts + (counts == 0)`: a cell with a count is divided by it,
      a cell without one is divided by 1 and so keeps its value; nothing is divided by zero. */
  function Normalize(sums: seq<seq<real>>, counts: seq<seq<real>>, rows: nat, cols: nat): (means: seq<seq<real>>)
    requires Shaped(sums, rows, cols) && Shaped(counts, rows, cols)
    ensures Shaped(means, rows, cols)
    ensures forall r, c :: 0 <= r < rows && 0 <= c < cols && counts[r][c] != 0.0 ==>
      means[r][c] * counts[r][c] == sums[r][c]
    ensures forall r, c :: 0 <= r < rows && 0 <= c < cols && counts[r][c] == 0.0 ==>
      means[r][c] == sums[r][c]
  {
    seq(rows, r requires 0 <= r < rows =>
      seq(cols, c requires 0 <= c < cols =>
        sums[r][c] / (counts[r][c] + (if counts[r][c] == 0.0 then 1.0 else 0.0))))
  }

  /** Bins `pts` over the layout `l` and returns the mean-height matrix. */
  method BinMeans(l: Layout, pts: seq<Point>) returns (heights: Matrix)
    requires 0.0 < l.res
    ensures heights.rows == l.rows && heights.cols == l.cols && heights.Valid()
    ensures forall r, c :: 0 <= r < l.rows && 0 <= c < l.cols ==>
      heights.cells[r][c] == CellMean(l, pts, Cell(r, c))
    ensures heights == MeanGrid(l, pts)
  {
    var sums, counts := Accumulate(l, pts);
    var means := Normalize(sums, counts, l.rows, l.cols);
    forall r, c | 0 <= r < l.rows && 0 <= c < l.cols
      ensures means[r][c] == CellMean(l, pts, Cell(r, c))
    {
      if CellCount(l, pts, Cell(r, c)) == 0 {
        EmptyCellSum(l, pts, Cell(r, c));
      }
    }
    ghost var ref := MeanGrid(l, pts);
    forall r | 0 <= r < l.rows
      ensures means[r] == ref.cells[r]
    {
    }
    heights := Matrix(l.rows, l.cols, means);
  }

  /** The layout `height_map_from_cloud` derives from the cloud's own bounding box. */
  function CloudLayout(cloud: seq<Point>, res: real): (l: Layout)
    requires |cloud| > 0 && 0.0 < res
    ensures l.res == res
    ensures forall i :: 0 <= i < |cloud| ==>
      l.minX <= cloud[i].x <= LayoutBounds(l).maxX && l.minY <= cloud[i].y <= LayoutBounds(l).maxY
    ensures exists i :: 0 <= i < |cloud| && cloud[i].x == l.minX
    ensures exists i :: 0 <= i < |cloud| && cloud[i].y == l.minY
    ensures exists i :: 0 <= i < |cloud| && LayoutBounds(l).maxX < cloud[i].x + res
    ensures exists i :: 0 <= i < |cloud| && LayoutBounds(l).maxY < cloud[i].y + res
  {
    var xs, ys := Xs(cloud), Ys(cloud);
    GrownBoundsCover(MinOf(xs), MinOf(ys), MaxOf(xs), MaxOf(ys), res);
    MakeLayout(MinOf(xs), MinOf(ys), MaxOf(xs), MaxOf(ys), res)
  }

  /** `height_map_from_cloud`: the bounding box of the cloud, the grid over it, and the per-cell
      mean elevation, with 0 in cells that received no point. */
  method HeightMapFromCloud(cloud: seq<Point>, res: real) returns (heights: Matrix, bounds: Bounds)
    requires |cloud| > 0 && 0.0 < res
    ensures heights.Valid() && heights.rows == CloudLayout(cloud, res).rows && heights.cols == CloudLayout(cloud, res).cols
    ensures bounds == LayoutBounds(CloudLayout(cloud, res))
    ensures forall i :: 0 <= i < |cloud| ==>
      bounds.minX <= cloud[i].x <= bounds.maxX && bounds.minY <= cloud[i].y <= bounds.maxY
    ensures exists i :: 0 <= i < |cloud| && cloud[i].x == bounds.minX
    ensures exists i :: 0 <= i < |cloud| && cloud[i].y == bounds.minY
    ensures forall r, c :: 0 <= r < heights.rows && 0 <= c < heights.cols ==>
      heights.cells[r][c] == CellMean(CloudLayout(cloud, res), cloud, Cell(r, c))
    ensures forall r, c :: (0 <= r < heights.rows && 0 <= c < heights.cols &&
                           CellCount(CloudLayout(cloud, res), cloud, Cell(r, c)) == 0) ==> heights.cells[r][c] == 0.0
    ensures heights == MeanGrid(CloudLayout(cloud, res), cloud)
  {
    var xs, ys := Xs(cloud), Ys(cloud);
    var l := MakeLayout(MinOf(xs), MinOf(ys), MaxOf(xs), MaxOf(ys), res);
    GrownBoundsCover(MinOf(xs), MinOf(ys), MaxOf(xs), MaxOf(ys), res);
    heights := BinMeans(l, cloud);
    bounds := LayoutBounds(l);
  }

  /** The ping positions `pos_`, from which `height_map_from_pings` takes its bounds. */
  function Positions(pings: seq<Ping>): (ps: seq<Point>)
    ensures |ps| == |pings| && forall i :: 0 <= i < |pings| ==> ps[i] == pings[i].pos
  {
    seq(|pings|, i requires 0 <= i < |pings| => pings[i].pos)
  }

  /** All beams of all pings, ping by ping, in the order the nested loop visits them. */
  function AllBeams(pings: seq<Ping>): (beams: seq<Point>)
    ensures forall i, j :: 0 <= i < |pings| && 0 <= j < |pings[i].beams| ==> pings[i].beams[j] in beams
    ensures forall p :: p in beams ==> exists i :: 0 <= i < |pings| && p in pings[i].beams
  {
    if |pings| == 0 then [] else AllBeams(pings[..|pings| - 1]) + pings[|pings| - 1].beams
  }

  /** The nested loop bins each beam of each ping exactly once: the tallies over the beams of
      all pings are those over the earlier pings plus those over the last ping's beams. */
  lemma PingTallies(l: Layout, pings: seq<Ping>, cell: Cell)
    requires 0.0 < l.res && 0 < |pings|
    ensures var n := |pings| - 1;
      && CellCount(l, AllBeams(pings), cell) == CellCount(l, AllBeams(pings[..n]), cell) + CellCount(l, pings[n].beams, cell)
      && CellSum(l, AllBeams(pings), cell) == CellSum(l, AllBeams(pings[..n]), cell) + CellSum(l, pings[n].beams, cell)
      && KeptCount(l, AllBeams(pings)) == KeptCount(l, AllBeams(pings[..n])) + KeptCount(l, pings[n].beams)
  {
    var n := |pings| - 1;
    TallyAppend(l, AllBeams(pings[..n]), pings[n].beams, cell);
  }

  /** The layout `height_map_from_pings` derives from the ping positions (not the beams). */
  function PingLayout(pings: seq<Ping>, res: real): (l: Layout)
    requires |pings| > 0 && 0.0 < res
    ensures l.res == res
    ensures forall i :: 0 <= i < |pings| ==>
      l.minX <= pings[i].pos.x <= LayoutBounds(l).maxX && l.minY <= pings[i].pos.y <= LayoutBounds(l).maxY
    ensures exists i :: 0 <= i < |pings| && pings[i].pos.x == l.minX
    ensures exists i :: 0 <= i < |pings| && pings[i].pos.y == l.minY
    ensures exists i :: 0 <= i < |pings| && LayoutBounds(l).maxX < pings[i].pos.x + res
    ensures exists i :: 0 <= i < |pings| && LayoutBounds(l).maxY < pings[i].pos.y + res
  {
    var ps := Positions(pings);
    var xs, ys := Xs(ps), Ys(ps);
    GrownBoundsCover(MinOf(xs), MinOf(ys), MaxOf(xs), MaxOf(ys), res);
    MakeLayout(MinOf(xs), MinOf(ys), MaxOf(xs), MaxOf(ys), res)
  }

  /** `height_map_from_pings`: the bounds come from the ping positions, but it is the beams that
      are binned; beams outside those bounds (beyond the one-cell truncation margin) are dropped. */
  method HeightMapFromPings(pings: seq<Ping>, res: real) returns (heights: Matrix, bounds: Bounds)
    requires |pings| > 0 && 0.0 < res
    ensures heights.Valid() && heights.rows == PingLayout(pings, res).rows && heights.cols == PingLayout(pings, res).cols
    ensures bounds == LayoutBounds(PingLayout(pings, res))
    ensures forall i :: 0 <= i < |pings| ==>
      bounds.minX <= pings[i].pos.x <= bounds.maxX && bounds.minY <= pings[i].pos.y <= bounds.maxY
    ensures exists i :: 0 <= i < |pings| && pings[i].pos.x == bounds.minX
    ensures exists i :: 0 <= i < |pings| && pings[i].pos.y == bounds.minY
    ensures forall r, c :: 0 <= r < heights.rows && 0 <= c < heights.cols ==>
      heights.cells[r][c] == CellMean(PingLayout(pings, res), AllBeams(pings), Cell(r, c))
    ensures forall r, c :: (0 <= r < heights.rows && 0 <= c < heights.cols &&
                           CellCount(PingLayout(pings, res), AllBeams(pings), Cell(r, c)) == 0) ==> heights.cells[r][c] == 0.0
    ensures heights == MeanGrid(PingLayout(pings, res), AllBeams(pings))
  {
    var l := PingLayout(pings, res);
    var ps := Positions(pings);
    GrownBoundsCover(MinOf(Xs(ps)), MinOf(Ys(ps)), MaxOf(Xs(ps)), MaxOf(Ys(ps)), res);
    heights := BinMeans(l, AllBeams(pings));
    bounds := LayoutBounds(l);
  }

  /** A point at or above the min corner is kept exactly when it lies strictly below the
      grown max corner. */
  lemma KeptAboveMin(l: Layout, p: Point)
    requires 0.0 < l.res && l.minX <= p.x && l.minY <= p.y
    ensures BinOf(l, p).Some? <==> p.x < LayoutBounds(l).maxX && p.y < LayoutBounds(l).maxY
  {
    BinOfKept(l, p);
    StripAboveLow(p.x, l.minX, l.res, l.cols);
    StripAboveLow(p.y, l.minY, l.res, l.rows);
  }

  /** At or above `lo`, the open strip `(lo - res, lo + n*res)` of a non-empty axis is just
      `v < lo + n*res`, and an empty axis (`n == 0`) keeps nothing. */
  lemma StripAboveLow(v: real, lo: real, res: real, n: nat)
    requires 0.0 < res && lo <= v
    ensures (0 < n && lo - res < v < lo + n as real * res) <==> v < lo + n as real * res
  {
    if n == 0 {
      assert n as real * res == 0.0;
    }
  }

  /** A cloud point is never below the min corner, so it is kept exactly when it lies strictly
      below the grown max corner: the only cloud points dropped are those on the max edge
      when that edge was not pushed out. */
  lemma CloudPointKept(cloud: seq<Point>, res: real, i: nat)
    requires |cloud| > 0 && 0.0 < res && i < |cloud|
    ensures BinOf(CloudLayout(cloud, res), cloud[i]).Some? <==>
      cloud[i].x < LayoutBounds(CloudLayout(cloud, res)).maxX && cloud[i].y < LayoutBounds(CloudLayout(cloud, res)).maxY
  {
    var xs, ys := Xs(cloud), Ys(cloud);
    assert xs[i] == cloud[i].x && ys[i] == cloud[i].y;
    KeptAboveMin(CloudLayout(cloud, res), cloud[i]);
  }

  /** When the x extent of the cloud is a whole number `k` of cells, the max corner is not
      pushed out (`cols == k`), and a point lying on the original max x edge gets column
      `cols` and is dropped. */
  lemma MaxEdgePointDropped(cloud: seq<Point>, res: real, i: nat, k: nat)
    requires |cloud| > 0 && 0.0 < res && i < |cloud|
    requires MaxOf(Xs(cloud)) - MinOf(Xs(cloud)) == k as real * res
    requires cloud[i].x == MaxOf(Xs(cloud))
    ensures CloudLayout(cloud, res).cols == k
    ensures BinOf(CloudLayout(cloud, res), cloud[i]) == None
  {
    var xs, ys := Xs(cloud), Ys(cloud);
    WholeExtent(MinOf(xs), MinOf(ys), MaxOf(xs), MaxOf(ys), res, k);
    CloudPointKept(cloud, res, i);
  }

  /** An x extent of exactly `k` cells gives `cols == k` and leaves the max x edge in place. */
  lemma WholeExtent(minX: real, minY: real, maxX: real, maxY: real, res: real, k: nat)
    requires 0.0 < res && minX <= maxX && minY <= maxY
    requires maxX - minX == k as real * res
    ensures MakeLayout(minX, minY, maxX, maxY, res).cols == k
    ensures LayoutBounds(MakeLayout(minX, minY, maxX, maxY, res)).maxX == maxX
  {
    DivCompare(maxX - minX, res, k as real);
    assert (maxX - minX) / res == k as real;
  }

  /** A point less than one cell to the left of the min corner, inside the grid in y, is kept
      in column 0 although the floor of its offset in cells is negative; one cell or more to
      the left, it is dropped. */
  lemma LeftOfMinCatchment(l: Layout, p: Point)
    requires 0.0 < l.res && 0 < l.cols
    requires p.x < l.minX && l.minY <= p.y < LayoutBounds(l).maxY
    ensures ((p.x - l.minX) / l.res).Floor < 0
    ensures BinOf(l, p).Some? <==> l.minX - l.res < p.x
    ensures BinOf(l, p).Some? ==> BinOf(l, p).value.col == 0
  {
    DivCompare(p.x - l.minX, l.res, 0.0);
    BinOfCatchment(l, p);
  }

  /** The ping variant takes its bounds from the vehicle positions, yet bins the beams: beam `j`
      of ping `i`, less than one cell to the left of the leftmost vehicle position, is kept in
      column 0 and counted there, where a floor division would have given column -1 and
      dropped it; a beam one cell or more to the left is dropped. */
  lemma {:induction false} PingBeamLeftOfBounds(pings: seq<Ping>, res: real, i: nat, j: nat)
    requires |pings| > 0 && 0.0 < res && i < |pings| && j < |pings[i].beams|
    requires 0 < PingLayout(pings, res).cols
    requires pings[i].beams[j].x < PingLayout(pings, res).minX
    requires PingLayout(pings, res).minY <= pings[i].beams[j].y < LayoutBounds(PingLayout(pings, res)).maxY
    ensures ((pings[i].beams[j].x - PingLayout(pings, res).minX) / res).Floor < 0
    ensures BinOf(PingLayout(pings, res), pings[i].beams[j]).Some? <==> PingLayout(pings, res).minX - res < pings[i].beams[j].x
    ensures BinOf(PingLayout(pings, res), pings[i].beams[j]).Some? ==>
      && BinOf(PingLayout(pings, res), pings[i].beams[j]).value.col == 0
      && 0 < CellCount(PingLayout(pings, res), AllBeams(pings), BinOf(PingLayout(pings, res), pings[i].beams[j]).value)
  {
    var l, beam := PingLayout(pings, res), pings[i].beams[j];
    LeftOfMinCatchment(l, beam);
    if BinOf(l, beam).Some? {
      KeptPointCounted(l, AllBeams(pings), beam);
    }
  }
}
