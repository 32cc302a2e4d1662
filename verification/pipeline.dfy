/** The end-to-end pipelines of mesh_map.cpp (`mesh_from_cloud`, `mesh_from_pings`): bin the
    points into a mean-height map, triangulate that map, and hand back the mesh together with
    the grown bounds of the grid. */
module MeshMap {
  import opened Results
  import opened Numerics
  import opened Grids
  import opened HeightMap
  import opened Triangulation

  /** `result` is the triangulation of the mean heights of `pts` binned over `l`: it is a
      failure exactly when the face array size is negative, the case Eigen's size assertion
      rejects; otherwise vertex `y*cols + x` sits at `((x+.5)*res, (y+.5)*res)`, the centre of
      cell (y, x) measured from the grid's min corner, at the cell's mean elevation
      (`MeanGrid`), and the faces are the triangles over cells with data, in loop order. */
  ghost predicate MeshOfBins(l: Layout, pts: seq<Point>, result: Result<Mesh, MeshError>)
    requires 0.0 < l.res
  {
    && (result.Failure? <==> FaceCapacity(l.rows, l.cols) < 0)
    && (result.Failure? ==> result.error == NegativeFaceCapacity(FaceCapacity(l.rows, l.cols)))
    && (result.Success? ==>
         && CellCentres(MeanGrid(l, pts), l.res, result.value.vertices)
         && result.value.faces == GridFaces(MeanGrid(l, pts), l.rows))
  }

  /** The vertex spacing recovered from the grown bounds is the binning cell size: the bounds
      span exactly `cols` cells. */
  lemma XResIsRes(l: Layout)
    requires 0.0 < l.res && 0 < l.cols
    ensures XRes(LayoutBounds(l), l.cols) == l.res
  {
    var n := l.cols as real;
    assert LayoutBounds(l).maxX - LayoutBounds(l).minX == n * l.res;
  }

  /** Triangulating the binned heights over `l` yields `MeshOfBins`. */
  method MeshOfLayout(l: Layout, pts: seq<Point>, heights: Matrix) returns (result: Result<Mesh, MeshError>)
    requires 0.0 < l.res && heights == MeanGrid(l, pts)
    ensures MeshOfBins(l, pts, result)
  {
    result := MeshFromHeightMap(heights, LayoutBounds(l));
    if result.Success? && 0 < l.cols {
      XResIsRes(l);
    }
  }

  /** `mesh_from_cloud`: the height map of the cloud, its triangulation, and its bounds. */
  method MeshFromCloud(cloud: seq<Point>, res: real) returns (result: Result<Mesh, MeshError>, bounds: Bounds)
    requires |cloud| > 0 && 0.0 < res
    ensures bounds == LayoutBounds(CloudLayout(cloud, res))
    ensures MeshOfBins(CloudLayout(cloud, res), cloud, result)
  {
    var heights;
    heights, bounds := HeightMapFromCloud(cloud, res);
    result := MeshOfLayout(CloudLayout(cloud, res), cloud, heights);
  }

  /** `mesh_from_pings`: the height map of the beams over the ping-position grid, its
      triangulation, and its bounds. */
  method MeshFromPings(pings: seq<Ping>, res: real) returns (result: Result<Mesh, MeshError>, bounds: Bounds)
    requires |pings| > 0 && 0.0 < res
    ensures bounds == LayoutBounds(PingLayout(pings, res))
    ensures MeshOfBins(PingLayout(pings, res), AllBeams(pings), result)
  {
    var heights;
    heights, bounds := HeightMapFromPings(pings, res);
    result := MeshOfLayout(PingLayout(pings, res), AllBeams(pings), heights);
  }

  /** In a binned mesh, vertex `y*cols + x` is at the centre of cell (y, x) measured from the
      grid's min corner, at the mean elevation of the points binned into it, or at 0 when none
      was. The vertices carry no min-corner offset: only shifted by the bounds' min corner does
      a vertex land in its own cell. */
  lemma BinnedVertex(l: Layout, pts: seq<Point>, vs: seq<Point>, y: nat, x: nat)
    requires 0.0 < l.res && CellCentres(MeanGrid(l, pts), l.res, vs)
    requires y < l.rows && x < l.cols
    ensures y * l.cols + x < |vs|
    ensures vs[y * l.cols + x] == Point((x as real + 0.5) * l.res, (y as real + 0.5) * l.res, CellMean(l, pts, Cell(y, x)))
    ensures CellCount(l, pts, Cell(y, x)) == 0 ==> vs[y * l.cols + x].z == 0.0
    ensures var v, b := vs[y * l.cols + x], LayoutBounds(l);
      BinOf(l, Point(b.minX + v.x, b.minY + v.y, v.z)) == Some(Cell(y, x))
  {
    CellIndexIsRowMajor(l.cols, y, x);
    CellCentreBinned(l, y, x, CellMean(l, pts, Cell(y, x)));
  }

  /** A cell that no point reached is a hole of the mesh: its vertex is a corner of no face. */
  lemma EmptyCellIsolated(l: Layout, pts: seq<Point>, f: Face, y: nat, x: nat)
    requires 0.0 < l.res && f in GridFaces(MeanGrid(l, pts), l.rows)
    requires y < l.rows && x < l.cols && CellCount(l, pts, Cell(y, x)) == 0
    ensures y * l.cols + x !in [f.a, f.b, f.c]
  {
    EmptyCellIsHole(l, pts, y, x);
    EmittedHoleIsolated(MeanGrid(l, pts), f, y, x);
  }

  /** The "no data" value doubles as an elevation: a cell whose points have mean elevation 0
      (see `ZeroSumCellIsHole`) is cut out of the mesh exactly like a cell that no point reached. */
  lemma ZeroMeanCellIsolated(l: Layout, pts: seq<Point>, f: Face, y: nat, x: nat)
    requires 0.0 < l.res && f in GridFaces(MeanGrid(l, pts), l.rows)
    requires y < l.rows && x < l.cols && CellMean(l, pts, Cell(y, x)) == 0.0
    ensures y * l.cols + x !in [f.a, f.b, f.c]
  {
    EmittedHoleIsolated(MeanGrid(l, pts), f, y, x);
  }

  /** A cloud whose points all share one y but spread over more than one cell in x gets a grid
      with no rows and at least two columns, so the face array size is negative: the case that
      trips Eigen's size assertion, which the pipeline returns as a failure. */
  lemma FlatCloudFails(cloud: seq<Point>, res: real)
    requires |cloud| > 0 && 0.0 < res
    requires MinOf(Ys(cloud)) == MaxOf(Ys(cloud)) && MinOf(Xs(cloud)) + res < MaxOf(Xs(cloud))
    ensures CloudLayout(cloud, res).rows == 0 && 2 <= CloudLayout(cloud, res).cols
    ensures FaceCapacity(CloudLayout(cloud, res).rows, CloudLayout(cloud, res).cols) < 0
  {
    var xs, ys := Xs(cloud), Ys(cloud);
    FlatExtentNoRows(MinOf(xs), MinOf(ys), MaxOf(xs), MaxOf(ys), res);
    WideExtentCols(MinOf(xs), MinOf(ys), MaxOf(xs), MaxOf(ys), res);
    NegativeCapacity(CloudLayout(cloud, res).rows, CloudLayout(cloud, res).cols);
  }
}
