# Height-map binning and mesh triangulation (bathy_maps `mesh_map.cpp`)

This project models, in Dafny, the sequential core of `mesh_map.cpp` in `bathy_maps`.
That core turns scattered bathymetry points into a triangle mesh in two steps.

- **Grid binning.** `height_map_from_cloud` and `height_map_from_pings` lay a square-celled
  grid over the planar bounding box of the input. The grid has `cols = ceil(dx/res)` and
  `rows = ceil(dy/res)`, and its max corner is pushed out to `min + cols*res`, `min + rows*res`.
  Each point goes to cell `(int((y-miny)/res), int((x-minx)/res))`, and is kept only when that
  index lies inside the grid. Each cell gets the mean elevation of its points. A cell that no
  point reached holds the "no data" value 0. The ping variant takes its bounds from the vehicle
  positions but bins the beam hits.
- **Triangulation.** `mesh_from_height_map` writes one vertex per cell in row-major order, so
  cell (y, x) has vertex `y*cols + x`. The vertex sits at the cell centre scaled by
  `xres = (maxx-minx)/cols`, at the cell's height, measured from the grid's min corner: no
  `minx`/`miny` offset is added. For every cell with data it then tries two
  triangles: one with the left and upper neighbours, one with the right and lower neighbours.
  A triangle is emitted only when all three of its cells hold data. Faces go into an array of
  `2*(rows-1)*(cols-1)` rows, which is then trimmed to the number emitted.
- **Pipelines.** `mesh_from_cloud` and `mesh_from_pings` chain the two steps and also return the
  grown bounds.

Modules (one file each):

- `Results` (`results.dfy`): `Option` and `Result`.
- `Numerics` (`numerics.dfy`):
  - `std::ceil`, and the C++ cast `int(...)`, which truncates toward zero;
  - `std::min_element` / `std::max_element` over coordinates;
  - a linear form of the row-major index.
- `Grids` (`grids.dfy`): points, bounds, Eigen-style matrices (a matrix with no rows keeps its
  column count), and grid sums.
- `HeightMap` (`binning.dfy`): the two height-map builders.
- `Triangulation` (`mesh.dfy`): `mesh_from_height_map`. Its loops write into a real face array
  through the same index expressions as the source.
- `MeshMap` (`pipeline.dfy`): the two end-to-end pipelines.

Each loop is modelled against an independent reference definition, and lemmas connect the two.

- Binned cells are compared with `CellCount`, `CellSum` and `CellMean`, which are recursive
  definitions over the point sequence.
- Emitted faces are compared with `Triangulated`. It says "a triangle anchored at some cell
  whose three cells all hold data", and `GridFacesMembers` proves both directions.
- Vertices are compared with their cell-centre positions (`CellCentres`).

Points where the code's behaviour is easy to misread:

- **Cell index.** `int(...)` truncates toward zero. So a point less than one cell below `minx`
  or `miny` lands in column or row 0 rather than being dropped (`HeightMap.BinOfCatchment`,
  `HeightMap.PingBeamLeftOfBounds`).
- **Bad inputs.** Nothing checks for an empty input or `res <= 0`. Both are preconditions here.
- **Grid-local vertices.** `mesh_map.cpp:328` writes `((x+.5)*res, (y+.5)*res)` and leaves out the
  min-corner offset (the commented-out line 327 had it). So the mesh is in coordinates relative
  to the grid's min corner, and only the returned bounds place it (`MeshMap.BinnedVertex`).
- **Which cells get triangles.** Every cell with data is tried, and each of its two triangles
  has its own index guard and data test.
- **Negative face-array size.** The face matrix is created with `2*(rows-1)*(cols-1)` rows.
  That is negative for a grid with no rows and two or more columns, or the reverse. This shape
  comes from a cloud whose points all share one y (or one x) and spread over more than one cell
  in the other axis. A negative size violates the size assertion of Eigen's matrix
  constructor. The model follows the build with assertions on and returns
  `Failure(NegativeFaceCapacity(n))` for that path.

## Model

| member | source | states |
|---|---|---|
| `Numerics.Ceil` | src/bathy_maps/src/mesh_map.cpp:277-278 | `std::ceil`: the result is the least integer not below its argument. |
| `Numerics.Trunc` | src/bathy_maps/src/mesh_map.cpp:289-290 | `int(...)` truncates toward zero. A non-negative argument goes to the integer at or below it, a negative one to the integer at or above it. The result is non-negative exactly for arguments above -1. |
| `Numerics.TruncInRange` | src/bathy_maps/src/mesh_map.cpp:289-291 | A truncated index lies in `[0, n)` exactly when `n > 0` and the argument lies in `(-1, n)`. |
| `Numerics.MinOf` | src/bathy_maps/src/mesh_map.cpp:271 | `min_element`: the result is at most every element and is one of them. |
| `Numerics.MaxOf` | src/bathy_maps/src/mesh_map.cpp:270 | `max_element`: the result is at least every element and is one of them. |
| `Numerics.RowStartInjective` | src/bathy_maps/src/mesh_map.cpp:328 | Distinct cells have distinct row-major indices `y*cols + x`. |
| `Grids.CellAddSum` | src/bathy_maps/src/mesh_map.cpp:293 | Adding `d` to one cell adds `d` to the grid total. |
| `HeightMap.MakeLayout` | src/bathy_maps/src/mesh_map.cpp:277-278 | The grid keeps the box's min corner and the cell size. Its column and row counts are the ceilings of the box extents in cells: `cols - 1 < dx/res <= cols`, and the same for rows. |
| `HeightMap.LayoutBounds` | src/bathy_maps/src/mesh_map.cpp:279-280 | The returned bounds keep the min corner, and span exactly `cols` cells in x and `rows` cells in y. |
| `HeightMap.CloudLayout` | src/bathy_maps/src/mesh_map.cpp:270-280 | The cloud's grid has its min corner at the smallest x and the smallest y of some cloud point. Every point lies within its bounds, and each grown max edge is less than one cell beyond some point. |
| `HeightMap.PingLayout` | src/bathy_maps/src/mesh_map.cpp:225-235 | The same as the cloud grid, but over the ping positions `pos_` rather than the beams. |
| `HeightMap.AllBeams` | src/bathy_maps/src/mesh_map.cpp:243-244 | The points binned are the beams of all pings: every beam of every ping is among them, and each of them is a beam of some ping. |
| `HeightMap.AxisIndex` | src/bathy_maps/src/mesh_map.cpp:289-291 | One axis of the binning: a kept index lies in `[0, n)`. |
| `HeightMap.BinOf` | src/bathy_maps/src/mesh_map.cpp:289-291 | The cell a point goes to: a kept cell lies in `[0, rows) x [0, cols)`. |
| `HeightMap.GrownBoundsCover` | src/bathy_maps/src/mesh_map.cpp:279-280 | The pushed-out max corner covers the original box and overshoots it by less than one cell on each axis. |
| `HeightMap.FlatExtentNoRows` | src/bathy_maps/src/mesh_map.cpp:278 | A box of zero height gets a grid with no rows. |
| `HeightMap.WideExtentCols` | src/bathy_maps/src/mesh_map.cpp:277 | A box wider than one cell gets at least two columns. |
| `HeightMap.AxisIndexCatchment` | src/bathy_maps/src/mesh_map.cpp:289-291 | On one axis, the truncated index is kept exactly for coordinates in the open strip `(lo - res, lo + n*res)`. At or above `lo` it is the cell containing the coordinate. Below `lo` it is 0. |
| `HeightMap.BinOfCatchment` | src/bathy_maps/src/mesh_map.cpp:289-291 | A point is kept exactly when it lies in the open box `(minX - res, minX + cols*res) x (minY - res, minY + rows*res)`. Its cell is the one containing it, or column/row 0 when it lies less than one cell below the min corner. |
| `HeightMap.BinOfKept` | src/bathy_maps/src/mesh_map.cpp:291 | The keep test, as an if-and-only-if on the coordinates. |
| `HeightMap.BinOfColumn` | src/bathy_maps/src/mesh_map.cpp:289 | The column of a kept point is the column strip containing its x, or 0 when x is below `minX`. |
| `HeightMap.BinOfRow` | src/bathy_maps/src/mesh_map.cpp:290 | The row of a kept point is the row strip containing its y, or 0 when y is below `minY`. |
| `HeightMap.KeptAboveMin` | src/bathy_maps/src/mesh_map.cpp:289-291 | A point at or above the min corner is kept exactly when it lies strictly below the grown max corner. |
| `HeightMap.CloudPointKept` | src/bathy_maps/src/mesh_map.cpp:270-291 | A cloud point is kept exactly when it lies strictly below the grown max corner on both axes. |
| `HeightMap.MaxEdgePointDropped` | src/bathy_maps/src/mesh_map.cpp:277-291 | When the x extent is a whole number `k` of cells, `cols == k` and a point on the original max x edge is dropped. |
| `HeightMap.WholeExtent` | src/bathy_maps/src/mesh_map.cpp:277-279 | An extent of exactly `k` cells gives `cols == k` and leaves the max edge where it was. |
| `HeightMap.LeftOfMinCatchment` | src/bathy_maps/src/mesh_map.cpp:245-247 | A point less than one cell left of `minX` is kept in column 0, though the floor of its offset is negative. One cell or more to the left, it is dropped. |
| `HeightMap.PingBeamLeftOfBounds` | src/bathy_maps/src/mesh_map.cpp:225-249 | Bounds come from ping positions but beams are binned. A beam of some ping less than one cell left of the leftmost position lands in column 0 and is counted there in the height map's tallies. A floor division would have dropped it. One cell or more to the left, it is dropped. |
| `HeightMap.Accumulate` | src/bathy_maps/src/mesh_map.cpp:288-295 | After the loop, each cell holds the sum of z and the count of the points binned into it. The counts add up to the number of kept points. |
| `HeightMap.AddPoint` | src/bathy_maps/src/mesh_map.cpp:289-294 | One loop iteration keeps those per-cell totals true for one more point. |
| `HeightMap.TallyAppend` | src/bathy_maps/src/mesh_map.cpp:288-295 | Binning is additive over concatenation: the count, the sum and the kept total of `a + b` are those of `a` plus those of `b`, so each point is tallied once. |
| `HeightMap.PingTallies` | src/bathy_maps/src/mesh_map.cpp:243-250 | The nested ping/beam loop tallies each beam of each ping once: the count, sum and kept total over all pings are those over the earlier pings plus those over the last ping's beams. |
| `HeightMap.KeptPointCounted` | src/bathy_maps/src/mesh_map.cpp:291-293 | A kept point of the input is counted in the cell it is binned into. |
| `HeightMap.CellCentreBinned` | src/bathy_maps/src/mesh_map.cpp:289-291 | The centre of cell (y, x), in absolute coordinates, is binned into cell (y, x). |
| `HeightMap.EmptyCellSum` | src/bathy_maps/src/mesh_map.cpp:292-293 | A cell that received no point has sum 0. |
| `HeightMap.Normalize` | src/bathy_maps/src/mesh_map.cpp:297-298 | A cell with a count is divided by it (`mean * count == sum`). A cell without one keeps its sum, because its divisor is 1, so nothing is divided by zero. |
| `HeightMap.EmptyCellIsHole` | src/bathy_maps/src/mesh_map.cpp:297-298 | A cell that received no point is 0 in the height map. |
| `HeightMap.ZeroSumCellIsHole` | src/bathy_maps/src/mesh_map.cpp:297-298 | A cell whose elevations sum to 0 is 0 in the height map whatever its count, the same value as an empty cell. |
| `HeightMap.MeanGrid` | src/bathy_maps/src/mesh_map.cpp:297-298 | The reference height map: a `rows x cols` matrix whose cell (r, c) is the mean elevation of the points binned into it, or 0 when none was. |
| `HeightMap.BinMeans` | src/bathy_maps/src/mesh_map.cpp:285-298 | Every cell holds the arithmetic mean of the elevations binned into it, or 0 if it received none. |
| `HeightMap.HeightMapFromCloud` | src/bathy_maps/src/mesh_map.cpp:262-303 | Gives the grid shape and the grown bounds from the cloud's extremes. The min corner is attained by some point, and every point lies within the bounds. Each cell is the mean of its points, and empty cells are 0. |
| `HeightMap.HeightMapFromPings` | src/bathy_maps/src/mesh_map.cpp:217-260 | The same, with bounds from the ping positions and the cell means over all beams of all pings. |
| `Triangulation.CellIndexIsRowMajor` | src/bathy_maps/src/mesh_map.cpp:328 | The linear cell index equals the product form `y*cols + x` that the source writes. |
| `Triangulation.CellFaces` | src/bathy_maps/src/mesh_map.cpp:329-339 | The faces emitted at one cell: no more than the cell's triangle slots, so at most two. `CellFacesMembers` says which ones. |
| `Triangulation.VertexAt` | src/bathy_maps/src/mesh_map.cpp:328 | The vertex of cell (y, x) has the cell's height, and lies strictly inside the cell's square `[x*res, (x+1)*res] x [y*res, (y+1)*res]`. |
| `Triangulation.XRes` | src/bathy_maps/src/mesh_map.cpp:315-319 | `xres` is the spacing that fits `cols` cells into the bounds' x extent: `xres * cols == maxx - minx`. |
| `Triangulation.CellFacesMembers` | src/bathy_maps/src/mesh_map.cpp:329-339 | A cell's loop body emits exactly its triangles whose three cells hold data. |
| `Triangulation.RowFacesMembers` | src/bathy_maps/src/mesh_map.cpp:326-340 | A row emits exactly the data-only triangles anchored at its cells. |
| `Triangulation.GridFacesMembers` | src/bathy_maps/src/mesh_map.cpp:325-341 | The emitted faces are exactly the triangles anchored at some cell over three cells with data, in both directions. |
| `Triangulation.FaceCountBound` | src/bathy_maps/src/mesh_map.cpp:321-339 | The number of emitted faces never exceeds `2*(rows-1)*(cols-1)`. With no holes it is exactly that. |
| `Triangulation.FacesComplete` | src/bathy_maps/src/mesh_map.cpp:321-344 | For any allocatable face array: the emitted faces are exactly the triangles, they fit the array, and with no holes they fill it. |
| `Triangulation.NegativeCapacity` | src/bathy_maps/src/mesh_map.cpp:321-323 | The face-array size is negative exactly for zero rows and two or more columns, or zero columns and two or more rows. |
| `Triangulation.FaceCorners` | src/bathy_maps/src/mesh_map.cpp:332-338 | Every corner of a triangle is the row-major index of a cell with data. |
| `Triangulation.FaceIndicesInRange` | src/bathy_maps/src/mesh_map.cpp:332-338 | Every corner of a triangle is a valid vertex index in `[0, rows*cols)`. |
| `Triangulation.HoleIsolated` | src/bathy_maps/src/mesh_map.cpp:329-337 | The vertex `y*cols + x` of a cell without data is a corner of no triangle. |
| `Triangulation.EmittedHoleIsolated` | src/bathy_maps/src/mesh_map.cpp:329-341 | No emitted face uses the vertex of a hole. |
| `Triangulation.SlotsCapacity` | src/bathy_maps/src/mesh_map.cpp:321 | The face-array size `2*(rows-1)*(cols-1)` is exactly the number of triangle slots: one upper-left slot per cell outside the first row and column, and one lower-right slot per cell outside the last row and column. |
| `Triangulation.FacesBeforeSlots` | src/bathy_maps/src/mesh_map.cpp:325-339 | The faces emitted before any cell use at most the slots of the cells visited so far. |
| `Triangulation.CellFacesFit` | src/bathy_maps/src/mesh_map.cpp:333-337 | The faces up to and including the current cell fit in the allocated array, so every `F.row(face_counter)` write is in bounds. |
| `Triangulation.GridVerticesIndex` | src/bathy_maps/src/mesh_map.cpp:325-328 | After `y` rows there are `y*cols` vertices, and vertex `yi*cols + xi` is the vertex of cell (yi, xi). |
| `Triangulation.VerticesPlaced` | src/bathy_maps/src/mesh_map.cpp:322-328 | After all rows there are `rows*cols` vertices. Vertex `y*cols + x` is at `((x+.5)*res, (y+.5)*res, h[y][x])`. |
| `Triangulation.EmitCellFaces` | src/bathy_maps/src/mesh_map.cpp:332-339 | Writing a cell's triangles at the face counter appends exactly that cell's faces to the written prefix, and advances the counter by their number. |
| `Triangulation.FillCell` | src/bathy_maps/src/mesh_map.cpp:328-339 | One inner iteration appends the cell's vertex and extends the written faces by the cell's faces. |
| `Triangulation.FillRow` | src/bathy_maps/src/mesh_map.cpp:326-340 | The inner loop extends the vertices and the written faces by one whole row. |
| `Triangulation.MeshFromHeightMap` | src/bathy_maps/src/mesh_map.cpp:305-349 | Returns a failure carrying the face-array size exactly when that size is negative, the path where Eigen's size assertion fires. Otherwise the result has `rows*cols` vertices at the cell centres scaled by `xres`. The faces, trimmed to the count, are exactly the data-only triangles in loop order. There are at most `2*(rows-1)*(cols-1)` faces, and exactly that many with no holes. |
| `Triangulation.CentreHoleFaces` | src/bathy_maps/src/mesh_map.cpp:329-338 | A 3x3 grid of 1.0 with an empty centre yields only `(0,1,3)` (lower-right of the top-left cell) and `(8,7,5)` (upper-left of the bottom-right cell). Neither uses vertex 4. |
| `MeshMap.XResIsRes` | src/bathy_maps/src/mesh_map.cpp:315-319 | Read back from the grown bounds, `xres` equals the binning cell size. |
| `MeshMap.MeshOfLayout` | src/bathy_maps/src/mesh_map.cpp:359 | Triangulating a binned height map with its grown bounds places vertices at the binning cell size. The faces are those of the mean-height map. |
| `MeshMap.MeshFromCloud` | src/bathy_maps/src/mesh_map.cpp:363-373 | Returns the cloud grid's grown bounds and the mesh of the cloud's mean-height map. It fails, on the Eigen assertion path, exactly when the face-array size is negative. |
| `MeshMap.MeshFromPings` | src/bathy_maps/src/mesh_map.cpp:351-361 | The same for pings: bounds from the positions, heights from the beams. |
| `MeshMap.BinnedVertex` | src/bathy_maps/src/mesh_map.cpp:328 | In a binned mesh, vertex `y*cols + x` is at `((x+.5)*res, (y+.5)*res)`, the centre of cell (y, x) measured from the grid's min corner, and at the mean elevation of its points (0 when the cell received none). Shifted by the bounds' min corner, it is binned into cell (y, x). |
| `MeshMap.EmptyCellIsolated` | src/bathy_maps/src/mesh_map.cpp:329-337 | The vertex of a cell that no point reached is a corner of no face. |
| `MeshMap.ZeroMeanCellIsolated` | src/bathy_maps/src/mesh_map.cpp:329-337 | A cell whose points have mean elevation 0 is cut out of the mesh like an empty cell, because 0 is also the "no data" value. |
| `MeshMap.FlatCloudFails` | src/bathy_maps/src/mesh_map.cpp:321-323 | A cloud with a single y value spread over more than one cell in x gets zero rows and at least two columns. The face-array size is then negative, which is the path where Eigen's size assertion fires. |

## Left out

- **Viewer and file output.** `show_mesh`, `show_textured_mesh`, `show_height_map` and `write_dae_mesh*` are OpenCV/libigl windows and DAE file writing.
- **Display colour mapping.** `jet_mesh` and `height_map_to_texture` are display-only float normalisation.
- **Logging.** All console logging is left out.
- **Other repository parts.** `xtf_data` decoding, `base_draper`, `navi_data` and the Python simulation driver are not part of this model. They depend on foreign structures, file I/O, or bodies that are not available.
- **Floating point.** Coordinates are mathematical reals. So IEEE rounding, NaN, infinities, and rounding differences between `xres` and the binning `res` are not modelled. Summation order in the binning loop does not matter for reals.
- **Degenerate `xres` and `yres`.** In the source, `xres` with zero columns is a division by zero. The model uses 0 there, and no vertex is produced in that case anyway. `yres` is computed but only logged, so it is not modelled.
- **Integer width.** 32-bit overflow is not modelled: not in `int(...)` of a huge quotient, not in `nbr_faces = 2*(rows-1)*(cols-1)` (the first product to overflow), and not in `y*cols` or `rows*cols`. Indices are unbounded integers.
- **Undefined inputs.** An empty cloud or ping list, and `res <= 0`, are preconditions, not errors. The source dereferences the result of `min_element` over an empty range and divides by `res` unchecked.
- **Ping positions and beams.** A ping is modelled as its position and its beam hits only. The other `mbes_ping` fields are not used by this code.
- **Returned face matrix.** `Eigen::MatrixXi` is modelled as a sequence of index triples. Trimming with `conservativeResize` is modelled as taking the written prefix of the face array.
- Triangulation.MeshFromHeightMap: returns `Failure(NegativeFaceCapacity(n))` for a negative face-array size, as a build with Eigen's assertions on would stop there. A build without assertions (`NDEBUG`) checks nothing; since rows or cols is then 0, the loops write nothing and no vertex is placed. That unchecked path is not modelled.
