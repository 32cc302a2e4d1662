/** Mesh triangulation (`mesh_from_height_map` in mesh_map.cpp): one vertex per height-map
    cell in row-major order, and up to two triangles per non-empty cell, each emitted only
    when all three of its cells hold data, so that no triangle bridges a hole. */
module Triangulation {
  import opened Results
  import opened Numerics
  import opened Grids

  /** A triangle: three row indices into the vertex list. */
  datatype Face = Face(a: int, b: int, c: int)

  /** A triangle mesh: the vertex list `V` and the face list `F`. */
  datatype Mesh = Mesh(vertices: seq<Point>, faces: seq<Face>)

  /** A negative row count for the face matrix `F(2*(rows-1)*(cols-1), 3)`: Eigen's size
      assertion rejects it, and the model reports it as this error. */
  datatype MeshError = NegativeFaceCapacity(nbrFaces: int)

  /** The number of face rows allocated up front, `2*(rows-1)*(cols-1)`. */
  function FaceCapacity(rows: int, cols: int): int
  {
    2 * (rows - 1) * (cols - 1)
  }

  /** For non-negative dimensions, `2*(rows-1)*(cols-1)` is negative only when one dimension
      is 0 and the other at least 2. */
  lemma CapacitySign(rows: int, cols: int)
    ensures 0 <= rows && 0 <= cols ==>
      (2 * (rows - 1) * (cols - 1) < 0 <==> (rows == 0 && 2 <= cols) || (cols == 0 && 2 <= rows))
  {
    if 0 < rows && 0 < cols {
      assert 0 <= (rows - 1) * (cols - 1);
    }
  }

  /** Cell (y, x) exists and holds data (is not the "no data" value 0). */
  predicate Filled(hm: Matrix, y: int, x: int)
  {
    0 <= y < hm.rows && 0 <= x < hm.cols && y < |hm.cells| && x < |hm.cells[y]| && hm.cells[y][x] != 0.0
  }

  /** No cell of the height map is a hole. */
  ghost predicate AllFilled(hm: Matrix)
  {
    forall y, x :: 0 <= y < hm.rows && 0 <= x < hm.cols ==> Filled(hm, y, x)
  }

  /** The row-major index `y*cols + x` of cell (y, x), which is also the index of its vertex. */
  function CellIndex(cols: nat, y: nat, x: nat): nat
  {
    RowStart(cols, y) + x
  }

  /** `CellIndex` is the row-major index `y*cols + x` the source writes. */
  lemma CellIndexIsRowMajor(cols: nat, y: nat, x: nat)
    ensures CellIndex(cols, y, x) == y * cols + x
  {
    RowStartProduct(cols, y);
  }

  /** The triangle of cell (y, x) with its left and upper neighbours. */
  function UpLeftFace(cols: nat, y: nat, x: nat): Face
    requires 0 < y && 0 < x
  {
    Face(CellIndex(cols, y, x), CellIndex(cols, y, x - 1), CellIndex(cols, y - 1, x))
  }

  /** The triangle of cell (y, x) with its right and lower neighbours. */
  function DownRightFace(cols: nat, y: nat, x: nat): Face
  {
    Face(CellIndex(cols, y, x), CellIndex(cols, y, x + 1), CellIndex(cols, y + 1, x))
  }

  /** Cell (y, x) and its left and upper neighbours all hold data. */
  predicate UpLeftAt(hm: Matrix, y: int, x: int)
  {
    Filled(hm, y, x) && Filled(hm, y, x - 1) && Filled(hm, y - 1, x)
  }

  /** Cell (y, x) and its right and lower neighbours all hold data. */
  predicate DownRightAt(hm: Matrix, y: int, x: int)
  {
    Filled(hm, y, x) && Filled(hm, y, x + 1) && Filled(hm, y + 1, x)
  }

  /** `f` is one of the two triangles anchored at cell (y, x), and all three of its cells hold data. */
  predicate FaceOfCell(hm: Matrix, f: Face, y: nat, x: nat)
  {
    || (UpLeftAt(hm, y, x) && f == UpLeftFace(hm.cols, y, x))
    || (DownRightAt(hm, y, x) && f == DownRightFace(hm.cols, y, x))
  }

  /** `f` is a triangle of the height map: anchored at some cell, over three cells with data. */
  ghost predicate Triangulated(hm: Matrix, f: Face)
  {
    exists y: nat, x: nat :: y < hm.rows && x < hm.cols && FaceOfCell(hm, f, y, x)
  }

  /** The faces the loop body emits at cell (y, x), in emission order. */
  function CellFaces(hm: Matrix, y: nat, x: nat): (fs: seq<Face>)
    requires hm.Valid() && y < hm.rows && x < hm.cols
    ensures |fs| <= UpLeftSlot(y, x) + DownRightSlot(hm.rows, hm.cols, y, x)
  {
    if hm.cells[y][x] == 0.0 then []
    else
      (if x > 0 && y > 0 && hm.cells[y][x - 1] != 0.0 && hm.cells[y - 1][x] != 0.0
       then [UpLeftFace(hm.cols, y, x)] else [])
      + (if x < hm.cols - 1 && y < hm.rows - 1 && hm.cells[y + 1][x] != 0.0 && hm.cells[y][x + 1] != 0.0
         then [DownRightFace(hm.cols, y, x)] else [])
  }

  /** The faces emitted for the first `x` cells of row `y`. */
  function RowFaces(hm: Matrix, y: nat, x: nat): seq<Face>
    requires hm.Valid() && y < hm.rows && x <= hm.cols
  {
    if x == 0 then [] else RowFaces(hm, y, x - 1) + CellFaces(hm, y, x - 1)
  }

  /** The faces emitted for the first `y` rows. */
  function GridFaces(hm: Matrix, y: nat): seq<Face>
    requires hm.Valid() && y <= hm.rows
  {
    if y == 0 then [] else GridFaces(hm, y - 1) + RowFaces(hm, y - 1, hm.cols)
  }

  /** The vertex of cell (y, x): the cell centre scaled by `res`, at the cell's height. */
  function VertexAt(hm: Matrix, res: real, y: nat, x: nat): (v: Point)
    requires hm.Valid() && y < hm.rows && x < hm.cols
    ensures v.z == hm.cells[y][x]
    ensures 0.0 < res ==> x as real * res < v.x < (x + 1) as real * res && y as real * res < v.y < (y + 1) as real * res
  {
    Point((x as real + 0.5) * res, (y as real + 0.5) * res, hm.cells[y][x])
  }

  /** The vertices written for the first `x` cells of row `y`. */
  function RowVertices(hm: Matrix, res: real, y: nat, x: nat): seq<Point>
    requires hm.Valid() && y < hm.rows && x <= hm.cols
  {
    if x == 0 then [] else RowVertices(hm, res, y, x - 1) + [VertexAt(hm, res, y, x - 1)]
  }

  /** The vertices written for the first `y` rows. */
  function GridVertices(hm: Matrix, res: real, y: nat): seq<Point>
    requires hm.Valid() && y <= hm.rows
  {
    if y == 0 then [] else GridVertices(hm, res, y - 1) + RowVertices(hm, res, y - 1, hm.cols)
  }

  /** `vs` holds one vertex per cell, `rows*cols` in all, and vertex `y*cols + x` lies at the
      centre of cell (y, x) in units of `res`, at the cell's height. */
  ghost predicate CellCentres(hm: Matrix, res: real, vs: seq<Point>)
  {
    && |vs| == hm.rows * hm.cols
    && forall y: nat, x: nat :: y < hm.rows && x < hm.cols ==>
         && y < |hm.cells| && x < |hm.cells[y]|
         && CellIndex(hm.cols, y, x) < |vs|
         && vs[CellIndex(hm.cols, y, x)] == Point((x as real + 0.5) * res, (y as real + 0.5) * res, hm.cells[y][x])
  }

  /** The vertex spacing `xres = (maxx - minx)/cols`, used for both axes (`yres` is ignored). */
  function XRes(bounds: Bounds, cols: nat): (r: real)
    ensures 0 < cols ==> r * cols as real == bounds.maxX - bounds.minX
  {
    if cols == 0 then 0.0 else (bounds.maxX - bounds.minX) / cols as real
  }

  /** The loop body emits exactly the triangles anchored at the cell whose cells all hold data. */
  lemma CellFacesMembers(hm: Matrix, y: nat, x: nat)
    requires hm.Valid() && y < hm.rows && x < hm.cols
    ensures forall f :: f in CellFaces(hm, y, x) <==> FaceOfCell(hm, f, y, x)
  {
  }

  /** Row `y` up to column `x` emits exactly the triangles anchored at its first `x` cells. */
  lemma {:induction false} RowFacesMembers(hm: Matrix, y: nat, x: nat)
    requires hm.Valid() && y < hm.rows && x <= hm.cols
    ensures forall f :: f in RowFaces(hm, y, x) <==> exists xi: nat :: xi < x && FaceOfCell(hm, f, y, xi)
  {
    if x > 0 {
      RowFacesMembers(hm, y, x - 1);
      CellFacesMembers(hm, y, x - 1);
      forall f
        ensures f in RowFaces(hm, y, x) <==> exists xi: nat :: xi < x && FaceOfCell(hm, f, y, xi)
      {
        assert RowFaces(hm, y, x) == RowFaces(hm, y, x - 1) + CellFaces(hm, y, x - 1);
        if f in RowFaces(hm, y, x - 1) {
          var xi: nat :| xi < x - 1 && FaceOfCell(hm, f, y, xi);
          assert xi < x;
        } else if f in CellFaces(hm, y, x - 1) {
          assert FaceOfCell(hm, f, y, x - 1);
        } else {
          forall xi: nat | xi < x
            ensures !FaceOfCell(hm, f, y, xi)
          {
            if xi == x - 1 {
              assert !FaceOfCell(hm, f, y, x - 1);
            }
          }
        }
      }
    }
  }

  /** The first `y` rows emit exactly the triangles anchored at their cells. */
  lemma {:induction false} GridFacesMembers(hm: Matrix, y: nat)
    requires hm.Valid() && y <= hm.rows
    ensures forall f :: f in GridFaces(hm, y) <==>
      exists yi: nat, xi: nat :: yi < y && xi < hm.cols && FaceOfCell(hm, f, yi, xi)
  {
    if y > 0 {
      GridFacesMembers(hm, y - 1);
      RowFacesMembers(hm, y - 1, hm.cols);
      forall f
        ensures f in GridFaces(hm, y) <==>
          exists yi: nat, xi: nat :: yi < y && xi < hm.cols && FaceOfCell(hm, f, yi, xi)
      {
        assert GridFaces(hm, y) == GridFaces(hm, y - 1) + RowFaces(hm, y - 1, hm.cols);
        if f in GridFaces(hm, y - 1) {
          var yi: nat, xi: nat :| yi < y - 1 && xi < hm.cols && FaceOfCell(hm, f, yi, xi);
          assert yi < y;
        } else if f in RowFaces(hm, y - 1, hm.cols) {
          var xi: nat :| xi < hm.cols && FaceOfCell(hm, f, y - 1, xi);
          assert y - 1 < y;
        } else {
          forall yi: nat, xi: nat | yi < y && xi < hm.cols
            ensures !FaceOfCell(hm, f, yi, xi)
          {
            if yi == y - 1 {
              assert !FaceOfCell(hm, f, y - 1, xi);
            }
          }
        }
      }
    }
  }

  /** No face the loops emit has the vertex of a hole as a corner. */
  lemma EmittedHoleIsolated(hm: Matrix, f: Face, y: nat, x: nat)
    requires hm.Valid() && f in GridFaces(hm, hm.rows)
    requires y < hm.rows && x < hm.cols && hm.cells[y][x] == 0.0
    ensures y * hm.cols + x !in [f.a, f.b, f.c]
  {
    GridFacesMembers(hm, hm.rows);
    HoleIsolated(hm, f, y, x);
  }

  /** Cell (y, x) has an upper-left triangle slot: it is not in the first row or column. */
  function UpLeftSlot(y: int, x: int): nat
  {
    if 0 < y && 0 < x then 1 else 0
  }

  /** Cell (y, x) has a lower-right triangle slot: it is not in the last row or column. */
  function DownRightSlot(rows: int, cols: int, y: int, x: int): nat
  {
    if y + 1 < rows && x + 1 < cols then 1 else 0
  }

  /** Triangle slots among the first `x` cells of row `y`. */
  function RowSlots(rows: nat, cols: nat, y: nat, x: nat): nat
  {
    if x == 0 then 0 else RowSlots(rows, cols, y, x - 1) + UpLeftSlot(y, x - 1) + DownRightSlot(rows, cols, y, x - 1)
  }

  /** Triangle slots among the first `y` rows. */
  function GridSlots(rows: nat, cols: nat, y: nat): nat
  {
    if y == 0 then 0 else GridSlots(rows, cols, y - 1) + RowSlots(rows, cols, y - 1, cols)
  }

  /** Each emitted face uses a slot. */
  lemma {:induction false} RowFacesCount(hm: Matrix, y: nat, x: nat)
    requires hm.Valid() && y < hm.rows && x <= hm.cols
    ensures |RowFaces(hm, y, x)| <= RowSlots(hm.rows, hm.cols, y, x)
  {
    if x > 0 {
      RowFacesCount(hm, y, x - 1);
    }
  }

  /** With no holes every slot of a row is used. */
  lemma {:induction false} RowFacesFull(hm: Matrix, y: nat, x: nat)
    requires hm.Valid() && y < hm.rows && x <= hm.cols && AllFilled(hm)
    ensures |RowFaces(hm, y, x)| == RowSlots(hm.rows, hm.cols, y, x)
  {
    if x > 0 {
      RowFacesFull(hm, y, x - 1);
      var xi := x - 1;
      if 0 < y && 0 < xi {
        assert Filled(hm, y, xi - 1) && Filled(hm, y - 1, xi);
      }
      if y + 1 < hm.rows && xi + 1 < hm.cols {
        assert Filled(hm, y + 1, xi) && Filled(hm, y, xi + 1);
      }
      assert Filled(hm, y, xi);
    }
  }

  lemma {:induction false} GridFacesCount(hm: Matrix, y: nat)
    requires hm.Valid() && y <= hm.rows
    ensures |GridFaces(hm, y)| <= GridSlots(hm.rows, hm.cols, y)
  {
    if y > 0 {
      GridFacesCount(hm, y - 1);
      RowFacesCount(hm, y - 1, hm.cols);
    }
  }

  /** With no holes every slot of the grid is used. */
  lemma {:induction false} GridFacesFull(hm: Matrix, y: nat)
    requires hm.Valid() && y <= hm.rows && AllFilled(hm)
    ensures |GridFaces(hm, y)| == GridSlots(hm.rows, hm.cols, y)
  {
    if y > 0 {
      GridFacesFull(hm, y - 1);
      RowFacesFull(hm, y - 1, hm.cols);
    }
  }

  function Min(a: int, b: int): int
  {
    if a <= b then a else b
  }

  /** Closed form of the slots of a partial row: `x - 1` upper-left slots (none in row 0) and
      `min(x, cols - 1)` lower-right slots (none in the last row). */
  lemma {:induction false} RowSlotsClosed(rows: nat, cols: nat, y: nat, x: nat)
    requires 1 <= cols && x <= cols
    ensures RowSlots(rows, cols, y, x) ==
      (if 0 < y && 0 < x then x - 1 else 0) + (if y + 1 < rows then Min(x, cols - 1) else 0)
  {
    if x > 0 {
      RowSlotsClosed(rows, cols, y, x - 1);
    }
  }

  /** Closed form of the slots of the first `y` rows. */
  lemma {:induction false} GridSlotsClosed(rows: nat, cols: nat, y: nat)
    requires 1 <= rows && 1 <= cols && y <= rows
    ensures GridSlots(rows, cols, y) == (cols - 1) * ((if 0 < y then y - 1 else 0) + Min(y, rows - 1))
  {
    if y > 0 {
      GridSlotsClosed(rows, cols, y - 1);
      RowSlotsClosed(rows, cols, y - 1, cols);
      var a := (if 0 < y - 1 then y - 2 else 0) + Min(y - 1, rows - 1);
      var b := (if 0 < y - 1 then 1 else 0) + (if y < rows then 1 else 0);
      assert (if 0 < y then y - 1 else 0) + Min(y, rows - 1) == a + b;
      assert (cols - 1) * (a + b) == (cols - 1) * a + (cols - 1) * b;
    }
  }

  /** The emitted faces never exceed the allocated `2*(rows-1)*(cols-1)`, and fill it exactly
      when the height map has no holes. */
  lemma FaceCountBound(hm: Matrix)
    requires hm.Valid() && 1 <= hm.rows && 1 <= hm.cols
    ensures |GridFaces(hm, hm.rows)| <= FaceCapacity(hm.rows, hm.cols)
    ensures AllFilled(hm) ==> |GridFaces(hm, hm.rows)| == FaceCapacity(hm.rows, hm.cols)
  {
    GridFacesCount(hm, hm.rows);
    if AllFilled(hm) {
      GridFacesFull(hm, hm.rows);
    }
    SlotsCapacity(hm.rows, hm.cols);
  }

  /** A grid has exactly `2*(rows-1)*(cols-1)` triangle slots. */
  lemma SlotsCapacity(rows: nat, cols: nat)
    requires 1 <= rows && 1 <= cols
    ensures GridSlots(rows, cols, rows) == FaceCapacity(rows, cols)
  {
    GridSlotsClosed(rows, cols, rows);
    assert Min(rows, rows - 1) == rows - 1;
    assert GridSlots(rows, cols, rows) == (cols - 1) * ((rows - 1) + (rows - 1));
    DoubleProduct(rows - 1, cols - 1);
  }

  lemma DoubleProduct(a: int, b: int)
    ensures b * (a + a) == 2 * a * b
  {
  }

  /** A longer prefix of a row has at least as many slots. */
  lemma {:induction false} RowSlotsGrow(rows: nat, cols: nat, y: nat, x: nat, x2: nat)
    requires x <= x2
    ensures RowSlots(rows, cols, y, x) <= RowSlots(rows, cols, y, x2)
    decreases x2 - x
  {
    if x < x2 {
      RowSlotsGrow(rows, cols, y, x, x2 - 1);
    }
  }

  /** More rows have at least as many slots. */
  lemma {:induction false} GridSlotsGrow(rows: nat, cols: nat, y: nat, y2: nat)
    requires y <= y2
    ensures GridSlots(rows, cols, y) <= GridSlots(rows, cols, y2)
    decreases y2 - y
  {
    if y < y2 {
      GridSlotsGrow(rows, cols, y, y2 - 1);
    }
  }

  /** The slots of the rows before `y` and of the first `x` cells of row `y` are among the
      grid's slots. */
  lemma SlotsBefore(rows: nat, cols: nat, y: nat, x: nat)
    requires y < rows && x <= cols
    ensures GridSlots(rows, cols, y) + RowSlots(rows, cols, y, x) <= GridSlots(rows, cols, rows)
  {
    RowSlotsGrow(rows, cols, y, x, cols);
    GridSlotsNext(rows, cols, y);
    GridSlotsGrow(rows, cols, y + 1, rows);
  }

  lemma GridSlotsNext(rows: nat, cols: nat, y: nat)
    ensures GridSlots(rows, cols, y + 1) == GridSlots(rows, cols, y) + RowSlots(rows, cols, y, cols)
  {
  }

  /** The vertices of a partial row are the cells' vertices in column order. */
  lemma {:induction false} RowVerticesIndex(hm: Matrix, res: real, y: nat, x: nat)
    requires hm.Valid() && y < hm.rows && x <= hm.cols
    ensures |RowVertices(hm, res, y, x)| == x
    ensures forall xi :: 0 <= xi < x ==> RowVertices(hm, res, y, x)[xi] == VertexAt(hm, res, y, xi)
  {
    if x > 0 {
      RowVerticesIndex(hm, res, y, x - 1);
    }
  }

  /** Vertex `yi*cols + xi` of the first `y` rows is the vertex of cell (yi, xi). */
  lemma {:induction false} GridVerticesIndex(hm: Matrix, res: real, y: nat)
    requires hm.Valid() && y <= hm.rows
    ensures |GridVertices(hm, res, y)| == RowStart(hm.cols, y)
    ensures forall yi: nat, xi: nat :: yi < y && xi < hm.cols ==>
      CellIndex(hm.cols, yi, xi) < |GridVertices(hm, res, y)| &&
      GridVertices(hm, res, y)[CellIndex(hm.cols, yi, xi)] == VertexAt(hm, res, yi, xi)
  {
    if y > 0 {
      var cols := hm.cols;
      GridVerticesIndex(hm, res, y - 1);
      RowVerticesIndex(hm, res, y - 1, cols);
      var prev := GridVertices(hm, res, y - 1);
      var row := RowVertices(hm, res, y - 1, cols);
      assert GridVertices(hm, res, y) == prev + row;
      forall yi: nat, xi: nat | yi < y && xi < cols
        ensures CellIndex(cols, yi, xi) < |GridVertices(hm, res, y)|
        ensures GridVertices(hm, res, y)[CellIndex(cols, yi, xi)] == VertexAt(hm, res, yi, xi)
      {
        if yi < y - 1 {
          RowStartBelow(cols, yi, xi, y - 1);
          assert (prev + row)[CellIndex(cols, yi, xi)] == prev[CellIndex(cols, yi, xi)];
        } else {
          assert (prev + row)[CellIndex(cols, yi, xi)] == row[xi];
        }
      }
    }
  }

  /** The face array size `2*(rows-1)*(cols-1)` is negative exactly for a matrix with no rows
      and at least two columns, or no columns and at least two rows. */
  lemma NegativeCapacity(rows: nat, cols: nat)
    ensures FaceCapacity(rows, cols) < 0 <==> (rows == 0 && 2 <= cols) || (cols == 0 && 2 <= rows)
  {
    CapacitySign(rows, cols);
  }

  /** `v` is the row-major index of a cell with data. */
  ghost predicate FilledIndex(hm: Matrix, v: int)
  {
    exists y: nat, x: nat :: Filled(hm, y, x) && v == CellIndex(hm.cols, y, x)
  }

  /** Every corner of a triangle is the row-major index of a cell with data. */
  lemma FaceCorners(hm: Matrix, f: Face)
    requires hm.Valid() && Triangulated(hm, f)
    ensures FilledIndex(hm, f.a) && FilledIndex(hm, f.b) && FilledIndex(hm, f.c)
  {
    var y: nat, x: nat :| y < hm.rows && x < hm.cols && FaceOfCell(hm, f, y, x);
    var cols := hm.cols;
    assert Filled(hm, y, x);
    if UpLeftAt(hm, y, x) && f == UpLeftFace(cols, y, x) {
      assert Filled(hm, y, x - 1) && Filled(hm, y - 1, x);
    } else {
      assert Filled(hm, y, x + 1) && Filled(hm, y + 1, x);
    }
  }

  /** The row-major index of a cell indexes a vertex: `0 <= v < rows*cols`. */
  lemma FilledIndexInRange(hm: Matrix, v: int)
    requires FilledIndex(hm, v)
    ensures 0 <= v < hm.rows * hm.cols
  {
    var y: nat, x: nat :| Filled(hm, y, x) && v == CellIndex(hm.cols, y, x);
    RowStartBelow(hm.cols, y, x, hm.rows);
    RowStartProduct(hm.cols, hm.rows);
  }

  /** Every corner of a triangle indexes a vertex: `0 <= v < rows*cols`. */
  lemma FaceIndicesInRange(hm: Matrix, f: Face)
    requires hm.Valid() && Triangulated(hm, f)
    ensures 0 <= f.a < hm.rows * hm.cols && 0 <= f.b < hm.rows * hm.cols && 0 <= f.c < hm.rows * hm.cols
  {
    FaceCorners(hm, f);
    FilledIndexInRange(hm, f.a);
    FilledIndexInRange(hm, f.b);
    FilledIndexInRange(hm, f.c);
  }

  /** Hole isolation: the vertex `y*cols + x` of a cell without data is a corner of no triangle. */
  lemma HoleIsolated(hm: Matrix, f: Face, y: nat, x: nat)
    requires hm.Valid() && Triangulated(hm, f)
    requires y < hm.rows && x < hm.cols && hm.cells[y][x] == 0.0
    ensures y * hm.cols + x !in [f.a, f.b, f.c]
  {
    FaceCorners(hm, f);
    RowStartProduct(hm.cols, y);
    forall v | v in [f.a, f.b, f.c] && FilledIndex(hm, v)
      ensures v != CellIndex(hm.cols, y, x)
    {
      var yi: nat, xi: nat :| Filled(hm, yi, xi) && v == CellIndex(hm.cols, yi, xi);
      if v == CellIndex(hm.cols, y, x) {
        RowStartInjective(hm.cols, y, x, yi, xi);
      }
    }
  }

  /** Appending the vertex of cell (y, x) extends the row-major vertex list by one cell. */
  lemma VertexStep(hm: Matrix, res: real, y: nat, x: nat, vs: seq<Point>)
    requires hm.Valid() && y < hm.rows && x < hm.cols
    requires vs == GridVertices(hm, res, y) + RowVertices(hm, res, y, x)
    ensures vs + [VertexAt(hm, res, y, x)] == GridVertices(hm, res, y) + RowVertices(hm, res, y, x + 1)
  {
  }

  /** The faces up to and including cell (y, x) fit in the allocated face array. */
  lemma CellFacesFit(hm: Matrix, y: nat, x: nat)
    requires hm.Valid() && y < hm.rows && x < hm.cols
    ensures |GridFaces(hm, y)| + |RowFaces(hm, y, x)| + |CellFaces(hm, y, x)| <= FaceCapacity(hm.rows, hm.cols)
  {
    RowFacesNext(hm, y, x);
    FacesBeforeSlots(hm, y, x + 1);
    SlotsWithin(hm.rows, hm.cols, y, x + 1);
  }

  /** One more cell extends a row's faces by that cell's faces. */
  lemma RowFacesNext(hm: Matrix, y: nat, x: nat)
    requires hm.Valid() && y < hm.rows && x < hm.cols
    ensures |RowFaces(hm, y, x + 1)| == |RowFaces(hm, y, x)| + |CellFaces(hm, y, x)|
  {
  }

  /** The faces of the rows before `y` and of the first `x` cells of row `y` use at most the
      slots of those cells. */
  lemma FacesBeforeSlots(hm: Matrix, y: nat, x: nat)
    requires hm.Valid() && y < hm.rows && x <= hm.cols
    ensures |GridFaces(hm, y)| + |RowFaces(hm, y, x)| <= GridSlots(hm.rows, hm.cols, y) + RowSlots(hm.rows, hm.cols, y, x)
  {
    RowFacesCount(hm, y, x);
    GridFacesCount(hm, y);
  }

  /** The slots of the cells before (y, x) are within the face array size. */
  lemma SlotsWithin(rows: nat, cols: nat, y: nat, x: nat)
    requires y < rows && 0 < x <= cols
    ensures GridSlots(rows, cols, y) + RowSlots(rows, cols, y, x) <= FaceCapacity(rows, cols)
  {
    SlotsBefore(rows, cols, y, x);
    SlotsCapacity(rows, cols);
  }

  /** A height map without columns (or rows) yields no faces. */
  lemma {:induction false} EmptyGridFaces(hm: Matrix, y: nat)
    requires hm.Valid() && y <= hm.rows && hm.cols == 0
    ensures GridFaces(hm, y) == []
  {
    if y > 0 {
      EmptyGridFaces(hm, y - 1);
    }
  }

  /** After all rows, the vertex list holds every cell's centre in row-major order. */
  lemma VerticesPlaced(hm: Matrix, res: real)
    requires hm.Valid()
    ensures CellCentres(hm, res, GridVertices(hm, res, hm.rows))
  {
    GridVerticesIndex(hm, res, hm.rows);
    RowStartProduct(hm.cols, hm.rows);
  }

  /** After all rows, the emitted faces are exactly the triangles of the height map and fit
      the allocated face array, filling it when there are no holes. */
  lemma FacesComplete(hm: Matrix)
    requires hm.Valid() && 0 <= FaceCapacity(hm.rows, hm.cols)
    ensures forall f :: f in GridFaces(hm, hm.rows) <==> Triangulated(hm, f)
    ensures |GridFaces(hm, hm.rows)| <= FaceCapacity(hm.rows, hm.cols)
    ensures AllFilled(hm) && 1 <= hm.rows && 1 <= hm.cols ==>
      |GridFaces(hm, hm.rows)| == FaceCapacity(hm.rows, hm.cols)
  {
    GridFacesMembers(hm, hm.rows);
    if 1 <= hm.rows && 1 <= hm.cols {
      FaceCountBound(hm);
    } else if hm.cols == 0 {
      EmptyGridFaces(hm, hm.rows);
    }
  }

  /** The inner step of `mesh_from_height_map` for a cell with data: write its upper-left
      triangle, then its lower-right one, each when the neighbouring cells hold data, at the
      face counter, advancing it past each face written. */
  method EmitCellFaces(hm: Matrix, F: array<Face>, start: nat, y: nat, x: nat) returns (next: nat)
    requires hm.Valid() && y < hm.rows && x < hm.cols && hm.cells[y][x] != 0.0
    requires start + |CellFaces(hm, y, x)| <= F.Length
    modifies F
    ensures next == start + |CellFaces(hm, y, x)|
    ensures F[..next] == old(F[..start]) + CellFaces(hm, y, x)
  {
    var rows: int, cols: int := hm.rows, hm.cols;
    var faceCounter := start;
    ghost var before := F[..faceCounter];
    if x > 0 && y > 0 && hm.cells[y][x - 1] != 0.0 && hm.cells[y - 1][x] != 0.0 {
      CellIndexIsRowMajor(cols, y, x);
      CellIndexIsRowMajor(cols, y, x - 1);
      CellIndexIsRowMajor(cols, y - 1, x);
      F[faceCounter] := Face(y * cols + x, y * cols + x - 1, (y - 1) * cols + x);
      assert F[..faceCounter + 1] == before + [UpLeftFace(cols, y, x)];
      faceCounter := faceCounter + 1;
    }
    if x < cols - 1 && y < rows - 1 && hm.cells[y + 1][x] != 0.0 && hm.cells[y][x + 1] != 0.0 {
      CellIndexIsRowMajor(cols, y, x);
      CellIndexIsRowMajor(cols, y, x + 1);
      CellIndexIsRowMajor(cols, y + 1, x);
      ghost var mid := F[..faceCounter];
      F[faceCounter] := Face(y * cols + x, y * cols + x + 1, (y + 1) * cols + x);
      assert F[..faceCounter + 1] == mid + [DownRightFace(cols, y, x)];
      faceCounter := faceCounter + 1;
    }
    next := faceCounter;
  }

  /** The loop body of `mesh_from_height_map` at cell (y, x): append the cell's vertex and,
      when the cell holds data, write its faces at the face counter. */
  method FillCell(hm: Matrix, res: real, F: array<Face>, y: nat, x: nat, V0: seq<Point>, start: nat)
    returns (V: seq<Point>, next: nat)
    requires hm.Valid() && y < hm.rows && x < hm.cols && F.Length == FaceCapacity(hm.rows, hm.cols)
    requires V0 == GridVertices(hm, res, y) + RowVertices(hm, res, y, x)
    requires start <= F.Length && F[..start] == GridFaces(hm, y) + RowFaces(hm, y, x)
    modifies F
    ensures V == GridVertices(hm, res, y) + RowVertices(hm, res, y, x + 1)
    ensures next <= F.Length && F[..next] == GridFaces(hm, y) + RowFaces(hm, y, x + 1)
  {
    var vertex := VertexAt(hm, res, y, x);
    VertexStep(hm, res, y, x, V0);
    V := V0 + [vertex];
    next := start;
    if hm.cells[y][x] != 0.0 {
      CellFacesFit(hm, y, x);
      next := EmitCellFaces(hm, F, start, y, x);
    }
    assert RowFaces(hm, y, x + 1) == RowFaces(hm, y, x) + CellFaces(hm, y, x);
    assert F[..next] == GridFaces(hm, y) + (RowFaces(hm, y, x) + CellFaces(hm, y, x));
  }

  /** The inner loop of `mesh_from_height_map` over row `y`: append each cell's vertex and
      write the cell's faces at the face counter. */
  method FillRow(hm: Matrix, res: real, F: array<Face>, y: nat, V0: seq<Point>, start: nat)
    returns (V: seq<Point>, next: nat)
    requires hm.Valid() && y < hm.rows && F.Length == FaceCapacity(hm.rows, hm.cols)
    requires V0 == GridVertices(hm, res, y)
    requires start <= F.Length && F[..start] == GridFaces(hm, y)
    modifies F
    ensures V == GridVertices(hm, res, y + 1)
    ensures next <= F.Length && F[..next] == GridFaces(hm, y + 1)
  {
    var cols: int := hm.cols;
    V := V0;
    var faceCounter := start;
    var x := 0;
    while x < cols
      invariant 0 <= x <= cols
      invariant V == GridVertices(hm, res, y) + RowVertices(hm, res, y, x)
      invariant 0 <= faceCounter <= F.Length
      invariant F[..faceCounter] == GridFaces(hm, y) + RowFaces(hm, y, x)
    {
      V, faceCounter := FillCell(hm, res, F, y, x, V, faceCounter);
      x := x + 1;
    }
    assert GridVertices(hm, res, y + 1) == GridVertices(hm, res, y) + RowVertices(hm, res, y, hm.cols);
    assert GridFaces(hm, y + 1) == GridFaces(hm, y) + RowFaces(hm, y, hm.cols);
    next := faceCounter;
  }

  /** `mesh_from_height_map`: one vertex per cell, row-major, at the cell centre scaled by
      `xres = (maxx - minx)/cols` (also used for y) and at the cell's height; then, for each
      cell with data, its upper-left and lower-right triangles whenever all three cells hold
      data, written into a face array of `2*(rows-1)*(cols-1)` rows that is finally trimmed to
      the faces emitted. When that size is negative, Eigen's size assertion rejects the face
      matrix; the model returns that case as a failure. */
  method MeshFromHeightMap(hm: Matrix, bounds: Bounds) returns (result: Result<Mesh, MeshError>)
    requires hm.Valid()
    ensures result.Failure? <==> FaceCapacity(hm.rows, hm.cols) < 0
    ensures result.Failure? ==> result.error == NegativeFaceCapacity(FaceCapacity(hm.rows, hm.cols))
    ensures result.Success? ==> CellCentres(hm, XRes(bounds, hm.cols), result.value.vertices)
    ensures result.Success? ==> result.value.faces == GridFaces(hm, hm.rows)
    ensures result.Success? ==> forall f :: f in result.value.faces <==> Triangulated(hm, f)
    ensures result.Success? ==> |result.value.faces| <= FaceCapacity(hm.rows, hm.cols)
    ensures result.Success? && AllFilled(hm) && 1 <= hm.rows && 1 <= hm.cols ==>
      |result.value.faces| == FaceCapacity(hm.rows, hm.cols)
  {
    var rows: int, cols: int := hm.rows, hm.cols;
    var res := XRes(bounds, cols);
    var nbrFaces: int := 2 * (rows - 1) * (cols - 1);
    if nbrFaces < 0 {
      return Failure(NegativeFaceCapacity(nbrFaces));
    }
    var V: seq<Point> := [];
    var F := new Face[nbrFaces];
    var faceCounter := 0;
    var y := 0;
    while y < rows
      invariant 0 <= y <= rows
      invariant V == GridVertices(hm, res, y)
      invariant 0 <= faceCounter <= F.Length
      invariant F[..faceCounter] == GridFaces(hm, y)
    {
      V, faceCounter := FillRow(hm, res, F, y, V, faceCounter);
      y := y + 1;
    }
    var faces := F[..faceCounter];
    VerticesPlaced(hm, res);
    FacesComplete(hm);
    result := Success(Mesh(V, faces));
  }

  /** A 3x3 height map whose centre cell is a hole. */
  function CentreHole(): (hm: Matrix)
    ensures hm.Valid() && hm.rows == 3 && hm.cols == 3
  {
    Matrix(3, 3, [[1.0, 1.0, 1.0], [1.0, 0.0, 1.0], [1.0, 1.0, 1.0]])
  }

  /** Around a central hole only the two corner triangles survive: the lower-right one of
      the top-left cell and the upper-left one of the bottom-right cell, and the centre
      vertex (index 4) is a corner of neither. */
  lemma CentreHoleFaces()
    ensures GridFaces(CentreHole(), 3) == [Face(0, 1, 3), Face(8, 7, 5)]
    ensures FaceCapacity(3, 3) == 8
  {
    var hm := CentreHole();
    CentreHoleTop();
    CentreHoleMiddle();
    CentreHoleBottom();
    assert GridFaces(hm, 1) == [Face(0, 1, 3)];
    assert GridFaces(hm, 2) == [Face(0, 1, 3)];
  }

  /** The top row keeps only the lower-right triangle of its first cell. */
  lemma CentreHoleTop()
    ensures RowFaces(CentreHole(), 0, 3) == [Face(0, 1, 3)]
  {
    var hm := CentreHole();
    assert RowStart(3, 1) == 3;
    assert CellFaces(hm, 0, 0) == [Face(0, 1, 3)];
    assert CellFaces(hm, 0, 1) == [] && CellFaces(hm, 0, 2) == [];
    assert RowFaces(hm, 0, 1) == [Face(0, 1, 3)];
    assert RowFaces(hm, 0, 2) == [Face(0, 1, 3)];
  }

  /** Every triangle of the middle row touches the hole. */
  lemma CentreHoleMiddle()
    ensures RowFaces(CentreHole(), 1, 3) == []
  {
    var hm := CentreHole();
    assert CellFaces(hm, 1, 0) == [] && CellFaces(hm, 1, 1) == [] && CellFaces(hm, 1, 2) == [];
    assert RowFaces(hm, 1, 1) == [] && RowFaces(hm, 1, 2) == [];
  }

  /** The bottom row keeps only the upper-left triangle of its last cell. */
  lemma CentreHoleBottom()
    ensures RowFaces(CentreHole(), 2, 3) == [Face(8, 7, 5)]
  {
    var hm := CentreHole();
    assert RowStart(3, 1) == 3 && RowStart(3, 2) == 6;
    assert CellFaces(hm, 2, 0) == [] && CellFaces(hm, 2, 1) == [];
    assert CellFaces(hm, 2, 2) == [Face(8, 7, 5)];
    assert RowFaces(hm, 2, 1) == [] && RowFaces(hm, 2, 2) == [];
  }
}
