/**
 * The dense grid sampler and what is built from its table: the interpolated
 * value of every physical grid cell, the triangle mesh and the edge list over
 * those cells, and the one-axis search for the cells whose value falls in a
 * given virtual bucket.
 */
module Interpolation {
  import opened Wrappers
  import opened Affine
  import opened Bounds
  import Constants

  /**
   * The surface interpolant over the triangulation: the interpolated value at a
   * point, or `None` where the point lies outside the triangulated hull.
   */
  type Oracle = Point -> Option<real>

  /** A grid cell: column `x`, row `y`. */
  datatype Cell = Cell(x: nat, y: nat)

  /** A mesh vertex: its planar position and its height. */
  datatype Vertex = Vertex(x: real, y: real, z: real)

  /** A mesh triangle, by the `u16` indices of its three vertices. */
  datatype Triangle = Triangle(a: nat, b: nat, c: nat)

  /** A line segment of the rendered wireframe. */
  datatype Edge = Edge(from: Vertex, to: Vertex)

  /** `n as u16`: keeps the low 16 bits. */
  function AsU16(n: nat): (r: nat)
    ensures r < 0x1_0000
    ensures n < 0x1_0000 ==> r == n
  {
    n % 0x1_0000
  }

  /**
   * The position of cell `(x, y)` in a row-major list of rows `columns` long:
   * `y` whole rows, then `x` (counted row by row, see `RowMajorIsProduct`).
   * It numbers the mesh vertices, the pairs of triangles and of edges, and the
   * reports of the virtual-to-physical map.
   */
  function RowMajor(columns: nat, x: nat, y: nat): nat
  {
    if y == 0 then x else RowMajor(columns, x, y - 1) + columns
  }

  /** Cell `(x', y')` is visited before cell `(x, y)` by a row-major scan. */
  predicate Before(x': int, y': int, x: int, y: int)
  {
    y' < y || (y' == y && x' < x)
  }

  /** The position of cell `(x, y)` is `y * columns + x`. */
  lemma {:induction false} RowMajorIsProduct(columns: nat, x: nat, y: nat)
    ensures RowMajor(columns, x, y) == y * columns + x
  {
    if y > 0 {
      RowMajorIsProduct(columns, x, y - 1);
      assert (y - 1) * columns + columns == y * columns;
    }
  }

  /** Moving along a row moves the position by the same amount. */
  lemma {:induction false} RowMajorShift(columns: nat, x: nat, y: nat)
    ensures RowMajor(columns, x, y) == RowMajor(columns, 0, y) + x
  {
    if y > 0 {
      RowMajorShift(columns, x, y - 1);
    }
  }

  /** The next cell along a row is the next position. */
  lemma RowMajorNext(columns: nat, x: nat, y: nat)
    ensures RowMajor(columns, x + 1, y) == RowMajor(columns, x, y) + 1
  {
    RowMajorShift(columns, x, y);
    RowMajorShift(columns, x + 1, y);
  }

  /** A grid of `rows` rows of `columns` cells has `columns * rows` positions, and twice as many triangles or edges. */
  lemma RowMajorCount(columns: nat, rows: nat)
    ensures RowMajor(columns, 0, rows) == columns * rows
    ensures 2 * RowMajor(columns, 0, rows) == 2 * columns * rows
  {
    RowMajorIsProduct(columns, 0, rows);
    assert rows * columns == columns * rows;
    assert 2 * (columns * rows) == 2 * columns * rows;
  }

  /** Later rows start no earlier. */
  lemma {:induction false} RowStartsGrow(columns: nat, y': nat, y: nat)
    requires y' <= y
    ensures RowMajor(columns, 0, y') <= RowMajor(columns, 0, y)
  {
    if y' < y {
      RowStartsGrow(columns, y', y - 1);
    }
  }

  /** A cell scanned earlier has a smaller row-major position. */
  lemma RowMajorOrder(columns: nat, x': nat, y': nat, x: nat, y: nat)
    requires x' < columns
    requires Before(x', y', x, y)
    ensures RowMajor(columns, x', y') < RowMajor(columns, x, y)
  {
    RowMajorShift(columns, x', y');
    RowMajorShift(columns, x, y);
    if y' < y {
      RowStartsGrow(columns, y' + 1, y);
    }
  }

  /** Every cell of a `columns` by `rows` grid has a row-major position below `columns * rows`. */
  lemma RowMajorInRange(columns: nat, rows: nat, x: nat, y: nat)
    requires x < columns && y < rows
    ensures RowMajor(columns, x, y) < columns * rows
  {
    RowMajorOrder(columns, x, y, 0, rows);
    RowMajorIsProduct(columns, 0, rows);
  }

  /** The lower-right triangle of cell `(x, y)`: `(v00, v10, v11)`. */
  function LowerTriangle(columns: nat, x: nat, y: nat): Triangle
  {
    Triangle(AsU16(RowMajor(columns, x, y)), AsU16(RowMajor(columns, x + 1, y)),
             AsU16(RowMajor(columns, x + 1, y + 1)))
  }

  /** The upper-left triangle of cell `(x, y)`: `(v00, v11, v01)`. */
  function UpperTriangle(columns: nat, x: nat, y: nat): Triangle
  {
    Triangle(AsU16(RowMajor(columns, x, y)), AsU16(RowMajor(columns, x + 1, y + 1)),
             AsU16(RowMajor(columns, x, y + 1)))
  }

  /**
   * The two triangles of a cell share the diagonal from its corner `(x, y)` to
   * its corner `(x+1, y+1)` and together use its four corners; when the mesh
   * has at most 65536 vertices the `u16` casts keep every index unchanged.
   */
  lemma CellTriangles(xDivisions: nat, yDivisions: nat, x: nat, y: nat)
    requires x < xDivisions && y < yDivisions
    requires (xDivisions + 1) * (yDivisions + 1) <= 0x1_0000
    ensures var columns := xDivisions + 1;
      && LowerTriangle(columns, x, y) == Triangle(RowMajor(columns, x, y), RowMajor(columns, x + 1, y),
                                                  RowMajor(columns, x + 1, y + 1))
      && UpperTriangle(columns, x, y) == Triangle(RowMajor(columns, x, y), RowMajor(columns, x + 1, y + 1),
                                                  RowMajor(columns, x, y + 1))
      && LowerTriangle(columns, x, y).a == UpperTriangle(columns, x, y).a
      && LowerTriangle(columns, x, y).c == UpperTriangle(columns, x, y).b
  {
    RowMajorInRange(xDivisions + 1, yDivisions + 1, x + 1, y + 1);
    RowMajorInRange(xDivisions + 1, yDivisions + 1, x, y + 1);
    RowMajorInRange(xDivisions + 1, yDivisions + 1, x + 1, y);
  }

  /**
   * The reference display grid, 120 by 100 subdivisions, has 12221 vertices,
   * so the `u16` casts leave the triangles of every one of its squares unchanged.
   */
  lemma ReferenceMeshFitsU16(x: nat, y: nat)
    requires x < Constants.REFERENCE.physical.x.subdivisions && y < Constants.REFERENCE.physical.y.subdivisions
    ensures (Constants.REFERENCE.physical.x.subdivisions + 1) * (Constants.REFERENCE.physical.y.subdivisions + 1) == 12221
    ensures var columns := Constants.REFERENCE.physical.x.subdivisions + 1;
      && LowerTriangle(columns, x, y) == Triangle(RowMajor(columns, x, y), RowMajor(columns, x + 1, y),
                                                  RowMajor(columns, x + 1, y + 1))
      && UpperTriangle(columns, x, y) == Triangle(RowMajor(columns, x, y), RowMajor(columns, x + 1, y + 1),
                                                  RowMajor(columns, x, y + 1))
  {
    Constants.ReferenceConfiguration();
    CellTriangles(Constants.REFERENCE.physical.x.subdivisions, Constants.REFERENCE.physical.y.subdivisions, x, y);
  }

  /**
   * Fills a fresh `(yDivisions+1) x (xDivisions+1)` table, row by row, with the
   * oracle's value at the transformed position of each cell. The oracle fails
   * outside the hull; the source aborts there, and this reports the first cell
   * (in row-major order) at which it failed.
   */
  method Sample(oracle: Oracle, frame: Frame, xDivisions: nat, yDivisions: nat)
    returns (values: array2<real>, failed: Option<Cell>)
    ensures fresh(values)
    ensures values.Length0 == yDivisions + 1 && values.Length1 == xDivisions + 1
    ensures failed.None? ==>
      forall y, x :: 0 <= y <= yDivisions && 0 <= x <= xDivisions ==> oracle(Apply(frame, x, y)) == Some(values[y, x])
    ensures failed.Some? ==>
      && failed.value.x <= xDivisions && failed.value.y <= yDivisions
      && oracle(Apply(frame, failed.value.x, failed.value.y)).None?
      && forall y, x :: 0 <= y <= yDivisions && 0 <= x <= xDivisions && Before(x, y, failed.value.x, failed.value.y) ==>
           oracle(Apply(frame, x, y)).Some?
  {
    values := new real[yDivisions + 1, xDivisions + 1]((_, _) => 0.0);
    failed := None;
    var y := 0;
    while y <= yDivisions
      invariant 0 <= y <= yDivisions + 1
      invariant forall y', x' :: 0 <= y' < y && 0 <= x' <= xDivisions ==> oracle(Apply(frame, x', y')) == Some(values[y', x'])
    {
      var x := 0;
      while x <= xDivisions
        invariant 0 <= x <= xDivisions + 1
        invariant forall y', x' :: 0 <= y' < y && 0 <= x' <= xDivisions ==> oracle(Apply(frame, x', y')) == Some(values[y', x'])
        invariant forall x' :: 0 <= x' < x ==> oracle(Apply(frame, x', y)) == Some(values[y, x'])
      {
        var pos := Apply(frame, x, y);
        var value := oracle(pos);
        if value.None? {
          failed := Some(Cell(x, y));
          return;
        }
        values[y, x] := value.value;
        x := x + 1;
      }
      y := y + 1;
    }
  }

  /**
   * The table of interpolated values over the physical grid, with the affine
   * map of its cells and the height offset it is meshed with. Its fields never
   * change and no method writes the table.
   */
  class Grid {
    const xDivisions: nat
    const yDivisions: nat
    const values: array2<real>
    const frame: Frame
    const heightOffset: real

    ghost predicate Valid()
    {
      values.Length0 == yDivisions + 1 && values.Length1 == xDivisions + 1
    }

    constructor (values: array2<real>, frame: Frame, heightOffset: real)
      requires values.Length0 >= 1 && values.Length1 >= 1
      ensures Valid()
      ensures this.values == values && this.frame == frame && this.heightOffset == heightOffset
    {
      this.xDivisions := values.Length1 - 1;
      this.yDivisions := values.Length0 - 1;
      this.values := values;
      this.frame := frame;
      this.heightOffset := heightOffset;
    }

    /**
     * Samples the oracle over every cell and keeps the table. On success every
     * stored value is the oracle's value at its cell's position; the range
     * search run afterwards only reads the table.
     */
    static method FromInterpolation(oracle: Oracle, frame: Frame, xDivisions: nat, yDivisions: nat, heightOffset: real)
      returns (r: Result<Grid, Cell>)
      ensures r.Success? ==>
        && fresh(r.value) && fresh(r.value.values) && r.value.Valid()
        && r.value.xDivisions == xDivisions && r.value.yDivisions == yDivisions
        && r.value.frame == frame && r.value.heightOffset == heightOffset
        && forall y, x :: 0 <= y <= yDivisions && 0 <= x <= xDivisions ==>
             oracle(Apply(frame, x, y)) == Some(r.value.values[y, x])
      ensures r.Failure? ==>
        && r.error.x <= xDivisions && r.error.y <= yDivisions
        && oracle(Apply(frame, r.error.x, r.error.y)).None?
        && forall y, x :: 0 <= y <= yDivisions && 0 <= x <= xDivisions && Before(x, y, r.error.x, r.error.y) ==>
             oracle(Apply(frame, x, y)).Some?
    {
      var values, failed := Sample(oracle, frame, xDivisions, yDivisions);
      if failed.Some? {
        return Failure(failed.value);
      }
      // The source computes the range of virtual x == 10 here and only prints it.
      var range := GetPhysicalRange(values, frame, Some(10.0), None);
      var grid := new Grid(values, frame, heightOffset);
      r := Success(grid);
    }

    /** The mesh vertex of cell `(x, y)`: its position, at the cell's value plus the height offset. */
    ghost function VertexAt(x: nat, y: nat): Vertex
      reads values
      requires Valid() && x <= xDivisions && y <= yDivisions
    {
      var pos := Apply(frame, x, y);
      Vertex(pos.x, pos.y, values[y, x] + heightOffset)
    }

    /** `vertices` holds, at their row-major positions, the vertices of every cell scanned before `(x, y)`. */
    ghost predicate VerticesThrough(vertices: seq<Vertex>, x: nat, y: nat)
      reads values
      requires Valid()
    {
      && |vertices| == RowMajor(xDivisions + 1, x, y)
      && forall y', x' {:trigger Before(x', y', x, y)} :: 0 <= y' <= yDivisions && 0 <= x' <= xDivisions && Before(x', y', x, y) ==>
           RowMajor(xDivisions + 1, x', y') < |vertices| && vertices[RowMajor(xDivisions + 1, x', y')] == VertexAt(x', y')
    }

    lemma VerticesStep(vertices: seq<Vertex>, x: nat, y: nat)
      requires Valid() && x <= xDivisions && y <= yDivisions
      requires VerticesThrough(vertices, x, y)
      ensures VerticesThrough(vertices + [VertexAt(x, y)], x + 1, y)
    {
      var vertices' := vertices + [VertexAt(x, y)];
      RowMajorNext(xDivisions + 1, x, y);
      forall y', x' {:trigger Before(x', y', x + 1, y)} | 0 <= y' <= yDivisions && 0 <= x' <= xDivisions && Before(x', y', x + 1, y)
        ensures RowMajor(xDivisions + 1, x', y') < |vertices'|
        ensures vertices'[RowMajor(xDivisions + 1, x', y')] == VertexAt(x', y')
      {
        if Before(x', y', x, y) {
          RowMajorOrder(xDivisions + 1, x', y', x, y);
          assert vertices'[RowMajor(xDivisions + 1, x', y')] == vertices[RowMajor(xDivisions + 1, x', y')];
        } else {
          assert x' == x && y' == y;
        }
      }
    }

    lemma VerticesNextRow(vertices: seq<Vertex>, y: nat)
      requires Valid()
      requires VerticesThrough(vertices, xDivisions + 1, y)
      ensures VerticesThrough(vertices, 0, y + 1)
    {
      RowMajorShift(xDivisions + 1, xDivisions + 1, y);
      forall y', x' {:trigger Before(x', y', 0, y + 1)} | 0 <= y' <= yDivisions && 0 <= x' <= xDivisions && Before(x', y', 0, y + 1)
        ensures RowMajor(xDivisions + 1, x', y') < |vertices|
        ensures vertices[RowMajor(xDivisions + 1, x', y')] == VertexAt(x', y')
      {
        assert Before(x', y', xDivisions + 1, y);
      }
    }

    /**
     * `indices` holds, at their row-major positions, the two triangles of every
     * grid square scanned before `(x, y)`, and only indices of existing vertices.
     */
    ghost predicate TrianglesThrough(indices: seq<Triangle>, x: nat, y: nat)
    {
      && |indices| == 2 * RowMajor(xDivisions, x, y)
      && (forall y', x' {:trigger Before(x', y', x, y)} :: 0 <= y' < yDivisions && 0 <= x' < xDivisions && Before(x', y', x, y) ==>
            && 2 * RowMajor(xDivisions, x', y') + 1 < |indices|
            && indices[2 * RowMajor(xDivisions, x', y')] == LowerTriangle(xDivisions + 1, x', y')
            && indices[2 * RowMajor(xDivisions, x', y') + 1] == UpperTriangle(xDivisions + 1, x', y'))
      && forall k :: 0 <= k < |indices| ==> ReferencesVertices(indices[k])
    }

    /** Every corner of `t` is a vertex of this grid's mesh. */
    predicate ReferencesVertices(t: Triangle)
    {
      var count := (xDivisions + 1) * (yDivisions + 1);
      t.a < count && t.b < count && t.c < count
    }

    lemma TrianglesStep(indices: seq<Triangle>, x: nat, y: nat)
      requires x < xDivisions && y < yDivisions
      requires TrianglesThrough(indices, x, y)
      ensures TrianglesThrough(indices + [LowerTriangle(xDivisions + 1, x, y)] + [UpperTriangle(xDivisions + 1, x, y)], x + 1, y)
    {
      var lower, upper := LowerTriangle(xDivisions + 1, x, y), UpperTriangle(xDivisions + 1, x, y);
      var indices' := indices + [lower] + [upper];
      RowMajorNext(xDivisions, x, y);
      forall y', x' {:trigger Before(x', y', x + 1, y)} | 0 <= y' < yDivisions && 0 <= x' < xDivisions && Before(x', y', x + 1, y)
        ensures 2 * RowMajor(xDivisions, x', y') + 1 < |indices'|
        ensures indices'[2 * RowMajor(xDivisions, x', y')] == LowerTriangle(xDivisions + 1, x', y')
        ensures indices'[2 * RowMajor(xDivisions, x', y') + 1] == UpperTriangle(xDivisions + 1, x', y')
      {
        if Before(x', y', x, y) {
          RowMajorOrder(xDivisions, x', y', x, y);
        } else {
          assert x' == x && y' == y;
        }
      }
      RowMajorInRange(xDivisions + 1, yDivisions + 1, x + 1, y + 1);
      RowMajorInRange(xDivisions + 1, yDivisions + 1, x + 1, y);
      RowMajorInRange(xDivisions + 1, yDivisions + 1, x, y + 1);
      RowMajorInRange(xDivisions + 1, yDivisions + 1, x, y);
      assert ReferencesVertices(lower) && ReferencesVertices(upper);
      forall k | 0 <= k < |indices'|
        ensures ReferencesVertices(indices'[k])
      {
        if k < |indices| {
          assert indices'[k] == indices[k];
        }
      }
    }

    lemma TrianglesNextRow(indices: seq<Triangle>, y: nat)
      requires TrianglesThrough(indices, xDivisions, y)
      ensures TrianglesThrough(indices, 0, y + 1)
    {
      RowMajorShift(xDivisions, xDivisions, y);
      forall y', x' {:trigger Before(x', y', 0, y + 1)} | 0 <= y' < yDivisions && 0 <= x' < xDivisions && Before(x', y', 0, y + 1)
        ensures 2 * RowMajor(xDivisions, x', y') + 1 < |indices|
        ensures indices[2 * RowMajor(xDivisions, x', y')] == LowerTriangle(xDivisions + 1, x', y')
        ensures indices[2 * RowMajor(xDivisions, x', y') + 1] == UpperTriangle(xDivisions + 1, x', y')
      {
        assert Before(x', y', xDivisions, y);
      }
    }

    /**
     * One vertex per cell in row-major order and two triangles per grid
     * square, every triangle pointing at vertices of the list.
     */
    method GetTriangles() returns (vertices: seq<Vertex>, indices: seq<Triangle>)
      requires Valid()
      ensures |vertices| == (xDivisions + 1) * (yDivisions + 1)
      ensures forall y, x :: 0 <= y <= yDivisions && 0 <= x <= xDivisions ==>
        RowMajor(xDivisions + 1, x, y) < |vertices| && vertices[RowMajor(xDivisions + 1, x, y)] == VertexAt(x, y)
      ensures |indices| == 2 * xDivisions * yDivisions
      ensures forall y, x :: 0 <= y < yDivisions && 0 <= x < xDivisions ==>
        && 2 * RowMajor(xDivisions, x, y) + 1 < |indices|
        && indices[2 * RowMajor(xDivisions, x, y)] == LowerTriangle(xDivisions + 1, x, y)
        && indices[2 * RowMajor(xDivisions, x, y) + 1] == UpperTriangle(xDivisions + 1, x, y)
      ensures forall k :: 0 <= k < |indices| ==>
        indices[k].a < |vertices| && indices[k].b < |vertices| && indices[k].c < |vertices|
    {
      // The triangles do not depend on the vertices, only on their count.
      indices := MeshIndices();
      vertices := MeshVertices();
      forall y, x {:trigger RowMajor(xDivisions + 1, x, y)} | 0 <= y <= yDivisions && 0 <= x <= xDivisions
        ensures RowMajor(xDivisions + 1, x, y) < |vertices|
      {
        RowMajorInRange(xDivisions + 1, yDivisions + 1, x, y);
      }
    }

    /** The first half of `GetTriangles`: the vertex of every cell, row by row. */
    method MeshVertices() returns (vertices: seq<Vertex>)
      requires Valid()
      ensures |vertices| == (xDivisions + 1) * (yDivisions + 1)
      ensures forall y, x :: 0 <= y <= yDivisions && 0 <= x <= xDivisions ==>
        RowMajor(xDivisions + 1, x, y) < |vertices| && vertices[RowMajor(xDivisions + 1, x, y)] == VertexAt(x, y)
    {
      vertices := [];
      var y := 0;
      while y <= yDivisions
        invariant 0 <= y <= yDivisions + 1
        invariant VerticesThrough(vertices, 0, y)
      {
        var x := 0;
        while x <= xDivisions
          invariant 0 <= x <= xDivisions + 1
          invariant VerticesThrough(vertices, x, y)
        {
          var value := values[y, x] + heightOffset;
          var pos := Apply(frame, x, y);
          VerticesStep(vertices, x, y);
          vertices := vertices + [Vertex(pos.x, pos.y, value)];
          x := x + 1;
        }
        VerticesNextRow(vertices, y);
        y := y + 1;
      }
      RowMajorCount(xDivisions + 1, yDivisions + 1);
      forall y, x {:trigger RowMajor(xDivisions + 1, x, y)} | 0 <= y <= yDivisions && 0 <= x <= xDivisions
        ensures RowMajor(xDivisions + 1, x, y) < |vertices| && vertices[RowMajor(xDivisions + 1, x, y)] == VertexAt(x, y)
      {
        assert Before(x, y, 0, yDivisions + 1);
      }
    }

    /** The second half of `GetTriangles`: the two triangles of every grid square, row by row. */
    method MeshIndices() returns (indices: seq<Triangle>)
      ensures |indices| == 2 * xDivisions * yDivisions
      ensures forall y, x :: 0 <= y < yDivisions && 0 <= x < xDivisions ==>
        && 2 * RowMajor(xDivisions, x, y) + 1 < |indices|
        && indices[2 * RowMajor(xDivisions, x, y)] == LowerTriangle(xDivisions + 1, x, y)
        && indices[2 * RowMajor(xDivisions, x, y) + 1] == UpperTriangle(xDivisions + 1, x, y)
      ensures forall k :: 0 <= k < |indices| ==> ReferencesVertices(indices[k])
    {
      indices := [];
      var y := 0;
      while y < yDivisions
        invariant 0 <= y <= yDivisions
        invariant TrianglesThrough(indices, 0, y)
      {
        var x := 0;
        while x < xDivisions
          invariant 0 <= x <= xDivisions
          invariant TrianglesThrough(indices, x, y)
        {
          var v00 := AsU16(RowMajor(xDivisions + 1, x, y));
          var v10 := AsU16(RowMajor(xDivisions + 1, x + 1, y));
          var v01 := AsU16(RowMajor(xDivisions + 1, x, y + 1));
          var v11 := AsU16(RowMajor(xDivisions + 1, x + 1, y + 1));
          TrianglesStep(indices, x, y);
          indices := indices + [Triangle(v00, v10, v11)];
          indices := indices + [Triangle(v00, v11, v01)];
          x := x + 1;
        }
        TrianglesNextRow(indices, y);
        y := y + 1;
      }
      RowMajorCount(xDivisions, yDivisions);
      forall y, x | 0 <= y < yDivisions && 0 <= x < xDivisions
        ensures 2 * RowMajor(xDivisions, x, y) + 1 < |indices|
        ensures indices[2 * RowMajor(xDivisions, x, y)] == LowerTriangle(xDivisions + 1, x, y)
        ensures indices[2 * RowMajor(xDivisions, x, y) + 1] == UpperTriangle(xDivisions + 1, x, y)
      {
        assert Before(x, y, 0, yDivisions);
      }
    }

    /** `e` joins two vertices one scale step apart along exactly one axis. */
    predicate JoinsNeighbours(e: Edge)
    {
      || (e.to.x == e.from.x + frame.xScale && e.to.y == e.from.y)
      || (e.to.x == e.from.x && e.to.y == e.from.y + frame.yScale)
    }

    /** `edges` holds, at their row-major positions, the two edges of every grid square scanned before `(x, y)`. */
    ghost predicate EdgesThrough(edges: seq<Edge>, x: nat, y: nat)
      reads values
      requires Valid()
    {
      && |edges| == 2 * RowMajor(xDivisions, x, y)
      && (forall y', x' {:trigger Before(x', y', x, y)} :: 0 <= y' < yDivisions && 0 <= x' < xDivisions && Before(x', y', x, y) ==>
            && 2 * RowMajor(xDivisions, x', y') + 1 < |edges|
            && edges[2 * RowMajor(xDivisions, x', y')] == Edge(VertexAt(x', y'), VertexAt(x' + 1, y'))
            && edges[2 * RowMajor(xDivisions, x', y') + 1] == Edge(VertexAt(x', y'), VertexAt(x', y' + 1)))
      && forall k :: 0 <= k < |edges| ==> JoinsNeighbours(edges[k])
    }

    lemma EdgesStep(edges: seq<Edge>, x: nat, y: nat)
      requires Valid() && x < xDivisions && y < yDivisions
      requires EdgesThrough(edges, x, y)
      ensures EdgesThrough(edges + [Edge(VertexAt(x, y), VertexAt(x + 1, y)), Edge(VertexAt(x, y), VertexAt(x, y + 1))], x + 1, y)
    {
      var right, down := Edge(VertexAt(x, y), VertexAt(x + 1, y)), Edge(VertexAt(x, y), VertexAt(x, y + 1));
      var edges' := edges + [right, down];
      RowMajorNext(xDivisions, x, y);
      forall y', x' {:trigger Before(x', y', x + 1, y)} | 0 <= y' < yDivisions && 0 <= x' < xDivisions && Before(x', y', x + 1, y)
        ensures 2 * RowMajor(xDivisions, x', y') + 1 < |edges'|
        ensures edges'[2 * RowMajor(xDivisions, x', y')] == Edge(VertexAt(x', y'), VertexAt(x' + 1, y'))
        ensures edges'[2 * RowMajor(xDivisions, x', y') + 1] == Edge(VertexAt(x', y'), VertexAt(x', y' + 1))
      {
        if Before(x', y', x, y) {
          RowMajorOrder(xDivisions, x', y', x, y);
        } else {
          assert x' == x && y' == y;
        }
      }
      ApplyIsUniform(frame, x, y, x, y);
      assert JoinsNeighbours(right) && JoinsNeighbours(down);
      forall k | 0 <= k < |edges'|
        ensures JoinsNeighbours(edges'[k])
      {
        if k < |edges| {
          assert edges'[k] == edges[k];
        }
      }
    }

    lemma EdgesNextRow(edges: seq<Edge>, y: nat)
      requires Valid()
      requires EdgesThrough(edges, xDivisions, y)
      ensures EdgesThrough(edges, 0, y + 1)
    {
      RowMajorShift(xDivisions, xDivisions, y);
      forall y', x' {:trigger Before(x', y', 0, y + 1)} | 0 <= y' < yDivisions && 0 <= x' < xDivisions && Before(x', y', 0, y + 1)
        ensures 2 * RowMajor(xDivisions, x', y') + 1 < |edges|
        ensures edges[2 * RowMajor(xDivisions, x', y')] == Edge(VertexAt(x', y'), VertexAt(x' + 1, y'))
        ensures edges[2 * RowMajor(xDivisions, x', y') + 1] == Edge(VertexAt(x', y'), VertexAt(x', y' + 1))
      {
        assert Before(x', y', xDivisions, y);
      }
    }

    /**
     * Two wireframe segments per grid square, from its corner `(x, y)` to the
     * next cell to the right and to the next cell below; each joins two
     * neighbouring vertices one scale step apart along exactly one axis.
     */
    method GetEdges() returns (edges: seq<Edge>)
      requires Valid()
      ensures |edges| == 2 * xDivisions * yDivisions
      ensures forall y, x :: 0 <= y < yDivisions && 0 <= x < xDivisions ==>
        && 2 * RowMajor(xDivisions, x, y) + 1 < |edges|
        && edges[2 * RowMajor(xDivisions, x, y)] == Edge(VertexAt(x, y), VertexAt(x + 1, y))
        && edges[2 * RowMajor(xDivisions, x, y) + 1] == Edge(VertexAt(x, y), VertexAt(x, y + 1))
      ensures forall k :: 0 <= k < |edges| ==> JoinsNeighbours(edges[k])
    {
      edges := [];
      var y := 0;
      while y < yDivisions
        invariant 0 <= y <= yDivisions
        invariant EdgesThrough(edges, 0, y)
      {
        var x := 0;
        while x < xDivisions
          invariant 0 <= x <= xDivisions
          invariant EdgesThrough(edges, x, y)
        {
          ghost var before := edges;
          var fromValue := values[y, x] + heightOffset;
          var fromPos := Apply(frame, x, y);
          var from := Vertex(fromPos.x, fromPos.y, fromValue);
          var targets := [Cell(x + 1, y), Cell(x, y + 1)];
          ghost var expected := [Edge(VertexAt(x, y), VertexAt(x + 1, y)), Edge(VertexAt(x, y), VertexAt(x, y + 1))];
          for i := 0 to 2
            invariant edges == before + expected[..i]
          {
            var to := targets[i];
            var toValue := values[to.y, to.x] + heightOffset;
            var toPos := Apply(frame, to.x, to.y);
            edges := edges + [Edge(from, Vertex(toPos.x, toPos.y, toValue))];
          }
          assert expected[..2] == expected;
          EdgesStep(before, x, y);
          x := x + 1;
        }
        EdgesNextRow(edges, y);
        y := y + 1;
      }
      RowMajorCount(xDivisions, yDivisions);
      forall y, x | 0 <= y < yDivisions && 0 <= x < xDivisions
        ensures 2 * RowMajor(xDivisions, x, y) + 1 < |edges|
        ensures edges[2 * RowMajor(xDivisions, x, y)] == Edge(VertexAt(x, y), VertexAt(x + 1, y))
        ensures edges[2 * RowMajor(xDivisions, x, y) + 1] == Edge(VertexAt(x, y), VertexAt(x, y + 1))
      {
        assert Before(x, y, 0, yDivisions);
      }
    }

    /**
     * What cell `(x, y)` adds to a range search: its x coordinate when its
     * floored value equals `xVirtual`, otherwise its y coordinate when the
     * floored value equals `yVirtual`, otherwise nothing.
     */
    static function Contribution(values: array2<real>, frame: Frame, xVirtual: Option<real>, yVirtual: Option<real>,
                                 x: nat, y: nat): (r: Option<real>)
      reads values
      requires y < values.Length0 && x < values.Length1
      ensures r.None? <==> xVirtual != Some(values[y, x].Floor as real) && yVirtual != Some(values[y, x].Floor as real)
      ensures r.Some? ==> r.value == Apply(frame, x, y).x || r.value == Apply(frame, x, y).y
    {
      var value := values[y, x].Floor as real;
      var pos := Apply(frame, x, y);
      if xVirtual == Some(value) then Some(pos.x)
      else if yVirtual == Some(value) then Some(pos.y)
      else None
    }

    /** The running range after scanning every cell before `(x, y)`, with the cells that attain its ends. */
    static ghost predicate RangeScanned(values: array2<real>, frame: Frame, xVirtual: Option<real>, yVirtual: Option<real>,
                                        x: int, y: int, min: Bound, max: Bound, minCell: Cell, maxCell: Cell)
      reads values
    {
      && (min == Max <==> max == Min)
      && (min == Max ==>
            forall y', x' {:trigger Before(x', y', x, y)} ::
              0 <= y' < values.Length0 && 0 <= x' < values.Length1 && Before(x', y', x, y) ==>
                Contribution(values, frame, xVirtual, yVirtual, x', y').None?)
      && (min != Max ==>
            && min.At? && max.At?
            && minCell.y < values.Length0 && minCell.x < values.Length1 && Before(minCell.x, minCell.y, x, y)
            && maxCell.y < values.Length0 && maxCell.x < values.Length1 && Before(maxCell.x, maxCell.y, x, y)
            && Contribution(values, frame, xVirtual, yVirtual, minCell.x, minCell.y) == Some(min.value)
            && Contribution(values, frame, xVirtual, yVirtual, maxCell.x, maxCell.y) == Some(max.value)
            && forall y', x' {:trigger Before(x', y', x, y)} ::
                 (0 <= y' < values.Length0 && 0 <= x' < values.Length1 && Before(x', y', x, y) &&
                  Contribution(values, frame, xVirtual, yVirtual, x', y').Some?) ==>
                   min.value <= Contribution(values, frame, xVirtual, yVirtual, x', y').value <= max.value)
    }

    /** Scanning cell `(x, y)` as the source does keeps the running range exact. */
    static lemma RangeScanStep(values: array2<real>, frame: Frame, xVirtual: Option<real>, yVirtual: Option<real>,
                               x: nat, y: nat, min: Bound, max: Bound, minCell: Cell, maxCell: Cell,
                               min': Bound, max': Bound, minCell': Cell, maxCell': Cell)
      requires y < values.Length0 && x < values.Length1
      requires RangeScanned(values, frame, xVirtual, yVirtual, x, y, min, max, minCell, maxCell)
      requires Contribution(values, frame, xVirtual, yVirtual, x, y).None? ==>
        min' == min && max' == max && minCell' == minCell && maxCell' == maxCell
      requires Contribution(values, frame, xVirtual, yVirtual, x, y).Some? ==>
        var c := Contribution(values, frame, xVirtual, yVirtual, x, y).value;
        && (if Less(c, min) then min' == At(c) && minCell' == Cell(x, y) else min' == min && minCell' == minCell)
        && (if Greater(c, max) then max' == At(c) && maxCell' == Cell(x, y) else max' == max && maxCell' == maxCell)
      ensures RangeScanned(values, frame, xVirtual, yVirtual, x + 1, y, min', max', minCell', maxCell')
    {
      var c := Contribution(values, frame, xVirtual, yVirtual, x, y);
      if c.None? {
        if min == Max {
          forall y', x' {:trigger Before(x', y', x + 1, y)}
            | 0 <= y' < values.Length0 && 0 <= x' < values.Length1 && Before(x', y', x + 1, y)
            ensures Contribution(values, frame, xVirtual, yVirtual, x', y').None?
          {
            if Before(x', y', x, y) {
            } else {
              assert x' == x && y' == y;
            }
          }
        } else {
          forall y', x' {:trigger Before(x', y', x + 1, y)}
            | 0 <= y' < values.Length0 && 0 <= x' < values.Length1 && Before(x', y', x + 1, y) &&
              Contribution(values, frame, xVirtual, yVirtual, x', y').Some?
            ensures min.value <= Contribution(values, frame, xVirtual, yVirtual, x', y').value <= max.value
          {
            assert Before(x', y', x, y);
          }
          assert Before(minCell.x, minCell.y, x, y) && Before(maxCell.x, maxCell.y, x, y);
        }
      } else {
        if min != Max {
          assert min.value <= max.value;
          assert Before(minCell.x, minCell.y, x, y) && Before(maxCell.x, maxCell.y, x, y);
        }
        forall y', x' {:trigger Before(x', y', x + 1, y)}
          | 0 <= y' < values.Length0 && 0 <= x' < values.Length1 && Before(x', y', x + 1, y) &&
            Contribution(values, frame, xVirtual, yVirtual, x', y').Some?
          ensures min'.value <= Contribution(values, frame, xVirtual, yVirtual, x', y').value <= max'.value
        {
          if Before(x', y', x, y) {
          } else {
            assert x' == x && y' == y;
          }
        }
      }
    }

    /** A finished row is the same as the start of the next one. */
    static lemma RangeScanNextRow(values: array2<real>, frame: Frame, xVirtual: Option<real>, yVirtual: Option<real>,
                                  y: nat, min: Bound, max: Bound, minCell: Cell, maxCell: Cell)
      requires RangeScanned(values, frame, xVirtual, yVirtual, values.Length1, y, min, max, minCell, maxCell)
      ensures RangeScanned(values, frame, xVirtual, yVirtual, 0, y + 1, min, max, minCell, maxCell)
    {
      if min == Max {
        forall y', x' {:trigger Before(x', y', 0, y + 1)}
          | 0 <= y' < values.Length0 && 0 <= x' < values.Length1 && Before(x', y', 0, y + 1)
          ensures Contribution(values, frame, xVirtual, yVirtual, x', y').None?
        {
          assert Before(x', y', values.Length1, y);
        }
      } else {
        forall y', x' {:trigger Before(x', y', 0, y + 1)}
          | 0 <= y' < values.Length0 && 0 <= x' < values.Length1 && Before(x', y', 0, y + 1) &&
            Contribution(values, frame, xVirtual, yVirtual, x', y').Some?
          ensures min.value <= Contribution(values, frame, xVirtual, yVirtual, x', y').value <= max.value
        {
          assert Before(x', y', values.Length1, y);
        }
        assert Before(minCell.x, minCell.y, values.Length1, y) && Before(maxCell.x, maxCell.y, values.Length1, y);
      }
    }

    /**
     * A finished scan answers the search: nothing when no cell contributes,
     * otherwise the least and the greatest contribution, each attained by some cell.
     */
    static lemma RangeScanComplete(values: array2<real>, frame: Frame, xVirtual: Option<real>, yVirtual: Option<real>,
                                   min: Bound, max: Bound, minCell: Cell, maxCell: Cell, r: Option<(real, real)>)
      requires RangeScanned(values, frame, xVirtual, yVirtual, 0, values.Length0, min, max, minCell, maxCell)
      requires r == if min != Max then Some((min.value, max.value)) else None
      ensures r.None? <==>
        forall y, x :: 0 <= y < values.Length0 && 0 <= x < values.Length1 ==>
          xVirtual != Some(values[y, x].Floor as real) && yVirtual != Some(values[y, x].Floor as real)
      ensures r.Some? ==> r.value.0 <= r.value.1
      ensures r.Some? ==>
        forall y, x ::
          (0 <= y < values.Length0 && 0 <= x < values.Length1 &&
           Contribution(values, frame, xVirtual, yVirtual, x, y).Some?) ==>
            r.value.0 <= Contribution(values, frame, xVirtual, yVirtual, x, y).value <= r.value.1
      ensures r.Some? ==>
        exists y, x :: 0 <= y < values.Length0 && 0 <= x < values.Length1 &&
          Contribution(values, frame, xVirtual, yVirtual, x, y) == Some(r.value.0)
      ensures r.Some? ==>
        exists y, x :: 0 <= y < values.Length0 && 0 <= x < values.Length1 &&
          Contribution(values, frame, xVirtual, yVirtual, x, y) == Some(r.value.1)
    {
      if min != Max {
        var c := Contribution(values, frame, xVirtual, yVirtual, minCell.x, minCell.y);
        assert c.Some?;
        var cx, cy := minCell.x, minCell.y;
        assert !(xVirtual != Some(values[cy, cx].Floor as real) && yVirtual != Some(values[cy, cx].Floor as real));
        assert min.value <= max.value by {
          assert Before(minCell.x, minCell.y, 0, values.Length0);
        }
        forall y, x | 0 <= y < values.Length0 && 0 <= x < values.Length1 &&
                      Contribution(values, frame, xVirtual, yVirtual, x, y).Some?
          ensures min.value <= Contribution(values, frame, xVirtual, yVirtual, x, y).value <= max.value
        {
          assert Before(x, y, 0, values.Length0);
        }
        assert Contribution(values, frame, xVirtual, yVirtual, maxCell.x, maxCell.y) == Some(max.value);
      } else {
        forall y, x | 0 <= y < values.Length0 && 0 <= x < values.Length1
          ensures xVirtual != Some(values[y, x].Floor as real) && yVirtual != Some(values[y, x].Floor as real)
        {
          assert Before(x, y, 0, values.Length0);
          assert Contribution(values, frame, xVirtual, yVirtual, x, y).None?;
        }
      }
    }

    /**
     * The smallest and the largest coordinate contributed by any cell (see
     * `Contribution`), or `None` when no cell's floored value equals
     * `xVirtual` or `yVirtual`. The table is only read.
     */
    static method GetPhysicalRange(values: array2<real>, frame: Frame, xVirtual: Option<real>, yVirtual: Option<real>)
      returns (r: Option<(real, real)>)
      ensures r.None? <==>
        forall y, x :: 0 <= y < values.Length0 && 0 <= x < values.Length1 ==>
          xVirtual != Some(values[y, x].Floor as real) && yVirtual != Some(values[y, x].Floor as real)
      ensures r.Some? ==> r.value.0 <= r.value.1
      ensures r.Some? ==>
        forall y, x ::
          (0 <= y < values.Length0 && 0 <= x < values.Length1 &&
           Contribution(values, frame, xVirtual, yVirtual, x, y).Some?) ==>
            r.value.0 <= Contribution(values, frame, xVirtual, yVirtual, x, y).value <= r.value.1
      ensures r.Some? ==>
        exists y, x :: 0 <= y < values.Length0 && 0 <= x < values.Length1 &&
          Contribution(values, frame, xVirtual, yVirtual, x, y) == Some(r.value.0)
      ensures r.Some? ==>
        exists y, x :: 0 <= y < values.Length0 && 0 <= x < values.Length1 &&
          Contribution(values, frame, xVirtual, yVirtual, x, y) == Some(r.value.1)
    {
      var min: Bound := Max;
      var max: Bound := Min;
      ghost var minCell, maxCell := Cell(0, 0), Cell(0, 0);
      var y := 0;
      while y < values.Length0
        invariant 0 <= y <= values.Length0
        invariant RangeScanned(values, frame, xVirtual, yVirtual, 0, y, min, max, minCell, maxCell)
      {
        var x := 0;
        while x < values.Length1
          invariant 0 <= x <= values.Length1
          invariant RangeScanned(values, frame, xVirtual, yVirtual, x, y, min, max, minCell, maxCell)
        {
          ghost var min0, max0, minCell0, maxCell0 := min, max, minCell, maxCell;
          var pos := Apply(frame, x, y);
          var value := values[y, x].Floor as real;
          if xVirtual == Some(value) {
            if Less(pos.x, min) { min := At(pos.x); minCell := Cell(x, y); }
            if Greater(pos.x, max) { max := At(pos.x); maxCell := Cell(x, y); }
          } else if yVirtual == Some(value) {
            if Less(pos.y, min) { min := At(pos.y); minCell := Cell(x, y); }
            if Greater(pos.y, max) { max := At(pos.y); maxCell := Cell(x, y); }
          }
          RangeScanStep(values, frame, xVirtual, yVirtual, x, y, min0, max0, minCell0, maxCell0, min, max, minCell, maxCell);
          x := x + 1;
        }
        RangeScanNextRow(values, frame, xVirtual, yVirtual, y, min, max, minCell, maxCell);
        y := y + 1;
      }
      // The source's second test, `max >= f64::MIN`, holds of every value the maximum can take.
      if min != Max {
        r := Some((min.value, max.value));
      } else {
        r := None;
      }
      RangeScanComplete(values, frame, xVirtual, yVirtual, min, max, minCell, maxCell, r);
    }
  }

  /** A search for neither coordinate finds nothing. */
  lemma UnqueriedRangeIsEmpty(values: array2<real>, frame: Frame, x: nat, y: nat)
    requires y < values.Length0 && x < values.Length1
    ensures Grid.Contribution(values, frame, None, None, x, y) == None
  {
  }

  /** A cell whose value matches `xVirtual` contributes its x coordinate, whatever `yVirtual` is. */
  lemma XMatchComesFirst(values: array2<real>, frame: Frame, xVirtual: real, yVirtual: Option<real>, x: nat, y: nat)
    requires y < values.Length0 && x < values.Length1
    requires values[y, x].Floor as real == xVirtual
    ensures Grid.Contribution(values, frame, Some(xVirtual), yVirtual, x, y) == Some(Apply(frame, x, y).x)
  {
  }
}
