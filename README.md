# interpolate-surface, modelled in Dafny

interpolate-surface builds the coordinate tables that map a CHIP-8 emulator
screen (the *virtual* space, 32 by 16) onto the curved PineTime display (the
*physical* space, 120 by 100). A Delaunay triangulation of measured points is
interpolated over a dense physical grid. The resulting tables are turned into
a triangle mesh and a wireframe for the viewer. They are then searched
backwards: for every virtual coordinate, the physical cells that interpolate
to it are reduced to a bounding box. Singular boxes, which collapse to a
single point, are flagged.

This model covers that core:

- `affine.dfy`: `Affine`, the `index * scale - offset` map from a grid index to coordinates.
- `constants.dfy`: `Constants`, the derived configuration.
  - Subdivision counts, widths, scales and offsets per axis.
  - The reference configuration, with its values proved.
- `interpolation.dfy`: `Interpolation`, the physical grid.
  - The sampler, which fills a 2D array in place from an interpolation oracle.
  - The `Grid` class, whose fields never change and whose methods never write the table, with the mesh (`GetTriangles`) and wireframe (`GetEdges`) builders.
  - The one-axis range search `GetPhysicalRange`.
- `virtual_map.dfy`: `VirtualMap`.
  - The two transforms.
  - The `u8` bucket test.
  - The bounding-box resolver `GetBoundingBox`.
  - The driver `GenerateVirtualToPhysicalMap`, which resolves and reports every virtual index.
- `controls.dfy`: `Controls`, the keyboard state of the viewer.
  - The D and T key cycles, and the G key's mesh index.
  - The `Viewer` class holding that state.
- `bounds.dfy`: `Bounds`, the running minimum and maximum seeded with the `f64::MAX` and `f64::MIN` sentinels.
- `wrappers.dfy`: `Wrappers`, `Option` and `Result`.

Modelling choices:

- **Numbers.**
  - `f64` becomes `real`, and `floor()` is `.Floor`.
  - Casts are written out:
    - `as u8` truncates and saturates to 0..255 (`VirtualMap.AsU8`).
    - `as usize` truncates, and negatives become 0 (`Constants.AsUsize`).
    - `as u16` keeps the low 16 bits (`Interpolation.AsU16`).
- **Sentinels.** The sentinels are the constructors `Max` and `Min` of `Bounds.Bound`. The comparisons `Less` and `Greater` treat them exactly as the source's `<` and `>` treat `f64::MAX` and `f64::MIN`, for every coordinate strictly between the two (`Bounds.AsF64` gives the double each bound stands for).
- **Interpolation oracle.** The interpolation method is a function parameter, `Point -> Option<real>`. `None` is a point outside the triangulated hull, where the source's `unwrap` aborts. The model reports the first such cell instead.
- **Grid transform.** `Grid::transform` uses `X_SCALE`, `Y_SCALE` and `GRID_OFFSET`, which are not defined in src/constants.rs. The grid therefore carries its `Frame` (scales and offsets) as a parameter.
- **Interpolated tables.** The tables of interpolated virtual coordinates (`data::X_VIRTUAL_GRID`, `data::Y_VIRTUAL_GRID`) are inputs of the configured size.
- **Read-only methods.** None of `GetBoundingBox`, `GenerateVirtualToPhysicalMap`, `GetPhysicalRange`, `GetTriangles` and `GetEdges` has a `modifies` clause. The tables are only read.
- **Wireframe edges.** `get_edges` emits two segments per grid square. One goes to the right neighbour and one to the one below. As in the source, the wireframe therefore has no segment along the last column or the last row of cells.
- **Where the range search differs from the source.**
  - The source's final test in `get_physical_range` also checks `max >= f64::MIN`. Every running maximum, the sentinel included, passes that check, so the model tests only `min`.
  - `from_delaunay_interpolation` computes a range and only prints it. The model computes it and discards it.

## Model

| member | source | states |
|---|---|---|
| Affine.Apply | src/interpolation.rs:176-182 | The grid transform `index * scale - offset`: index 0 of either axis lands on minus that axis's offset |
| Affine.ApplyIsInvertible | src/interpolation.rs:176-182 | Adding back the offset and dividing by a non-zero scale gives the index back, so no two indices share a coordinate |
| Affine.ApplyIsUniform | src/interpolation.rs:176-182 | Neighbouring indices land exactly one scale apart, and each axis ignores the other index |
| Affine.ApplyIsMonotone | src/interpolation.rs:176-182 | With positive scales the transform is strictly increasing on each axis, hence injective |
| Constants.AsUsize | src/constants.rs:34-39 | `as usize` of a non-negative quotient is its integer part; anything below 1 gives 0 |
| Constants.Subdivisions | src/constants.rs:34-39 | Subdivisions = `(max - min) / increment` truncated: at least 1, and the largest n with n increments inside the range |
| Constants.PhysicalAxis | src/constants.rs:42-61 | A physical axis is 1.05 times its range wide, offset by its minimum, and its subdivisions times its scale is its width |
| Constants.VirtualAxis | src/constants.rs:45-67 | A virtual axis is exactly its range wide, offset by its minimum, and its subdivisions times its scale is its width |
| Constants.Derive | src/constants.rs:33-69 | The derived configuration is consistent on all four axes and uses the four subdivision counts |
| Constants.ScaleOfExactDivision | src/constants.rs:50-55 | When the increment divides the range, the scale is 1.05 times the increment (physical) or the increment (virtual) |
| Constants.ReferenceConfiguration | src/constants.rs:14-69 | Subdivisions 120/100/32/16, widths 126/105/32/16, scales 1.05/1.05/1/1, all offsets 0, `OFFSET` 0 |
| Constants.SpaceSpansItsWidth | src/main.rs:305-319 | Index 0 maps to minus the offset, the last index to width minus offset, every index in between stays inside |
| Bounds.Less | src/main.rs:292-293 | For every coordinate strictly between `f64::MIN` and `f64::MAX`, `Less` is the source's `<` against the double the bound stands for, sentinels included |
| Bounds.Greater | src/main.rs:294-295 | For every coordinate strictly between `f64::MIN` and `f64::MAX`, `Greater` is the source's `>` against the double the bound stands for, sentinels included |
| Interpolation.AsU16 | src/interpolation.rs:142-145 | `as u16` stays below 65536 and leaves smaller indices unchanged |
| Interpolation.RowMajorInRange | src/interpolation.rs:141 | The row-major index `y * (X+1) + x` of a grid cell is below the number of cells |
| Interpolation.RowMajorIsProduct | src/interpolation.rs:141 | The recursive row-major position of cell (x, y) is `y * columns + x`, the source's `index` closure |
| Interpolation.RowMajorOrder | src/interpolation.rs:132-133 | A cell the nested row-by-row loops visit earlier has a strictly smaller position, so pushing in loop order puts each cell at its position |
| Interpolation.CellTriangles | src/interpolation.rs:139-148 | Per square: triangles (v00, v10, v11) and (v00, v11, v01), sharing the diagonal, unchanged by the `u16` cast when the mesh fits |
| Interpolation.ReferenceMeshFitsU16 | src/interpolation.rs:139-147 | The reference configuration's 121 x 101 mesh has 12221 vertices, and both triangles of every one of its squares are the uncast row-major indices |
| Interpolation.Sample | src/interpolation.rs:156-164 | A fresh (Y+1) x (X+1) table whose every cell holds the oracle's value at the transformed cell, or the first cell where the oracle is undefined |
| Interpolation.Grid.constructor | src/interpolation.rs:170-173 | The grid keeps exactly the filled table |
| Interpolation.Grid.FromInterpolation | src/interpolation.rs:155-174 | On success the stored table is the sampled one (`grid[y][x]` is the oracle at `transform((x, y))`), untouched by the range search |
| Interpolation.Grid.GetTriangles | src/interpolation.rs:128-151 | (X+1)(Y+1) vertices, vertex `y*(X+1)+x` at the cell's position with height value + `OFFSET`; 2XY triangles in cell order; every index below the vertex count |
| Interpolation.Grid.MeshVertices | src/interpolation.rs:128-138 | (X+1)(Y+1) vertices; the one at `y*(X+1)+x` is the transformed cell with height value + `OFFSET` |
| Interpolation.Grid.MeshIndices | src/interpolation.rs:139-149 | 2XY triangles; those of square (x, y) at 2·index and 2·index+1 are (v00, v10, v11) and (v00, v11, v01); every index names one of the (X+1)(Y+1) vertices |
| Interpolation.Grid.GetEdges | src/interpolation.rs:105-124 | 2XY edges, from cell (x, y) to (x+1, y) and to (x, y+1), heights value + `OFFSET`; each joins neighbours one scale apart |
| Interpolation.Grid.GetPhysicalRange | src/interpolation.rs:188-214 | None iff no cell's floored value equals either query; otherwise min <= max, every contribution inside, both ends attained |
| Interpolation.Grid.Contribution | src/interpolation.rs:198-208 | A cell contributes iff its floored value equals the x or the y query, and what it contributes is one of its two physical coordinates |
| Interpolation.Grid.RangeScanComplete | src/interpolation.rs:212-213 | After the whole scan the sentinel test gives None iff no cell contributed, else a min <= max pair bounding every contribution, each end attained |
| Interpolation.UnqueriedRangeIsEmpty | src/interpolation.rs:199-208 | With neither coordinate queried no cell contributes, so the search returns None |
| Interpolation.XMatchComesFirst | src/interpolation.rs:202-208 | A cell matching the x query contributes its x coordinate, whatever the y query is |
| VirtualMap.TransformPhysicalPoint | src/main.rs:305-311 | Physical index (0, 0) lands on minus the physical offsets |
| VirtualMap.TransformVirtualPoint | src/main.rs:314-319 | Virtual index (0, 0) lands on minus the virtual offsets |
| VirtualMap.TransformsSpanTheirSpaces | src/main.rs:305-319 | Both transforms send 0 to minus the offset and the last index to width (height) minus the offset; physical indices stay in range |
| VirtualMap.ReferenceTransforms | src/main.rs:305-319 | In the reference configuration the physical grid runs from (0, 0) to (126, 105) in steps of 1.05, the virtual transform is the identity |
| VirtualMap.AsU8 | src/main.rs:288-289 | `as u8` lies in 0..255, is the floor on 0..256, 0 below zero, 255 from 255 up |
| VirtualMap.SameU8Buckets | src/main.rs:284-289 | When both floored values and both queries lie in 0..254, the `u8` test holds iff the floors are equal on each axis |
| VirtualMap.Matches | src/main.rs:284-289 | For a cell whose floored values and whose query lie in 0..254, the cell matches iff its floors equal the query's on both axes |
| VirtualMap.U8BucketsSaturate | src/main.rs:288-289 | A negative floored value falls in virtual 0's bucket, one at or above 255 in virtual 255's; a query's bucket is its floor's |
| VirtualMap.BucketTestsCompared | src/main.rs:288-289 | The `u8` test and the exact floored test of the range search agree on buckets 0..254 and differ outside (-0.5 against 0, 300 against 255) |
| VirtualMap.GetBoundingBox | src/main.rs:267-302 | None iff no cell's floored values share both `u8` buckets with the query; else the floors of the min/max matching positions, each attained, with left <= right and top <= bottom |
| VirtualMap.BoxScanComplete | src/main.rs:298-301 | After the scan, the four-sentinel test and the floors give exactly the bounding box |
| VirtualMap.Widen | src/main.rs:292-295 | The widened extent holds the new position and never narrows; each bound is either kept or moved to the position |
| VirtualMap.BoxScanIsScanned | src/main.rs:278-297 | At every cell of the row-major scan the running bounds are the four sentinels iff nothing matched so far, else each is attained by an earlier matching cell and all earlier matches lie within them |
| VirtualMap.BoundingBoxIsUnique | src/main.rs:267-302 | The box of a query is determined by the tables and the query |
| VirtualMap.SingleMatchIsSingular | src/main.rs:252-255 | A query matched by one cell gets that cell's floored position as a point box, and it is flagged |
| VirtualMap.Singular | src/main.rs:253 | A box whose left equals its right and top equals its bottom is flagged; for corners in 0..255 the flag holds only then |
| VirtualMap.GenerateVirtualToPhysicalMap | src/main.rs:240-260 | One report per virtual index, at its row-major position: its virtual position, its bounding box, flagged iff the box's `u8` corners coincide |
| Controls.DelaunayVisibility.Next | src/main.rs:104-113 | D always changes the state; the triangulation's mesh comes back iff the old state was None, its lines are drawn unless the new state is None |
| Controls.GridRenderType.Next | src/main.rs:115-123 | T always changes the way of drawing, to the other of the two |
| Controls.VisibilityCycles | src/main.rs:104-113 | D cycles All, OnlyLines, None: three presses restore the state, one or two never do |
| Controls.RenderTypeAlternates | src/main.rs:115-123 | T is an involution without fixed points |
| Controls.NextMeshIndex | src/main.rs:164-168 | G moves a valid index to `(i + 1) mod (len + 1)`, staying in 0..len |
| Controls.PressesStayInRange | src/main.rs:164-168 | Any number of G presses keeps the index in 0..len |
| Controls.PressesCompose | src/main.rs:164-168 | a presses then b presses are a + b presses |
| Controls.PressesClimb | src/main.rs:164-168 | Below len each press adds one |
| Controls.MeshCycleReturns | src/main.rs:164-168 | After len + 1 presses the index is back where it started; from 0 the k-th press selects k |
| Controls.Viewer.constructor | src/main.rs:131-151 | Start-up state: all of the triangulation visible, meshes as lines, no normals, first mesh |
| Controls.Viewer.PressN | src/main.rs:162 | N toggles the normals and changes nothing else |
| Controls.Viewer.PressG | src/main.rs:163-175 | G advances the mesh index with the wrap, announces a name iff a mesh is selected, changes nothing else |
| Controls.Viewer.PressT | src/main.rs:176-179 | T swaps lines and polygons and changes nothing else |
| Controls.Viewer.PressD | src/main.rs:180-190 | D advances the visibility; the triangulation's mesh returns to the scene iff the new state is All |
| Controls.MeshDrawnOneWay | src/main.rs:198-228 | A selected mesh is drawn either as polygons or as lines, and nothing is drawn in the "no mesh" position |

## Left out

- The kiss3d window, the event loop, the scene nodes, the line drawing and the help text (src/main.rs:82-89, 125-238) are UI. Only the key transitions and what decides drawing are modelled.
- `create_mesh_from_triangulation`, `extract_edges`, `get_normals` and `cg_vec_to_na` walk spade's triangulation or convert for rendering. They depend on a foreign library.
- The four interpolation methods (src/interpolation.rs:17-92) wrap spade's interpolation kernels. They are the oracle parameter.
- src/delaunay_creation.rs is not part of this model. It feeds hard-coded points to spade.
- The data module is not part of this model. Its two tables are inputs of the configured size.
- All printed output is left out. The map's reports carry the values that are printed.
- IEEE-754 rounding is left out, and so are the `f32` casts of vertices and edges. Coordinates are exact reals.
- Bounds.Less: the agreement with the source's `<` is stated only for coordinates strictly between `f64::MIN` and `f64::MAX`. A coordinate equal to a sentinel, which the source would take for "not found", cannot occur in the model; the same holds for Bounds.Greater.
- Constants.AsUsize: does not saturate at `usize::MAX`. No configured quotient comes near it.
- Constants.Subdivisions: requires a positive increment and a range of at least one increment, so the model has no infinities, NaN or mirrored grids. The source derives a configuration in every other case too:
  - A range shorter than one increment gives 0 subdivisions. The scale `width / 0.0` is then +inf for a positive width, NaN when `max == min` (0.0 / 0.0), and -inf when `max < min`.
  - A negative increment with `max >= min` gives a quotient of at most zero, hence 0 subdivisions and the same scales as above.
  - A negative increment with `max < min` gives a positive quotient and its truncation as the count, with a negative width and scale: a mirrored grid. For example, min 10, max 0 and increment -1 give 10 subdivisions, a physical width of -10.5 and a scale of -1.05. When the range is shorter than one step, the count is 0 and the scale is -inf.
  - A zero increment with `max > min` makes the quotient +inf, which `as usize` saturates to `usize::MAX` subdivisions.
  - A zero increment with `max <= min` makes the quotient NaN or -inf, both cast to 0 subdivisions.
- The `Grid` constructor keeps the table it is given by reference, where the source stores its fixed-size array by value in a private field. A caller still holding that array could write it; `FromInterpolation` passes a fresh array that nothing else holds.
- Interpolation.Grid.FromInterpolation: an oracle failure is a `Failure` naming the cell, not a panic.
- The generic parameter of `Grid` only selects the interpolation method. It becomes the oracle argument.
