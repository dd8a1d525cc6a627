/**
 * The inverse region resolver: for each virtual coordinate, the bounding box of
 * the physical cells whose interpolated virtual coordinates fall in the same
 * `u8` buckets, and the map of all virtual coordinates to their boxes.
 */
module VirtualMap {
  import opened Wrappers
  import opened Affine
  import opened Bounds
  import opened Constants
  import opened Interpolation

  /** The physical coordinates of a normalised physical grid index; index (0, 0) lands on minus the offsets. */
  function TransformPhysicalPoint(cfg: Config, x: int, y: int): (p: Point)
    ensures x == 0 && y == 0 ==> p == Point(-cfg.physical.x.offset, -cfg.physical.y.offset)
  {
    Apply(cfg.physical.Frame(), x, y)
  }

  /** The virtual coordinates of a normalised virtual grid index; index (0, 0) lands on minus the offsets. */
  function TransformVirtualPoint(cfg: Config, x: int, y: int): (p: Point)
    ensures x == 0 && y == 0 ==> p == Point(-cfg.virtual.x.offset, -cfg.virtual.y.offset)
  {
    Apply(cfg.virtual.Frame(), x, y)
  }

  /**
   * Both transforms send index 0 to minus the space's offset, the last index
   * to its width minus its offset, and every index in between inside that range.
   */
  lemma TransformsSpanTheirSpaces(cfg: Config, x: int, y: int)
    requires cfg.Valid()
    ensures TransformPhysicalPoint(cfg, 0, 0) == Point(-cfg.physical.x.offset, -cfg.physical.y.offset)
    ensures TransformPhysicalPoint(cfg, cfg.physical.x.subdivisions, cfg.physical.y.subdivisions)
         == Point(cfg.physical.x.width - cfg.physical.x.offset, cfg.physical.y.width - cfg.physical.y.offset)
    ensures TransformVirtualPoint(cfg, 0, 0) == Point(-cfg.virtual.x.offset, -cfg.virtual.y.offset)
    ensures TransformVirtualPoint(cfg, cfg.virtual.x.subdivisions, cfg.virtual.y.subdivisions)
         == Point(cfg.virtual.x.width - cfg.virtual.x.offset, cfg.virtual.y.width - cfg.virtual.y.offset)
    ensures 0 <= x <= cfg.physical.x.subdivisions && 0 <= y <= cfg.physical.y.subdivisions ==>
      && -cfg.physical.x.offset <= TransformPhysicalPoint(cfg, x, y).x <= cfg.physical.x.width - cfg.physical.x.offset
      && -cfg.physical.y.offset <= TransformPhysicalPoint(cfg, x, y).y <= cfg.physical.y.width - cfg.physical.y.offset
  {
    SpaceSpansItsWidth(cfg.virtual, 0, 0);
    if 0 <= x <= cfg.physical.x.subdivisions && 0 <= y <= cfg.physical.y.subdivisions {
      SpaceSpansItsWidth(cfg.physical, x, y);
    } else {
      SpaceSpansItsWidth(cfg.physical, 0, 0);
    }
  }

  /**
   * In the reference configuration the physical grid runs from (0, 0) to
   * (126, 105) in steps of 1.05, and the virtual transform is the identity.
   */
  lemma ReferenceTransforms(x: int, y: int)
    ensures TransformPhysicalPoint(REFERENCE, 0, 0) == Point(0.0, 0.0)
    ensures TransformPhysicalPoint(REFERENCE, 120, 100) == Point(126.0, 105.0)
    ensures TransformPhysicalPoint(REFERENCE, x, y) == Point(x as real * 1.05, y as real * 1.05)
    ensures TransformVirtualPoint(REFERENCE, x, y) == Point(x as real, y as real)
  {
    ReferenceConfiguration();
  }

  /** `v as u8` for an f64 `v`: truncation toward zero, saturating to 0..255. */
  function AsU8(v: real): (b: int)
    ensures 0 <= b <= 255
    ensures 0.0 <= v < 256.0 ==> b == v.Floor
    ensures v < 0.0 ==> b == 0
    ensures v >= 255.0 ==> b == 255
  {
    if v < 0.0 then 0 else if v >= 255.0 then 255 else v.Floor
  }

  /** The test of the resolver: both floored grid values land in the query's `u8` buckets. */
  predicate SameU8Buckets(xValue: real, yValue: real, xVirtual: real, yVirtual: real)
    ensures 0 <= xValue.Floor <= 254 && 0 <= yValue.Floor <= 254 && 0.0 <= xVirtual < 255.0 && 0.0 <= yVirtual < 255.0 ==>
      (SameU8Buckets(xValue, yValue, xVirtual, yVirtual) <==> xValue.Floor == xVirtual.Floor && yValue.Floor == yVirtual.Floor)
  {
    AsU8(xValue.Floor as real) == AsU8(xVirtual) && AsU8(yValue.Floor as real) == AsU8(yVirtual)
  }

  /**
   * A grid value floored below 0 lands in the bucket of virtual 0, one floored
   * to 255 or above in the bucket of virtual 255; a query is in the bucket of its own floor.
   */
  lemma U8BucketsSaturate(value: real, query: real)
    ensures value.Floor < 0 ==> AsU8(value.Floor as real) == AsU8(0.0)
    ensures value.Floor >= 255 ==> AsU8(value.Floor as real) == AsU8(255.0)
    ensures AsU8(query) == AsU8(query.Floor as real)
  {
  }

  /**
   * The resolver's `u8` test and the range search's exact test on floored values
   * agree on the buckets 0..254 and part ways outside them: a value of -0.5
   * matches virtual 0 in the first but not in the second.
   */
  lemma BucketTestsCompared(value: real, query: int)
    ensures 0 <= value.Floor <= 254 && 0 <= query <= 254 ==>
      (AsU8(value.Floor as real) == AsU8(query as real) <==> value.Floor as real == query as real)
    ensures AsU8((-0.5).Floor as real) == AsU8(0.0) && (-0.5).Floor as real != 0.0
    ensures AsU8((300.0).Floor as real) == AsU8(255.0) && (300.0).Floor as real != 255.0
  {
  }

  /** A resolved box, in floored physical coordinates. */
  datatype Box = Box(left: int, top: int, right: int, bottom: int)

  /** A box the resolver flags: it collapses to one physical point at `u8` granularity. */
  predicate Singular(b: Box)
    ensures b.left == b.right && b.top == b.bottom ==> Singular(b)
    ensures 0 <= b.left <= 255 && 0 <= b.top <= 255 && 0 <= b.right <= 255 && 0 <= b.bottom <= 255 ==>
      (Singular(b) <==> b.left == b.right && b.top == b.bottom)
  {
    AsU8(b.left as real) == AsU8(b.right as real) && AsU8(b.top as real) == AsU8(b.bottom as real)
  }

  /** Both sample tables cover every cell of the configured physical grid. */
  predicate Shaped(cfg: Config, xGrid: array2<real>, yGrid: array2<real>)
  {
    && xGrid.Length0 == cfg.physical.y.subdivisions + 1 && xGrid.Length1 == cfg.physical.x.subdivisions + 1
    && yGrid.Length0 == xGrid.Length0 && yGrid.Length1 == xGrid.Length1
  }

  /** Physical cell `(x, y)` interpolates into the buckets of `(xVirtual, yVirtual)`. */
  predicate Matches(xGrid: array2<real>, yGrid: array2<real>, xVirtual: real, yVirtual: real, x: nat, y: nat)
    reads xGrid, yGrid
    requires y < xGrid.Length0 && x < xGrid.Length1 && y < yGrid.Length0 && x < yGrid.Length1
    ensures 0 <= xGrid[y, x].Floor <= 254 && 0 <= yGrid[y, x].Floor <= 254 && 0.0 <= xVirtual < 255.0 && 0.0 <= yVirtual < 255.0 ==>
      (Matches(xGrid, yGrid, xVirtual, yVirtual, x, y) <==> xGrid[y, x].Floor == xVirtual.Floor && yGrid[y, x].Floor == yVirtual.Floor)
  {
    SameU8Buckets(xGrid[y, x], yGrid[y, x], xVirtual, yVirtual)
  }

  /**
   * `r` is the answer for `(xVirtual, yVirtual)`: absent exactly when no cell
   * matches; otherwise the floors of the extreme physical coordinates over
   * the matching cells, each bound reached by some matching cell.
   */
  ghost predicate IsBoundingBox(cfg: Config, xGrid: array2<real>, yGrid: array2<real>, xVirtual: real, yVirtual: real,
                                r: Option<Box>)
    reads xGrid, yGrid
    requires Shaped(cfg, xGrid, yGrid)
  {
    && (r.None? <==>
          forall y, x :: 0 <= y < xGrid.Length0 && 0 <= x < xGrid.Length1 ==> !Matches(xGrid, yGrid, xVirtual, yVirtual, x, y))
    && (r.Some? ==>
          && (forall y, x :: 0 <= y < xGrid.Length0 && 0 <= x < xGrid.Length1 && Matches(xGrid, yGrid, xVirtual, yVirtual, x, y) ==>
                && r.value.left <= TransformPhysicalPoint(cfg, x, y).x.Floor <= r.value.right
                && r.value.top <= TransformPhysicalPoint(cfg, x, y).y.Floor <= r.value.bottom)
          && (exists y, x :: 0 <= y < xGrid.Length0 && 0 <= x < xGrid.Length1 && Matches(xGrid, yGrid, xVirtual, yVirtual, x, y) &&
                TransformPhysicalPoint(cfg, x, y).x.Floor == r.value.left)
          && (exists y, x :: 0 <= y < xGrid.Length0 && 0 <= x < xGrid.Length1 && Matches(xGrid, yGrid, xVirtual, yVirtual, x, y) &&
                TransformPhysicalPoint(cfg, x, y).y.Floor == r.value.top)
          && (exists y, x :: 0 <= y < xGrid.Length0 && 0 <= x < xGrid.Length1 && Matches(xGrid, yGrid, xVirtual, yVirtual, x, y) &&
                TransformPhysicalPoint(cfg, x, y).x.Floor == r.value.right)
          && (exists y, x :: 0 <= y < xGrid.Length0 && 0 <= x < xGrid.Length1 && Matches(xGrid, yGrid, xVirtual, yVirtual, x, y) &&
                TransformPhysicalPoint(cfg, x, y).y.Floor == r.value.bottom))
  }

  /** Resolution is a function of its inputs: two answers for the same query are the same box. */
  lemma BoundingBoxIsUnique(cfg: Config, xGrid: array2<real>, yGrid: array2<real>, xVirtual: real, yVirtual: real,
                            r1: Option<Box>, r2: Option<Box>)
    requires Shaped(cfg, xGrid, yGrid)
    requires IsBoundingBox(cfg, xGrid, yGrid, xVirtual, yVirtual, r1)
    requires IsBoundingBox(cfg, xGrid, yGrid, xVirtual, yVirtual, r2)
    ensures r1 == r2
  {
    assert r1.Some? ==> r2.Some? by {
      if r1.Some? {
      var y1, x1 :| 0 <= y1 < xGrid.Length0 && 0 <= x1 < xGrid.Length1 && Matches(xGrid, yGrid, xVirtual, yVirtual, x1, y1) &&
                    TransformPhysicalPoint(cfg, x1, y1).x.Floor == r1.value.left;
      }
    }
    assert r2.Some? ==> r1.Some? by {
      if r2.Some? {
      var y2, x2 :| 0 <= y2 < xGrid.Length0 && 0 <= x2 < xGrid.Length1 && Matches(xGrid, yGrid, xVirtual, yVirtual, x2, y2) &&
                    TransformPhysicalPoint(cfg, x2, y2).x.Floor == r2.value.left;
      }
    }
    if r1.Some? {
      BoxesAgreeAcross(cfg, xGrid, yGrid, xVirtual, yVirtual, r1, r2);
      BoxesAgreeDown(cfg, xGrid, yGrid, xVirtual, yVirtual, r1, r2);
    }
  }

  /** Two boxes for the same query have the same left and right sides. */
  lemma BoxesAgreeAcross(cfg: Config, xGrid: array2<real>, yGrid: array2<real>, xVirtual: real, yVirtual: real,
                         r1: Option<Box>, r2: Option<Box>)
    requires Shaped(cfg, xGrid, yGrid) && r1.Some? && r2.Some?
    requires IsBoundingBox(cfg, xGrid, yGrid, xVirtual, yVirtual, r1)
    requires IsBoundingBox(cfg, xGrid, yGrid, xVirtual, yVirtual, r2)
    ensures r1.value.left == r2.value.left && r1.value.right == r2.value.right
  {
    assert r1.value.left == r2.value.left by {
      var y1, x1 :| 0 <= y1 < xGrid.Length0 && 0 <= x1 < xGrid.Length1 && Matches(xGrid, yGrid, xVirtual, yVirtual, x1, y1) &&
                    TransformPhysicalPoint(cfg, x1, y1).x.Floor == r1.value.left;
      var y2, x2 :| 0 <= y2 < xGrid.Length0 && 0 <= x2 < xGrid.Length1 && Matches(xGrid, yGrid, xVirtual, yVirtual, x2, y2) &&
                    TransformPhysicalPoint(cfg, x2, y2).x.Floor == r2.value.left;
    }
    assert r1.value.right == r2.value.right by {
      var y1, x1 :| 0 <= y1 < xGrid.Length0 && 0 <= x1 < xGrid.Length1 && Matches(xGrid, yGrid, xVirtual, yVirtual, x1, y1) &&
                    TransformPhysicalPoint(cfg, x1, y1).x.Floor == r1.value.right;
      var y2, x2 :| 0 <= y2 < xGrid.Length0 && 0 <= x2 < xGrid.Length1 && Matches(xGrid, yGrid, xVirtual, yVirtual, x2, y2) &&
                    TransformPhysicalPoint(cfg, x2, y2).x.Floor == r2.value.right;
    }
  }

  /** Two boxes for the same query have the same top and bottom sides. */
  lemma BoxesAgreeDown(cfg: Config, xGrid: array2<real>, yGrid: array2<real>, xVirtual: real, yVirtual: real,
                       r1: Option<Box>, r2: Option<Box>)
    requires Shaped(cfg, xGrid, yGrid) && r1.Some? && r2.Some?
    requires IsBoundingBox(cfg, xGrid, yGrid, xVirtual, yVirtual, r1)
    requires IsBoundingBox(cfg, xGrid, yGrid, xVirtual, yVirtual, r2)
    ensures r1.value.top == r2.value.top && r1.value.bottom == r2.value.bottom
  {
    assert r1.value.top == r2.value.top by {
      var y1, x1 :| 0 <= y1 < xGrid.Length0 && 0 <= x1 < xGrid.Length1 && Matches(xGrid, yGrid, xVirtual, yVirtual, x1, y1) &&
                    TransformPhysicalPoint(cfg, x1, y1).y.Floor == r1.value.top;
      var y2, x2 :| 0 <= y2 < xGrid.Length0 && 0 <= x2 < xGrid.Length1 && Matches(xGrid, yGrid, xVirtual, yVirtual, x2, y2) &&
                    TransformPhysicalPoint(cfg, x2, y2).y.Floor == r2.value.top;
    }
    assert r1.value.bottom == r2.value.bottom by {
      var y1, x1 :| 0 <= y1 < xGrid.Length0 && 0 <= x1 < xGrid.Length1 && Matches(xGrid, yGrid, xVirtual, yVirtual, x1, y1) &&
                    TransformPhysicalPoint(cfg, x1, y1).y.Floor == r1.value.bottom;
      var y2, x2 :| 0 <= y2 < xGrid.Length0 && 0 <= x2 < xGrid.Length1 && Matches(xGrid, yGrid, xVirtual, yVirtual, x2, y2) &&
                    TransformPhysicalPoint(cfg, x2, y2).y.Floor == r2.value.bottom;
    }
  }

  /**
   * When exactly one physical cell matches, the box is that cell's floored
   * position, collapsed to a point, and the resolver flags it.
   */
  lemma SingleMatchIsSingular(cfg: Config, xGrid: array2<real>, yGrid: array2<real>, xVirtual: real, yVirtual: real,
                              cx: nat, cy: nat, r: Option<Box>)
    requires Shaped(cfg, xGrid, yGrid)
    requires cy < xGrid.Length0 && cx < xGrid.Length1 && Matches(xGrid, yGrid, xVirtual, yVirtual, cx, cy)
    requires forall y, x :: 0 <= y < xGrid.Length0 && 0 <= x < xGrid.Length1 && Matches(xGrid, yGrid, xVirtual, yVirtual, x, y) ==>
      x == cx && y == cy
    requires IsBoundingBox(cfg, xGrid, yGrid, xVirtual, yVirtual, r)
    ensures var p := TransformPhysicalPoint(cfg, cx, cy);
      r == Some(Box(p.x.Floor, p.y.Floor, p.x.Floor, p.y.Floor))
    ensures Singular(r.value)
  {
    var p := TransformPhysicalPoint(cfg, cx, cy);
    assert r.Some?;
    assert r.value.left <= p.x.Floor <= r.value.right && r.value.top <= p.y.Floor <= r.value.bottom;
    var y1, x1 :| 0 <= y1 < xGrid.Length0 && 0 <= x1 < xGrid.Length1 && Matches(xGrid, yGrid, xVirtual, yVirtual, x1, y1) &&
                  TransformPhysicalPoint(cfg, x1, y1).x.Floor == r.value.left;
    var y2, x2 :| 0 <= y2 < xGrid.Length0 && 0 <= x2 < xGrid.Length1 && Matches(xGrid, yGrid, xVirtual, yVirtual, x2, y2) &&
                  TransformPhysicalPoint(cfg, x2, y2).y.Floor == r.value.top;
    var y3, x3 :| 0 <= y3 < xGrid.Length0 && 0 <= x3 < xGrid.Length1 && Matches(xGrid, yGrid, xVirtual, yVirtual, x3, y3) &&
                  TransformPhysicalPoint(cfg, x3, y3).x.Floor == r.value.right;
    var y4, x4 :| 0 <= y4 < xGrid.Length0 && 0 <= x4 < xGrid.Length1 && Matches(xGrid, yGrid, xVirtual, yVirtual, x4, y4) &&
                  TransformPhysicalPoint(cfg, x4, y4).y.Floor == r.value.bottom;
  }

  /** The running extremes of the matching physical positions, with `f64::MAX` / `f64::MIN` as the empty bounds. */
  datatype Extent = Extent(left: Bound, top: Bound, right: Bound, bottom: Bound)
  {
    /** No matching position has been seen: all four bounds still hold their sentinels. */
    predicate Empty()
    {
      left == Max || top == Max || right == Min || bottom == Min
    }
  }

  /** The bounds before the first cell. */
  const NO_EXTENT := Extent(Max, Max, Min, Min)

  /**
   * The extent widened to take in position `p`, each bound by the strict
   * comparison the resolver makes: the tightest extent holding both `e` and
   * `p`, each bound kept or moved to `p`.
   */
  function Widen(e: Extent, p: Point): (w: Extent)
    ensures e.left != Min ==> w.left.At? && w.left.value <= p.x
    ensures e.top != Min ==> w.top.At? && w.top.value <= p.y
    ensures e.right != Max ==> w.right.At? && w.right.value >= p.x
    ensures e.bottom != Max ==> w.bottom.At? && w.bottom.value >= p.y
    ensures e.left.At? ==> w.left.value <= e.left.value
    ensures e.top.At? ==> w.top.value <= e.top.value
    ensures e.right.At? ==> w.right.value >= e.right.value
    ensures e.bottom.At? ==> w.bottom.value >= e.bottom.value
    ensures (w.left == e.left || w.left == At(p.x)) && (w.top == e.top || w.top == At(p.y))
    ensures (w.right == e.right || w.right == At(p.x)) && (w.bottom == e.bottom || w.bottom == At(p.y))
  {
    Extent(if Less(p.x, e.left) then At(p.x) else e.left,
           if Less(p.y, e.top) then At(p.y) else e.top,
           if Greater(p.x, e.right) then At(p.x) else e.right,
           if Greater(p.y, e.bottom) then At(p.y) else e.bottom)
  }

  /** The cells where the four bounds were reached. */
  datatype Witnesses = Witnesses(left: Cell, top: Cell, right: Cell, bottom: Cell)

  /** The witnesses after widening `e` by the position `p` of cell `c`. */
  function Record(e: Extent, w: Witnesses, p: Point, c: Cell): Witnesses
  {
    Witnesses(if Less(p.x, e.left) then c else w.left,
              if Less(p.y, e.top) then c else w.top,
              if Greater(p.x, e.right) then c else w.right,
              if Greater(p.y, e.bottom) then c else w.bottom)
  }

  /** `c` is a matching cell scanned before `(x, y)`. */
  ghost predicate Witness(cfg: Config, xGrid: array2<real>, yGrid: array2<real>, xVirtual: real, yVirtual: real,
                          x: int, y: int, c: Cell)
    reads xGrid, yGrid
    requires Shaped(cfg, xGrid, yGrid)
  {
    && c.y < xGrid.Length0 && c.x < xGrid.Length1 && Before(c.x, c.y, x, y)
    && Matches(xGrid, yGrid, xVirtual, yVirtual, c.x, c.y)
  }

  /**
   * The running extent after scanning every cell before `(x, y)`: all four
   * bounds still sentinels while nothing matched, otherwise the extremes of
   * the matching positions so far, each reached by its witness cell.
   */
  ghost predicate BoxScanned(cfg: Config, xGrid: array2<real>, yGrid: array2<real>, xVirtual: real, yVirtual: real,
                             x: int, y: int, e: Extent, w: Witnesses)
    reads xGrid, yGrid
    requires Shaped(cfg, xGrid, yGrid)
  {
    if e.Empty() then e == NO_EXTENT && NoneMatched(cfg, xGrid, yGrid, xVirtual, yVirtual, x, y)
    else Attained(cfg, xGrid, yGrid, xVirtual, yVirtual, x, y, e, w) && Contains(cfg, xGrid, yGrid, xVirtual, yVirtual, x, y, e)
  }

  /** No cell scanned before `(x, y)` matches. */
  ghost predicate NoneMatched(cfg: Config, xGrid: array2<real>, yGrid: array2<real>, xVirtual: real, yVirtual: real, x: int, y: int)
    reads xGrid, yGrid
    requires Shaped(cfg, xGrid, yGrid)
  {
    forall y', x' {:trigger Before(x', y', x, y)} ::
      0 <= y' < xGrid.Length0 && 0 <= x' < xGrid.Length1 && Before(x', y', x, y) ==>
        !Matches(xGrid, yGrid, xVirtual, yVirtual, x', y')
  }

  /** Each bound of `e` is the position of its witness, a matching cell scanned before `(x, y)`. */
  ghost predicate Attained(cfg: Config, xGrid: array2<real>, yGrid: array2<real>, xVirtual: real, yVirtual: real,
                           x: int, y: int, e: Extent, w: Witnesses)
    reads xGrid, yGrid
    requires Shaped(cfg, xGrid, yGrid)
  {
    && e.left.At? && e.top.At? && e.right.At? && e.bottom.At?
    && Witness(cfg, xGrid, yGrid, xVirtual, yVirtual, x, y, w.left) && TransformPhysicalPoint(cfg, w.left.x, w.left.y).x == e.left.value
    && Witness(cfg, xGrid, yGrid, xVirtual, yVirtual, x, y, w.top) && TransformPhysicalPoint(cfg, w.top.x, w.top.y).y == e.top.value
    && Witness(cfg, xGrid, yGrid, xVirtual, yVirtual, x, y, w.right) && TransformPhysicalPoint(cfg, w.right.x, w.right.y).x == e.right.value
    && Witness(cfg, xGrid, yGrid, xVirtual, yVirtual, x, y, w.bottom) && TransformPhysicalPoint(cfg, w.bottom.x, w.bottom.y).y == e.bottom.value
  }

  /** The position of every matching cell scanned before `(x, y)` lies within the bounds of `e`. */
  ghost predicate Contains(cfg: Config, xGrid: array2<real>, yGrid: array2<real>, xVirtual: real, yVirtual: real,
                           x: int, y: int, e: Extent)
    reads xGrid, yGrid
    requires Shaped(cfg, xGrid, yGrid) && e.left.At? && e.top.At? && e.right.At? && e.bottom.At?
  {
    forall y', x' {:trigger Before(x', y', x, y)} ::
      (0 <= y' < xGrid.Length0 && 0 <= x' < xGrid.Length1 && Before(x', y', x, y) &&
       Matches(xGrid, yGrid, xVirtual, yVirtual, x', y')) ==>
        && e.left.value <= TransformPhysicalPoint(cfg, x', y').x <= e.right.value
        && e.top.value <= TransformPhysicalPoint(cfg, x', y').y <= e.bottom.value
  }

  /** Scanning a cell that does not match leaves the extent and its witnesses alone. */
  lemma BoxScanSkip(cfg: Config, xGrid: array2<real>, yGrid: array2<real>, xVirtual: real, yVirtual: real,
                    x: nat, y: nat, e: Extent, w: Witnesses)
    requires Shaped(cfg, xGrid, yGrid) && y < xGrid.Length0 && x < xGrid.Length1
    requires BoxScanned(cfg, xGrid, yGrid, xVirtual, yVirtual, x, y, e, w)
    requires !Matches(xGrid, yGrid, xVirtual, yVirtual, x, y)
    ensures BoxScanned(cfg, xGrid, yGrid, xVirtual, yVirtual, x + 1, y, e, w)
  {
    if e.Empty() {
      forall y', x' {:trigger Before(x', y', x + 1, y)}
        | 0 <= y' < xGrid.Length0 && 0 <= x' < xGrid.Length1 && Before(x', y', x + 1, y)
        ensures !Matches(xGrid, yGrid, xVirtual, yVirtual, x', y')
      {
        if x' != x || y' != y {
          assert Before(x', y', x, y);
        }
      }
    } else {
      forall y', x' {:trigger Before(x', y', x + 1, y)}
        | 0 <= y' < xGrid.Length0 && 0 <= x' < xGrid.Length1 && Before(x', y', x + 1, y) &&
          Matches(xGrid, yGrid, xVirtual, yVirtual, x', y')
        ensures e.left.value <= TransformPhysicalPoint(cfg, x', y').x <= e.right.value
        ensures e.top.value <= TransformPhysicalPoint(cfg, x', y').y <= e.bottom.value
      {
        assert Before(x', y', x, y);
      }
    }
  }

  /** Scanning a matching cell widens the extent to take in its position and records it where a bound moved. */
  lemma BoxScanTake(cfg: Config, xGrid: array2<real>, yGrid: array2<real>, xVirtual: real, yVirtual: real,
                    x: nat, y: nat, e: Extent, w: Witnesses)
    requires Shaped(cfg, xGrid, yGrid) && y < xGrid.Length0 && x < xGrid.Length1
    requires BoxScanned(cfg, xGrid, yGrid, xVirtual, yVirtual, x, y, e, w)
    requires Matches(xGrid, yGrid, xVirtual, yVirtual, x, y)
    ensures var p := TransformPhysicalPoint(cfg, x, y);
      BoxScanned(cfg, xGrid, yGrid, xVirtual, yVirtual, x + 1, y, Widen(e, p), Record(e, w, p, Cell(x, y)))
  {
    var p := TransformPhysicalPoint(cfg, x, y);
    var e' := Widen(e, p);
    forall y', x' {:trigger Before(x', y', x + 1, y)}
      | 0 <= y' < xGrid.Length0 && 0 <= x' < xGrid.Length1 && Before(x', y', x + 1, y) &&
        Matches(xGrid, yGrid, xVirtual, yVirtual, x', y')
      ensures e'.left.value <= TransformPhysicalPoint(cfg, x', y').x <= e'.right.value
      ensures e'.top.value <= TransformPhysicalPoint(cfg, x', y').y <= e'.bottom.value
    {
      if x' != x || y' != y {
        assert Before(x', y', x, y);
      }
    }
  }

  /** The running extent and its witnesses. */
  datatype Scan = Scan(extent: Extent, witnesses: Witnesses)

  /**
   * The state of the resolver's scan when it reaches cell `(x, y)`: every
   * cell before it in row-major order, taken in turn, widens the extent
   * when it matches and leaves it alone otherwise.
   */
  ghost function BoxScan(cfg: Config, xGrid: array2<real>, yGrid: array2<real>, xVirtual: real, yVirtual: real,
                         x: nat, y: nat): Scan
    reads xGrid, yGrid
    requires Shaped(cfg, xGrid, yGrid) && x <= xGrid.Length1
    requires y < xGrid.Length0 || (y == xGrid.Length0 && x == 0)
    decreases y, x
  {
    if x == 0 then
      if y == 0 then Scan(NO_EXTENT, Witnesses(Cell(0, 0), Cell(0, 0), Cell(0, 0), Cell(0, 0)))
      else BoxScan(cfg, xGrid, yGrid, xVirtual, yVirtual, xGrid.Length1, y - 1)
    else
      var s := BoxScan(cfg, xGrid, yGrid, xVirtual, yVirtual, x - 1, y);
      var p := TransformPhysicalPoint(cfg, x - 1, y);
      if Matches(xGrid, yGrid, xVirtual, yVirtual, x - 1, y)
      then Scan(Widen(s.extent, p), Record(s.extent, s.witnesses, p, Cell(x - 1, y)))
      else s
  }

  /** Every state of the scan describes exactly the cells scanned so far. */
  lemma {:induction false} BoxScanIsScanned(cfg: Config, xGrid: array2<real>, yGrid: array2<real>, xVirtual: real, yVirtual: real,
                                            x: nat, y: nat)
    requires Shaped(cfg, xGrid, yGrid) && x <= xGrid.Length1
    requires y < xGrid.Length0 || (y == xGrid.Length0 && x == 0)
    ensures var s := BoxScan(cfg, xGrid, yGrid, xVirtual, yVirtual, x, y);
      BoxScanned(cfg, xGrid, yGrid, xVirtual, yVirtual, x, y, s.extent, s.witnesses)
    decreases y, x
  {
    if x == 0 {
      if y > 0 {
        BoxScanIsScanned(cfg, xGrid, yGrid, xVirtual, yVirtual, xGrid.Length1, y - 1);
        BoxScanEntersRow(cfg, xGrid, yGrid, xVirtual, yVirtual, y);
      }
    } else {
      BoxScanIsScanned(cfg, xGrid, yGrid, xVirtual, yVirtual, x - 1, y);
      BoxScanCrosses(cfg, xGrid, yGrid, xVirtual, yVirtual, x, y);
    }
  }

  /** The scan state at the end of a row describes the cells before the start of the next one. */
  lemma BoxScanEntersRow(cfg: Config, xGrid: array2<real>, yGrid: array2<real>, xVirtual: real, yVirtual: real, y: nat)
    requires Shaped(cfg, xGrid, yGrid) && 0 < y <= xGrid.Length0
    requires var s := BoxScan(cfg, xGrid, yGrid, xVirtual, yVirtual, xGrid.Length1, y - 1);
      BoxScanned(cfg, xGrid, yGrid, xVirtual, yVirtual, xGrid.Length1, y - 1, s.extent, s.witnesses)
    ensures var s := BoxScan(cfg, xGrid, yGrid, xVirtual, yVirtual, 0, y);
      BoxScanned(cfg, xGrid, yGrid, xVirtual, yVirtual, 0, y, s.extent, s.witnesses)
  {
    var s := BoxScan(cfg, xGrid, yGrid, xVirtual, yVirtual, xGrid.Length1, y - 1);
    BoxScanNextRow(cfg, xGrid, yGrid, xVirtual, yVirtual, y - 1, s.extent, s.witnesses);
  }

  /** Taking in one more cell, matching or not, keeps the scan state exact. */
  lemma BoxScanCrosses(cfg: Config, xGrid: array2<real>, yGrid: array2<real>, xVirtual: real, yVirtual: real, x: nat, y: nat)
    requires Shaped(cfg, xGrid, yGrid) && 0 < x <= xGrid.Length1 && y < xGrid.Length0
    requires var s := BoxScan(cfg, xGrid, yGrid, xVirtual, yVirtual, x - 1, y);
      BoxScanned(cfg, xGrid, yGrid, xVirtual, yVirtual, x - 1, y, s.extent, s.witnesses)
    ensures var s := BoxScan(cfg, xGrid, yGrid, xVirtual, yVirtual, x, y);
      BoxScanned(cfg, xGrid, yGrid, xVirtual, yVirtual, x, y, s.extent, s.witnesses)
  {
    var s := BoxScan(cfg, xGrid, yGrid, xVirtual, yVirtual, x - 1, y);
    if Matches(xGrid, yGrid, xVirtual, yVirtual, x - 1, y) {
      BoxScanTake(cfg, xGrid, yGrid, xVirtual, yVirtual, x - 1, y, s.extent, s.witnesses);
    } else {
      BoxScanSkip(cfg, xGrid, yGrid, xVirtual, yVirtual, x - 1, y, s.extent, s.witnesses);
    }
  }

  /** A finished row is the same as the start of the next one. */
  lemma BoxScanNextRow(cfg: Config, xGrid: array2<real>, yGrid: array2<real>, xVirtual: real, yVirtual: real,
                       y: nat, e: Extent, w: Witnesses)
    requires Shaped(cfg, xGrid, yGrid)
    requires BoxScanned(cfg, xGrid, yGrid, xVirtual, yVirtual, xGrid.Length1, y, e, w)
    ensures BoxScanned(cfg, xGrid, yGrid, xVirtual, yVirtual, 0, y + 1, e, w)
  {
    if e.Empty() {
      forall y', x' {:trigger Before(x', y', 0, y + 1)}
        | 0 <= y' < xGrid.Length0 && 0 <= x' < xGrid.Length1 && Before(x', y', 0, y + 1)
        ensures !Matches(xGrid, yGrid, xVirtual, yVirtual, x', y')
      {
        assert Before(x', y', xGrid.Length1, y);
      }
    } else {
      forall y', x' {:trigger Before(x', y', 0, y + 1)}
        | 0 <= y' < xGrid.Length0 && 0 <= x' < xGrid.Length1 && Before(x', y', 0, y + 1) &&
          Matches(xGrid, yGrid, xVirtual, yVirtual, x', y')
        ensures e.left.value <= TransformPhysicalPoint(cfg, x', y').x <= e.right.value
        ensures e.top.value <= TransformPhysicalPoint(cfg, x', y').y <= e.bottom.value
      {
        assert Before(x', y', xGrid.Length1, y);
      }
    }
  }

  /** After the last row, the sentinel test and the floors give exactly the bounding box. */
  lemma BoxScanComplete(cfg: Config, xGrid: array2<real>, yGrid: array2<real>, xVirtual: real, yVirtual: real,
                        e: Extent, w: Witnesses, r: Option<Box>)
    requires Shaped(cfg, xGrid, yGrid)
    requires BoxScanned(cfg, xGrid, yGrid, xVirtual, yVirtual, 0, xGrid.Length0, e, w)
    requires r == if e.Empty() then None
                  else Some(Box(e.left.value.Floor, e.top.value.Floor, e.right.value.Floor, e.bottom.value.Floor))
    ensures IsBoundingBox(cfg, xGrid, yGrid, xVirtual, yVirtual, r)
    ensures r.Some? ==> r.value.left <= r.value.right && r.value.top <= r.value.bottom
  {
    if e.Empty() {
      forall y', x' | 0 <= y' < xGrid.Length0 && 0 <= x' < xGrid.Length1
        ensures !Matches(xGrid, yGrid, xVirtual, yVirtual, x', y')
      {
        assert Before(x', y', 0, xGrid.Length0);
      }
    } else {
      var b := r.value;
      forall y', x' | 0 <= y' < xGrid.Length0 && 0 <= x' < xGrid.Length1 && Matches(xGrid, yGrid, xVirtual, yVirtual, x', y')
        ensures b.left <= TransformPhysicalPoint(cfg, x', y').x.Floor <= b.right
        ensures b.top <= TransformPhysicalPoint(cfg, x', y').y.Floor <= b.bottom
      {
        assert Before(x', y', 0, xGrid.Length0);
      }
      assert Matches(xGrid, yGrid, xVirtual, yVirtual, w.left.x, w.left.y);
      assert TransformPhysicalPoint(cfg, w.left.x, w.left.y).x.Floor == b.left;
      assert TransformPhysicalPoint(cfg, w.top.x, w.top.y).y.Floor == b.top;
      assert TransformPhysicalPoint(cfg, w.right.x, w.right.y).x.Floor == b.right;
      assert TransformPhysicalPoint(cfg, w.bottom.x, w.bottom.y).y.Floor == b.bottom;
    }
  }

  /**
   * The bounding box, in floored physical coordinates, of every physical cell
   * whose floored interpolated values fall in the `u8` buckets of
   * `(xVirtual, yVirtual)`, or `None` when there is none. The tables are only read.
   */
  method GetBoundingBox(cfg: Config, xGrid: array2<real>, yGrid: array2<real>, xVirtual: real, yVirtual: real)
    returns (r: Option<Box>)
    requires Shaped(cfg, xGrid, yGrid)
    ensures IsBoundingBox(cfg, xGrid, yGrid, xVirtual, yVirtual, r)
    ensures r.Some? ==> r.value.left <= r.value.right && r.value.top <= r.value.bottom
  {
    var extent := NO_EXTENT;
    for y := 0 to cfg.physical.y.subdivisions + 1
      invariant extent == BoxScan(cfg, xGrid, yGrid, xVirtual, yVirtual, 0, y).extent
    {
      for x := 0 to cfg.physical.x.subdivisions + 1
        invariant extent == BoxScan(cfg, xGrid, yGrid, xVirtual, yVirtual, x, y).extent
      {
        var pos := TransformPhysicalPoint(cfg, x, y);
        var xInterpolated := xGrid[y, x].Floor as real;
        var yInterpolated := yGrid[y, x].Floor as real;
        if AsU8(xInterpolated) != AsU8(xVirtual) || AsU8(yInterpolated) != AsU8(yVirtual) {
          continue;
        }
        extent := Widen(extent, pos);
      }
    }
    ghost var s := BoxScan(cfg, xGrid, yGrid, xVirtual, yVirtual, 0, xGrid.Length0);
    BoxScanIsScanned(cfg, xGrid, yGrid, xVirtual, yVirtual, 0, xGrid.Length0);
    if extent.Empty() {
      r := None;
    } else {
      r := Some(Box(extent.left.value.Floor, extent.top.value.Floor, extent.right.value.Floor, extent.bottom.value.Floor));
    }
    BoxScanComplete(cfg, xGrid, yGrid, xVirtual, yVirtual, s.extent, s.witnesses, r);
  }

  /** What is reported for one virtual coordinate: its position, its box, and the flag for a one-point box. */
  datatype MapEntry = MapEntry(position: Point, box: Option<Box>, singular: bool)

  /** `entries` holds, at their row-major positions, the reports for the virtual indices scanned before `(vx, vy)`. */
  ghost predicate MapThrough(cfg: Config, xGrid: array2<real>, yGrid: array2<real>, entries: seq<MapEntry>, vx: nat, vy: nat)
    reads xGrid, yGrid
    requires Shaped(cfg, xGrid, yGrid)
  {
    var columns := cfg.virtual.x.subdivisions + 1;
    && |entries| == RowMajor(columns, vx, vy)
    && forall y', x' {:trigger Before(x', y', vx, vy)} :: 0 <= y' <= cfg.virtual.y.subdivisions && 0 <= x' <= cfg.virtual.x.subdivisions && Before(x', y', vx, vy) ==>
         RowMajor(columns, x', y') < |entries| && ReportsOn(cfg, xGrid, yGrid, entries[RowMajor(columns, x', y')], x', y')
  }

  /** `e` is the report for virtual index `(vx, vy)`. */
  ghost predicate ReportsOn(cfg: Config, xGrid: array2<real>, yGrid: array2<real>, e: MapEntry, vx: nat, vy: nat)
    reads xGrid, yGrid
    requires Shaped(cfg, xGrid, yGrid)
  {
    && e.position == TransformVirtualPoint(cfg, vx, vy)
    && IsBoundingBox(cfg, xGrid, yGrid, e.position.x, e.position.y, e.box)
    && (e.singular <==> e.box.Some? && Singular(e.box.value))
  }

  lemma MapStep(cfg: Config, xGrid: array2<real>, yGrid: array2<real>, entries: seq<MapEntry>, vx: nat, vy: nat, e: MapEntry)
    requires Shaped(cfg, xGrid, yGrid) && vx <= cfg.virtual.x.subdivisions && vy <= cfg.virtual.y.subdivisions
    requires MapThrough(cfg, xGrid, yGrid, entries, vx, vy)
    requires ReportsOn(cfg, xGrid, yGrid, e, vx, vy)
    ensures MapThrough(cfg, xGrid, yGrid, entries + [e], vx + 1, vy)
  {
    var columns := cfg.virtual.x.subdivisions + 1;
    var entries' := entries + [e];
    RowMajorNext(columns, vx, vy);
    forall y', x' {:trigger Before(x', y', vx + 1, vy)}
      | 0 <= y' <= cfg.virtual.y.subdivisions && 0 <= x' <= cfg.virtual.x.subdivisions && Before(x', y', vx + 1, vy)
      ensures RowMajor(columns, x', y') < |entries'|
      ensures ReportsOn(cfg, xGrid, yGrid, entries'[RowMajor(columns, x', y')], x', y')
    {
      if Before(x', y', vx, vy) {
        RowMajorOrder(columns, x', y', vx, vy);
        assert entries'[RowMajor(columns, x', y')] == entries[RowMajor(columns, x', y')];
      } else {
        assert x' == vx && y' == vy;
      }
    }
  }

  lemma MapNextRow(cfg: Config, xGrid: array2<real>, yGrid: array2<real>, entries: seq<MapEntry>, vy: nat)
    requires Shaped(cfg, xGrid, yGrid)
    requires MapThrough(cfg, xGrid, yGrid, entries, cfg.virtual.x.subdivisions + 1, vy)
    ensures MapThrough(cfg, xGrid, yGrid, entries, 0, vy + 1)
  {
    var columns := cfg.virtual.x.subdivisions + 1;
    RowMajorShift(columns, columns, vy);
    forall y', x' {:trigger Before(x', y', 0, vy + 1)}
      | 0 <= y' <= cfg.virtual.y.subdivisions && 0 <= x' <= cfg.virtual.x.subdivisions && Before(x', y', 0, vy + 1)
      ensures RowMajor(columns, x', y') < |entries|
      ensures ReportsOn(cfg, xGrid, yGrid, entries[RowMajor(columns, x', y')], x', y')
    {
      assert Before(x', y', columns, vy);
    }
  }

  /**
   * Resolves every virtual index of the configured virtual grid once, in
   * row-major order, and reports each with its box and the one-point flag.
   */
  method GenerateVirtualToPhysicalMap(cfg: Config, xGrid: array2<real>, yGrid: array2<real>) returns (entries: seq<MapEntry>)
    requires Shaped(cfg, xGrid, yGrid)
    ensures |entries| == (cfg.virtual.x.subdivisions + 1) * (cfg.virtual.y.subdivisions + 1)
    ensures var columns := cfg.virtual.x.subdivisions + 1;
      forall vy, vx :: 0 <= vy <= cfg.virtual.y.subdivisions && 0 <= vx <= cfg.virtual.x.subdivisions ==>
        RowMajor(columns, vx, vy) < |entries| && ReportsOn(cfg, xGrid, yGrid, entries[RowMajor(columns, vx, vy)], vx, vy)
  {
    entries := [];
    for y := 0 to cfg.virtual.y.subdivisions + 1
      invariant MapThrough(cfg, xGrid, yGrid, entries, 0, y)
    {
      for x := 0 to cfg.virtual.x.subdivisions + 1
        invariant MapThrough(cfg, xGrid, yGrid, entries, x, y)
      {
        var pos := TransformVirtualPoint(cfg, x, y);
        var boundingBox := GetBoundingBox(cfg, xGrid, yGrid, pos.x, pos.y);
        var singular := false;
        if boundingBox.Some? {
          var b := boundingBox.value;
          if AsU8(b.left as real) == AsU8(b.right as real) && AsU8(b.top as real) == AsU8(b.bottom as real) {
            singular := true;
          }
        }
        MapStep(cfg, xGrid, yGrid, entries, x, y, MapEntry(pos, boundingBox, singular));
        entries := entries + [MapEntry(pos, boundingBox, singular)];
      }
      MapNextRow(cfg, xGrid, yGrid, entries, y);
    }
    var columns := cfg.virtual.x.subdivisions + 1;
    RowMajorCount(columns, cfg.virtual.y.subdivisions + 1);
    forall vy, vx | 0 <= vy <= cfg.virtual.y.subdivisions && 0 <= vx <= cfg.virtual.x.subdivisions
      ensures RowMajor(columns, vx, vy) < |entries| && ReportsOn(cfg, xGrid, yGrid, entries[RowMajor(columns, vx, vy)], vx, vy)
    {
      assert Before(vx, vy, 0, cfg.virtual.y.subdivisions + 1);
    }
  }
}
