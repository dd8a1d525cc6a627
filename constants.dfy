/**
 * The configuration of the physical (display) and virtual (emulator) coordinate
 * spaces: every per-axis quantity is derived from the range and the sampling
 * increment of that axis, once, and never changes afterwards.
 */
module Constants {
  import opened Affine

  /** One axis as configured: its range and the increment it is sampled at. */
  datatype AxisRange = AxisRange(min: real, max: real, increment: real)
  {
    /** The range holds at least one whole increment, so the axis has a subdivision and a scale. */
    predicate Spans()
    {
      increment > 0.0 && max - min >= increment
    }
  }

  /** What is derived for one axis: how many subdivisions, the width they cover, the scale and the offset. */
  datatype Axis = Axis(subdivisions: nat, width: real, scale: real, offset: real)
  {
    /** The subdivisions, each `scale` wide, cover exactly `width`. */
    predicate Consistent()
    {
      subdivisions >= 1 && scale > 0.0 && subdivisions as real * scale == width
    }
  }

  /** Both axes of one coordinate space. */
  datatype Space = Space(x: Axis, y: Axis)
  {
    predicate Consistent()
    {
      x.Consistent() && y.Consistent()
    }

    /** The affine map from grid indices of this space to its coordinates. */
    function Frame(): Frame
    {
      Affine.Frame(x.scale, y.scale, x.offset, y.offset)
    }
  }

  /** The whole configuration; `heightOffset` is the `OFFSET` added to grid heights when meshing. */
  datatype Config = Config(physical: Space, virtual: Space, heightOffset: real)
  {
    predicate Valid()
    {
      physical.Consistent() && virtual.Consistent()
    }
  }

  /** `q as usize` for an f64 `q`: truncation toward zero, negative values saturate to 0. */
  function AsUsize(q: real): (n: nat)
    ensures q >= 0.0 ==> n as real <= q < n as real + 1.0
    ensures q < 1.0 ==> n == 0
  {
    if q < 0.0 then 0 else q.Floor
  }

  /** `(max - min) / increment` subdivisions: as many whole increments as the range holds. */
  function Subdivisions(r: AxisRange): (n: nat)
    requires r.Spans()
    ensures n >= 1
    ensures n as real * r.increment <= r.max - r.min < (n + 1) as real * r.increment
  {
    var n := AsUsize((r.max - r.min) / r.increment);
    WholeIncrements(n, r.max - r.min, r.increment);
    n
  }

  /** `n` whole increments fit in `length`, `n + 1` do not, when `n` is the integer part of `length / increment`. */
  lemma WholeIncrements(n: nat, length: real, increment: real)
    requires increment > 0.0 && n as real <= length / increment < n as real + 1.0
    ensures n as real * increment <= length
    ensures length < (n + 1) as real * increment
  {
    var q := length / increment;
    assert q * increment == length;
    assert (n + 1) as real == n as real + 1.0;
    ScaleIsMonotone(n as real, q, increment);
    ScaleIsStrictlyMonotone(q, (n + 1) as real, increment);
    assert q * increment < (n + 1) as real * increment;
    assert length < (n + 1) as real * increment;
  }

  lemma ScaleIsMonotone(a: real, b: real, c: real)
    requires a <= b && c > 0.0
    ensures a * c <= b * c
  {
    assert b * c - a * c == (b - a) * c;
  }

  lemma ScaleIsStrictlyMonotone(a: real, b: real, c: real)
    requires a < b && c > 0.0
    ensures a * c < b * c
  {
    assert b * c - a * c == (b - a) * c;
  }

  /** A physical axis: its width is the range widened by 5%, its offset is its minimum. */
  function PhysicalAxis(r: AxisRange): (a: Axis)
    requires r.Spans()
    ensures a.Consistent()
    ensures a.subdivisions == Subdivisions(r)
    ensures a.width == (r.max - r.min) * 1.05 && a.offset == r.min
  {
    var n := Subdivisions(r);
    var width := (r.max - r.min) * 1.05;
    Axis(n, width, 1.0 * width / n as real, r.min)
  }

  /** A virtual axis: its width is the plain range, its offset is its minimum. */
  function VirtualAxis(r: AxisRange): (a: Axis)
    requires r.Spans()
    ensures a.Consistent()
    ensures a.subdivisions == Subdivisions(r)
    ensures a.width == r.max - r.min && a.offset == r.min
  {
    var n := Subdivisions(r);
    var width := r.max - r.min;
    Axis(n, width, 1.0 * width / n as real, r.min)
  }

  /** The configuration derived from the four configured axes. */
  function Derive(xPhysical: AxisRange, yPhysical: AxisRange, xVirtual: AxisRange, yVirtual: AxisRange,
                  heightOffset: real): (c: Config)
    requires xPhysical.Spans() && yPhysical.Spans() && xVirtual.Spans() && yVirtual.Spans()
    ensures c.Valid()
    ensures c.physical.x.subdivisions == Subdivisions(xPhysical) && c.physical.y.subdivisions == Subdivisions(yPhysical)
    ensures c.virtual.x.subdivisions == Subdivisions(xVirtual) && c.virtual.y.subdivisions == Subdivisions(yVirtual)
  {
    Config(Space(PhysicalAxis(xPhysical), PhysicalAxis(yPhysical)),
           Space(VirtualAxis(xVirtual), VirtualAxis(yVirtual)),
           heightOffset)
  }

  /** The display's range (its resolution) and the emulator's, both sampled at every whole unit. */
  const X_PHYSICAL := AxisRange(0.0, 120.0, 1.0)
  const Y_PHYSICAL := AxisRange(0.0, 100.0, 1.0)
  const X_VIRTUAL := AxisRange(0.0, 32.0, 1.0)
  const Y_VIRTUAL := AxisRange(0.0, 16.0, 1.0)
  const OFFSET: real := 0.0

  const REFERENCE: Config := Derive(X_PHYSICAL, Y_PHYSICAL, X_VIRTUAL, Y_VIRTUAL, OFFSET)

  /**
   * When the increment divides the range, the scale is the increment itself,
   * widened by 5% on a physical axis.
   */
  lemma ScaleOfExactDivision(r: AxisRange)
    requires r.Spans()
    requires r.max - r.min == Subdivisions(r) as real * r.increment
    ensures PhysicalAxis(r).scale == 1.05 * r.increment
    ensures VirtualAxis(r).scale == r.increment
  {
    var n := Subdivisions(r) as real;
    calc {
      PhysicalAxis(r).scale;
      1.0 * ((r.max - r.min) * 1.05) / n;
      (n * r.increment * 1.05) / n;
      1.05 * r.increment;
    }
  }

  /** The reference configuration: 120x100 physical and 32x16 virtual subdivisions. */
  lemma ReferenceConfiguration()
    ensures REFERENCE.Valid()
    ensures REFERENCE.physical.x.subdivisions == 120 && REFERENCE.physical.y.subdivisions == 100
    ensures REFERENCE.virtual.x.subdivisions == 32 && REFERENCE.virtual.y.subdivisions == 16
    ensures REFERENCE.physical.x.width == 126.0 && REFERENCE.physical.y.width == 105.0
    ensures REFERENCE.virtual.x.width == 32.0 && REFERENCE.virtual.y.width == 16.0
    ensures REFERENCE.physical.x.scale == 1.05 && REFERENCE.physical.y.scale == 1.05
    ensures REFERENCE.virtual.x.scale == 1.0 && REFERENCE.virtual.y.scale == 1.0
    ensures REFERENCE.physical.x.offset == 0.0 && REFERENCE.physical.y.offset == 0.0
    ensures REFERENCE.virtual.x.offset == 0.0 && REFERENCE.virtual.y.offset == 0.0
    ensures REFERENCE.heightOffset == 0.0
  {
    ScaleOfExactDivision(X_PHYSICAL);
    ScaleOfExactDivision(Y_PHYSICAL);
    ScaleOfExactDivision(X_VIRTUAL);
    ScaleOfExactDivision(Y_VIRTUAL);
  }

  /**
   * In a consistent space index 0 lands on minus the offset, the last index on
   * the width minus the offset, and every index in between inside that range.
   */
  lemma SpaceSpansItsWidth(s: Space, ix: int, iy: int)
    requires s.Consistent()
    requires 0 <= ix <= s.x.subdivisions && 0 <= iy <= s.y.subdivisions
    ensures Apply(s.Frame(), 0, 0) == Point(-s.x.offset, -s.y.offset)
    ensures Apply(s.Frame(), s.x.subdivisions, s.y.subdivisions) == Point(s.x.width - s.x.offset, s.y.width - s.y.offset)
    ensures -s.x.offset <= Apply(s.Frame(), ix, iy).x <= s.x.width - s.x.offset
    ensures -s.y.offset <= Apply(s.Frame(), ix, iy).y <= s.y.width - s.y.offset
  {
    assert (s.x.subdivisions - ix) as real * s.x.scale >= 0.0;
    assert (s.y.subdivisions - iy) as real * s.y.scale >= 0.0;
    assert ix as real * s.x.scale >= 0.0;
    assert iy as real * s.y.scale >= 0.0;
  }
}
