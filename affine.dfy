/**
 * The affine map from a normalised grid index to a coordinate:
 * `index * scale - offset` on each axis, independently.
 */
module Affine {

  /** A point of a 2D coordinate space (a `cgmath::Point2<f64>`, with reals for f64). */
  datatype Point = Point(x: real, y: real)

  /** The scale and the offset of both axes of one coordinate space. */
  datatype Frame = Frame(xScale: real, yScale: real, xOffset: real, yOffset: real)

  /** The coordinates of grid index `(ix, iy)`: index 0 of an axis lands on minus its offset. */
  function Apply(f: Frame, ix: int, iy: int): (p: Point)
    ensures ix == 0 ==> p.x == -f.xOffset
    ensures iy == 0 ==> p.y == -f.yOffset
  {
    Point(ix as real * f.xScale - f.xOffset, iy as real * f.yScale - f.yOffset)
  }

  /** Undoing the offset and the scale of an axis gives its index back. */
  lemma ApplyIsInvertible(f: Frame, ix: int, iy: int)
    ensures f.xScale != 0.0 ==> (Apply(f, ix, iy).x + f.xOffset) / f.xScale == ix as real
    ensures f.yScale != 0.0 ==> (Apply(f, ix, iy).y + f.yOffset) / f.yScale == iy as real
  {
  }

  /** Neighbouring indices are exactly one scale apart, and each axis ignores the other index. */
  lemma ApplyIsUniform(f: Frame, ix: int, iy: int, jx: int, jy: int)
    ensures Apply(f, ix + 1, iy).x == Apply(f, ix, jy).x + f.xScale
    ensures Apply(f, ix, iy + 1).y == Apply(f, jx, iy).y + f.yScale
  {
  }

  /** With positive scales the map is strictly increasing on each axis, hence injective. */
  lemma ApplyIsMonotone(f: Frame, ix: int, iy: int, jx: int, jy: int)
    requires f.xScale > 0.0 && f.yScale > 0.0
    ensures ix < jx ==> Apply(f, ix, iy).x < Apply(f, jx, jy).x
    ensures iy < jy ==> Apply(f, ix, iy).y < Apply(f, jx, jy).y
    ensures Apply(f, ix, iy) == Apply(f, jx, jy) ==> ix == jx && iy == jy
  {
    assert Apply(f, jx, jy).x - Apply(f, ix, iy).x == (jx - ix) as real * f.xScale;
    assert Apply(f, jx, jy).y - Apply(f, ix, iy).y == (jy - iy) as real * f.yScale;
    if ix != jx {
      assert (jx - ix) as real * f.xScale != 0.0;
    }
    if iy != jy {
      assert (jy - iy) as real * f.yScale != 0.0;
    }
    if ix < jx {
      assert (jx - ix) as real * f.xScale > 0.0;
    }
    if iy < jy {
      assert (jy - iy) as real * f.yScale > 0.0;
    }
  }
}
