/** Points of the plane, with exact real coordinates (see README: float rounding is not modelled). */
module Geometry {

  /** An `(f64, f64)` pair of the source. */
  datatype Point = Point(x: real, y: real)

  const Origin: Point := Point(0.0, 0.0)

  function Add(p: Point, q: Point): Point { Point(p.x + q.x, p.y + q.y) }

  /** The convex combination `p * (1 - frac) + q * frac`, coordinate by coordinate. */
  function Lerp(p: Point, q: Point, frac: real): Point {
    Point(p.x * (1.0 - frac) + q.x * frac, p.y * (1.0 - frac) + q.y * frac)
  }
}
