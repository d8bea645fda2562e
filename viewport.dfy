/**
 * The square viewport of `compute_params` (src/canvas.rs, identical in src/svg.rs): the
 * bounding box of the contour found by one min/max pass started from the `f64::MAX` /
 * `f64::MIN` sentinels, then a square viewBox around it with 10% padding on every side.
 */
module Viewport {
  import opened Geometry

  /** `f64::MAX`, exactly; `f64::MIN` is its negation. */
  const F64Max: real := 179769313486231570814527423731704356798070567525844996598917476803157260780028538760589558632766878171540458953514382464234321326889464182768467546703537516986049910576551282076245490090389328944075868508455133942304583236903222948165808559332123348274797826204144723168738177180919299881250404026184124858368.0

  /** A coordinate pair that a finite 64-bit float can hold. */
  predicate Finite(p: Point) {
    -F64Max <= p.x <= F64Max && -F64Max <= p.y <= F64Max
  }

  datatype Box = Box(minX: real, minY: real, maxX: real, maxY: real)

  /** The box used when there are no points. */
  const DefaultBox := Box(0.0, 0.0, 100.0, 100.0)

  /** The viewBox `vb_x vb_y vb_size vb_size` and the dot radius `dot_r`. */
  datatype ViewBox = ViewBox(x: real, y: real, size: real, dotR: real)

  /** One iteration of the min/max loop. */
  function Widen(b: Box, p: Point): Box {
    Box(if p.x < b.minX then p.x else b.minX,
        if p.y < b.minY then p.y else b.minY,
        if p.x > b.maxX then p.x else b.maxX,
        if p.y > b.maxY then p.y else b.maxY)
  }

  /** The loop state after the first m points. */
  function BoxOf(points: seq<Point>, m: nat): Box
    requires m <= |points|
  {
    if m == 0 then Box(F64Max, F64Max, -F64Max, -F64Max) else Widen(BoxOf(points, m - 1), points[m - 1])
  }

  /** The box of `compute_params`: the default one for no points. */
  function BoundsOf(points: seq<Point>): Box {
    if points == [] then DefaultBox else BoxOf(points, |points|)
  }

  predicate Contains(b: Box, p: Point) {
    b.minX <= p.x <= b.maxX && b.minY <= p.y <= b.maxY
  }

  /** The loop's box contains every point it has seen. */
  lemma {:induction false} BoxOfContains(points: seq<Point>, m: nat)
    requires m <= |points|
    ensures forall k :: 0 <= k < m ==> Contains(BoxOf(points, m), points[k])
  {
    if m > 0 {
      BoxOfContains(points, m - 1);
    }
  }

  /** With finite coordinates, each bound is attained by some point: the box is the tightest. */
  lemma {:induction false} BoxOfAttained(points: seq<Point>, m: nat)
    requires 0 < m <= |points|
    requires forall k :: 0 <= k < |points| ==> Finite(points[k])
    ensures exists k :: 0 <= k < m && points[k].x == BoxOf(points, m).minX
    ensures exists k :: 0 <= k < m && points[k].y == BoxOf(points, m).minY
    ensures exists k :: 0 <= k < m && points[k].x == BoxOf(points, m).maxX
    ensures exists k :: 0 <= k < m && points[k].y == BoxOf(points, m).maxY
  {
    var b := BoxOf(points, m);
    var p := points[m - 1];
    assert Finite(p);
    if m == 1 {
      assert BoxOf(points, 0) == Box(F64Max, F64Max, -F64Max, -F64Max);
      assert b == Widen(BoxOf(points, 0), p);
      assert b.minX == p.x && b.minY == p.y && b.maxX == p.x && b.maxY == p.y;
    } else {
      BoxOfAttained(points, m - 1);
      var prev := BoxOf(points, m - 1);
      var i1 :| 0 <= i1 < m - 1 && points[i1].x == prev.minX;
      var i2 :| 0 <= i2 < m - 1 && points[i2].y == prev.minY;
      var i3 :| 0 <= i3 < m - 1 && points[i3].x == prev.maxX;
      var i4 :| 0 <= i4 < m - 1 && points[i4].y == prev.maxY;
      var k1 := if p.x < prev.minX then m - 1 else i1;
      var k2 := if p.y < prev.minY then m - 1 else i2;
      var k3 := if p.x > prev.maxX then m - 1 else i3;
      var k4 := if p.y > prev.maxY then m - 1 else i4;
      assert points[k1].x == b.minX && points[k2].y == b.minY;
      assert points[k3].x == b.maxX && points[k4].y == b.maxY;
    }
  }

  /** The min/max loop of `compute_params`. */
  method BoundingBox(points: seq<Point>) returns (b: Box)
    ensures b == BoundsOf(points)
  {
    if points == [] {
      return DefaultBox;
    }
    var minX, minY, maxX, maxY := F64Max, F64Max, -F64Max, -F64Max;
    for i := 0 to |points|
      invariant Box(minX, minY, maxX, maxY) == BoxOf(points, i)
    {
      var p := points[i];
      if p.x < minX { minX := p.x; }
      if p.y < minY { minY := p.y; }
      if p.x > maxX { maxX := p.x; }
      if p.y > maxY { maxY := p.y; }
    }
    b := Box(minX, minY, maxX, maxY);
  }

  /** The square around a box: side the larger extent, padded by a tenth of it on each side. */
  function ViewBoxOf(b: Box): ViewBox {
    var w := b.maxX - b.minX;
    var h := b.maxY - b.minY;
    var size := if w > h then w else h;
    var padding := size * 0.1;
    var vbSize := size + padding * 2.0;
    ViewBox(b.minX - padding - (size - w) / 2.0, b.minY - padding - (size - h) / 2.0, vbSize, vbSize * 0.7 / 100.0)
  }

  /** The viewport of a contour. */
  function ViewBoxFor(points: seq<Point>): ViewBox {
    ViewBoxOf(BoundsOf(points))
  }

  predicate InView(v: ViewBox, p: Point) {
    v.x <= p.x <= v.x + v.size && v.y <= p.y <= v.y + v.size
  }

  /**
   * For a box with min <= max: the view is 1.2 times the larger extent, shares its centre
   * with the box, contains the box, and the dot radius is 0.7% of the view.
   */
  lemma ViewBoxGeometry(b: Box)
    requires b.minX <= b.maxX && b.minY <= b.maxY
    ensures var v := ViewBoxOf(b);
      var w := b.maxX - b.minX;
      var h := b.maxY - b.minY;
      && v.size == 1.2 * (if w > h then w else h)
      && v.x + v.size / 2.0 == (b.minX + b.maxX) / 2.0
      && v.y + v.size / 2.0 == (b.minY + b.maxY) / 2.0
      && v.x <= b.minX && b.maxX <= v.x + v.size
      && v.y <= b.minY && b.maxY <= v.y + v.size
      && v.dotR == v.size * 0.007
  {
  }

  /** Every point of the contour lies inside its viewport. */
  lemma ViewContainsPoints(points: seq<Point>)
    ensures forall k :: 0 <= k < |points| ==> InView(ViewBoxFor(points), points[k])
  {
    if points != [] {
      var b := BoxOf(points, |points|);
      BoxOfContains(points, |points|);
      assert Contains(b, points[0]);
      ViewBoxGeometry(b);
    }
  }

  /** No points: the box (0,0)-(100,100) gives the viewBox -10 -10 120 120. */
  lemma EmptyViewBox()
    ensures ViewBoxFor([]) == ViewBox(-10.0, -10.0, 120.0, 0.84)
  {
  }
}
