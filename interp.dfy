/**
 * The embed page's `interp(t)` (src/svg.rs), the script's own copy of the contour function:
 * no clamping of t, and the segment index capped at n - 2 instead.
 */
module PageInterp {
  import opened Wrappers
  import opened Geometry
  import ContourModel

  /**
   * `interp(t)`. None stands for the TypeError raised when a negative t makes the segment
   * index negative (`points[i]` is then undefined).
   */
  function JsInterp(points: seq<Point>, t: real): (r: Option<Point>)
    ensures |points| < 2 ==> r == Some(if points == [] then Origin else points[0])
  {
    var n := |points|;
    if n == 0 then Some(Origin)
    else if n == 1 then Some(points[0])
    else
      var scaled := t * (n - 1) as real;
      var fl := scaled.Floor;
      var i := if fl < n - 2 then fl else n - 2;
      if i < 0 then None
      else Some(Lerp(points[i], points[i + 1], scaled - i as real))
  }

  lemma LerpOne(p: Point, q: Point)
    ensures Lerp(p, q, 1.0) == q
  {
  }

  /** One unfolding of `JsInterp` on two or more points, with the scaled parameter named. */
  lemma UnfoldJsInterp(points: seq<Point>, t: real, scaled: real, i: int)
    requires |points| >= 2 && scaled == t * (|points| - 1) as real
    requires i == if scaled.Floor < |points| - 2 then scaled.Floor else |points| - 2
    ensures JsInterp(points, t) == if i < 0 then None else Some(Lerp(points[i], points[i + 1], scaled - i as real))
  {
  }

  lemma ScaleWithin(t: real, m: real)
    requires 0.0 <= t <= 1.0 && m > 0.0
    ensures 0.0 <= t * m <= m
  {
    assert m - t * m == (1.0 - t) * m;
  }

  /** On [0, 1] the script's `interp` is the contour function of src/model.rs. */
  lemma InterpMatchesContour(points: seq<Point>, t: real)
    requires 0.0 <= t <= 1.0
    ensures JsInterp(points, t) == Some(ContourModel.At(ContourModel.Polyline(points), t))
  {
    var n := |points|;
    if n >= 2 {
      var m := (n - 1) as real;
      var scaled := t * m;
      var fl := scaled.Floor;
      ScaleWithin(t, m);
      ContourModel.UnfoldPolylineAt(points, t, scaled, fl);
      var i := if fl < n - 2 then fl else n - 2;
      UnfoldJsInterp(points, t, scaled, i);
      if fl >= n - 1 {
        assert scaled - i as real == 1.0;
        LerpOne(points[n - 2], points[n - 1]);
      }
    }
  }

  /** A negative t on a contour of two or more points makes `interp` throw. */
  lemma NegativeThrows(points: seq<Point>, t: real)
    requires |points| >= 2 && t < 0.0
    ensures JsInterp(points, t).None?
  {
    ContourModel.ScaleSign(t, (|points| - 1) as real);
  }

  /** Past 1 the last segment is extended: at t = 2 on [a, b] the result is 2b - a. */
  lemma ExtrapolatesPastOne(a: Point, b: Point)
    ensures JsInterp([a, b], 2.0) == Some(Point(2.0 * b.x - a.x, 2.0 * b.y - a.y))
  {
    assert (2.0).Floor == 2;
    assert Lerp(a, b, 2.0) == Point(2.0 * b.x - a.x, 2.0 * b.y - a.y);
  }
}
