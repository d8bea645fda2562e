/**
 * The contour as a function of t in [0, 1] (src/model.rs): `ContourFunctionImpl` is the
 * piecewise-linear interpolation of the contour's points, `OffsetContourFunction` the
 * decorator that `with_offset` wraps around any contour function, and `interpolate` the
 * resampler that evaluates the function at n evenly spaced parameters.
 */
module ContourModel {
  import opened Geometry

  /** The `ContourFunction` implementations: the base polyline and its offset decorator. */
  datatype ContourFn =
    | Polyline(points: seq<Point>)
    | Offset(inner: ContourFn, dx: real, dy: real)

  /** `t.clamp(0.0, 1.0)`. */
  function Clamp01(t: real): (r: real)
    ensures 0.0 <= r <= 1.0
    ensures 0.0 <= t <= 1.0 ==> r == t
  {
    if t < 0.0 then 0.0 else if t > 1.0 then 1.0 else t
  }

  /** `t.clamp(0.0, 1.0) * (n - 1) as f64`. */
  function Scaled(t: real, n: nat): (r: real)
    requires n >= 2
    ensures 0.0 <= r <= (n - 1) as real
    ensures 0.0 <= t <= 1.0 ==> r == t * (n - 1) as real
  {
    Clamp01(t) * (n - 1) as real
  }

  /** `ContourFunctionImpl::x` and `::y` together. */
  function PolylineAt(points: seq<Point>, t: real): Point {
    var n := |points|;
    if n == 0 then Origin
    else if n == 1 then points[0]
    else
      var scaled := Scaled(t, n);
      var i := scaled.Floor;
      if i >= n - 1 then points[n - 1]
      else Lerp(points[i], points[i + 1], scaled - i as real)
  }

  /** `(f.x(t), f.y(t))` for any contour function. */
  function At(f: ContourFn, t: real): Point {
    match f
    case Polyline(points) => PolylineAt(points, t)
    case Offset(inner, dx, dy) => Add(At(inner, t), Point(dx, dy))
  }

  function X(f: ContourFn, t: real): real { At(f, t).x }
  function Y(f: ContourFn, t: real): real { At(f, t).y }

  /** `with_offset`: wraps, leaving the inner function as it is. */
  function WithOffset(f: ContourFn, dx: real, dy: real): (r: ContourFn)
    ensures r.Offset? && r.inner == f
  {
    Offset(f, dx, dy)
  }

  /** The offset function is the inner one translated by (dx, dy), at every t. */
  lemma OffsetTranslates(f: ContourFn, dx: real, dy: real, t: real)
    ensures X(WithOffset(f, dx, dy), t) == X(f, t) + dx
    ensures Y(WithOffset(f, dx, dy), t) == Y(f, t) + dy
  {
  }

  /** Offsetting twice is offsetting once by the sum. */
  lemma OffsetsCompose(f: ContourFn, a: real, b: real, c: real, d: real, t: real)
    ensures At(WithOffset(WithOffset(f, a, b), c, d), t) == At(WithOffset(f, a + c, b + d), t)
  {
  }

  /** No points: the origin everywhere. One point: that point everywhere. */
  lemma FewPointsAreConstant(points: seq<Point>, t: real)
    requires |points| <= 1
    ensures At(Polyline(points), t) == if points == [] then Origin else points[0]
  {
  }

  /** t is clamped: at or before 0 the first point, at or after 1 the last point. */
  lemma ClampedEnds(points: seq<Point>, t: real)
    requires points != []
    ensures t <= 0.0 ==> At(Polyline(points), t) == points[0]
    ensures t >= 1.0 ==> At(Polyline(points), t) == points[|points| - 1]
  {
    var n := |points|;
    if n >= 2 && t <= 0.0 {
      assert Scaled(t, n) == 0.0;
      assert (0.0).Floor == 0;
    }
    if n >= 2 && t >= 1.0 {
      assert Scaled(t, n) == (n - 1) as real;
      assert ((n - 1) as real).Floor == n - 1;
    }
  }

  /** The k-th node parameter k/(n-1) gives back the k-th point. */
  lemma AtNode(points: seq<Point>, k: nat)
    requires |points| >= 2 && k < |points|
    ensures At(Polyline(points), k as real / (|points| - 1) as real) == points[k]
  {
    var n := |points|;
    var m := (n - 1) as real;
    var t := k as real / m;
    NodeParam(k as real, m);
    assert (k as real).Floor == k;
    UnfoldPolylineAt(points, t, k as real, k);
    assert At(Polyline(points), t) == PolylineAt(points, t);
    if k < n - 1 {
      LerpZero(points[k], points[k + 1]);
    }
  }

  lemma NodeParam(k: real, m: real)
    requires 0.0 <= k <= m && m > 0.0
    ensures 0.0 <= k / m <= 1.0 && (k / m) * m == k
  {
    var t := k / m;
    assert t * m == k;
    assert (1.0 - t) * m == m - k;
    ScaleSign(1.0 - t, m);
  }

  /** One unfolding of `PolylineAt` at a parameter in [0, 1] whose scaled floor is known. */
  lemma UnfoldPolylineAt(points: seq<Point>, t: real, scaled: real, i: int)
    requires |points| >= 2 && 0.0 <= t <= 1.0
    requires scaled == t * (|points| - 1) as real && i == scaled.Floor
    ensures PolylineAt(points, t)
         == if i >= |points| - 1 then points[|points| - 1] else Lerp(points[i], points[i + 1], scaled - i as real)
  {
    assert Scaled(t, |points|) == scaled;
  }

  /** Multiplying by a positive m keeps the sign and the comparison with 1. */
  lemma ScaleSign(t: real, m: real)
    requires m > 0.0
    ensures t < 0.0 ==> t * m < 0.0
    ensures t >= 1.0 ==> t * m >= m
  {
    if t >= 1.0 {
      assert t * m == m + (t - 1.0) * m;
    }
  }

  lemma LerpZero(p: Point, q: Point)
    ensures Lerp(p, q, 0.0) == p
  {
  }

  /**
   * Between the nodes i/(n-1) and (i+1)/(n-1) the function is the convex combination of
   * points i and i+1, with weight frac = t(n-1) - i in [0, 1).
   */
  lemma BetweenNodes(points: seq<Point>, i: nat, t: real)
    requires |points| >= 2 && i < |points| - 1
    requires i as real <= t * (|points| - 1) as real < (i + 1) as real
    ensures 0.0 <= t < 1.0
    ensures var frac := t * (|points| - 1) as real - i as real;
      0.0 <= frac < 1.0 && At(Polyline(points), t) == Lerp(points[i], points[i + 1], frac)
  {
    var n := |points|;
    var m := (n - 1) as real;
    ScaleSign(t, m);
    var scaled := t * m;
    assert scaled.Floor == i;
    assert scaled < (i + 1) as real <= m;
    assert t < 1.0 by {
      ScaleSign(t, m);
    }
    UnfoldPolylineAt(points, t, scaled, i);
  }

  /** `interpolate(c, n)`: n samples at t = i/(n-1). */
  function Interpolate(points: seq<Point>, n: nat): (r: seq<Point>)
    requires n != 1
    ensures |r| == n
  {
    seq(n, i requires 0 <= i < n => At(Polyline(points), i as real / (n - 1) as real))
  }

  /** Resampling keeps the contour's first and last points. */
  lemma InterpolateKeepsEnds(points: seq<Point>, n: nat)
    requires points != [] && n >= 2
    ensures Interpolate(points, n)[0] == points[0]
    ensures Interpolate(points, n)[n - 1] == points[|points| - 1]
  {
    ClampedEnds(points, 0.0);
    assert (n - 1) as real / (n - 1) as real == 1.0;
    ClampedEnds(points, 1.0);
  }

  /** Resampling a contour at its own point count gives the contour back. */
  lemma InterpolateOwnCount(points: seq<Point>)
    requires |points| >= 2
    ensures Interpolate(points, |points|) == points
  {
    var r := Interpolate(points, |points|);
    forall k | 0 <= k < |points|
      ensures r[k] == points[k]
    {
      AtNode(points, k);
    }
  }
}
