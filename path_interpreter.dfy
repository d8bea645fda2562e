/**
 * The interpreter of path tokens (`points_of_svg_path`, `sample_cubic`, `sample_quad`;
 * src/canvas.rs and its verbatim copy in src/svg.rs). It walks the tokens with a cursor,
 * keeps a current point and a subpath start, and pushes points: one per coordinate pair of
 * M/m/L/l (and of the implicit line-to pairs after a moveto), one per H/h/V/v and Z/z, and
 * eight Bernstein samples per cubic or quadratic segment.
 *
 * The source indexes `tokens[i + 1]` without a bound check and unwraps every number parse;
 * both panics are the error outcome `Err(MissingOperand)` / `Err(BadNumber(token))` here.
 */
module PathInterpreter {
  import opened Wrappers
  import opened Strings
  import opened Geometry
  import opened PathLexer

  datatype PathError =
    | Stuck               // the tokenizer never terminates on this input
    | MissingOperand      // a `tokens[i + k]` read past the end
    | BadNumber(token: string)  // `parse::<f64>().unwrap()` on a token that is not a number

  /** Current point `(cx, cy)` and subpath start `(start_x, start_y)`. */
  datatype Pen = Pen(cur: Point, start: Point)

  const InitialPen: Pen := Pen(Origin, Origin)

  /** Where the cursor stands after a command, with the pen and every point pushed so far. */
  datatype Trace = Trace(next: nat, pen: Pen, points: seq<Point>)

  /** The `starts_with(digit | '-' | '.')` test that keeps a coordinate loop going. */
  predicate StartsNumeric(t: string) {
    t != [] && (IsAsciiDigit(t[0]) || t[0] == '-' || t[0] == '.')
  }

  /** `tokens[k].parse::<f64>().unwrap()`. */
  function Operand(tokens: seq<string>, k: nat): (r: Result<real, PathError>)
    ensures r.Ok? ==> k < |tokens| && ParseDecimal(tokens[k]) == Some(r.value)
    ensures k >= |tokens| <==> r == Err(MissingOperand)
  {
    if k >= |tokens| then Err(MissingOperand)
    else match ParseDecimal(tokens[k])
      case Some(v) => Ok(v)
      case None => Err(BadNumber(tokens[k]))
  }

  /** A coordinate pair: absolute, or an offset from the current point. */
  function Target(pen: Pen, rel: bool, x: real, y: real): Point {
    if rel then Point(pen.cur.x + x, pen.cur.y + y) else Point(x, y)
  }

  // ---------------------------------------------------------------- Bezier sampling

  function CubicAt(p0: Point, p1: Point, p2: Point, p3: Point, t: real): Point {
    var u := 1.0 - t;
    Point(u * u * u * p0.x + 3.0 * u * u * t * p1.x + 3.0 * u * t * t * p2.x + t * t * t * p3.x,
          u * u * u * p0.y + 3.0 * u * u * t * p1.y + 3.0 * u * t * t * p2.y + t * t * t * p3.y)
  }

  function QuadAt(p0: Point, p1: Point, p2: Point, t: real): Point {
    var u := 1.0 - t;
    Point(u * u * p0.x + 2.0 * u * t * p1.x + t * t * p2.x,
          u * u * p0.y + 2.0 * u * t * p1.y + t * t * p2.y)
  }

  const CurveSteps: nat := 8

  /** The samples at t = 1/8, 2/8, ..., 8/8. */
  function CubicSamples(p0: Point, p1: Point, p2: Point, p3: Point): seq<Point> {
    seq(CurveSteps, k requires 0 <= k < CurveSteps => CubicAt(p0, p1, p2, p3, (k + 1) as real / CurveSteps as real))
  }

  function QuadSamples(p0: Point, p1: Point, p2: Point): seq<Point> {
    seq(CurveSteps, k requires 0 <= k < CurveSteps => QuadAt(p0, p1, p2, (k + 1) as real / CurveSteps as real))
  }

  /** The flattened curve ends exactly at its endpoint. */
  lemma CurveSamplesEndAtEndpoint(p0: Point, p1: Point, p2: Point, p3: Point)
    ensures |CubicSamples(p0, p1, p2, p3)| == 8 && CubicSamples(p0, p1, p2, p3)[7] == p3
    ensures |QuadSamples(p0, p1, p3)| == 8 && QuadSamples(p0, p1, p3)[7] == p3
  {
    assert (7 + 1) as real / CurveSteps as real == 1.0;
  }

  /** `sample_cubic`: pushes the eight samples after the existing points. */
  method SampleCubic(points: seq<Point>, p0: Point, p1: Point, p2: Point, p3: Point)
    returns (out: seq<Point>)
    ensures out == points + CubicSamples(p0, p1, p2, p3)
  {
    out := points;
    for i := 1 to CurveSteps + 1
      invariant out == points + CubicSamples(p0, p1, p2, p3)[..i - 1]
    {
      var t := i as real / CurveSteps as real;
      out := out + [CubicAt(p0, p1, p2, p3, t)];
      assert CubicSamples(p0, p1, p2, p3)[..i] == CubicSamples(p0, p1, p2, p3)[..i - 1] + [CubicAt(p0, p1, p2, p3, t)];
    }
  }

  /** `sample_quad`: pushes the eight samples after the existing points. */
  method SampleQuad(points: seq<Point>, p0: Point, p1: Point, p2: Point) returns (out: seq<Point>)
    ensures out == points + QuadSamples(p0, p1, p2)
  {
    out := points;
    for i := 1 to CurveSteps + 1
      invariant out == points + QuadSamples(p0, p1, p2)[..i - 1]
    {
      var t := i as real / CurveSteps as real;
      out := out + [QuadAt(p0, p1, p2, t)];
      assert QuadSamples(p0, p1, p2)[..i] == QuadSamples(p0, p1, p2)[..i - 1] + [QuadAt(p0, p1, p2, t)];
    }
  }

  // ---------------------------------------------------------------- the commands

  /** The coordinate-pair loop of L/l and of the implicit line-tos after M/m. */
  function LineRun(tokens: seq<string>, i: nat, pen: Pen, points: seq<Point>, rel: bool): (r: Result<Trace, PathError>)
    requires i <= |tokens|
    ensures r.Ok? ==> i <= r.value.next <= |tokens| && r.value.pen.start == pen.start
    decreases |tokens| - i
  {
    if i < |tokens| && StartsNumeric(tokens[i]) then
      var x :- Operand(tokens, i);
      var y :- Operand(tokens, i + 1);
      var p := Target(pen, rel, x, y);
      LineRun(tokens, i + 2, pen.(cur := p), points + [p], rel)
    else Ok(Trace(i, pen, points))
  }

  /** M/m: a new subpath start, then implicit line-tos. */
  function MoveTo(tokens: seq<string>, i: nat, pen: Pen, points: seq<Point>, rel: bool): (r: Result<Trace, PathError>)
    requires i <= |tokens|
    ensures r.Ok? ==> i < r.value.next <= |tokens|
  {
    var x :- Operand(tokens, i);
    var y :- Operand(tokens, i + 1);
    var p := Target(pen, rel, x, y);
    LineRun(tokens, i + 2, Pen(p, p), points + [p], rel)
  }

  /** H/h (`horizontal`) or V/v: one number, one coordinate changed, one point. */
  function AxisTo(tokens: seq<string>, i: nat, pen: Pen, points: seq<Point>, rel: bool, horizontal: bool): (r: Result<Trace, PathError>)
    requires i <= |tokens|
    ensures r.Ok? ==> r.value.next == i + 1 <= |tokens|
  {
    var v :- Operand(tokens, i);
    var p := if horizontal then Point(if rel then pen.cur.x + v else v, pen.cur.y)
             else Point(pen.cur.x, if rel then pen.cur.y + v else v);
    Ok(Trace(i + 1, pen.(cur := p), points + [p]))
  }

  /** One parsed curve segment: its endpoint and the eight points that flatten it. */
  datatype Segment = Segment(endpoint: Point, samples: seq<Point>)

  /** Six operands from cursor `i`, offsets from the current point when `rel`, flattened. */
  function CubicSegment(tokens: seq<string>, i: nat, pen: Pen, rel: bool): (r: Result<Segment, PathError>)
    requires i + 5 < |tokens|
    ensures r.Ok? ==> |r.value.samples| == 8 && r.value.samples[7] == r.value.endpoint
  {
    var x1 :- Operand(tokens, i);
    var y1 :- Operand(tokens, i + 1);
    var x2 :- Operand(tokens, i + 2);
    var y2 :- Operand(tokens, i + 3);
    var x :- Operand(tokens, i + 4);
    var y :- Operand(tokens, i + 5);
    var c1, c2, e := Target(pen, rel, x1, y1), Target(pen, rel, x2, y2), Target(pen, rel, x, y);
    CurveSamplesEndAtEndpoint(pen.cur, c1, c2, e);
    Ok(Segment(e, CubicSamples(pen.cur, c1, c2, e)))
  }

  /** Four operands from cursor `i`, offsets from the current point when `rel`, flattened. */
  function QuadSegment(tokens: seq<string>, i: nat, pen: Pen, rel: bool): (r: Result<Segment, PathError>)
    requires i + 3 < |tokens|
    ensures r.Ok? ==> |r.value.samples| == 8 && r.value.samples[7] == r.value.endpoint
  {
    var x1 :- Operand(tokens, i);
    var y1 :- Operand(tokens, i + 1);
    var x :- Operand(tokens, i + 2);
    var y :- Operand(tokens, i + 3);
    var c1, e := Target(pen, rel, x1, y1), Target(pen, rel, x, y);
    CurveSamplesEndAtEndpoint(pen.cur, c1, pen.cur, e);
    Ok(Segment(e, QuadSamples(pen.cur, c1, e)))
  }

  /** C/c: while six tokens remain and the first looks numeric, one flattened cubic segment. */
  function CubicRun(tokens: seq<string>, i: nat, pen: Pen, points: seq<Point>, rel: bool): (r: Result<Trace, PathError>)
    requires i <= |tokens|
    ensures r.Ok? ==> i <= r.value.next <= |tokens| && r.value.pen.start == pen.start
    decreases |tokens| - i
  {
    if i + 5 < |tokens| && StartsNumeric(tokens[i]) then
      var seg :- CubicSegment(tokens, i, pen, rel);
      CubicRun(tokens, i + 6, pen.(cur := seg.endpoint), points + seg.samples, rel)
    else Ok(Trace(i, pen, points))
  }

  /** Q/q: while four tokens remain and the first looks numeric, one flattened quadratic segment. */
  function QuadRun(tokens: seq<string>, i: nat, pen: Pen, points: seq<Point>, rel: bool): (r: Result<Trace, PathError>)
    requires i <= |tokens|
    ensures r.Ok? ==> i <= r.value.next <= |tokens| && r.value.pen.start == pen.start
    decreases |tokens| - i
  {
    if i + 3 < |tokens| && StartsNumeric(tokens[i]) then
      var seg :- QuadSegment(tokens, i, pen, rel);
      QuadRun(tokens, i + 4, pen.(cur := seg.endpoint), points + seg.samples, rel)
    else Ok(Trace(i, pen, points))
  }

  /** Z/z: back to the subpath start, which is pushed. */
  function ClosePath(i: nat, pen: Pen, points: seq<Point>): Trace {
    Trace(i + 1, pen.(cur := pen.start), points + [pen.start])
  }

  /** One turn of the outer `while i < tokens.len()` loop: dispatch on `tokens[i]`. */
  function Command(tokens: seq<string>, i: nat, pen: Pen, points: seq<Point>): (r: Result<Trace, PathError>)
    requires i < |tokens|
    ensures r.Ok? ==> i < r.value.next <= |tokens|
  {
    var t := tokens[i];
    if t == "M" || t == "m" then MoveTo(tokens, i + 1, pen, points, t == "m")
    else if t == "L" || t == "l" then LineRun(tokens, i + 1, pen, points, t == "l")
    else if t == "H" || t == "h" then AxisTo(tokens, i + 1, pen, points, t == "h", true)
    else if t == "V" || t == "v" then AxisTo(tokens, i + 1, pen, points, t == "v", false)
    else if t == "C" || t == "c" then CubicRun(tokens, i + 1, pen, points, t == "c")
    else if t == "Q" || t == "q" then QuadRun(tokens, i + 1, pen, points, t == "q")
    else if t == "Z" || t == "z" then Ok(ClosePath(i, pen, points))
    else Ok(Trace(i + 1, pen, points))
  }

  /** The outer loop from cursor `i` to the end of the tokens. */
  function Run(tokens: seq<string>, i: nat, pen: Pen, points: seq<Point>): Result<seq<Point>, PathError>
    requires i <= |tokens|
    decreases |tokens| - i
  {
    if i == |tokens| then Ok(points)
    else
      var step :- Command(tokens, i, pen, points);
      Run(tokens, step.next, step.pen, step.points)
  }

  /** `points_of_svg_path`: tokenize, then interpret from (0, 0). */
  function PointsOfPath(path: string): Result<seq<Point>, PathError> {
    match Tokenize(path)
    case None => Err(Stuck)
    case Some(tokens) => Run(tokens, 0, InitialPen, [])
  }

  // ---------------------------------------------------------------- the imperative interpreter

  /** `points_of_svg_path`, with one turn of its outer loop in `Step`. */
  method PointsOfSvgPath(path: string) returns (r: Result<seq<Point>, PathError>)
    requires AllConsumable(path)
    ensures r == PointsOfPath(path)
  {
    var tokens := TokenizeSvgPath(path);
    var points: seq<Point> := [];
    var cx, cy, startX, startY := 0.0, 0.0, 0.0, 0.0;
    var i := 0;
    while i < |tokens|
      invariant i <= |tokens|
      invariant Run(tokens, i, Pen(Point(cx, cy), Point(startX, startY)), points) == Run(tokens, 0, InitialPen, [])
      decreases |tokens| - i
    {
      var step :- Step(tokens, i, Pen(Point(cx, cy), Point(startX, startY)), points);
      i := step.next;
      cx, cy, startX, startY := step.pen.cur.x, step.pen.cur.y, step.pen.start.x, step.pen.start.y;
      points := step.points;
    }
    r := Ok(points);
  }

  /** The `match tokens[i]` of the outer loop. */
  method Step(tokens: seq<string>, i: nat, pen: Pen, points: seq<Point>) returns (r: Result<Trace, PathError>)
    requires i < |tokens|
    ensures r == Command(tokens, i, pen, points)
  {
    var t := tokens[i];
    if t == "M" || t == "m" {
      r := MoveToLoop(tokens, i + 1, pen, points, t == "m");
    } else if t == "L" || t == "l" {
      r := LineToLoop(tokens, i + 1, pen, points, t == "l");
    } else if t == "H" || t == "h" || t == "V" || t == "v" {
      var v :- Operand(tokens, i + 1);
      var cx, cy := pen.cur.x, pen.cur.y;
      if t == "H" || t == "h" {
        cx := if t == "h" then cx + v else v;
      } else {
        cy := if t == "v" then cy + v else v;
      }
      r := Ok(Trace(i + 2, pen.(cur := Point(cx, cy)), points + [Point(cx, cy)]));
    } else if t == "C" || t == "c" {
      r := CurveToLoop(tokens, i + 1, pen, points, t == "c");
    } else if t == "Q" || t == "q" {
      r := QuadToLoop(tokens, i + 1, pen, points, t == "q");
    } else if t == "Z" || t == "z" {
      r := Ok(Trace(i + 1, pen.(cur := pen.start), points + [pen.start]));
    } else {
      r := Ok(Trace(i + 1, pen, points));
    }
  }

  /** The `"M"`/`"m"` arm: two operands, a new subpath start, then implicit line-tos. */
  method MoveToLoop(tokens: seq<string>, i: nat, pen: Pen, points: seq<Point>, rel: bool)
    returns (r: Result<Trace, PathError>)
    requires i <= |tokens|
    ensures r == MoveTo(tokens, i, pen, points, rel)
  {
    var x :- Operand(tokens, i);
    var y :- Operand(tokens, i + 1);
    var p := Target(pen, rel, x, y);
    r := LineToLoop(tokens, i + 2, Pen(p, p), points + [p], rel);
  }

  /** The coordinate-pair `while` loop of the `"L"`/`"l"` arm and of the implicit line-tos. */
  method LineToLoop(tokens: seq<string>, i0: nat, pen: Pen, points0: seq<Point>, rel: bool)
    returns (r: Result<Trace, PathError>)
    requires i0 <= |tokens|
    ensures r == LineRun(tokens, i0, pen, points0, rel)
  {
    var i, cx, cy, points := i0, pen.cur.x, pen.cur.y, points0;
    while i < |tokens| && StartsNumeric(tokens[i])
      invariant i0 <= i <= |tokens|
      invariant LineRun(tokens, i, Pen(Point(cx, cy), pen.start), points, rel) == LineRun(tokens, i0, pen, points0, rel)
    {
      ghost var here := Pen(Point(cx, cy), pen.start);
      LineRunStep(tokens, i, here, points, rel);
      var x :- Operand(tokens, i);
      var y :- Operand(tokens, i + 1);
      if rel {
        cx, cy := cx + x, cy + y;
      } else {
        cx, cy := x, y;
      }
      assert here.(cur := Point(cx, cy)) == Pen(Point(cx, cy), pen.start);
      assert Point(cx, cy) == Target(here, rel, x, y);
      points := points + [Point(cx, cy)];
      i := i + 2;
    }
    LineRunStop(tokens, i, Pen(Point(cx, cy), pen.start), points, rel);
    r := Ok(Trace(i, Pen(Point(cx, cy), pen.start), points));
  }

  lemma LineRunStop(tokens: seq<string>, i: nat, pen: Pen, points: seq<Point>, rel: bool)
    requires i <= |tokens| && !(i < |tokens| && StartsNumeric(tokens[i]))
    ensures LineRun(tokens, i, pen, points, rel) == Ok(Trace(i, pen, points))
  {
  }

  /** One turn of the coordinate-pair loop: an operand error ends the run, a pair is pushed. */
  lemma LineRunStep(tokens: seq<string>, i: nat, pen: Pen, points: seq<Point>, rel: bool)
    requires i < |tokens| && StartsNumeric(tokens[i])
    ensures Operand(tokens, i).Err? ==> LineRun(tokens, i, pen, points, rel) == Err(Operand(tokens, i).error)
    ensures Operand(tokens, i).Ok? && Operand(tokens, i + 1).Err?
        ==> LineRun(tokens, i, pen, points, rel) == Err(Operand(tokens, i + 1).error)
    ensures Operand(tokens, i).Ok? && Operand(tokens, i + 1).Ok?
        ==> var p := Target(pen, rel, Operand(tokens, i).value, Operand(tokens, i + 1).value);
            LineRun(tokens, i, pen, points, rel) == LineRun(tokens, i + 2, pen.(cur := p), points + [p], rel)
  {
  }

  /** The segment loop of the `"C"`/`"c"` arm. */
  method CurveToLoop(tokens: seq<string>, i0: nat, pen: Pen, points0: seq<Point>, rel: bool)
    returns (r: Result<Trace, PathError>)
    requires i0 <= |tokens|
    ensures r == CubicRun(tokens, i0, pen, points0, rel)
  {
    var i, cur, points := i0, pen.cur, points0;
    while i + 5 < |tokens| && StartsNumeric(tokens[i])
      invariant i0 <= i <= |tokens|
      invariant CubicRun(tokens, i, Pen(cur, pen.start), points, rel) == CubicRun(tokens, i0, pen, points0, rel)
    {
      var here := Pen(cur, pen.start);
      var x1 :- Operand(tokens, i);
      var y1 :- Operand(tokens, i + 1);
      var x2 :- Operand(tokens, i + 2);
      var y2 :- Operand(tokens, i + 3);
      var x :- Operand(tokens, i + 4);
      var y :- Operand(tokens, i + 5);
      var e := Target(here, rel, x, y);
      points := SampleCubic(points, cur, Target(here, rel, x1, y1), Target(here, rel, x2, y2), e);
      cur := e;
      i := i + 6;
    }
    r := Ok(Trace(i, Pen(cur, pen.start), points));
  }

  /** The segment loop of the `"Q"`/`"q"` arm. */
  method QuadToLoop(tokens: seq<string>, i0: nat, pen: Pen, points0: seq<Point>, rel: bool)
    returns (r: Result<Trace, PathError>)
    requires i0 <= |tokens|
    ensures r == QuadRun(tokens, i0, pen, points0, rel)
  {
    var i, cur, points := i0, pen.cur, points0;
    while i + 3 < |tokens| && StartsNumeric(tokens[i])
      invariant i0 <= i <= |tokens|
      invariant QuadRun(tokens, i, Pen(cur, pen.start), points, rel) == QuadRun(tokens, i0, pen, points0, rel)
    {
      var here := Pen(cur, pen.start);
      var x1 :- Operand(tokens, i);
      var y1 :- Operand(tokens, i + 1);
      var x :- Operand(tokens, i + 2);
      var y :- Operand(tokens, i + 3);
      var e := Target(here, rel, x, y);
      points := SampleQuad(points, cur, Target(here, rel, x1, y1), e);
      cur := e;
      i := i + 4;
    }
    r := Ok(Trace(i, Pen(cur, pen.start), points));
  }

  // ---------------------------------------------------------------- properties

  /** The tokens the outer loop dispatches on; every other token is skipped. */
  const CommandLetters: set<string> := {"M", "m", "L", "l", "H", "h", "V", "v", "C", "c", "Q", "q", "Z", "z"}

  predicate IsStray(t: string) {
    t !in CommandLetters
  }

  /** Every token in `tokens[i..j]` is stray. */
  predicate AllStray(tokens: seq<string>, i: nat, j: nat)
    requires i <= j <= |tokens|
    decreases j - i
  {
    i == j || (IsStray(tokens[i]) && AllStray(tokens, i + 1, j))
  }

  lemma {:induction false} AllStrayMeans(tokens: seq<string>, i: nat, j: nat)
    requires i <= j <= |tokens|
    ensures AllStray(tokens, i, j) <==> forall k :: i <= k < j ==> IsStray(tokens[k])
    decreases j - i
  {
    if i < j {
      AllStrayMeans(tokens, i + 1, j);
    }
  }

  /** A run of tokens that are not command letters (stray numbers, unknown letters) changes nothing. */
  lemma {:induction false} StrayTokensAreSkipped(tokens: seq<string>, i: nat, j: nat, pen: Pen, points: seq<Point>)
    requires i <= j <= |tokens|
    requires AllStray(tokens, i, j)
    ensures Run(tokens, i, pen, points) == Run(tokens, j, pen, points)
    decreases j - i
  {
    if i < j {
      StrayTokensAreSkipped(tokens, i + 1, j, pen, points);
      SkipBefore(tokens, i, j, pen, points);
    }
  }

  /** A token that is not a command letter only moves the cursor. */
  lemma SkipOne(tokens: seq<string>, i: nat, pen: Pen, points: seq<Point>)
    requires i < |tokens| && IsStray(tokens[i])
    ensures Run(tokens, i, pen, points) == Run(tokens, i + 1, pen, points)
  {
    SkipCommand(tokens, i, pen, points);
  }

  lemma SkipBefore(tokens: seq<string>, i: nat, j: nat, pen: Pen, points: seq<Point>)
    requires i < j <= |tokens| && IsStray(tokens[i])
    requires Run(tokens, i + 1, pen, points) == Run(tokens, j, pen, points)
    ensures Run(tokens, i, pen, points) == Run(tokens, j, pen, points)
  {
    SkipOne(tokens, i, pen, points);
  }

  lemma SkipCommand(tokens: seq<string>, i: nat, pen: Pen, points: seq<Point>)
    requires i < |tokens| && tokens[i] !in CommandLetters
    ensures Command(tokens, i, pen, points) == Ok(Trace(i + 1, pen, points))
  {
  }

  /** The current point is the last point pushed. */
  predicate PenOnLastPoint(t: Trace) {
    |t.points| > 0 && t.pen.cur == t.points[|t.points| - 1]
  }

  /** A coordinate-pair loop pushes one point per pair, and the last one pushed is the current point. */
  lemma {:induction false} LineRunShape(tokens: seq<string>, i: nat, pen: Pen, points: seq<Point>, rel: bool)
    returns (n: nat)
    requires i <= |tokens| && LineRun(tokens, i, pen, points, rel).Ok?
    ensures var t := LineRun(tokens, i, pen, points, rel).value;
      && t.next == i + 2 * n
      && |t.points| == |points| + n
      && t.points[..|points|] == points
      && (t.next == i ==> t.pen == pen)
      && (t.next > i ==> PenOnLastPoint(t))
    decreases |tokens| - i
  {
    n := 0;
    if i < |tokens| && StartsNumeric(tokens[i]) {
      var x := Operand(tokens, i).value;
      var y := Operand(tokens, i + 1).value;
      var p := Target(pen, rel, x, y);
      var m := LineRunShape(tokens, i + 2, pen.(cur := p), points + [p], rel);
      n := m + 1;
      assert (points + [p])[..|points|] == points;
    }
  }

  /** A cubic run pushes eight points per six operands and ends on the last segment's endpoint. */
  lemma {:induction false} CubicRunShape(tokens: seq<string>, i: nat, pen: Pen, points: seq<Point>, rel: bool)
    returns (n: nat)
    requires i <= |tokens| && CubicRun(tokens, i, pen, points, rel).Ok?
    ensures var t := CubicRun(tokens, i, pen, points, rel).value;
      && t.next == i + 6 * n
      && |t.points| == |points| + 8 * n
      && t.points[..|points|] == points
      && (t.next == i ==> t.pen == pen)
      && (t.next > i ==> PenOnLastPoint(t))
    decreases |tokens| - i
  {
    n := 0;
    if i + 5 < |tokens| && StartsNumeric(tokens[i]) {
      var seg := CubicSegment(tokens, i, pen, rel).value;
      assert CubicSegment(tokens, i, pen, rel).Ok?;
      var later := points + seg.samples;
      var m := CubicRunShape(tokens, i + 6, pen.(cur := seg.endpoint), later, rel);
      n := m + 1;
      var t := CubicRun(tokens, i + 6, pen.(cur := seg.endpoint), later, rel).value;
      assert CubicRun(tokens, i, pen, points, rel).value == t;
      assert later[..|points|] == points;
      assert t.points[..|points|] == t.points[..|later|][..|points|];
      if m == 0 {
        assert t.points == later;
        assert later[|later| - 1] == seg.samples[7];
        assert t.pen.cur == seg.endpoint;
        assert PenOnLastPoint(t);
      }
    }
  }

  /** A quadratic run pushes eight points per four operands and ends on the last segment's endpoint. */
  lemma {:induction false} QuadRunShape(tokens: seq<string>, i: nat, pen: Pen, points: seq<Point>, rel: bool)
    returns (n: nat)
    requires i <= |tokens| && QuadRun(tokens, i, pen, points, rel).Ok?
    ensures var t := QuadRun(tokens, i, pen, points, rel).value;
      && t.next == i + 4 * n
      && |t.points| == |points| + 8 * n
      && t.points[..|points|] == points
      && (t.next == i ==> t.pen == pen)
      && (t.next > i ==> PenOnLastPoint(t))
    decreases |tokens| - i
  {
    n := 0;
    if i + 3 < |tokens| && StartsNumeric(tokens[i]) {
      var seg := QuadSegment(tokens, i, pen, rel).value;
      assert QuadSegment(tokens, i, pen, rel).Ok?;
      var later := points + seg.samples;
      var m := QuadRunShape(tokens, i + 4, pen.(cur := seg.endpoint), later, rel);
      n := m + 1;
      var t := QuadRun(tokens, i + 4, pen.(cur := seg.endpoint), later, rel).value;
      assert QuadRun(tokens, i, pen, points, rel).value == t;
      assert later[..|points|] == points;
      assert t.points[..|points|] == t.points[..|later|][..|points|];
      if m == 0 {
        assert t.points == later;
        assert later[|later| - 1] == seg.samples[7];
        assert t.pen.cur == seg.endpoint;
        assert PenOnLastPoint(t);
      }
    }
  }

  /**
   * A relative cubic segment takes all three of its offsets from the current point before the
   * command, not from the previous control point.
   */
  lemma RelativeCubicFromCurrentPoint(tokens: seq<string>, i: nat, pen: Pen, d1: Point, d2: Point, d: Point)
    requires i + 5 < |tokens|
    requires ParseDecimal(tokens[i]) == Some(d1.x) && ParseDecimal(tokens[i + 1]) == Some(d1.y)
    requires ParseDecimal(tokens[i + 2]) == Some(d2.x) && ParseDecimal(tokens[i + 3]) == Some(d2.y)
    requires ParseDecimal(tokens[i + 4]) == Some(d.x) && ParseDecimal(tokens[i + 5]) == Some(d.y)
    ensures CubicSegment(tokens, i, pen, true)
         == Ok(Segment(Add(pen.cur, d), CubicSamples(pen.cur, Add(pen.cur, d1), Add(pen.cur, d2), Add(pen.cur, d))))
  {
  }

  /** A relative quadratic segment takes its control point and endpoint from the current point. */
  lemma RelativeQuadFromCurrentPoint(tokens: seq<string>, i: nat, pen: Pen, d1: Point, d: Point)
    requires i + 3 < |tokens|
    requires ParseDecimal(tokens[i]) == Some(d1.x) && ParseDecimal(tokens[i + 1]) == Some(d1.y)
    requires ParseDecimal(tokens[i + 2]) == Some(d.x) && ParseDecimal(tokens[i + 3]) == Some(d.y)
    ensures QuadSegment(tokens, i, pen, true)
         == Ok(Segment(Add(pen.cur, d), QuadSamples(pen.cur, Add(pen.cur, d1), Add(pen.cur, d))))
  {
  }

  /**
   * One relative pair of l (or of the implicit line-tos after m) lands on the current point plus
   * its offset, which becomes the current point for the next pair.
   */
  lemma RelativePairFromCurrentPoint(tokens: seq<string>, i: nat, pen: Pen, points: seq<Point>, d: Point)
    requires i + 1 < |tokens| && StartsNumeric(tokens[i])
    requires ParseDecimal(tokens[i]) == Some(d.x) && ParseDecimal(tokens[i + 1]) == Some(d.y)
    ensures LineRun(tokens, i, pen, points, true)
         == LineRun(tokens, i + 2, pen.(cur := Add(pen.cur, d)), points + [Add(pen.cur, d)], true)
  {
  }

  /**
   * A relative m lands on the current point plus its offset, which becomes both the current point
   * and the subpath start for the implicit line-tos that follow.
   */
  lemma RelativeMoveFromCurrentPoint(tokens: seq<string>, i: nat, pen: Pen, points: seq<Point>, d: Point)
    requires i + 1 < |tokens|
    requires ParseDecimal(tokens[i]) == Some(d.x) && ParseDecimal(tokens[i + 1]) == Some(d.y)
    ensures MoveTo(tokens, i, pen, points, true)
         == LineRun(tokens, i + 2, Pen(Add(pen.cur, d), Add(pen.cur, d)), points + [Add(pen.cur, d)], true)
  {
  }

  /** H/h change only x, V/v change only y, and each pushes the new current point. */
  lemma AxisMovesOneCoordinate(tokens: seq<string>, i: nat, pen: Pen, points: seq<Point>, rel: bool, horizontal: bool)
    requires i <= |tokens| && AxisTo(tokens, i, pen, points, rel, horizontal).Ok?
    ensures var t := AxisTo(tokens, i, pen, points, rel, horizontal).value;
      var v := ParseDecimal(tokens[i]).value;
      && t.points == points + [t.pen.cur]
      && t.pen.start == pen.start
      && (horizontal ==> t.pen.cur == Point(if rel then pen.cur.x + v else v, pen.cur.y))
      && (!horizontal ==> t.pen.cur == Point(pen.cur.x, if rel then pen.cur.y + v else v))
  {
  }

  /**
   * Only M/m set the subpath start, to the first point they push; Z/z pushes that start and
   * makes it the current point.
   */
  lemma SubpathStart(tokens: seq<string>, i: nat, pen: Pen, points: seq<Point>)
    requires i < |tokens| && Command(tokens, i, pen, points).Ok?
    ensures var t := Command(tokens, i, pen, points).value;
      && (tokens[i] == "M" || tokens[i] == "m" ==> |t.points| > |points| && t.pen.start == t.points[|points|])
      && (tokens[i] != "M" && tokens[i] != "m" ==> t.pen.start == pen.start)
      && (tokens[i] == "Z" || tokens[i] == "z" ==> t.pen.cur == pen.start && t.points == points + [pen.start])
  {
    var t := tokens[i];
    if t == "M" || t == "m" {
      MoveToShape(tokens, i + 1, pen, points, t == "m");
    } else if t == "L" || t == "l" {
      assert Command(tokens, i, pen, points) == LineRun(tokens, i + 1, pen, points, t == "l");
    } else if t == "C" || t == "c" {
      assert Command(tokens, i, pen, points) == CubicRun(tokens, i + 1, pen, points, t == "c");
    } else if t == "Q" || t == "q" {
      assert Command(tokens, i, pen, points) == QuadRun(tokens, i + 1, pen, points, t == "q");
    }
  }

  /** A moveto pushes its point first and makes it the subpath start; earlier points stay. */
  lemma MoveToShape(tokens: seq<string>, i: nat, pen: Pen, points: seq<Point>, rel: bool)
    requires i <= |tokens| && MoveTo(tokens, i, pen, points, rel).Ok?
    ensures var t := MoveTo(tokens, i, pen, points, rel).value;
      |t.points| > |points| && t.pen.start == t.points[|points|] && t.points[..|points|] == points
  {
    var p := Target(pen, rel, Operand(tokens, i).value, Operand(tokens, i + 1).value);
    var later := points + [p];
    assert MoveTo(tokens, i, pen, points, rel) == LineRun(tokens, i + 2, Pen(p, p), later, rel);
    var _ := LineRunShape(tokens, i + 2, Pen(p, p), later, rel);
    var t := LineRun(tokens, i + 2, Pen(p, p), later, rel).value;
    assert t.points[..|later|] == later;
    assert t.points[|points|] == later[|points|] == p;
    assert t.points[..|points|] == later[..|points|] == points;
  }

  /** The outer loop only ever appends: earlier points are never rewritten. */
  lemma {:induction false} RunExtends(tokens: seq<string>, i: nat, pen: Pen, points: seq<Point>)
    requires i <= |tokens| && Run(tokens, i, pen, points).Ok?
    ensures |Run(tokens, i, pen, points).value| >= |points|
    ensures Run(tokens, i, pen, points).value[..|points|] == points
    decreases |tokens| - i
  {
    if i < |tokens| {
      var step := Command(tokens, i, pen, points).value;
      CommandExtends(tokens, i, pen, points);
      RunExtends(tokens, step.next, step.pen, step.points);
      assert step.points[..|points|] == points;
      var out := Run(tokens, i, pen, points).value;
      assert out[..|step.points|][..|points|] == out[..|points|];
    }
  }

  lemma CommandExtends(tokens: seq<string>, i: nat, pen: Pen, points: seq<Point>)
    requires i < |tokens| && Command(tokens, i, pen, points).Ok?
    ensures |Command(tokens, i, pen, points).value.points| >= |points|
    ensures Command(tokens, i, pen, points).value.points[..|points|] == points
  {
    var t := tokens[i];
    if t == "M" || t == "m" {
      MoveToShape(tokens, i + 1, pen, points, t == "m");
    } else if t == "L" || t == "l" {
      var _ := LineRunShape(tokens, i + 1, pen, points, t == "l");
    } else if t == "C" || t == "c" {
      var _ := CubicRunShape(tokens, i + 1, pen, points, t == "c");
    } else if t == "Q" || t == "q" {
      var _ := QuadRunShape(tokens, i + 1, pen, points, t == "q");
    } else {
      assert points[..|points|] == points;
    }
  }

  /** The outer loop goes on from wherever a turn leaves the cursor. */
  lemma RunStep(tokens: seq<string>, i: nat, pen: Pen, points: seq<Point>, t: Trace)
    requires i < |tokens| && Command(tokens, i, pen, points) == Ok(t)
    ensures t.next <= |tokens| && Run(tokens, i, pen, points) == Run(tokens, t.next, t.pen, t.points)
  {
  }

  /** `M x y` or `L x y` followed by a command letter (or the end) pushes exactly `(x, y)`. */
  lemma StepOverPair(tokens: seq<string>, j: nat, pen: Pen, points: seq<Point>, c: char, p: Point)
    requires j + 2 < |tokens| && tokens[j] == [c] && (c == 'M' || c == 'L')
    requires StartsNumeric(tokens[j + 1])
    requires ParseDecimal(tokens[j + 1]) == Some(p.x) && ParseDecimal(tokens[j + 2]) == Some(p.y)
    requires j + 3 == |tokens| || !StartsNumeric(tokens[j + 3])
    ensures Command(tokens, j, pen, points)
         == Ok(Trace(j + 3, if c == 'M' then Pen(p, p) else pen.(cur := p), points + [p]))
  {
    assert Operand(tokens, j + 1) == Ok(p.x);
    assert Operand(tokens, j + 2) == Ok(p.y);
    var after := if c == 'M' then Pen(p, p) else pen.(cur := p);
    assert LineRun(tokens, j + 3, after, points + [p], false) == Ok(Trace(j + 3, after, points + [p]));
    if c == 'M' {
      assert tokens[j] == "M";
    } else {
      assert tokens[j] == "L";
      assert LineRun(tokens, j + 1, pen, points, false) == LineRun(tokens, j + 3, after, points + [p], false);
    }
  }
}
