/**
 * `svg_path_of_contour` (src/canvas.rs, copied verbatim into src/svg.rs): a contour becomes
 * `"M x y L x y ..."`, with a fresh `M` wherever a step is longer than five times the mean
 * step, so that separate strokes of a glyph are not joined by a line.
 *
 * Two things the source computes with floating point are parameters here: `fmt`, the `{}`
 * formatting of an f64, and `dist`, the Euclidean distance `sqrt(dx^2 + dy^2)`.
 */
module PathWriter {
  import opened Wrappers
  import opened Strings
  import opened Geometry
  import opened PathLexer
  import opened PathInterpreter

  /** Sum of the step lengths `dist(p[i-1], p[i])` for i in 1..|pts|. */
  function SumDist(pts: seq<Point>, dist: (Point, Point) -> real): real
    decreases |pts|
  {
    if |pts| < 2 then 0.0 else SumDist(pts[..|pts| - 1], dist) + dist(pts[|pts| - 2], pts[|pts| - 1])
  }

  /**
   * Five times the mean step. With one point the source divides 0 by 0 (NaN), but then no
   * step is ever compared with it; the model uses 0 there.
   */
  function JumpThreshold(pts: seq<Point>, dist: (Point, Point) -> real): real {
    if |pts| < 2 then 0.0 else SumDist(pts, dist) / (|pts| - 1) as real * 5.0
  }

  /** The command letter of point `i`. */
  function CommandChar(pts: seq<Point>, i: nat, dist: (Point, Point) -> real): char
    requires i < |pts|
  {
    if i == 0 || dist(pts[i - 1], pts[i]) > JumpThreshold(pts, dist) then 'M' else 'L'
  }

  function Commands(pts: seq<Point>, dist: (Point, Point) -> real): (r: seq<char>)
    ensures |r| == |pts|
  {
    seq(|pts|, i requires 0 <= i < |pts| => CommandChar(pts, i, dist))
  }

  /** `format!("{cmd} {} {}", x, y)`. */
  function Part(cmd: char, p: Point, fmt: real -> string): string {
    [cmd] + " " + fmt(p.x) + " " + fmt(p.y)
  }

  function Parts(cmds: seq<char>, pts: seq<Point>, fmt: real -> string): (r: seq<string>)
    requires |cmds| == |pts|
    ensures |r| == |pts|
  {
    seq(|pts|, i requires 0 <= i < |pts| => Part(cmds[i], pts[i], fmt))
  }

  /** The path text: empty for an empty contour, else the parts joined with single spaces. */
  function ContourPath(pts: seq<Point>, fmt: real -> string, dist: (Point, Point) -> real): string {
    if pts == [] then "" else Join(Parts(Commands(pts, dist), pts, fmt), " ")
  }

  /** `svg_path_of_contour`: the step-length loop, then the parts loop. */
  method SvgPathOfContour(points: seq<Point>, fmt: real -> string, dist: (Point, Point) -> real)
    returns (path: string)
    ensures path == ContourPath(points, fmt, dist)
    ensures path == [] <==> points == []
  {
    if |points| == 0 {
      return "";
    }
    var total := 0.0;
    for i := 1 to |points|
      invariant total == SumDist(points[..i], dist)
    {
      assert points[..i + 1][..i] == points[..i];
      total := total + dist(points[i - 1], points[i]);
    }
    assert points[..|points|] == points;
    var threshold := if |points| < 2 then 0.0 else total / (|points| - 1) as real * 5.0;
    assert threshold == JumpThreshold(points, dist);
    ghost var expected := Parts(Commands(points, dist), points, fmt);
    PartAt(points, fmt, dist, 0);
    var parts := [Part('M', points[0], fmt)];
    for i := 1 to |points|
      invariant parts == expected[..i]
    {
      var d := dist(points[i - 1], points[i]);
      PartStep(points, fmt, dist, i, threshold);
      if d > threshold {
        parts := parts + [Part('M', points[i], fmt)];
      } else {
        parts := parts + [Part('L', points[i], fmt)];
      }
    }
    assert expected[..|points|] == expected;
    path := Join(parts, " ");
    JoinNonEmpty(parts, " ");
  }

  lemma PartAt(pts: seq<Point>, fmt: real -> string, dist: (Point, Point) -> real, i: nat)
    requires i < |pts|
    ensures Parts(Commands(pts, dist), pts, fmt)[i] == Part(CommandChar(pts, i, dist), pts[i], fmt)
  {
  }

  /** Turn i of the parts loop appends part i, an `M` exactly after a long step. */
  lemma PartStep(pts: seq<Point>, fmt: real -> string, dist: (Point, Point) -> real, i: nat, threshold: real)
    requires 1 <= i < |pts| && threshold == JumpThreshold(pts, dist)
    ensures var expected := Parts(Commands(pts, dist), pts, fmt);
      expected[..i + 1] == expected[..i]
        + [Part(if dist(pts[i - 1], pts[i]) > threshold then 'M' else 'L', pts[i], fmt)]
  {
    var expected := Parts(Commands(pts, dist), pts, fmt);
    PartAt(pts, fmt, dist, i);
    TakeSnoc(expected, i);
  }

  lemma {:induction false} JoinNonEmpty(parts: seq<string>, sep: string)
    requires parts != [] && parts[0] != []
    ensures Join(parts, sep) != []
  {
  }

  // ---------------------------------------------------------------- what the path lexes to

  /** The token stream a path is meant to lex to: three tokens per point. */
  function Triples(cmds: seq<char>, pts: seq<Point>, fmt: real -> string): (r: seq<string>)
    requires |cmds| == |pts|
    ensures |r| == 3 * |pts|
    decreases |pts|
  {
    if pts == [] then [] else [[cmds[0]], fmt(pts[0].x), fmt(pts[0].y)] + Triples(cmds[1..], pts[1..], fmt)
  }

  lemma {:induction false} TriplesIndex(cmds: seq<char>, pts: seq<Point>, fmt: real -> string, k: nat)
    requires |cmds| == |pts| && k < |pts|
    ensures Triples(cmds, pts, fmt)[3 * k] == [cmds[k]]
    ensures Triples(cmds, pts, fmt)[3 * k + 1] == fmt(pts[k].x)
    ensures Triples(cmds, pts, fmt)[3 * k + 2] == fmt(pts[k].y)
    decreases k
  {
    if k > 0 {
      TriplesIndex(cmds[1..], pts[1..], fmt, k - 1);
    }
  }

  /** `fmt` writes `v` as a number token that reads back as `v` (true of `{}` on finite f64). */
  predicate ReadsBack(fmt: real -> string, v: real) {
    IsNumberToken(fmt(v)) && ParseDecimal(fmt(v)) == Some(v)
  }

  predicate AllReadBack(fmt: real -> string, pts: seq<Point>) {
    forall i :: 0 <= i < |pts| ==> ReadsBack(fmt, pts[i].x) && ReadsBack(fmt, pts[i].y)
  }

  predicate AllCommandLetters(cmds: seq<char>) {
    forall i :: 0 <= i < |cmds| ==> cmds[i] == 'M' || cmds[i] == 'L'
  }

  /** One part lexes to its three tokens; the text after it must start with a separator. */
  lemma TokenizePart(cmd: char, p: Point, fmt: real -> string, rest: string)
    requires IsAlphabetic(cmd) && IsNumberToken(fmt(p.x)) && IsNumberToken(fmt(p.y))
    requires rest == [] || IsSeparator(rest[0])
    ensures Tokenize(Part(cmd, p, fmt) + rest) == Cons([cmd], Cons(fmt(p.x), Cons(fmt(p.y), Tokenize(rest))))
  {
    var x, y := fmt(p.x), fmt(p.y);
    var r0 := y + rest;
    var r1 := [' '] + r0;
    var r2 := x + r1;
    var r3 := [' '] + r2;
    PartShape(cmd, p, fmt, rest);
    TokenizeNumber(y, rest);
    TokenizeSeparator(' ', r0);
    TokenizeNumber(x, r1);
    TokenizeSeparator(' ', r2);
    TokenizeLetter(cmd, r3);
  }

  lemma PartShape(cmd: char, p: Point, fmt: real -> string, rest: string)
    ensures Part(cmd, p, fmt) + rest == [cmd] + ([' '] + (fmt(p.x) + ([' '] + (fmt(p.y) + rest))))
  {
  }

  lemma ConsTriple(a: string, b: string, c: string, ts: seq<string>)
    ensures Cons(a, Cons(b, Cons(c, Some(ts)))) == Some([a, b, c] + ts)
  {
    assert [a] + ([b] + ([c] + ts)) == [a, b, c] + ts;
  }

  /** The joined parts lex to the triples, in order. */
  lemma {:induction false} TokenizeParts(cmds: seq<char>, pts: seq<Point>, fmt: real -> string)
    requires |cmds| == |pts| && pts != []
    requires AllCommandLetters(cmds) && AllReadBack(fmt, pts)
    ensures Tokenize(Join(Parts(cmds, pts, fmt), " ")) == Some(Triples(cmds, pts, fmt))
    decreases |pts|
  {
    var parts := Parts(cmds, pts, fmt);
    assert parts[0] == Part(cmds[0], pts[0], fmt);
    assert ReadsBack(fmt, pts[0].x) && ReadsBack(fmt, pts[0].y);
    if |pts| == 1 {
      LastPartTokens(cmds[0], pts[0], fmt);
      assert Join(parts, " ") == parts[0];
      assert Triples(cmds[1..], pts[1..], fmt) == [];
      var three := [[cmds[0]], fmt(pts[0].x), fmt(pts[0].y)];
      assert three + [] == three;
      assert Triples(cmds, pts, fmt) == three;
      assert Tokenize(Join(parts, " ")) == Some(three);
    } else {
      TailFacts(cmds, pts, fmt);
      TokenizeParts(cmds[1..], pts[1..], fmt);
      var tail := Join(parts[1..], " ");
      assert Join(parts, " ") == parts[0] + (" " + tail);
      PartTokens(cmds[0], pts[0], fmt, tail, Triples(cmds[1..], pts[1..], fmt));
    }
  }

  lemma TailFacts(cmds: seq<char>, pts: seq<Point>, fmt: real -> string)
    requires |cmds| == |pts| && pts != []
    requires AllCommandLetters(cmds) && AllReadBack(fmt, pts)
    ensures AllCommandLetters(cmds[1..]) && AllReadBack(fmt, pts[1..])
    ensures Parts(cmds, pts, fmt)[1..] == Parts(cmds[1..], pts[1..], fmt)
  {
    forall i | 0 <= i < |pts| - 1
      ensures cmds[1..][i] == 'M' || cmds[1..][i] == 'L'
    {
      assert cmds[1..][i] == cmds[i + 1];
    }
    forall i | 0 <= i < |pts| - 1
      ensures ReadsBack(fmt, pts[1..][i].x) && ReadsBack(fmt, pts[1..][i].y)
    {
      assert pts[1..][i] == pts[i + 1];
    }
    PartsTail(cmds, pts, fmt);
  }

  lemma PartsTail(cmds: seq<char>, pts: seq<Point>, fmt: real -> string)
    requires |cmds| == |pts| && pts != []
    ensures Parts(cmds, pts, fmt)[1..] == Parts(cmds[1..], pts[1..], fmt)
  {
    var a, b := Parts(cmds, pts, fmt)[1..], Parts(cmds[1..], pts[1..], fmt);
    forall i | 0 <= i < |pts| - 1
      ensures a[i] == b[i]
    {
      assert a[i] == Part(cmds[i + 1], pts[i + 1], fmt);
    }
  }

  /** A part on its own lexes to its three tokens. */
  lemma LastPartTokens(c: char, p: Point, fmt: real -> string)
    requires IsAlphabetic(c) && IsNumberToken(fmt(p.x)) && IsNumberToken(fmt(p.y))
    ensures Tokenize(Part(c, p, fmt)) == Some([[c], fmt(p.x), fmt(p.y)])
  {
    TokenizePart(c, p, fmt, []);
    assert Part(c, p, fmt) + [] == Part(c, p, fmt);
    ConsTriple([c], fmt(p.x), fmt(p.y), []);
    var three := [[c], fmt(p.x), fmt(p.y)];
    assert three + [] == three;
  }

  /** A part, a space and a tail lexing to ts lex to the part's three tokens, then ts. */
  lemma PartTokens(c: char, p: Point, fmt: real -> string, tail: string, ts: seq<string>)
    requires IsAlphabetic(c) && IsNumberToken(fmt(p.x)) && IsNumberToken(fmt(p.y))
    requires Tokenize(tail) == Some(ts)
    ensures Tokenize(Part(c, p, fmt) + (" " + tail)) == Some([[c], fmt(p.x), fmt(p.y)] + ts)
  {
    TokenizePart(c, p, fmt, " " + tail);
    assert " " + tail == [' '] + tail;
    TokenizeSeparator(' ', tail);
    ConsTriple([c], fmt(p.x), fmt(p.y), ts);
  }

  // ---------------------------------------------------------------- the round trip

  /** Token `3j` is the command `c` and tokens `3j+1`, `3j+2` are numbers reading as `p`. */
  predicate TripleAt(tokens: seq<string>, j: nat, c: char, p: Point) {
    && 3 * j + 2 < |tokens|
    && tokens[3 * j] == [c] && (c == 'M' || c == 'L')
    && StartsNumeric(tokens[3 * j + 1])
    && ParseDecimal(tokens[3 * j + 1]) == Some(p.x) && ParseDecimal(tokens[3 * j + 2]) == Some(p.y)
  }

  /** From the k-th triple on, the interpreter gives back the remaining points. */
  lemma {:induction false} RunTriples(tokens: seq<string>, cmds: seq<char>, pts: seq<Point>, k: nat, pen: Pen)
    requires |cmds| == |pts| && k <= |pts| && |tokens| == 3 * |pts|
    requires forall j :: 0 <= j < |pts| ==> TripleAt(tokens, j, cmds[j], pts[j])
    ensures Run(tokens, 3 * k, pen, pts[..k]) == Ok(pts)
    decreases |pts| - k
  {
    if k == |pts| {
      assert pts[..k] == pts;
    } else {
      var p := pts[k];
      RunTriples(tokens, cmds, pts, k + 1, if cmds[k] == 'M' then Pen(p, p) else pen.(cur := p));
      assert TripleAt(tokens, k, cmds[k], p);
      if k + 1 < |pts| {
        assert TripleAt(tokens, k + 1, cmds[k + 1], pts[k + 1]);
      }
      TripleStep(tokens, cmds, pts, k, pen);
    }
  }

  /** Triple k pushes point k and leaves the cursor on the next triple. */
  lemma TripleStep(tokens: seq<string>, cmds: seq<char>, pts: seq<Point>, k: nat, pen: Pen)
    requires |cmds| == |pts| && k < |pts| && |tokens| == 3 * |pts|
    requires TripleAt(tokens, k, cmds[k], pts[k])
    requires k + 1 < |pts| ==> TripleAt(tokens, k + 1, cmds[k + 1], pts[k + 1])
    requires Run(tokens, 3 * (k + 1), if cmds[k] == 'M' then Pen(pts[k], pts[k]) else pen.(cur := pts[k]), pts[..k + 1]) == Ok(pts)
    ensures Run(tokens, 3 * k, pen, pts[..k]) == Ok(pts)
  {
    var p := pts[k];
    if k + 1 < |pts| {
      assert !StartsNumeric(tokens[3 * (k + 1)]);
    }
    StepOverPair(tokens, 3 * k, pen, pts[..k], cmds[k], p);
    TakeSnoc(pts, k);
    RunStep(tokens, 3 * k, pen, pts[..k], Trace(3 * (k + 1), if cmds[k] == 'M' then Pen(p, p) else pen.(cur := p), pts[..k + 1]));
  }

  lemma TakeSnoc<T>(s: seq<T>, i: nat)
    requires i < |s|
    ensures s[..i + 1] == s[..i] + [s[i]]
  {
  }

  lemma TriplesAreTriples(cmds: seq<char>, pts: seq<Point>, fmt: real -> string)
    requires |cmds| == |pts| && AllCommandLetters(cmds) && AllReadBack(fmt, pts)
    ensures forall j :: 0 <= j < |pts| ==> TripleAt(Triples(cmds, pts, fmt), j, cmds[j], pts[j])
  {
    forall j | 0 <= j < |pts|
      ensures TripleAt(Triples(cmds, pts, fmt), j, cmds[j], pts[j])
    {
      TriplesIndex(cmds, pts, fmt, j);
      assert ReadsBack(fmt, pts[j].x) && ReadsBack(fmt, pts[j].y);
      NumberTokenStartsNumeric(fmt(pts[j].x));
    }
  }

  lemma NumberTokenStartsNumeric(t: string)
    requires IsNumberToken(t)
    ensures StartsNumeric(t)
  {
    if t[0] != '-' {
      assert IsNumChar(t[0]);
    }
  }

  /**
   * Reading a written contour back gives the same points, whenever the number formatting
   * reads back (no NaN or infinity, no rounding).
   */
  lemma ContourPathRoundTrip(pts: seq<Point>, fmt: real -> string, dist: (Point, Point) -> real)
    requires AllReadBack(fmt, pts)
    ensures PointsOfPath(ContourPath(pts, fmt, dist)) == Ok(pts)
  {
    if pts != [] {
      var cmds := Commands(pts, dist);
      TokenizeParts(cmds, pts, fmt);
      TriplesAreTriples(cmds, pts, fmt);
      RunTriples(Triples(cmds, pts, fmt), cmds, pts, 0, InitialPen);
      assert pts[..0] == [];
    }
  }

  /**
   * The written path lexes to `M|L, x, y` per point, and the letter is `M` exactly for the
   * first point and after a step longer than five times the mean step.
   */
  lemma ContourPathTokens(pts: seq<Point>, fmt: real -> string, dist: (Point, Point) -> real, i: nat)
    requires AllReadBack(fmt, pts) && i < |pts|
    ensures Tokenize(ContourPath(pts, fmt, dist)).Some?
    ensures var tokens := Tokenize(ContourPath(pts, fmt, dist)).value;
      && |tokens| == 3 * |pts|
      && (tokens[3 * i] == "M" <==> i == 0 || dist(pts[i - 1], pts[i]) > 5.0 * (SumDist(pts, dist) / (|pts| - 1) as real))
      && (tokens[3 * i] == "M" || tokens[3 * i] == "L")
      && tokens[3 * i + 1] == fmt(pts[i].x) && tokens[3 * i + 2] == fmt(pts[i].y)
  {
    var cmds := Commands(pts, dist);
    TokenizeParts(cmds, pts, fmt);
    TriplesIndex(cmds, pts, fmt, i);
  }

  /** The square of the unit tests: `M 0 0 L 1 0 L 1 1 L 0 0`. */
  lemma SquareContour(fmt: real -> string, dist: (Point, Point) -> real)
    requires fmt(0.0) == "0" && fmt(1.0) == "1"
    requires dist(Point(0.0, 0.0), Point(1.0, 0.0)) == 1.0 && dist(Point(1.0, 0.0), Point(1.0, 1.0)) == 1.0
    requires 0.0 <= dist(Point(1.0, 1.0), Point(0.0, 0.0)) <= 2.0
    ensures ContourPath([Point(0.0, 0.0), Point(1.0, 0.0), Point(1.0, 1.0), Point(0.0, 0.0)], fmt, dist)
         == "M 0 0 L 1 0 L 1 1 L 0 0"
  {
    var pts := [Point(0.0, 0.0), Point(1.0, 0.0), Point(1.0, 1.0), Point(0.0, 0.0)];
    SquareCommands(dist);
    var parts := Parts(['M', 'L', 'L', 'L'], pts, fmt);
    assert parts[0] == "M 0 0" && parts[1] == "L 1 0" && parts[2] == "L 1 1" && parts[3] == "L 0 0";
    assert parts == ["M 0 0", "L 1 0", "L 1 1", "L 0 0"];
    JoinFour("M 0 0", "L 1 0", "L 1 1", "L 0 0");
    SquareText();
    assert ContourPath(pts, fmt, dist) == Join(parts, " ");
  }

  lemma SquareText()
    ensures "M 0 0" + " " + "L 1 0" + " " + "L 1 1" + " " + "L 0 0" == "M 0 0 L 1 0 L 1 1 L 0 0"
  {
  }

  /** No step of the square is longer than five times the mean, so only the first letter is M. */
  lemma SquareCommands(dist: (Point, Point) -> real)
    requires dist(Point(0.0, 0.0), Point(1.0, 0.0)) == 1.0 && dist(Point(1.0, 0.0), Point(1.0, 1.0)) == 1.0
    requires 0.0 <= dist(Point(1.0, 1.0), Point(0.0, 0.0)) <= 2.0
    ensures Commands([Point(0.0, 0.0), Point(1.0, 0.0), Point(1.0, 1.0), Point(0.0, 0.0)], dist) == ['M', 'L', 'L', 'L']
  {
    var pts := [Point(0.0, 0.0), Point(1.0, 0.0), Point(1.0, 1.0), Point(0.0, 0.0)];
    var s := dist(Point(1.0, 1.0), Point(0.0, 0.0));
    assert pts[..3][..2] == pts[..2] && pts[..2][..1] == pts[..1];
    assert SumDist(pts[..2], dist) == 1.0;
    assert SumDist(pts[..3], dist) == 2.0;
    assert pts[..3] == pts[..|pts| - 1];
    assert SumDist(pts, dist) == 2.0 + s;
    assert JumpThreshold(pts, dist) >= 3.0;
  }

  /** What `sqrt` guarantees of the source's distance: it is never negative. */
  ghost predicate NonNegDist(dist: (Point, Point) -> real) {
    forall a: Point, b: Point :: dist(a, b) >= 0.0
  }

  /**
   * A two-point contour is one stroke: its only step is the whole mean, never more than five
   * times it, so the letters are M then L.
   */
  lemma TwoPointsMoveThenLine(p: Point, q: Point, dist: (Point, Point) -> real)
    requires NonNegDist(dist)
    ensures Commands([p, q], dist) == ['M', 'L']
  {
    var pts := [p, q];
    var d := dist(p, q);
    assert pts[..1] == [p];
    assert SumDist(pts, dist) == d;
    assert JumpThreshold(pts, dist) == d * 5.0;
    assert d >= 0.0;
    assert CommandChar(pts, 1, dist) == 'L';
    assert Commands(pts, dist)[0] == 'M';
  }

  lemma JoinFour(a: string, b: string, c: string, d: string)
    ensures Join([a, b, c, d], " ") == a + " " + b + " " + c + " " + d
  {
    assert [c, d][1..] == [d];
    assert Join([c, d], " ") == c + " " + d;
    assert [b, c, d][1..] == [c, d];
    assert Join([b, c, d], " ") == b + " " + (c + " " + d);
    assert [a, b, c, d][1..] == [b, c, d];
    assert Join([a, b, c, d], " ") == a + " " + (b + " " + (c + " " + d));
  }
}
