# circles — a Dafny model of the contour, path and schedule logic

`circles` turns a drawing into epicycles. A contour is a list of points, read from an SVG
path or from glyph outlines. It is resampled, decomposed into discrete Fourier coefficients,
and written into an HTML page that animates the circles. This project models the sequential
logic underneath, in sixteen modules:

- **PathLexer**: `tokenize_svg_path` (src/canvas.rs). The peekable tokenizer becomes a
  method whose loop is proved against a specification function `Tokenize`. `Tokenize` returns
  `None` exactly on the inputs where the Rust loop never ends.
- **PathInterpreter**: `points_of_svg_path`, `sample_cubic` and `sample_quad`. It walks the
  tokens with a cursor, a current point and a subpath start. Each command and each
  coordinate loop is a method proved equal to a function of the token sequence. The
  unchecked `tokens[i + k]` reads and the `unwrap`s are the error outcomes `MissingOperand`
  and `BadNumber`.
- **PathWriter**: `svg_path_of_contour`, and its round trip through the tokenizer and the
  interpreter.
- **ContourModel**, **Fourier**: src/model.rs. The piecewise-linear contour function, the
  offset decorator, `interpolate`, and the frequency list, coefficient loops, stable sort
  and evaluation of `fourier_decomposition`.
- **Viewport**: the bounding box and square viewBox of `compute_params`.
- **StepsText**, **RangeSchedule**, **ThresholdSchedule**: the `steps_str` printers, the
  page scripts' `parseStepsStr`, and the two generations of `rebuildNhSteps` with their
  embed-page twins. These are the page-side classes `NhSchedule` and `ThresholdPage`.
- **Visibility**, **PageInterp**, **Html**: `getShowMode`/`shouldShow`, the embed page's
  congruence test, `getNumHarmonics`, the SVG page's `interp`, and `html_escape`.
- **Sketch**: the CLI helpers of src/bin/circles-sketch.rs. These are the recorded command
  line, `flip_y`, the sizing rule, the text stem and the `d="..."` extraction of `load_svg`.
- **Strings**, **Geometry**, **Wrappers**: shared definitions of `split`, `trim`, `join`,
  `replace`, number printing and parsing, points, and `Option`/`Result`.

src/svg.rs repeats lines 14-301 of src/canvas.rs verbatim (the path code). It also has the
same viewport code (lines 366-395) and the same `shouldShow`, with `remainders` for
`congruents`. The model states these once. The table cites src/canvas.rs for them.

Coordinates and JavaScript numbers are `real`. Floating-point formatting (`fmt`), the
Euclidean distance (`dist`) and sine/cosine (`Trig`) are parameters of the functions that
need them, so every result holds for any choice of them. Number parsing is concrete
(`Strings.ParseDecimal`), and it is exact on every token the tokenizer can produce.

## Model

| member | source | states |
|---|---|---|
| PathLexer.TokenizeSvgPath | src/canvas.rs:238-268 | On an input of consumable characters, the imperative tokenizer returns exactly the tokens of `Tokenize`. |
| PathLexer.ScanNumber | src/canvas.rs:248-261 | The number scan takes one optional leading '-' and then the maximal run of digits and '.'. The text it collects is exactly `path[k..j]`. |
| PathLexer.NumRunChars | src/canvas.rs:254-261 | Every character in the run is a digit or '.', and the character that ends the run is not. |
| PathLexer.NumRun | src/canvas.rs:254-261 | The digit/'.' run never exceeds the input. |
| PathLexer.NumberEnd | src/canvas.rs:248-261 | A number scan started on '-' or a numeric character consumes at least one character and stays within the input. |
| PathLexer.NumberEndAt | src/canvas.rs:249-261 | The scan takes the leading '-' if there is one, and then the maximal digit/'.' run. |
| PathLexer.TerminatesIffConsumable | src/canvas.rs:241-266 | The tokenizer terminates exactly when every character is whitespace, ',', alphabetic, '-', a digit or '.'. Any other character is peeked forever. |
| PathLexer.TokenShapes | src/canvas.rs:244-264 | Every token is either one alphabetic character or a non-empty run of digits and '.' with at most one leading '-'. A lone "-" is never a token. |
| PathLexer.NumberTokenChars | src/canvas.rs:242-264 | A number token contains no separator and no letter. |
| PathLexer.TokensInInputOrder | src/canvas.rs:241-266 | The concatenated tokens are a subsequence of the input, so the tokens appear in input order. |
| PathLexer.LettersBecomeTokens | src/canvas.rs:244-246 | The letter tokens, in order, are exactly the alphabetic characters of the input. |
| PathLexer.NumberHasNoLetters | src/canvas.rs:248-264 | Scanning a number skips no letter. |
| PathLexer.StepSeparator | src/canvas.rs:242-243 | Whitespace and ',' are consumed and add no token. |
| PathLexer.StepLetter | src/canvas.rs:244-246 | An alphabetic character becomes a one-character token. |
| PathLexer.StepNumber | src/canvas.rs:247-265 | A number is pushed unless it is the lone "-". |
| PathLexer.TokenizeNumber | src/canvas.rs:248-264 | A number token followed by a separator or by the end is read back as exactly that token. |
| PathInterpreter.Operand | src/canvas.rs:56-57 | `tokens[k].parse().unwrap()`: past the end it is `MissingOperand`. Otherwise it is the parsed value, or `BadNumber`. |
| PathInterpreter.LineRun | src/canvas.rs:96-121 | A successful coordinate loop moves the cursor forward within the tokens and keeps the subpath start. What each pair pushes is stated by `StepOverPair` (absolute) and `RelativePairFromCurrentPoint` (relative). |
| PathInterpreter.MoveTo | src/canvas.rs:55-95 | A successful moveto consumes at least its letter and stays within the tokens. Where a relative m lands is stated by `RelativeMoveFromCurrentPoint`. |
| PathInterpreter.AxisTo | src/canvas.rs:122-149 | H/h/V/v consume exactly their one operand. |
| PathInterpreter.CubicSegment | src/canvas.rs:150-193 | A parsed cubic segment has 8 samples, the last equal to its endpoint. |
| PathInterpreter.QuadSegment | src/canvas.rs:194-223 | A parsed quadratic segment has 8 samples, the last equal to its endpoint. The relative form is stated by `RelativeQuadFromCurrentPoint`. |
| PathInterpreter.CubicRun | src/canvas.rs:150-193 | A successful C/c loop moves forward within the tokens and keeps the subpath start. |
| PathInterpreter.QuadRun | src/canvas.rs:194-223 | A successful Q/q loop moves forward within the tokens and keeps the subpath start. |
| PathInterpreter.Command | src/canvas.rs:54-233 | Every successful command advances the cursor by at least one token, so the outer loop progresses. |
| PathInterpreter.CurveSamplesEndAtEndpoint | src/canvas.rs:271-301 | Each Bézier flattening gives exactly 8 samples, and the last one is the segment's endpoint. |
| PathInterpreter.SampleCubic | src/canvas.rs:271-290 | The sample loop appends the 8 cubic Bernstein samples at t = 1/8 … 8/8 after the existing points. |
| PathInterpreter.SampleQuad | src/canvas.rs:292-301 | The same for the quadratic curve. |
| PathInterpreter.PointsOfSvgPath | src/canvas.rs:44-236 | On a terminating input, the interpreter loop returns exactly `PointsOfPath`: the points, or the first missing or malformed operand. |
| PathInterpreter.Step | src/canvas.rs:54-233 | One dispatch of the `match` equals the `Command` function. |
| PathInterpreter.MoveToLoop | src/canvas.rs:55-95 | M/m and the implicit line-to pairs that follow it equal `MoveTo`. |
| PathInterpreter.LineToLoop | src/canvas.rs:96-121 | The L/l coordinate loop equals `LineRun`. |
| PathInterpreter.CurveToLoop | src/canvas.rs:150-193 | The C/c loop, which runs while six tokens remain and the next looks numeric, equals `CubicRun`. |
| PathInterpreter.QuadToLoop | src/canvas.rs:194-223 | The Q/q loop, with four tokens, equals `QuadRun`. |
| PathInterpreter.LineRunShape | src/canvas.rs:96-121 | After n pairs, the cursor has moved 2n tokens and exactly n points were appended after the old ones. The pen then stands on the last point, or is unchanged when n = 0. |
| PathInterpreter.CubicRunShape | src/canvas.rs:150-193 | Each C/c segment consumes 6 tokens and appends exactly 8 points. The old points are kept and the pen ends on the last sample. |
| PathInterpreter.QuadRunShape | src/canvas.rs:194-223 | Each Q/q segment consumes 4 tokens and appends exactly 8 points, with the same guarantees. |
| PathInterpreter.RelativeCubicFromCurrentPoint | src/canvas.rs:167-192 | The control points and endpoint of `c` are offsets from the current point before the command. |
| PathInterpreter.RelativeQuadFromCurrentPoint | src/canvas.rs:194-223 | A relative q segment has its control point and endpoint at the current point plus their offsets, and is flattened from the current point. |
| PathInterpreter.RelativePairFromCurrentPoint | src/canvas.rs:96-121 | A relative pair of l, or of the implicit line-tos after m, pushes the current point plus its offset and makes it the current point for the rest of the loop. |
| PathInterpreter.RelativeMoveFromCurrentPoint | src/canvas.rs:55-95 | A relative m lands on the current point plus its offset, which becomes the current point and the subpath start before the implicit line-tos. |
| PathInterpreter.AxisMovesOneCoordinate | src/canvas.rs:122-149 | H/h changes only x and V/v changes only y, each by one operand. One point is appended and the subpath start is kept. |
| PathInterpreter.SubpathStart | src/canvas.rs:49-83 | M/m sets the subpath start to the point it pushes. No other command changes it. Z/z moves to the start and appends it. |
| PathInterpreter.MoveToShape | src/canvas.rs:55-95 | A moveto appends at least one point, keeps the old ones, and its first new point is the new start. |
| PathInterpreter.StrayTokensAreSkipped | src/canvas.rs:230-232 | Interpreting from the start of a run of tokens that are not command letters gives the same result as from its end. |
| PathInterpreter.AllStrayMeans | src/canvas.rs:230-232 | The recursive "all stray" test is equivalent to its quantified form. |
| PathInterpreter.SkipOne | src/canvas.rs:230-232 | One unrecognised token is skipped. |
| PathInterpreter.SkipCommand | src/canvas.rs:230-232 | An unrecognised token only advances the cursor by one. |
| PathInterpreter.RunExtends | src/canvas.rs:44-236 | The interpreter only appends: the final points start with the points it was given. |
| PathInterpreter.CommandExtends | src/canvas.rs:54-233 | Every single command only appends points. |
| PathInterpreter.StepOverPair | src/canvas.rs:55-108 | "M x y" or "L x y" followed by a non-numeric token pushes exactly (x, y). M also resets the start. |
| PathWriter.SvgPathOfContour | src/canvas.rs:14-42 | The mean-distance loop and the parts loop return exactly `ContourPath`. The text is empty exactly when the contour is. |
| PathWriter.Commands | src/canvas.rs:28-40 | There is one command letter per point. |
| PathWriter.Parts | src/canvas.rs:28-41 | There is one part per point. |
| PathWriter.Triples | src/canvas.rs:28-41 | The expected tokens are three per point. |
| PathWriter.TriplesIndex | src/canvas.rs:28-41 | Token 3k is point k's letter, and tokens 3k+1 and 3k+2 are its formatted x and y. |
| PathWriter.PartStep | src/canvas.rs:31-40 | Point i > 0 gets "M" when its step exceeds five times the mean step, and "L" otherwise. |
| PathWriter.ContourPathTokens | src/canvas.rs:14-42 | The text tokenizes into three tokens per point. The first letter is M. A later point's letter is M exactly when its distance to its predecessor exceeds 5 × the mean step, and L otherwise. The two coordinates follow. |
| PathWriter.ContourPathRoundTrip | src/canvas.rs:14-236 | When the formatted coordinates read back as numbers, interpreting the written path gives back exactly the contour. |
| PathWriter.TokenizeParts | src/canvas.rs:41 | The parts joined with single spaces tokenize to the command/x/y triples. |
| PathWriter.RunTriples | src/canvas.rs:55-121 | Interpreting the triples M/L x y pushes exactly the contour's points. |
| PathWriter.TripleStep | src/canvas.rs:55-121 | One triple pushes one point and hands the rest to the next triple. |
| PathWriter.SquareContour | src/canvas.rs:14-42 | The unit square (0,0),(1,0),(1,1),(0,0) gives "M 0 0 L 1 0 L 1 1 L 0 0". |
| PathWriter.SquareCommands | src/canvas.rs:31-40 | The square's steps never exceed the jump threshold, so its commands are M, L, L, L. |
| PathWriter.TwoPointsMoveThenLine | src/canvas.rs:19-40 | With a distance that is never negative, as `sqrt` is, a two-point contour always gets the letters M then L. |
| ContourModel.Clamp01 | src/model.rs:53 | `t.clamp(0, 1)` lies in [0, 1] and keeps any t already there. |
| ContourModel.Scaled | src/model.rs:53-54 | The scaled parameter lies in [0, n-1]. |
| ContourModel.WithOffset | src/model.rs:5-14 | `with_offset` wraps the inner function and leaves it unchanged. |
| ContourModel.OffsetTranslates | src/model.rs:23-31 | The decorated function is exactly inner.x(t) + dx and inner.y(t) + dy. |
| ContourModel.OffsetsCompose | src/model.rs:5-31 | Two offsets act as one offset by their sum. |
| ContourModel.FewPointsAreConstant | src/model.rs:46-52 | With no points f(t) = (0, 0) for every t. With one point it is that point. |
| ContourModel.ClampedEnds | src/model.rs:53-58 | For t ≤ 0 it is the first point, and for t ≥ 1 the last. |
| ContourModel.AtNode | src/model.rs:53-60 | f(k/(n-1)) is exactly points[k]. |
| ContourModel.BetweenNodes | src/model.rs:54-60 | Between nodes i and i+1, f is the combination of points[i] and points[i+1] with frac in [0, 1). |
| ContourModel.UnfoldPolylineAt | src/model.rs:53-60 | For t in [0, 1], the floor of t·(n-1) selects the segment, or the last point when the floor reaches n-1. |
| ContourModel.Interpolate | src/model.rs:88-97 | `interpolate(c, n)` has exactly n points. n = 1 divides by zero and is excluded. |
| ContourModel.InterpolateKeepsEnds | src/model.rs:88-97 | For n ≥ 2, the first and last samples are the contour's first and last points. |
| ContourModel.InterpolateOwnCount | src/model.rs:88-97 | Resampling at the contour's own point count gives the contour back. |
| Fourier.RadiusSq | src/model.rs:110-112 | The squared radius, which the model compares in place of `radius` (same order), is non-negative. |
| Fourier.Frequencies | src/model.rs:142-147 | The frequency list has 2K+1 entries. |
| Fourier.FrequencyPositions | src/model.rs:143-147 | It starts with 0, and k and -k sit at positions 2k-1 and 2k. |
| Fourier.FrequenciesOnceEach | src/model.rs:142-147 | Every integer in [-K, K] occurs exactly once, and nothing else occurs. |
| Fourier.Coefficient | src/model.rs:149-163 | Each coefficient carries its frequency. |
| Fourier.CoefficientsFollowFrequencies | src/model.rs:149-163 | Before sorting, the coefficients' frequencies are the frequency list, in order. |
| Fourier.FreqsOf | src/model.rs:149-163 | There is one frequency per coefficient. Which frequencies they are is stated by `SortFreqs` and `OneCoefficientPerFrequency`. |
| Fourier.ZeroFrequencySums | src/model.rs:150-159 | With cos 0 = 1 and sin 0 = 0, the frequency-0 sums are the coordinate sums. |
| Fourier.DcTermIsCentroid | src/model.rs:149-163 | The frequency-0 coefficient is the centroid (mean x, mean y). |
| Fourier.FourierDecomposition | src/model.rs:133-169 | The frequency loop, the nested accumulation loops and the sort return exactly `Decomposition`: 2K+1 coefficients. |
| Fourier.DecompositionIsSortedPermutation | src/model.rs:165-166 | The result is sorted by non-increasing radius and is a permutation of the computed coefficients. |
| Fourier.OneCoefficientPerFrequency | src/model.rs:142-166 | The result holds exactly one coefficient per frequency in [-K, K]. |
| Fourier.SortDesc | src/model.rs:166 | The sort keeps the length and the multiset of coefficients. |
| Fourier.SortDescSorted | src/model.rs:166 | The sort is ordered by non-increasing radius. |
| Fourier.SortIsStable | src/model.rs:166 | The sort is stable: coefficients of equal radius keep their generation order. |
| Fourier.InsertPermutes | src/model.rs:166 | One insertion step adds exactly the inserted coefficient. |
| Fourier.Insert | src/model.rs:166 | An insertion adds exactly one coefficient. Its contents and order are stated by `InsertPermutes`, `InsertSorted` and `InsertKeepsTies`. |
| Fourier.InsertSorted | src/model.rs:166 | Inserting into a sorted list keeps it sorted. |
| Fourier.InsertKeepsTies | src/model.rs:166 | An insertion puts the new coefficient in front of the coefficients of equal radius. Those come later in generation order, so ties keep that order. |
| Fourier.WithRadiusMembers | src/model.rs:166 | The coefficients of a given radius are members with that radius. |
| Fourier.SortFreqs | src/model.rs:166 | The sort keeps the multiset of frequencies. |
| Fourier.Eval | src/model.rs:120-130 | The accumulation loop of `eval` returns the sum of every coefficient's rotating term. |
| Fourier.SortKeepsSum | src/model.rs:120-166 | The order of the coefficients does not change the evaluated point. |
| Fourier.EvalSumCons | src/model.rs:124-128 | The sum of the terms splits off its first term. |
| Viewport.BoundingBox | src/canvas.rs:366-388 | The min/max loop, started from the `f64::MAX`/`f64::MIN` sentinels, returns `BoundsOf`: the default box without points, and the box of all points otherwise. |
| Viewport.BoxOfContains | src/canvas.rs:373-386 | Every point seen is inside the box. |
| Viewport.BoxOfAttained | src/canvas.rs:373-386 | For finite points, each bound of the box is attained by some point. |
| Viewport.ViewBoxGeometry | src/canvas.rs:389-395 | The view is a square of side 1.2 × the larger extent. It has the box's centre and contains the box. |
| Viewport.ViewContainsPoints | src/canvas.rs:366-395 | Every point of the contour lies inside the viewBox. |
| Viewport.EmptyViewBox | src/canvas.rs:366-367 | No points give the viewBox -10 -10 120 120. |
| Visibility.JsRem | src/canvas.rs:602 | On a loop index ≥ 0, `loopIdx % modulo` is the remainder by \|modulo\|. A zero modulo gives NaN. |
| Visibility.Periodic | src/canvas.rs:599-603 | `shouldShow` in "every" mode is periodic with period \|modulo\|. |
| Visibility.OnlyResidueMatters | src/canvas.rs:599-603 | Its result depends only on loopIdx mod modulo. |
| Visibility.EveryThirdHidden | src/canvas.rs:599-603 | With modulo 3 and congruents [0, 1], exactly the loops ≡ 2 (mod 3) are hidden. |
| Visibility.GetShowMode | src/canvas.rs:588-597 | "always" and "never" are chosen exactly by their option. "every" always has a non-zero modulo (`parseInt(M) \|\| 2`) and at least one congruent. |
| Visibility.ParsedInts | src/canvas.rs:593 | Pieces that do not parse are dropped, so there are at most as many integers as pieces. |
| Visibility.NatStrings | src/canvas.rs:467-471 | Each printed congruent is a non-empty string of digits. |
| Visibility.FormatJsArrayRoundTrip | src/canvas.rs:4-7 | The array literal that `format_js_array` writes into the embed page evaluates to exactly the configured residues, in order, including the empty list. |
| Visibility.SplitNatList | src/canvas.rs:467-471 | Splitting the printed list on ',' gives back the printed numbers. |
| Visibility.ParsedNatStrings | src/canvas.rs:593 | `parseInt` reads every printed number back. |
| Visibility.CongruentsRoundTrip | src/canvas.rs:456-486 | The congruents written into the page's input are read back by `getShowMode` unchanged, the empty list included. |
| Visibility.PageMatchesEmbed | src/canvas.rs:1029-1051 | For a modulo ≥ 1 and at least one residue, the page's `shouldShow`, reading its fields back, decides as the embed page's `[...].includes(loopIndex % m)` does. Without residues they differ (`Visibility.EmptyCongruentsDiffer`). |
| Visibility.ZeroModulo | src/canvas.rs:592 | With a zero modulo the page falls back to 2, while the embed test never shows. |
| Visibility.EmptyCongruentsDiffer | src/canvas.rs:593-594 | With no residues, the page falls back to [0] and shows exactly the loops divisible by the modulo, while the embed page's `[].includes(...)` never shows. |
| Visibility.NumHarmonicsShown | src/canvas.rs:795-798 | `getNumHarmonics` is 0 without coefficients. Otherwise it is clamped into [1, count]: below 1 it is 1, above the count it is the count, and an in-range value is kept. |
| PageInterp.JsInterp | src/svg.rs:985-996 | With n = 0, `interp` gives (0, 0). With n = 1, it gives points[0]. |
| PageInterp.InterpMatchesContour | src/svg.rs:985-996 | For t in [0, 1], the script's `interp` equals the contour function of src/model.rs. |
| PageInterp.NegativeThrows | src/svg.rs:989-993 | A negative t on two or more points makes the index negative, so the script throws. |
| PageInterp.ExtrapolatesPastOne | src/svg.rs:989-995 | Past 1 the last segment is extended: on [a, b] at t = 2 the result is 2b - a. |
| Html.EscapeChar | src/canvas.rs:494-499 | The four special characters become entities starting with '&' and ending with ';'. Every other character is kept. |
| Html.EscapeInOnePass | src/canvas.rs:494-499 | Because '&' is replaced first, the four `replace` passes equal one character-by-character escape. |
| Html.OneChar | src/canvas.rs:494-499 | A single character comes out as its entity: later passes never touch an entity. |
| Html.HtmlEscapeAppend | src/canvas.rs:494-499 | Escaping distributes over concatenation. |
| Html.NoMarkupLeft | src/canvas.rs:494-499 | The escaped text has no '<', '>' or '"'. |
| Html.UnescapeEscape | src/canvas.rs:494-499 | Decoding the four entities gives back the original text. |
| Html.UnescapeChar | src/canvas.rs:494-499 | Each escaped character decodes to itself. |
| StepsText.SplitWs | src/canvas.rs:836 | `split(/\s+/)` always gives at least one piece. The pieces themselves are stated by `SplitWsCons` and `GroupsOfJoin`. |
| StepsText.SplitWsCons | src/canvas.rs:836 | One space after a word without spaces cuts it off. |
| StepsText.DropEmpty | src/canvas.rs:833 | The filter leaves only non-empty groups. |
| StepsText.TrimEach | src/canvas.rs:833 | Trimming keeps one group per piece. |
| StepsText.TrimmedPieces | src/canvas.rs:833 | Splitting " ; "-joined clean groups on ';' and trimming gives the groups back. |
| StepsText.GroupsOfJoin | src/canvas.rs:833 | The groups of `texts.join(" ; ")` are the texts themselves. |
| StepsText.JsNumberOfNat | src/canvas.rs:836 | `Number` reads back a printed integer. |
| StepsText.Min | src/canvas.rs:826 | `Math.min` is at most each argument and equal to one of them. |
| RangeSchedule.ParseRange | src/canvas.rs:836-839 | Only a group of exactly four pieces can be a range. |
| RangeSchedule.ParseRanges | src/canvas.rs:835-840 | Each group gives at most one range. |
| RangeSchedule.AllToJs | src/canvas.rs:1005-1013 | The embed page gets one JavaScript range per configured range. |
| RangeSchedule.RangeTexts | src/canvas.rs:417-422 | `steps_str` prints one group per range. |
| RangeSchedule.ParseRangesOfTexts | src/canvas.rs:832-842 | Parsing the printed groups gives the configured ranges, in order. |
| RangeSchedule.RangeTextParses | src/canvas.rs:417-422 | A printed range "from step to speed" parses back to its four numbers. |
| RangeSchedule.RangeTextIsClean | src/canvas.rs:420 | A printed range is a non-blank group with no ';' and no surrounding space. |
| RangeSchedule.StepsStrRoundTrip | src/canvas.rs:832-842 | `parseStepsStr(steps_str)` recovers the configured ranges, when every speed prints as a number. |
| RangeSchedule.FirstCoveringIsFirst | src/canvas.rs:852-854 | The speed and step come from the first range with from ≤ i < to. There is none when no range covers i. |
| RangeSchedule.FirstCovering | src/canvas.rs:852-854 | A found covering range is a valid index, at or after the search start. |
| RangeSchedule.FirstGap | src/canvas.rs:864-866 | A found gap has a following range. |
| RangeSchedule.FirstGapIsFirst | src/canvas.rs:864-866 | The jump target is the first k with ranges[k].to ≤ i < ranges[k+1].from. There is none when no gap holds i. |
| RangeSchedule.FindCovering | src/canvas.rs:852-854 | The search loop returns the first covering range. |
| RangeSchedule.FindGap | src/canvas.rs:864-866 | The search loop returns the first gap. |
| RangeSchedule.MaxNh | src/canvas.rs:826 | Without coefficients `maxNh` is 1. With them it equals the harmonic limit or the coefficient count, and is at most both. It is at least 1 exactly when the limit is at least 1 or there are no coefficients. |
| RangeSchedule.LoopShape | src/canvas.rs:850-869 | The loop appends equal numbers of steps and speeds, at most 10000 in all, each ≤ maxNh. The last is maxNh when the exit is via `i >= maxNh`. |
| RangeSchedule.PageScheduleBounds | src/canvas.rs:844-871 | `nhSteps` and `nhSpeeds` have equal length between 1 and 10000. Empty ranges give [1]/[1]. With ranges every entry is ≤ maxNh, and the last is maxNh on the cap exit. |
| RangeSchedule.StopsShortOfCap | src/canvas.rs:862-867 | With one range [1, 5) and maxNh 10, the loop stops at 5 through the no-range exit, short of maxNh. |
| RangeSchedule.BuildSchedule | src/canvas.rs:849-869 | The imperative loop returns exactly the schedule function's steps and speeds. |
| RangeSchedule.NhSchedule.Rebuild | src/canvas.rs:844-871 | `rebuildNhSteps` sets `nhSteps`, `nhSpeeds` and `totalLoops` to the schedule of the parsed ranges. |
| RangeSchedule.EmbedNhSteps | src/canvas.rs:1264-1287 | The embed loop returns exactly the embed schedule of the configured ranges. |
| RangeSchedule.EmbedMatchesPage | src/canvas.rs:1264-1287 | The embed and page schedules agree exactly when there are ranges or maxNh ≥ 1. |
| RangeSchedule.PageAndEmbedAgree | src/canvas.rs:1264-1287 | When every speed prints as a number, and there are ranges or maxNh is at least 1, the page's schedule for the parsed `steps_str` equals the embed page's schedule for the configured ranges. |
| ThresholdSchedule.ParseStepsStr | src/svg.rs:768-780 | The threshold-collecting loop returns `ParseConfig`. Every group but the last is a "start step" pair, and the last gives maxH. |
| ThresholdSchedule.AllToJs | src/svg.rs:895-903 | The embed page gets one JavaScript threshold per configured threshold. |
| ThresholdSchedule.ThresholdTexts | src/svg.rs:417-425 | `steps_str` prints one group per threshold. |
| ThresholdSchedule.ParseThresholds | src/svg.rs:773-778 | Each group gives at most one threshold. |
| ThresholdSchedule.ParseThresholdTexts | src/svg.rs:768-780 | Parsing the printed groups gives the configured thresholds, in order. |
| ThresholdSchedule.ThresholdTextParses | src/svg.rs:417-425 | A printed "start step" group is clean and parses back to its two numbers. |
| ThresholdSchedule.StepsStrRoundTrip | src/svg.rs:768-780 | Parsing `steps_str` recovers the thresholds. maxH is taken from the last group, and a printed 0 falls back to 1. |
| ThresholdSchedule.Or1 | src/svg.rs:787-792 | `x \|\| 1` is never 0 and keeps any non-zero x. |
| ThresholdSchedule.LastReached | src/svg.rs:791-793 | The last threshold with start ≤ nh, or none when every start is above nh. |
| ThresholdSchedule.IncAfterIsLastReached | src/svg.rs:791-793 | The increment is the step of the last threshold with start ≤ nh, or the previous increment when none is reached. |
| ThresholdSchedule.PageIncNonZero | src/svg.rs:792 | On the page, a non-zero previous increment keeps the increment non-zero. |
| ThresholdSchedule.EmbedIncPositive | src/svg.rs:1119-1121 | On the embed page, positive steps keep the increment ≥ 1. |
| ThresholdSchedule.IncAfterAgree | src/svg.rs:1119-1121 | Without zero steps the `\|\| 1` fallback changes nothing. |
| ThresholdSchedule.ZeroStepStalls | src/svg.rs:1117-1123 | A reached zero step leaves nh in place on the embed page, so its loop never ends. The page grows by 1 instead. |
| ThresholdSchedule.PageLoopShape | src/svg.rs:789-796 | The loop appends at most 10001 entries in all. The last is the cap, and every earlier one is below it. |
| ThresholdSchedule.PageScheduleShape | src/svg.rs:782-798 | With thresholds and cap ≥ 1, the list has 1 to 10001 entries, ends with the cap, and every earlier entry is < cap. Otherwise it is exactly [1]. |
| ThresholdSchedule.EmbedLoopShape | src/svg.rs:1112-1125 | With positive steps the embed loop ends with the cap, and every earlier entry is below it. |
| ThresholdSchedule.LoopsAgree | src/svg.rs:1112-1125 | When the embed loop stays within the page's length guard and steps are positive, both loops give the same list. |
| ThresholdSchedule.PageAndEmbedAgree | src/svg.rs:1112-1125 | For a non-empty list of thresholds with start and step at least 1, maxH and maxNh at least 1, and an embed list within the page's guard: the page's schedule of the parsed `steps_str` is the embed page's schedule. |
| ThresholdSchedule.NoThresholdsDiffer | src/svg.rs:782-786 | With no thresholds the page always schedules `[1]`. The embed page gives `[1]` exactly when the cap is 1; above that it starts at 1 and has at least two entries. |
| ThresholdSchedule.SvgMaxNh | src/svg.rs:764 | `maxNh` on the SVG pages is at least 1, and equals the coefficient count when there are coefficients. |
| ThresholdSchedule.SvgScheduleWithinCoefficients | src/svg.rs:764-790 | With the SVG pages' `maxNh` as the cap, no entry of the page's schedule asks for more harmonics than there are coefficients (or 1). |
| ThresholdSchedule.NextInc | src/svg.rs:791-793 | The threshold loop returns the increment function. |
| ThresholdSchedule.ThresholdPage.Rebuild | src/svg.rs:782-798 | `rebuildNhSteps` sets `nhSteps` to the schedule of the parsed configuration, and `totalLoops` to its length. |
| ThresholdSchedule.EmbedNhSteps | src/svg.rs:1112-1125 | With positive steps, the embed loop returns exactly the embed schedule. |
| Strings.SplitAppend | src/canvas.rs:833 | `split` on a separator distributes over a join at that separator. |
| Strings.Split | src/canvas.rs:833 | `split` always gives at least one piece. |
| Strings.NatToString | src/canvas.rs:420 | A printed integer is a non-empty string of digits. |
| Strings.ParseDecimalOfNat | src/canvas.rs:57 | `parse::<f64>()` reads a printed integer back as its value. |
| Strings.ParseIntOr | src/canvas.rs:592 | `parseInt(s) \|\| fallback` is zero only when the fallback is zero. |
| Strings.TrimPadded | src/canvas.rs:833 | `trim` removes exactly the surrounding spaces. |
| Strings.NatToStringValue | src/canvas.rs:420 | A printed integer denotes its value. |
| Strings.ReplaceCharAppend | src/canvas.rs:495-498 | `replace` distributes over concatenation. |
| Strings.JsParseIntOfNat | src/canvas.rs:592 | `parseInt` reads a printed integer back. |
| Sketch.FileName | src/bin/circles-sketch.rs:84-88 | The file name is the suffix of the argument after its last '/': it contains no '/', and it is either the whole argument or preceded by a '/'. |
| Sketch.ProgramName | src/bin/circles-sketch.rs:84-91 | The recorded name is a suffix of the program path. A path without '/' is kept as it is; otherwise it is the whole path or a file name other than empty and `..`. |
| Sketch.QuoteArg | src/bin/circles-sketch.rs:92-96 | An argument with no whitespace, ' or " is unchanged. Otherwise it is wrapped in single quotes. |
| Sketch.QuoteAll | src/bin/circles-sketch.rs:83-97 | Every argument has exactly one quoted word. That the words read back is stated by `CommandLineRoundTrip`. |
| Sketch.QuotedBody | src/bin/circles-sketch.rs:93 | Inside quotes, each `'\''` is read back as one `'`. |
| Sketch.QuotedWord | src/bin/circles-sketch.rs:92-96 | A shell reads every quoted or plain argument back as itself. |
| Sketch.WordsOfJoin | src/bin/circles-sketch.rs:81-99 | The quoted arguments joined with single spaces are read back as the argument list, in order. |
| Sketch.EachReadsBackMeans | src/bin/circles-sketch.rs:83-97 | The recursive per-argument condition is equivalent to its quantified form. |
| Sketch.CommandLineRoundTrip | src/bin/circles-sketch.rs:81-99 | If every argument (with the program reduced to its file name) is non-empty and has a backslash only when it is quoted, the recorded command line is read back as the program's file name followed by the arguments. Empty arguments (`Sketch.EmptyArgLost`) and unquoted backslashes (`Sketch.BackslashLost`) fall outside the premise. |
| Sketch.BackslashLost | src/bin/circles-sketch.rs:92-96 | An unquoted backslash is not protected: `a\b` is recorded as is and read back as `ab`. |
| Sketch.EmptyArgLost | src/bin/circles-sketch.rs:92-98 | An empty argument is recorded as nothing, so `p "" x` is read back as `p x`. |
| Sketch.FlippedY | src/bin/circles-sketch.rs:144-148 | Flipping keeps the point count. |
| Sketch.FlipFacts | src/bin/circles-sketch.rs:144-148 | Flipping keeps every x and negates every y. Flipping twice restores the contour. |
| Sketch.FlipY | src/bin/circles-sketch.rs:144-148 | The in-place loop negates each y exactly when the flag is set, and changes nothing otherwise. |
| Sketch.NumPoints | src/bin/circles-sketch.rs:149 | `num_points` = max(len, 2·max_harmonics, 1000) is at least each of the three and equal to one of them. |
| Sketch.NumCoefficients | src/bin/circles-sketch.rs:152 | `num_coefficients` is at most 500 and at most half the points. |
| Sketch.AlwaysFiveHundredTerms | src/bin/circles-sketch.rs:149-153 | Because num_points is at least 1000, the decomposition always asks for exactly 500 terms. |
| Sketch.Lower | src/bin/circles-sketch.rs:224 | An ASCII upper-case letter becomes the lower-case letter 32 code points above it; every other character is unchanged. |
| Sketch.LowerAll | src/bin/circles-sketch.rs:224 | Lowercasing keeps the length, leaves no upper-case letter, and keeps every character that is not upper case. |
| Sketch.DashSpaces | src/bin/circles-sketch.rs:225 | Every ' ' becomes '-', every other character is kept, and no ' ' remains. |
| Sketch.KeepStemChars | src/bin/circles-sketch.rs:226 | The filter keeps only alphanumerics and '-', each taken from its input, and every alphanumeric or '-' of the input survives. |
| Sketch.KeepStemCharsAppend | src/bin/circles-sketch.rs:226 | The filter works character by character: it distributes over concatenation. |
| Sketch.Stem | src/bin/circles-sketch.rs:223-227 | The default stem has only lower-case ASCII letters, digits and '-', and is no longer than the text. Its value is stated by `StemAppend` and `StemOne`. |
| Sketch.StemAppend | src/bin/circles-sketch.rs:223-227 | The stem of a concatenation is the concatenation of the stems, so together with `StemOne` every stem is determined character by character. |
| Sketch.StemOne | src/bin/circles-sketch.rs:223-227 | A single character's stem: ' ' and '-' give "-", a letter or digit gives its lower case, and anything else gives nothing. |
| Sketch.StemOfStem | src/bin/circles-sketch.rs:223-227 | A text that is already a stem is its own stem. |
| Sketch.StemIdempotent | src/bin/circles-sketch.rs:223-227 | Taking the stem twice changes nothing. |
| Sketch.StemExample | src/bin/circles-sketch.rs:223-227 | "A b!" gives the stem "a-b". |
| Sketch.FindAttr | src/bin/circles-sketch.rs:264 | A match of ` d="` is at or after the search position. |
| Sketch.FindAttrFirst | src/bin/circles-sketch.rs:264 | There is no match before the one returned, and none at all when there is no result. |
| Sketch.FindQuoteFirst | src/bin/circles-sketch.rs:266 | The closing quote is the first '"' after the value's start. |
| Sketch.FindQuote | src/bin/circles-sketch.rs:266 | A found quote is a '"' inside the text, at or after the value's start. |
| Sketch.DValuesAreAttributes | src/bin/circles-sketch.rs:264-270 | Each extracted value lies between a ` d="` match and the next quote. |
| Sketch.DPositionsIncrease | src/bin/circles-sketch.rs:264-270 | The values are found in increasing document positions. |
| Sketch.ScanIsAllPoints | src/bin/circles-sketch.rs:263-270 | The loop concatenates the points of every closed attribute in document order. An unclosed attribute is skipped, and the first failing path is the outcome. |
| Sketch.LoadedPoints | src/bin/circles-sketch.rs:272-275 | A loaded contour is never empty. |
| Sketch.LoadedMeaning | src/bin/circles-sketch.rs:262-275 | `load_svg` gives the concatenated points of the `d` values, the exit on no points, or the failing path's error. |
| Sketch.LoadSvg | src/bin/circles-sketch.rs:262-275 | The imperative extraction loop returns exactly `LoadedPoints`. |

## Left out

- Floating point: coordinates and script numbers are exact reals. f64 rounding, NaN and infinities are not modelled, except where NaN decides a branch (`Number`, `parseInt`, `% 0`).
- `{}` float formatting, `sqrt` distance, and `sin`/`cos`/2π: these are parameters (`fmt`, `dist`, `Trig`). The DFT values and `eval` numbers are therefore stated symbolically, not computed.
- Unicode: `is_alphabetic`, `is_alphanumeric` and `to_lowercase` are modelled on ASCII letters and digits only. `is_whitespace` is the full Unicode White_Space set, and JavaScript's `\s` and `trim` are the full ECMAScript WhiteSpace and LineTerminator set.
- `Path::file_name` normalisation: only the "text after the last '/'" rule is modelled, with the empty and ".." cases falling back to the whole argument.
- The shell that reads the recorded command line is modelled with blanks, single quotes and backslashes only. There are no expansions, `$`, globbing or double quotes. An unquoted backslash is lost (`Sketch.BackslashLost`), and an empty argument is recorded as nothing and lost (`Sketch.EmptyArgLost`).
- PathInterpreter.PointsOfSvgPath: requires a consumable input. On any other input the source's tokenizer never returns, and the specification function gives `Err(Stuck)` for it.
- Sketch.ScanIsAllPoints: the path reader is a function parameter, instantiated with `PointsOfPath` in `LoadedPoints`, `LoadedMeaning` and `LoadSvg`.
- PathWriter.ContourPathRoundTrip: holds for any `fmt` whose output for each coordinate is a number token that parses back to the coordinate. Rust's `{}` output for exponent-free finite values is of that kind. Exponent forms are outside the tokenizer.
- ThresholdSchedule.EmbedNhSteps: requires positive steps. With a reached zero step the embed loop does not terminate (`ThresholdSchedule.ZeroStepStalls` shows the stall), and a non-terminating loop has no result to state.
- ThresholdSchedule.PageAndEmbedAgree: assumes a non-empty list of thresholds with positive start and step, and an embed list within the page's 10001-entry guard. With no thresholds, the page's early return gives `[1]` while the embed page counts from the default start and step of 1 up to the cap (`NoThresholdsDiffer`). With a zero start or step, the page's `|| 1` fallbacks differ from the embed page, and a longer list is cut off by the page's guard.
- RangeSchedule.PageScheduleBounds: the last entry is maxNh only on the cap exit. The no-range exit and the 10000 cap can end below maxNh (`RangeSchedule.StopsShortOfCap`).
- Visibility.ZeroModulo: a configured modulo of 0 is read back by the page as 2 (`parseInt("0") || 2`). The embed page divides by 0 and never shows. The model states both and does not pick one.
- Visibility.PageMatchesEmbed: requires at least one residue, because the pages differ without one. The page falls back to [0], and the embed page's empty array never matches (`Visibility.EmptyCongruentsDiffer`).
- Strings.JsParseInt: the `0x` hexadecimal prefix that `parseInt` accepts is not modelled. `parseInt("0x1A")` is 26, and the model reads 0.
- Strings.ParseDecimal: the exponent, infinity, NaN and hexadecimal spellings that `parse::<f64>` and `Number` accept are not modelled. The tokenizer never produces them, and neither do the printed schedules.
- `interp` in src/svg.rs is not called by the page's own code. It is modelled for its agreement with the contour function.
- Fourier.FourierDecomposition: requires a non-empty contour. On an empty one every coefficient is 0/0, which is NaN. With at least one term, the sort's `partial_cmp(...).unwrap()` then panics. With zero terms, the result is the single NaN coefficient. Neither outcome is modelled.
- Real-time animation (`currentT += dt * speed`), the canvas and SVG drawing, spark effects (`Math.random`), DOM wiring, and the HTML/CSS template text.
- src/text.rs (font glyph extraction through foreign libraries), clap argument parsing, file and YAML I/O, `list_fonts`, `init_config` and `process::exit`. The exits of `load_svg` are the `LoadError` outcomes. src/bin/contour2html.rs is not part of this model.
- The `EmbedOptions`, `HarmonicSteps` and `WhenToShow` definitions and `validate()` are not in the source files. Their datatypes are declared from their use sites.
