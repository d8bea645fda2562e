/**
 * The range-based harmonic schedule of the canvas page (src/canvas.rs): `steps_str` prints
 * the configured ranges as "from step to speed ; ...", the page's `parseStepsStr` reads
 * them back, and `rebuildNhSteps` turns them into one harmonic count and one speed per
 * animation loop. The embed page runs the same loop on the ranges written as a JSON
 * literal, starting at 1 when there are none.
 */
module RangeSchedule {
  import opened Wrappers
  import opened Strings
  import opened PathLexer
  import opened PathWriter
  import opened StepsText

  /** A configured range: harmonic counts in [from, to) advance by `step` at `speed`. */
  datatype StepRange = StepRange(from: nat, step: nat, to: nat, speed: real)

  /** A range as the page script holds it: four JS numbers. */
  datatype JsRange = JsRange(from: real, step: real, to: real, speed: real)

  function ToJs(r: StepRange): JsRange {
    JsRange(r.from as real, r.step as real, r.to as real, r.speed)
  }

  function AllToJs(rs: seq<StepRange>): (r: seq<JsRange>)
    ensures |r| == |rs|
  {
    if rs == [] then [] else [ToJs(rs[0])] + AllToJs(rs[1..])
  }

  // ---------------------------------------------------------------- text

  /** One range as `steps_str` prints it. */
  function RangeText(r: StepRange, fmt: real -> string): string {
    NatToString(r.from) + " " + NatToString(r.step) + " " + NatToString(r.to) + " " + fmt(r.speed)
  }

  function RangeTexts(rs: seq<StepRange>, fmt: real -> string): (r: seq<string>)
    ensures |r| == |rs|
  {
    if rs == [] then [] else [RangeText(rs[0], fmt)] + RangeTexts(rs[1..], fmt)
  }

  /** `steps_str`: the ranges joined with " ; ". */
  function StepsStr(rs: seq<StepRange>, fmt: real -> string): string {
    Join(RangeTexts(rs, fmt), " ; ")
  }

  /** A group of exactly four numbers, none of them NaN. */
  function ParseRange(g: string): (r: Option<JsRange>)
    ensures r.Some? ==> |SplitWs(g)| == 4
  {
    var parts := SplitWs(g);
    if |parts| != 4 then None
    else
      match (JsNumber(parts[0]), JsNumber(parts[1]), JsNumber(parts[2]), JsNumber(parts[3]))
      case (Some(a), Some(b), Some(c), Some(d)) => Some(JsRange(a, b, c, d))
      case _ => None
  }

  /** The ranges of the well-formed groups, in order; malformed groups are dropped. */
  function ParseRanges(groups: seq<string>): (r: seq<JsRange>)
    ensures |r| <= |groups|
  {
    if groups == [] then []
    else
      match ParseRange(groups[0])
      case Some(range) => [range] + ParseRanges(groups[1..])
      case None => ParseRanges(groups[1..])
  }

  /** The page's `parseStepsStr`. */
  function ParseStepsStr(str: string): seq<JsRange> {
    ParseRanges(Groups(str))
  }

  /** The characters `steps_str` prints: digits, '.', '-' and spaces. */
  predicate Printed(s: string) {
    forall i :: 0 <= i < |s| ==> s[i] == ' ' || IsNumChar(s[i]) || s[i] == '-'
  }

  lemma PrintedConcat(a: string, b: string)
    requires Printed(a) && Printed(b)
    ensures Printed(a + b)
  {
    forall i | 0 <= i < |a + b|
      ensures (a + b)[i] == ' ' || IsNumChar((a + b)[i]) || (a + b)[i] == '-'
    {
      if i >= |a| {
        assert (a + b)[i] == b[i - |a|];
      }
    }
  }

  /** A number token has no spaces, and only printed characters. */
  lemma NumberTokenPrinted(v: string)
    requires IsNumberToken(v)
    ensures Printed(v) && NoSpace(v)
  {
    var body := if v[0] == '-' then v[1..] else v;
    forall i | 0 <= i < |v|
      ensures IsNumChar(v[i]) || v[i] == '-'
    {
      if v[0] == '-' && i > 0 {
        assert v[i] == body[i - 1];
      } else if v[0] != '-' {
        assert v[i] == body[i];
      }
    }
    NoSpaceChars(v);
  }

  lemma DigitsPrinted(s: string)
    requires AllDigits(s)
    ensures Printed(s) && NoSpace(s)
  {
    NoSpaceChars(s);
  }

  /** A printed range is a clean group: non-blank, no ';', no space at either end. */
  lemma RangeTextIsClean(r: StepRange, fmt: real -> string)
    requires ReadsBack(fmt, r.speed)
    ensures CleanGroup(RangeText(r, fmt))
  {
    var f, s, t, v := NatToString(r.from), NatToString(r.step), NatToString(r.to), fmt(r.speed);
    assert RangeText(r, fmt) == f + " " + (s + " " + (t + " " + v));
    PrintedRangeIsClean(f, s, t, v);
  }

  /** A printed range parses back to the range. */
  lemma RangeTextParses(r: StepRange, fmt: real -> string)
    requires ReadsBack(fmt, r.speed)
    ensures ParseRange(RangeText(r, fmt)) == Some(ToJs(r))
  {
    var f, s, t, v := NatToString(r.from), NatToString(r.step), NatToString(r.to), fmt(r.speed);
    assert RangeText(r, fmt) == f + " " + (s + " " + (t + " " + v));
    ParsePrintedRange(r, fmt, f, s, t, v);
  }

  lemma PrintedRangeIsClean(f: string, s: string, t: string, v: string)
    requires AllDigits(f) && AllDigits(s) && AllDigits(t) && f != [] && IsNumberToken(v)
    ensures CleanGroup(f + " " + (s + " " + (t + " " + v)))
  {
    var r3 := t + " " + v;
    var r2 := s + " " + r3;
    var text := f + " " + r2;
    DigitsPrinted(f);
    DigitsPrinted(s);
    DigitsPrinted(t);
    NumberTokenPrinted(v);
    NoSpaceLast(v);
    PrintedConcat(t + " ", v);
    PrintedConcat(s + " ", r3);
    PrintedConcat(f + " ", r2);
    assert Printed(text);
    assert ';' !in text;
    assert text[0] == f[0];
    assert text[|text| - 1] == v[|v| - 1];
  }

  lemma ParsePrintedRange(r: StepRange, fmt: real -> string, f: string, s: string, t: string, v: string)
    requires ReadsBack(fmt, r.speed)
    requires f == NatToString(r.from) && s == NatToString(r.step) && t == NatToString(r.to) && v == fmt(r.speed)
    ensures ParseRange(f + " " + (s + " " + (t + " " + v))) == Some(ToJs(r))
  {
    DigitsPrinted(f);
    DigitsPrinted(s);
    DigitsPrinted(t);
    NumberTokenPrinted(v);
    NoSpaceLast(v);
    SplitPrintedRange(f, s, t, v);
    JsNumberOfNat(r.from);
    JsNumberOfNat(r.step);
    JsNumberOfNat(r.to);
    TrimClean(v);
    ParseFour(f + " " + (s + " " + (t + " " + v)), f, s, t, v, ToJs(r));
  }

  /** A group that splits into four numbers parses to them. */
  lemma ParseFour(g: string, f: string, s: string, t: string, v: string, j: JsRange)
    requires SplitWs(g) == [f, s, t, v]
    requires JsNumber(f) == Some(j.from) && JsNumber(s) == Some(j.step)
    requires JsNumber(t) == Some(j.to) && JsNumber(v) == Some(j.speed)
    ensures ParseRange(g) == Some(j)
  {
  }

  lemma SplitPrintedRange(f: string, s: string, t: string, v: string)
    requires NoSpace(f) && NoSpace(s) && NoSpace(t) && NoSpace(v)
    requires f != [] && s != [] && t != [] && v != []
    ensures SplitWs(f + " " + (s + " " + (t + " " + v))) == [f, s, t, v]
  {
    var r2 := s + " " + (t + " " + v);
    assert r2[0] == s[0];
    SplitThree(s, t, v);
    SplitWsCons(f, r2);
  }

  lemma SplitThree(s: string, t: string, v: string)
    requires NoSpace(s) && NoSpace(t) && NoSpace(v)
    requires s != [] && t != [] && v != []
    ensures SplitWs(s + " " + (t + " " + v)) == [s, t, v]
  {
    var r3 := t + " " + v;
    assert r3[0] == t[0];
    SplitTwo(t, v);
    SplitWsCons(s, r3);
  }

  lemma SplitTwo(t: string, v: string)
    requires NoSpace(t) && NoSpace(v) && v != []
    ensures SplitWs(t + " " + v) == [t, v]
  {
    SplitWsWord(v);
    SplitWsCons(t, v);
  }

  lemma {:induction false} ParseRangesOfTexts(rs: seq<StepRange>, fmt: real -> string)
    requires forall k :: 0 <= k < |rs| ==> ReadsBack(fmt, rs[k].speed)
    ensures ParseRanges(RangeTexts(rs, fmt)) == AllToJs(rs)
    decreases |rs|
  {
    if rs != [] {
      RangeTextParses(rs[0], fmt);
      ParseRangesOfTexts(rs[1..], fmt);
      RangeTextsTail(rs, fmt);
    }
  }

  lemma {:induction false} RangeTextsClean(rs: seq<StepRange>, fmt: real -> string)
    requires forall k :: 0 <= k < |rs| ==> ReadsBack(fmt, rs[k].speed)
    ensures forall k :: 0 <= k < |rs| ==> CleanGroup(RangeTexts(rs, fmt)[k])
    decreases |rs|
  {
    if rs != [] {
      RangeTextIsClean(rs[0], fmt);
      RangeTextsClean(rs[1..], fmt);
      RangeTextsTail(rs, fmt);
      forall k | 1 <= k < |rs| ensures CleanGroup(RangeTexts(rs, fmt)[k]) {
        assert RangeTexts(rs, fmt)[k] == RangeTexts(rs[1..], fmt)[k - 1];
      }
    }
  }

  lemma RangeTextsTail(rs: seq<StepRange>, fmt: real -> string)
    requires rs != []
    ensures RangeTexts(rs, fmt) == [RangeText(rs[0], fmt)] + RangeTexts(rs[1..], fmt)
    ensures RangeTexts(rs, fmt)[1..] == RangeTexts(rs[1..], fmt)
  {
  }

  /**
   * Round trip: parsing the printed ranges gives them back as JS numbers, provided each
   * speed prints as a plain decimal that reads back as itself.
   */
  lemma StepsStrRoundTrip(rs: seq<StepRange>, fmt: real -> string)
    requires forall k :: 0 <= k < |rs| ==> ReadsBack(fmt, rs[k].speed)
    ensures ParseStepsStr(StepsStr(rs, fmt)) == AllToJs(rs)
  {
    RangeTextsClean(rs, fmt);
    GroupsOfJoin(RangeTexts(rs, fmt));
    ParseRangesOfTexts(rs, fmt);
  }

  // ---------------------------------------------------------------- the loop

  /** `i >= r.from && i < r.to`. */
  predicate Covers(r: JsRange, i: real) {
    i >= r.from && i < r.to
  }

  /** The first range at or after index k that covers i. */
  function FirstCovering(ranges: seq<JsRange>, i: real, k: nat): (r: Option<nat>)
    requires k <= |ranges|
    ensures r.Some? ==> k <= r.value < |ranges|
    decreases |ranges| - k
  {
    if k == |ranges| then None
    else if Covers(ranges[k], i) then Some(k)
    else FirstCovering(ranges, i, k + 1)
  }

  /** The range found covers i and none before it does; without one, no range from k covers i. */
  lemma {:induction false} FirstCoveringIsFirst(ranges: seq<JsRange>, i: real, k: nat)
    requires k <= |ranges|
    ensures var r := FirstCovering(ranges, i, k);
      && (r.Some? ==> Covers(ranges[r.value], i) && forall j :: k <= j < r.value ==> !Covers(ranges[j], i))
      && (r.None? ==> forall j :: k <= j < |ranges| ==> !Covers(ranges[j], i))
    decreases |ranges| - k
  {
    if k < |ranges| && !Covers(ranges[k], i) {
      FirstCoveringIsFirst(ranges, i, k + 1);
    }
  }

  /** The first gap at or after k: i at or past the end of range g and before range g+1. */
  function FirstGap(ranges: seq<JsRange>, i: real, k: nat): (r: Option<nat>)
    requires k <= |ranges|
    ensures r.Some? ==> k <= r.value && r.value + 1 < |ranges|
    decreases |ranges| - k
  {
    if k + 1 >= |ranges| then None
    else if ranges[k].to <= i < ranges[k + 1].from then Some(k)
    else FirstGap(ranges, i, k + 1)
  }

  /** The gap found holds i and no earlier one does; without one, no gap from k holds i. */
  lemma {:induction false} FirstGapIsFirst(ranges: seq<JsRange>, i: real, k: nat)
    requires k <= |ranges|
    ensures var r := FirstGap(ranges, i, k);
      && (r.Some? ==> ranges[r.value].to <= i < ranges[r.value + 1].from)
      && (r.Some? ==> forall j :: k <= j < r.value ==> !(ranges[j].to <= i < ranges[j + 1].from))
      && (r.None? ==> forall j :: k <= j && j + 1 < |ranges| ==> !(ranges[j].to <= i < ranges[j + 1].from))
    decreases |ranges| - k
  {
    if k + 1 < |ranges| && !(ranges[k].to <= i < ranges[k + 1].from) {
      FirstGapIsFirst(ranges, i, k + 1);
    }
  }

  /** The speed of the first covering range, 1 when none covers i. */
  function SpeedAt(ranges: seq<JsRange>, i: real): real {
    match FirstCovering(ranges, i, 0)
    case Some(j) => ranges[j].speed
    case None => 1.0
  }

  /** The next harmonic count: a step within the covering range, a jump over a gap, or none. */
  function Advance(ranges: seq<JsRange>, i: real): Option<real> {
    match FirstCovering(ranges, i, 0)
    case Some(j) => Some(i + ranges[j].step)
    case None =>
      match FirstGap(ranges, i, 0)
      case Some(g) => Some(ranges[g + 1].from)
      case None => None
  }

  /** The `nhSteps.length < 10000` guard. */
  const MaxLoops: nat := 10000

  /** Why the loop stopped: `i >= maxNh`, no range and no gap, or the length guard. */
  datatype Exit = ReachedCap | NoRange | LoopCap | NoRanges

  datatype Schedule = Schedule(steps: seq<real>, speeds: seq<real>, exit: Exit)

  /** The rest of the loop from harmonic count i with the entries so far. */
  function Loop(ranges: seq<JsRange>, maxNh: real, i: real, steps: seq<real>, speeds: seq<real>): Schedule
    requires |steps| == |speeds| <= MaxLoops
    decreases MaxLoops - |steps|
  {
    if |steps| == MaxLoops then Schedule(steps, speeds, LoopCap)
    else
      var steps' := steps + [Min(i, maxNh)];
      var speeds' := speeds + [SpeedAt(ranges, i)];
      if i >= maxNh then Schedule(steps', speeds', ReachedCap)
      else
        match Advance(ranges, i)
        case Some(next) => Loop(ranges, maxNh, next, steps', speeds')
        case None => Schedule(steps', speeds', NoRange)
  }

  /** The page's `rebuildNhSteps` on parsed ranges: [1]/[1] without ranges. */
  function PageSchedule(ranges: seq<JsRange>, maxNh: real): Schedule {
    if ranges == [] then Schedule([1.0], [1.0], NoRanges)
    else Loop(ranges, maxNh, ranges[0].from, [], [])
  }

  /** The embed page's loop: the same, started at 1 when there are no ranges. */
  function EmbedSchedule(ranges: seq<JsRange>, maxNh: real): Schedule {
    Loop(ranges, maxNh, if ranges == [] then 1.0 else ranges[0].from, [], [])
  }

  /** `maxNh`: the harmonics that can be shown, 1 when there is no decomposition. */
  function MaxNh(maxHarmonics: nat, coeffCount: nat): (r: real)
    ensures coeffCount > 0 ==> r <= coeffCount as real && r <= maxHarmonics as real
    ensures r >= 1.0 <==> maxHarmonics >= 1 || coeffCount == 0
    ensures coeffCount == 0 ==> r == 1.0
    ensures coeffCount > 0 ==> r == maxHarmonics as real || r == coeffCount as real
  {
    if coeffCount == 0 then 1.0 else Min(maxHarmonics as real, coeffCount as real)
  }

  /**
   * The loop only appends: the two lists keep equal length, grow by at least one entry (up
   * to 10000), every new harmonic count is at most maxNh, and a stop at the cap leaves
   * maxNh last.
   */
  lemma {:induction false} LoopShape(ranges: seq<JsRange>, maxNh: real, i: real, steps: seq<real>, speeds: seq<real>)
    requires |steps| == |speeds| < MaxLoops
    ensures var s := Loop(ranges, maxNh, i, steps, speeds);
      && |s.steps| == |s.speeds|
      && |steps| < |s.steps| <= MaxLoops
      && s.steps[..|steps|] == steps && s.speeds[..|speeds|] == speeds
      && (forall k :: |steps| <= k < |s.steps| ==> s.steps[k] <= maxNh)
      && (s.exit == ReachedCap ==> s.steps[|s.steps| - 1] == maxNh)
      && (s.exit == LoopCap ==> |s.steps| == MaxLoops)
      && s.exit != NoRanges
    decreases MaxLoops - |steps|
  {
    var steps' := steps + [Min(i, maxNh)];
    var speeds' := speeds + [SpeedAt(ranges, i)];
    var next := Advance(ranges, i);
    if i >= maxNh || next.None? {
      LoopStops(ranges, maxNh, i, steps, speeds);
    } else {
      LoopStep(ranges, maxNh, i, steps, speeds, next.value);
      if |steps'| < MaxLoops {
        LoopShape(ranges, maxNh, next.value, steps', speeds');
        var s := Loop(ranges, maxNh, next.value, steps', speeds');
        assert s.steps[..|steps|] == s.steps[..|steps'|][..|steps|];
        assert s.speeds[..|speeds|] == s.speeds[..|speeds'|][..|speeds|];
      } else {
        assert Loop(ranges, maxNh, next.value, steps', speeds') == Schedule(steps', speeds', LoopCap);
        assert steps'[..|steps|] == steps && speeds'[..|speeds|] == speeds;
      }
    }
  }

  /** One more loop: record i and its speed, then go on from the next count. */
  lemma LoopStep(ranges: seq<JsRange>, maxNh: real, i: real, steps: seq<real>, speeds: seq<real>, next: real)
    requires |steps| == |speeds| < MaxLoops && i < maxNh && Advance(ranges, i) == Some(next)
    ensures Loop(ranges, maxNh, i, steps, speeds)
         == Loop(ranges, maxNh, next, steps + [Min(i, maxNh)], speeds + [SpeedAt(ranges, i)])
  {
  }

  /** The last loop: at or past the cap, or with nowhere to go. */
  lemma LoopStops(ranges: seq<JsRange>, maxNh: real, i: real, steps: seq<real>, speeds: seq<real>)
    requires |steps| == |speeds| < MaxLoops && (i >= maxNh || Advance(ranges, i).None?)
    ensures Loop(ranges, maxNh, i, steps, speeds)
         == Schedule(steps + [Min(i, maxNh)], speeds + [SpeedAt(ranges, i)], if i >= maxNh then ReachedCap else NoRange)
  {
  }

  /** Bounds of the page schedule. */
  lemma PageScheduleBounds(ranges: seq<JsRange>, maxNh: real)
    ensures var s := PageSchedule(ranges, maxNh);
      && |s.steps| == |s.speeds|
      && 1 <= |s.steps| <= MaxLoops
      && (ranges == [] ==> s.steps == [1.0] && s.speeds == [1.0])
      && (ranges != [] ==> forall k :: 0 <= k < |s.steps| ==> s.steps[k] <= maxNh)
      && (s.exit == ReachedCap ==> s.steps[|s.steps| - 1] == maxNh)
  {
    if ranges != [] {
      LoopShape(ranges, maxNh, ranges[0].from, [], []);
    }
  }

  /**
   * A gap with no following range stops the loop short of the cap: the single range
   * "1 1 5 1" with 10 harmonics gives 1, 2, 3, 4, 5 and ends at 5, not 10.
   */
  lemma StopsShortOfCap()
    ensures PageSchedule([JsRange(1.0, 1.0, 5.0, 1.0)], 10.0)
         == Schedule([1.0, 2.0, 3.0, 4.0, 5.0], [1.0, 1.0, 1.0, 1.0, 1.0], NoRange)
  {
    var rs := [JsRange(1.0, 1.0, 5.0, 1.0)];
    assert SpeedAt(rs, 1.0) == 1.0 && SpeedAt(rs, 2.0) == 1.0 && SpeedAt(rs, 3.0) == 1.0;
    assert SpeedAt(rs, 4.0) == 1.0 && SpeedAt(rs, 5.0) == 1.0;
    assert Advance(rs, 1.0) == Some(2.0);
    assert Advance(rs, 2.0) == Some(3.0);
    assert Advance(rs, 3.0) == Some(4.0);
    assert Advance(rs, 4.0) == Some(5.0);
    assert FirstCovering(rs, 5.0, 0) == None;
    assert Advance(rs, 5.0) == None;
    assert Loop(rs, 10.0, 5.0, [1.0, 2.0, 3.0, 4.0], [1.0, 1.0, 1.0, 1.0])
        == Schedule([1.0, 2.0, 3.0, 4.0, 5.0], [1.0, 1.0, 1.0, 1.0, 1.0], NoRange);
    assert Loop(rs, 10.0, 4.0, [1.0, 2.0, 3.0], [1.0, 1.0, 1.0])
        == Loop(rs, 10.0, 5.0, [1.0, 2.0, 3.0, 4.0], [1.0, 1.0, 1.0, 1.0]);
    assert [1.0, 2.0] + [Min(3.0, 10.0)] == [1.0, 2.0, 3.0];
    assert [1.0, 1.0] + [SpeedAt(rs, 3.0)] == [1.0, 1.0, 1.0];
    assert Loop(rs, 10.0, 3.0, [1.0, 2.0], [1.0, 1.0])
        == Loop(rs, 10.0, 4.0, [1.0, 2.0, 3.0], [1.0, 1.0, 1.0]);
    assert [1.0] + [Min(2.0, 10.0)] == [1.0, 2.0];
    assert [1.0] + [SpeedAt(rs, 2.0)] == [1.0, 1.0];
    assert Loop(rs, 10.0, 2.0, [1.0], [1.0])
        == Loop(rs, 10.0, 3.0, [1.0, 2.0], [1.0, 1.0]);
    assert [] + [Min(1.0, 10.0)] == [1.0];
    assert [] + [SpeedAt(rs, 1.0)] == [1.0];
    assert Loop(rs, 10.0, 1.0, [], [])
        == Loop(rs, 10.0, 2.0, [1.0], [1.0]);
  }

  /**
   * The embed page and the page agree on both lists exactly when there are ranges or at
   * least one harmonic can be shown; otherwise the embed shows 0 harmonics where the page
   * shows 1.
   */
  lemma EmbedMatchesPage(ranges: seq<JsRange>, maxNh: real)
    ensures (EmbedSchedule(ranges, maxNh).steps == PageSchedule(ranges, maxNh).steps
             && EmbedSchedule(ranges, maxNh).speeds == PageSchedule(ranges, maxNh).speeds)
        <==> (ranges != [] || maxNh >= 1.0)
  {
    if ranges == [] {
      assert SpeedAt([], 1.0) == 1.0;
      assert Advance([], 1.0) == None;
      var e := EmbedSchedule(ranges, maxNh);
      assert e.steps == [Min(1.0, maxNh)];
      if maxNh < 1.0 {
        assert e.steps[0] != 1.0;
      }
    }
  }

  /**
   * The page and the embed page compute the same schedule from the same configuration:
   * the page from the printed `steps_str`, the embed page from the JSON ranges.
   */
  lemma PageAndEmbedAgree(rs: seq<StepRange>, fmt: real -> string, maxHarmonics: nat, coeffCount: nat)
    requires forall k :: 0 <= k < |rs| ==> ReadsBack(fmt, rs[k].speed)
    requires rs != [] || maxHarmonics >= 1 || coeffCount == 0
    ensures var page := PageSchedule(ParseStepsStr(StepsStr(rs, fmt)), MaxNh(maxHarmonics, coeffCount));
      var embed := EmbedSchedule(AllToJs(rs), MaxNh(maxHarmonics, coeffCount));
      page.steps == embed.steps && page.speeds == embed.speeds
  {
    StepsStrRoundTrip(rs, fmt);
    EmbedMatchesPage(AllToJs(rs), MaxNh(maxHarmonics, coeffCount));
  }

  // ---------------------------------------------------------------- the methods

  /** `for (const r of ranges) if (i >= r.from && i < r.to) { ...; break; }` */
  method FindCovering(ranges: seq<JsRange>, i: real) returns (r: Option<nat>)
    ensures r == FirstCovering(ranges, i, 0)
  {
    var k := 0;
    while k < |ranges| && !Covers(ranges[k], i)
      invariant k <= |ranges|
      invariant FirstCovering(ranges, i, k) == FirstCovering(ranges, i, 0)
      decreases |ranges| - k
    {
      k := k + 1;
    }
    r := if k < |ranges| then Some(k) else None;
  }

  /** `for (let k = 0; k < ranges.length - 1; k++) if (i >= ranges[k].to && i < ranges[k+1].from) ...` */
  method FindGap(ranges: seq<JsRange>, i: real) returns (r: Option<nat>)
    ensures r == FirstGap(ranges, i, 0)
  {
    var k := 0;
    while k + 1 < |ranges| && !(ranges[k].to <= i < ranges[k + 1].from)
      invariant k <= |ranges|
      invariant FirstGap(ranges, i, k) == FirstGap(ranges, i, 0)
      decreases |ranges| - k
    {
      k := k + 1;
    }
    r := if k + 1 < |ranges| then Some(k) else None;
  }

  /** The `while (nhSteps.length < 10000)` loop shared by the page and the embed page. */
  method BuildSchedule(ranges: seq<JsRange>, maxNh: real, start: real) returns (steps: seq<real>, speeds: seq<real>)
    ensures steps == Loop(ranges, maxNh, start, [], []).steps
    ensures speeds == Loop(ranges, maxNh, start, [], []).speeds
  {
    steps, speeds := [], [];
    var i := start;
    while |steps| < MaxLoops
      invariant |steps| == |speeds| <= MaxLoops
      invariant Loop(ranges, maxNh, i, steps, speeds) == Loop(ranges, maxNh, start, [], [])
      decreases MaxLoops - |steps|
    {
      ghost var steps0, speeds0 := steps, speeds;
      var spd := 1.0;
      var covering := FindCovering(ranges, i);
      if covering.Some? {
        spd := ranges[covering.value].speed;
      }
      assert spd == SpeedAt(ranges, i);
      steps := steps + [Min(i, maxNh)];
      speeds := speeds + [spd];
      if i >= maxNh {
        LoopStops(ranges, maxNh, i, steps0, speeds0);
        return;
      }
      var active := FindCovering(ranges, i);
      if active.Some? {
        LoopStep(ranges, maxNh, i, steps0, speeds0, i + ranges[active.value].step);
        i := i + ranges[active.value].step;
      } else {
        var gap := FindGap(ranges, i);
        if gap.None? {
          LoopStops(ranges, maxNh, i, steps0, speeds0);
          return;
        }
        LoopStep(ranges, maxNh, i, steps0, speeds0, ranges[gap.value + 1].from);
        i := ranges[gap.value + 1].from;
      }
    }
  }

  /** The page's schedule state and its `rebuildNhSteps`. */
  class NhSchedule {
    var nhSteps: seq<real>
    var nhSpeeds: seq<real>
    var totalLoops: nat

    constructor ()
      ensures nhSteps == [] && nhSpeeds == [] && totalLoops == 0
    {
      nhSteps, nhSpeeds, totalLoops := [], [], 0;
    }

    /** Rebuilds the schedule from the text of the steps field. */
    method Rebuild(str: string, maxNh: real)
      modifies this
      ensures nhSteps == PageSchedule(ParseStepsStr(str), maxNh).steps
      ensures nhSpeeds == PageSchedule(ParseStepsStr(str), maxNh).speeds
      ensures totalLoops == |nhSteps|
    {
      var ranges := ParseStepsStr(str);
      nhSteps, nhSpeeds := [], [];
      if ranges == [] {
        nhSteps, nhSpeeds, totalLoops := [1.0], [1.0], 1;
        return;
      }
      nhSteps, nhSpeeds := BuildSchedule(ranges, maxNh, ranges[0].from);
      totalLoops := |nhSteps|;
    }
  }

  /** The embed page's schedule, computed once from the configured ranges. */
  method EmbedNhSteps(rs: seq<StepRange>, maxNh: real) returns (nhSteps: seq<real>, nhSpeeds: seq<real>)
    ensures nhSteps == EmbedSchedule(AllToJs(rs), maxNh).steps
    ensures nhSpeeds == EmbedSchedule(AllToJs(rs), maxNh).speeds
  {
    var ranges := AllToJs(rs);
    var start := if |ranges| > 0 then ranges[0].from else 1.0;
    nhSteps, nhSpeeds := BuildSchedule(ranges, maxNh, start);
  }
}
