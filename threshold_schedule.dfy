/**
 * The threshold-based harmonic schedule of the SVG page (src/svg.rs): `steps_str` prints
 * "start step ; ... ; max_harmonic", the page's `parseStepsStr` reads it back, and
 * `rebuildNhSteps` lists the harmonic count of each animation loop, growing by the step of
 * the last threshold reached and ending with the cap. The embed page runs the same loop
 * from the configuration directly, with no length guard and no `|| 1` fallbacks.
 */
module ThresholdSchedule {
  import opened Wrappers
  import opened Strings
  import opened StepsText

  /** A configured threshold: from harmonic count `start` on, grow by `step`. */
  datatype Threshold = Threshold(start: nat, step: nat)

  /** A threshold as the page script holds it: two JS numbers. */
  datatype JsThreshold = JsThreshold(start: real, step: real)

  /** What `parseStepsStr` returns: the thresholds and `maxH`. */
  datatype StepsConfig = StepsConfig(thresholds: seq<JsThreshold>, maxH: int)

  function ToJs(t: Threshold): JsThreshold {
    JsThreshold(t.start as real, t.step as real)
  }

  function AllToJs(ts: seq<Threshold>): (r: seq<JsThreshold>)
    ensures |r| == |ts|
  {
    seq(|ts|, i requires 0 <= i < |ts| => ToJs(ts[i]))
  }

  // ---------------------------------------------------------------- text

  function ThresholdText(t: Threshold): string {
    NatToString(t.start) + " " + NatToString(t.step)
  }

  function ThresholdTexts(ts: seq<Threshold>): (r: seq<string>)
    ensures |r| == |ts|
  {
    seq(|ts|, i requires 0 <= i < |ts| => ThresholdText(ts[i]))
  }

  /** `steps_str`: the "start step" groups, then the maximum, joined with " ; ". */
  function StepsStr(ts: seq<Threshold>, maxHarmonic: nat): string {
    Join(ThresholdTexts(ts) + [NatToString(maxHarmonic)], " ; ")
  }

  /** A group of exactly two numbers, neither of them NaN. */
  function ParseThreshold(g: string): Option<JsThreshold> {
    var parts := SplitWs(g);
    if |parts| != 2 then None
    else
      match (JsNumber(parts[0]), JsNumber(parts[1]))
      case (Some(a), Some(b)) => Some(JsThreshold(a, b))
      case _ => None
  }

  /** The thresholds of the well-formed groups, in order; malformed groups are dropped. */
  function ParseThresholds(groups: seq<string>): (r: seq<JsThreshold>)
    ensures |r| <= |groups|
  {
    if groups == [] then []
    else
      var prev := ParseThresholds(groups[..|groups| - 1]);
      match ParseThreshold(groups[|groups| - 1])
      case Some(t) => prev + [t]
      case None => prev
  }

  /** `parseStepsStr`: every group but the last is a threshold, the last gives `maxH`. */
  function ParseConfig(str: string): StepsConfig {
    var groups := Groups(str);
    if groups == [] then StepsConfig([], 1)
    else StepsConfig(ParseThresholds(groups[..|groups| - 1]), ParseIntOr(groups[|groups| - 1], 1))
  }

  /** `parseStepsStr`, with its loop over the threshold groups. */
  method ParseStepsStr(str: string) returns (cfg: StepsConfig)
    ensures cfg == ParseConfig(str)
  {
    var groups := Groups(str);
    if |groups| == 0 {
      return StepsConfig([], 1);
    }
    var maxH := ParseIntOr(groups[|groups| - 1], 1);
    var thresholds := [];
    for i := 0 to |groups| - 1
      invariant thresholds == ParseThresholds(groups[..i])
    {
      var parsed := ParseThreshold(groups[i]);
      assert groups[..i + 1][..i] == groups[..i];
      if parsed.Some? {
        thresholds := thresholds + [parsed.value];
      }
    }
    cfg := StepsConfig(thresholds, maxH);
  }

  lemma ThresholdTextParses(t: Threshold)
    ensures CleanGroup(ThresholdText(t))
    ensures ParseThreshold(ThresholdText(t)) == Some(ToJs(t))
  {
    ThresholdTextClean(t);
    var a, b := NatToString(t.start), NatToString(t.step);
    NoSpaceChars(a);
    NoSpaceChars(b);
    SplitWsWord(b);
    SplitWsCons(a, b);
    JsNumberOfNat(t.start);
    JsNumberOfNat(t.step);
    ParseTwo(ThresholdText(t), a, b, ToJs(t));
  }

  /** "start step" is non-blank, has no ';' and starts and ends with a digit. */
  lemma ThresholdTextClean(t: Threshold)
    ensures CleanGroup(ThresholdText(t))
  {
    var a, b := NatToString(t.start), NatToString(t.step);
    var text := ThresholdText(t);
    forall i | 0 <= i < |text|
      ensures text[i] != ';'
    {
      if i < |a| {
        assert text[i] == a[i];
      } else if i > |a| {
        assert text[i] == b[i - |a| - 1];
      }
    }
    assert text[0] == a[0];
    assert text[|text| - 1] == b[|b| - 1];
  }

  /** A group that splits into two numbers parses to them. */
  lemma ParseTwo(g: string, a: string, b: string, j: JsThreshold)
    requires SplitWs(g) == [a, b]
    requires JsNumber(a) == Some(j.start) && JsNumber(b) == Some(j.step)
    ensures ParseThreshold(g) == Some(j)
  {
  }

  lemma ParseThresholdsSnoc(groups: seq<string>, g: string)
    ensures ParseThresholds(groups + [g])
         == ParseThresholds(groups) + (if ParseThreshold(g).Some? then [ParseThreshold(g).value] else [])
  {
    assert (groups + [g])[..|groups|] == groups;
  }

  lemma {:induction false} ParseThresholdTexts(ts: seq<Threshold>)
    ensures ParseThresholds(ThresholdTexts(ts)) == AllToJs(ts)
    decreases |ts|
  {
    if ts != [] {
      var init, last := ts[..|ts| - 1], ts[|ts| - 1];
      ParseThresholdTexts(init);
      TextsSnoc(ts);
      ThresholdTextParses(last);
      ParseThresholdsSnoc(ThresholdTexts(init), ThresholdText(last));
    }
  }

  lemma TextsSnoc(ts: seq<Threshold>)
    requires ts != []
    ensures ThresholdTexts(ts) == ThresholdTexts(ts[..|ts| - 1]) + [ThresholdText(ts[|ts| - 1])]
    ensures AllToJs(ts) == AllToJs(ts[..|ts| - 1]) + [ToJs(ts[|ts| - 1])]
  {
  }

  /**
   * Round trip: the printed configuration parses back to its thresholds, with `maxH` the
   * printed maximum, or 1 when that maximum is 0 (`parseInt(..) || 1`).
   */
  lemma StepsStrRoundTrip(ts: seq<Threshold>, maxHarmonic: nat)
    ensures ParseConfig(StepsStr(ts, maxHarmonic))
         == StepsConfig(AllToJs(ts), if maxHarmonic == 0 then 1 else maxHarmonic)
  {
    var texts := ThresholdTexts(ts) + [NatToString(maxHarmonic)];
    forall k | 0 <= k < |texts| ensures CleanGroup(texts[k]) {
      if k < |ts| {
        ThresholdTextParses(ts[k]);
      } else {
        var m := NatToString(maxHarmonic);
        assert texts[k] == m;
        assert ';' !in m by {
          assert forall i :: 0 <= i < |m| ==> IsAsciiDigit(m[i]);
        }
      }
    }
    GroupsOfJoin(texts);
    assert texts[..|texts| - 1] == ThresholdTexts(ts);
    ParseThresholdTexts(ts);
    JsParseIntOfNat(maxHarmonic);
  }

  // ---------------------------------------------------------------- the loops

  /** `x || 1` on a JS number that is not NaN. */
  function Or1(x: real): (r: real)
    ensures r != 0.0
    ensures x != 0.0 ==> r == x
  {
    if x == 0.0 then 1.0 else x
  }

  /** The step a threshold sets: with `|| 1` on the page, as written on the embed page. */
  function StepValue(t: JsThreshold, orOne: bool): real {
    if orOne then Or1(t.step) else t.step
  }

  /** `for (const t of thresholds) if (nh >= t.start) inc = ...;` */
  function IncAfter(ts: seq<JsThreshold>, nh: real, inc: real, orOne: bool): real {
    if ts == [] then inc
    else
      var prev := IncAfter(ts[..|ts| - 1], nh, inc, orOne);
      if nh >= ts[|ts| - 1].start then StepValue(ts[|ts| - 1], orOne) else prev
  }

  /** The last threshold whose start is at most nh. */
  function LastReached(ts: seq<JsThreshold>, nh: real): (r: Option<nat>)
    ensures r.Some? ==> r.value < |ts| && ts[r.value].start <= nh
    ensures r.Some? ==> forall j :: r.value < j < |ts| ==> ts[j].start > nh
    ensures r.None? ==> forall j :: 0 <= j < |ts| ==> ts[j].start > nh
  {
    if ts == [] then None
    else if ts[|ts| - 1].start <= nh then Some(|ts| - 1)
    else LastReached(ts[..|ts| - 1], nh)
  }

  /** The increment is the step of the last threshold reached, or the old one if none is. */
  lemma {:induction false} IncAfterIsLastReached(ts: seq<JsThreshold>, nh: real, inc: real, orOne: bool)
    ensures IncAfter(ts, nh, inc, orOne)
         == match LastReached(ts, nh) case Some(k) => StepValue(ts[k], orOne) case None => inc
  {
    if ts != [] && ts[|ts| - 1].start > nh {
      var init := ts[..|ts| - 1];
      IncAfterIsLastReached(init, nh, inc, orOne);
      match LastReached(init, nh)
      case Some(k) => assert init[k] == ts[k];
      case None =>
    }
  }

  /** On the page the increment is never 0. */
  lemma {:induction false} PageIncNonZero(ts: seq<JsThreshold>, nh: real, inc: real)
    requires inc != 0.0
    ensures IncAfter(ts, nh, inc, true) != 0.0
  {
    if ts != [] {
      PageIncNonZero(ts[..|ts| - 1], nh, inc);
    }
  }

  /** With positive steps the embed increment stays at least 1. */
  lemma {:induction false} EmbedIncPositive(ts: seq<JsThreshold>, nh: real, inc: real)
    requires inc >= 1.0 && forall k :: 0 <= k < |ts| ==> ts[k].step >= 1.0
    ensures IncAfter(ts, nh, inc, false) >= 1.0
  {
    if ts != [] {
      EmbedIncPositive(ts[..|ts| - 1], nh, inc);
    }
  }

  /** With no zero steps, `|| 1` changes nothing. */
  lemma {:induction false} IncAfterAgree(ts: seq<JsThreshold>, nh: real, inc: real)
    requires forall k :: 0 <= k < |ts| ==> ts[k].step != 0.0
    ensures IncAfter(ts, nh, inc, true) == IncAfter(ts, nh, inc, false)
  {
    if ts != [] {
      IncAfterAgree(ts[..|ts| - 1], nh, inc);
    }
  }

  /**
   * A reached threshold of step 0: the embed page's increment is 0, so nh never moves and
   * `while (nh < cap)` never ends, where the page grows by 1.
   */
  lemma ZeroStepStalls(start: real, nh: real, inc: real)
    requires start <= nh
    ensures nh + IncAfter([JsThreshold(start, 0.0)], nh, inc, false) == nh
    ensures IncAfter([JsThreshold(start, 0.0)], nh, inc, true) == 1.0
  {
  }

  const MaxLoops: nat := 10000

  /** The page's `while (nh < cap && nhSteps.length < 10000)`, then `push(cap)`. */
  function PageLoop(ts: seq<JsThreshold>, cap: real, nh: real, inc: real, steps: seq<real>): seq<real>
    requires |steps| <= MaxLoops
    decreases MaxLoops - |steps|
  {
    if nh < cap && |steps| < MaxLoops then
      var inc' := IncAfter(ts, nh, inc, true);
      PageLoop(ts, cap, nh + inc', inc', steps + [nh])
    else steps + [cap]
  }

  lemma PageLoopStep(ts: seq<JsThreshold>, cap: real, nh: real, inc: real, steps: seq<real>)
    requires nh < cap && |steps| < MaxLoops
    ensures PageLoop(ts, cap, nh, inc, steps)
         == PageLoop(ts, cap, nh + IncAfter(ts, nh, inc, true), IncAfter(ts, nh, inc, true), steps + [nh])
  {
  }

  lemma PageLoopStop(ts: seq<JsThreshold>, cap: real, nh: real, inc: real, steps: seq<real>)
    requires |steps| <= MaxLoops && !(nh < cap && |steps| < MaxLoops)
    ensures PageLoop(ts, cap, nh, inc, steps) == steps + [cap]
  {
  }

  /** The page's `rebuildNhSteps` on a parsed configuration. */
  function PageSchedule(cfg: StepsConfig, maxNh: real): seq<real> {
    var cap := Min(cfg.maxH as real, maxNh);
    var ts := cfg.thresholds;
    if ts == [] || cap < 1.0 then [1.0]
    else PageLoop(ts, cap, Or1(ts[0].start), Or1(ts[0].step), [])
  }

  predicate PositiveSteps(ts: seq<JsThreshold>) {
    forall k :: 0 <= k < |ts| ==> ts[k].step >= 1.0
  }

  /** How far nh is below the cap, rounded up: what each iteration of the embed loop lowers. */
  function Distance(cap: real, nh: real): nat {
    if nh < cap then ((cap - nh).Floor + 1) as nat else 0
  }

  /** The embed page's `while (nh < cap)`, then `push(cap)`; it ends because steps are positive. */
  function EmbedLoop(ts: seq<JsThreshold>, cap: real, nh: real, inc: real, steps: seq<real>): seq<real>
    requires inc >= 1.0 && PositiveSteps(ts)
    decreases Distance(cap, nh)
  {
    if nh < cap then
      var inc' := IncAfter(ts, nh, inc, false);
      EmbedIncPositive(ts, nh, inc);
      EmbedLoop(ts, cap, nh + inc', inc', steps + [nh])
    else steps + [cap]
  }

  /** The embed page's schedule: `first_start` and `first_step` default to 1 without thresholds. */
  function EmbedSchedule(ts: seq<Threshold>, maxHarmonic: nat, maxNh: real): seq<real>
    requires forall k :: 0 <= k < |ts| ==> ts[k].step >= 1
  {
    var js := AllToJs(ts);
    var cap := Min(maxHarmonic as real, maxNh);
    EmbedLoop(js, cap, if ts == [] then 1.0 else js[0].start, if ts == [] then 1.0 else js[0].step, [])
  }

  /** `maxNh` of the SVG pages: the number of coefficients, 1 when there are none. */
  function SvgMaxNh(coeffCount: nat): (r: real)
    ensures r >= 1.0
    ensures coeffCount > 0 ==> r == coeffCount as real
  {
    if coeffCount == 0 then 1.0 else coeffCount as real
  }

  /** The page loop appends entries below the cap, then the cap; at most 10001 in all. */
  lemma {:induction false} PageLoopShape(ts: seq<JsThreshold>, cap: real, nh: real, inc: real, steps: seq<real>)
    requires |steps| <= MaxLoops
    ensures var r := PageLoop(ts, cap, nh, inc, steps);
      && |steps| < |r| <= MaxLoops + 1
      && r[..|steps|] == steps
      && r[|r| - 1] == cap
      && forall k :: |steps| <= k < |r| - 1 ==> r[k] < cap
    decreases MaxLoops - |steps|
  {
    if nh < cap && |steps| < MaxLoops {
      var inc' := IncAfter(ts, nh, inc, true);
      PageLoopShape(ts, cap, nh + inc', inc', steps + [nh]);
      var r := PageLoop(ts, cap, nh, inc, steps);
      assert r[..|steps|] == r[..|steps| + 1][..|steps|];
    }
  }

  /**
   * With thresholds and a cap of at least 1 the page schedule ends with the cap and every
   * earlier entry is below it; otherwise it is exactly [1].
   */
  lemma PageScheduleShape(cfg: StepsConfig, maxNh: real)
    ensures var r := PageSchedule(cfg, maxNh);
      var cap := Min(cfg.maxH as real, maxNh);
      if cfg.thresholds != [] && cap >= 1.0 then
        && 1 <= |r| <= MaxLoops + 1
        && r[|r| - 1] == cap
        && forall k :: 0 <= k < |r| - 1 ==> r[k] < cap
      else r == [1.0]
  {
    var ts := cfg.thresholds;
    var cap := Min(cfg.maxH as real, maxNh);
    if ts != [] && cap >= 1.0 {
      PageLoopShape(ts, cap, Or1(ts[0].start), Or1(ts[0].step), []);
    }
  }

  /** On the SVG pages no scheduled harmonic count exceeds the coefficients there are (or 1). */
  lemma SvgScheduleWithinCoefficients(cfg: StepsConfig, coeffCount: nat)
    ensures var r := PageSchedule(cfg, SvgMaxNh(coeffCount));
      forall k :: 0 <= k < |r| ==> r[k] <= SvgMaxNh(coeffCount)
  {
    PageScheduleShape(cfg, SvgMaxNh(coeffCount));
  }

  /** The embed loop also ends with the cap after entries below it, but has no length bound. */
  lemma {:induction false} EmbedLoopShape(ts: seq<JsThreshold>, cap: real, nh: real, inc: real, steps: seq<real>)
    requires inc >= 1.0 && PositiveSteps(ts)
    ensures var r := EmbedLoop(ts, cap, nh, inc, steps);
      && |steps| < |r|
      && r[..|steps|] == steps
      && r[|r| - 1] == cap
      && forall k :: |steps| <= k < |r| - 1 ==> r[k] < cap
    decreases Distance(cap, nh)
  {
    if nh < cap {
      var inc' := IncAfter(ts, nh, inc, false);
      EmbedIncPositive(ts, nh, inc);
      EmbedLoopShape(ts, cap, nh + inc', inc', steps + [nh]);
      var r := EmbedLoop(ts, cap, nh, inc, steps);
      assert r[..|steps|] == r[..|steps| + 1][..|steps|];
    }
  }

  /** Where the embed loop stays within 10001 entries, the page loop computes the same list. */
  lemma {:induction false} LoopsAgree(ts: seq<JsThreshold>, cap: real, nh: real, inc: real, steps: seq<real>)
    requires inc >= 1.0 && PositiveSteps(ts) && |steps| <= MaxLoops
    requires |EmbedLoop(ts, cap, nh, inc, steps)| <= MaxLoops + 1
    ensures PageLoop(ts, cap, nh, inc, steps) == EmbedLoop(ts, cap, nh, inc, steps)
    decreases Distance(cap, nh)
  {
    if nh < cap {
      var inc' := IncAfter(ts, nh, inc, false);
      EmbedIncPositive(ts, nh, inc);
      IncAfterAgree(ts, nh, inc);
      EmbedLoopShape(ts, cap, nh + inc', inc', steps + [nh]);
      if |steps| < MaxLoops {
        LoopsAgree(ts, cap, nh + inc', inc', steps + [nh]);
      }
    }
  }

  /**
   * The page, reading the printed `steps_str`, and the embed page, reading the configuration,
   * agree when every start and step is at least 1, the maximum is at least 1, and the embed
   * list has at most 10001 entries.
   */
  lemma PageAndEmbedAgree(ts: seq<Threshold>, maxHarmonic: nat, maxNh: real)
    requires ts != [] && maxHarmonic >= 1 && maxNh >= 1.0
    requires forall k :: 0 <= k < |ts| ==> ts[k].start >= 1 && ts[k].step >= 1
    requires |EmbedSchedule(ts, maxHarmonic, maxNh)| <= MaxLoops + 1
    ensures PageSchedule(ParseConfig(StepsStr(ts, maxHarmonic)), maxNh) == EmbedSchedule(ts, maxHarmonic, maxNh)
  {
    StepsStrRoundTrip(ts, maxHarmonic);
    var js := AllToJs(ts);
    var cap := Min(maxHarmonic as real, maxNh);
    LoopsAgree(js, cap, js[0].start, js[0].step, []);
  }

  /**
   * Without thresholds the two pages part: the page returns early with `[1]`, while the embed
   * page counts from the default start and step of 1 up to the cap. They agree only when the
   * cap is exactly 1.
   */
  lemma NoThresholdsDiffer(maxHarmonic: nat, maxNh: real)
    ensures PageSchedule(ParseConfig(StepsStr([], maxHarmonic)), maxNh) == [1.0]
    ensures var cap := Min(maxHarmonic as real, maxNh);
      && (EmbedSchedule([], maxHarmonic, maxNh) == [1.0] <==> cap == 1.0)
      && (cap > 1.0 ==> |EmbedSchedule([], maxHarmonic, maxNh)| >= 2 && EmbedSchedule([], maxHarmonic, maxNh)[0] == 1.0)
  {
    StepsStrRoundTrip([], maxHarmonic);
    var js := AllToJs([]);
    var cap := Min(maxHarmonic as real, maxNh);
    assert js == [];
    if cap > 1.0 {
      assert IncAfter(js, 1.0, 1.0, false) == 1.0;
      assert EmbedSchedule([], maxHarmonic, maxNh) == EmbedLoop(js, cap, 1.0, 1.0, []);
      assert [] + [1.0] == [1.0];
      assert EmbedLoop(js, cap, 1.0, 1.0, []) == EmbedLoop(js, cap, 2.0, 1.0, [1.0]);
      EmbedLoopShape(js, cap, 2.0, 1.0, [1.0]);
    } else {
      assert EmbedSchedule([], maxHarmonic, maxNh) == EmbedLoop(js, cap, 1.0, 1.0, []);
      assert [] + [cap] == [cap];
      assert EmbedLoop(js, cap, 1.0, 1.0, []) == [cap];
    }
  }

  // ---------------------------------------------------------------- the methods

  /** The threshold scan inside both loops. */
  method NextInc(ts: seq<JsThreshold>, nh: real, inc: real, orOne: bool) returns (r: real)
    ensures r == IncAfter(ts, nh, inc, orOne)
  {
    r := inc;
    for k := 0 to |ts|
      invariant r == IncAfter(ts[..k], nh, inc, orOne)
    {
      assert ts[..k + 1][..k] == ts[..k];
      if nh >= ts[k].start {
        r := if orOne then Or1(ts[k].step) else ts[k].step;
      }
    }
    assert ts[..|ts|] == ts;
  }

  /** The SVG page's schedule state and its `rebuildNhSteps`. */
  class ThresholdPage {
    var nhSteps: seq<real>
    var totalLoops: nat

    constructor ()
      ensures nhSteps == [] && totalLoops == 0
    {
      nhSteps, totalLoops := [], 0;
    }

    /** Rebuilds the schedule from the text of the steps field. */
    method Rebuild(str: string, maxNh: real)
      modifies this
      ensures nhSteps == PageSchedule(ParseConfig(str), maxNh)
      ensures totalLoops == |nhSteps|
    {
      var cfg := ParseStepsStr(str);
      var cap := Min(cfg.maxH as real, maxNh);
      var ts := cfg.thresholds;
      if |ts| == 0 || cap < 1.0 {
        nhSteps, totalLoops := [1.0], 1;
        return;
      }
      var steps := [];
      var nh := Or1(ts[0].start);
      var inc := Or1(ts[0].step);
      while nh < cap && |steps| < MaxLoops
        invariant |steps| <= MaxLoops
        invariant PageLoop(ts, cap, nh, inc, steps) == PageSchedule(cfg, maxNh)
        decreases MaxLoops - |steps|
      {
        PageLoopStep(ts, cap, nh, inc, steps);
        steps := steps + [nh];
        inc := NextInc(ts, nh, inc, true);
        nh := nh + inc;
      }
      PageLoopStop(ts, cap, nh, inc, steps);
      nhSteps := steps + [cap];
      totalLoops := |nhSteps|;
    }
  }

  /** The embed page's schedule; its loop ends only because every step is at least 1. */
  method EmbedNhSteps(ts: seq<Threshold>, maxHarmonic: nat, maxNh: real) returns (nhSteps: seq<real>)
    requires forall k :: 0 <= k < |ts| ==> ts[k].step >= 1
    ensures nhSteps == EmbedSchedule(ts, maxHarmonic, maxNh)
  {
    var js := AllToJs(ts);
    var cap := Min(maxHarmonic as real, maxNh);
    var nh := if |ts| > 0 then js[0].start else 1.0;
    var inc := if |ts| > 0 then js[0].step else 1.0;
    nhSteps := [];
    while nh < cap
      invariant inc >= 1.0
      invariant EmbedLoop(js, cap, nh, inc, nhSteps) == EmbedSchedule(ts, maxHarmonic, maxNh)
      decreases Distance(cap, nh)
    {
      nhSteps := nhSteps + [nh];
      EmbedIncPositive(js, nh, inc);
      inc := NextInc(js, nh, inc, false);
      nh := nh + inc;
    }
    nhSteps := nhSteps + [cap];
  }
}
