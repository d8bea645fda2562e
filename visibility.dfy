/**
 * When the contour, the trace and the epicycles are drawn (src/canvas.rs; the same code,
 * with `remainders` for `congruents`, in src/svg.rs): the page's `getShowMode` reads the
 * select and its two inputs, `shouldShow` tests the loop index, and the embed page writes
 * the test out with `format_js_array`. Also `getNumHarmonics`.
 */
module Visibility {
  import opened Wrappers
  import opened Strings

  /** The three options of the select. */
  datatype SelectValue = AlwaysOption | NeverOption | EveryOption

  /** What `getShowMode` returns. */
  datatype ShowMode = Always | Never | Every(modulo: int, congruents: seq<int>)

  /** A configured congruence: shown in loops whose index mod `modulo` is listed. */
  datatype Congruence = Congruence(modulo: nat, congruents: seq<nat>)

  function Abs(m: int): nat { if m < 0 then -m else m }

  /**
   * `loopIdx % modulo` on a non-negative index: the remainder has the index's sign, so it
   * is the remainder by |modulo|; a zero modulo gives NaN, which is no array's member.
   */
  function JsRem(loopIdx: nat, modulo: int): (r: Option<int>)
    ensures r.Some? <==> modulo != 0
    ensures r.Some? ==> 0 <= r.value < Abs(modulo)
    ensures r.Some? ==> r.value == loopIdx % Abs(modulo)
  {
    if modulo == 0 then None else Some(loopIdx % Abs(modulo))
  }

  /** `congruents.includes(x)`. */
  predicate Includes(congruents: seq<int>, x: Option<int>) {
    x.Some? && x.value in congruents
  }

  /** `shouldShow`. */
  predicate ShouldShow(mode: ShowMode, loopIdx: nat) {
    match mode
    case Always => true
    case Never => false
    case Every(modulo, congruents) => Includes(congruents, JsRem(loopIdx, modulo))
  }

  /** Shown in a loop exactly when shown |modulo| loops later. */
  lemma Periodic(modulo: int, congruents: seq<int>, loopIdx: nat)
    requires modulo != 0
    ensures ShouldShow(Every(modulo, congruents), loopIdx + Abs(modulo)) == ShouldShow(Every(modulo, congruents), loopIdx)
  {
    ModShift(loopIdx, Abs(modulo));
  }

  lemma ModShift(a: nat, m: nat)
    requires m > 0
    ensures (a + m) % m == a % m
  {
    var q, r := a / m, a % m;
    assert a + m == (q + 1) * m + r;
    ModUnique(a + m, m, q + 1, r);
  }

  /** Euclidean division is unique. */
  lemma ModUnique(a: int, m: int, q: int, r: int)
    requires m > 0 && 0 <= r < m && a == q * m + r
    ensures a % m == r
  {
    var q0, r0 := a / m, a % m;
    assert (q - q0) * m == r0 - r;
    if q > q0 {
      MulAtLeast(q - q0, m);
    } else if q < q0 {
      MulAtLeast(q0 - q, m);
    }
  }

  lemma MulAtLeast(d: int, m: int)
    requires d >= 1 && m > 0
    ensures d * m >= m
  {
    assert d * m == m + (d - 1) * m;
  }

  /** Whether a loop is shown depends only on its index modulo |modulo|. */
  lemma OnlyResidueMatters(modulo: int, congruents: seq<int>, i: nat, j: nat)
    requires modulo != 0 && i % Abs(modulo) == j % Abs(modulo)
    ensures ShouldShow(Every(modulo, congruents), i) == ShouldShow(Every(modulo, congruents), j)
  {
  }

  /** Modulo 3 with residues 0 and 1: shown in loops 0, 1, 3, 4, 6, 7, ..., hidden in 2, 5, 8, .... */
  lemma EveryThirdHidden(loopIdx: nat)
    ensures ShouldShow(Every(3, [0, 1]), loopIdx) <==> loopIdx % 3 != 2
  {
  }

  /** `s.split(",").map(s => parseInt(s.trim())).filter(n => !isNaN(n))`. */
  function ParseCongruents(s: string): seq<int> {
    ParsedInts(Split(s, ','))
  }

  function ParsedInts(pieces: seq<string>): (r: seq<int>)
    ensures |r| <= |pieces|
  {
    if pieces == [] then []
    else
      (match JsParseInt(Trim(pieces[0])) case Some(v) => [v] case None => []) + ParsedInts(pieces[1..])
  }

  /** `getShowMode`: a modulo of `parseInt(M) || 2`, and [0] when no residue parses. */
  function GetShowMode(sel: SelectValue, moduloText: string, congruentsText: string): (r: ShowMode)
    ensures r.Every? ==> r.modulo != 0 && r.congruents != []
    ensures r.Always? <==> sel == AlwaysOption
    ensures r.Never? <==> sel == NeverOption
  {
    match sel
    case AlwaysOption => Always
    case NeverOption => Never
    case EveryOption =>
      var rs := ParseCongruents(congruentsText);
      Every(ParseIntOr(moduloText, 2), if |rs| > 0 then rs else [0])
  }

  /** `congruents.iter().map(|r| r.to_string()).collect().join(",")`. */
  function NatList(cs: seq<nat>): string {
    Join(NatStrings(cs), ",")
  }

  function NatStrings(cs: seq<nat>): (r: seq<string>)
    ensures |r| == |cs|
    ensures forall k :: 0 <= k < |r| ==> r[k] != [] && AllDigits(r[k])
  {
    if cs == [] then [] else [NatToString(cs[0])] + NatStrings(cs[1..])
  }

  /** `format_js_array`: the list as a JS array literal. */
  function FormatJsArray(cs: seq<nat>): string {
    "[" + NatList(cs) + "]"
  }

  /**
   * The value of an array literal of non-negative integers, as the browser evaluates the
   * embed page's script; None for any other text.
   */
  function ArrayLiteral(s: string): Option<seq<int>> {
    if |s| < 2 || s[0] != '[' || s[|s| - 1] != ']' then None
    else if |s| == 2 then Some([])
    else ArrayItems(Split(s[1..|s| - 1], ','))
  }

  function ArrayItems(pieces: seq<string>): Option<seq<int>>
    decreases |pieces|
  {
    if pieces == [] then Some([])
    else if pieces[0] == [] || !AllDigits(pieces[0]) then None
    else match ArrayItems(pieces[1..])
      case None => None
      case Some(rest) => Some([DigitsValue(pieces[0]) as int] + rest)
  }

  lemma {:induction false} ItemsOfNatStrings(cs: seq<nat>)
    ensures ArrayItems(NatStrings(cs)) == Some(cs)
    decreases |cs|
  {
    if cs != [] {
      var first := NatToString(cs[0]);
      NatToStringValue(cs[0]);
      ItemsOfNatStrings(cs[1..]);
      assert NatStrings(cs) == [first] + NatStrings(cs[1..]);
      assert NatStrings(cs)[1..] == NatStrings(cs[1..]);
      assert [DigitsValue(first) as int] + cs[1..] == cs;
    }
  }

  /** The array literal the embed page writes evaluates to the configured residues. */
  lemma FormatJsArrayRoundTrip(cs: seq<nat>)
    ensures ArrayLiteral(FormatJsArray(cs)) == Some(cs)
  {
    var r := FormatJsArray(cs);
    assert r[1..|r| - 1] == NatList(cs);
    if cs != [] {
      SplitNatList(cs);
      ItemsOfNatStrings(cs);
      assert |NatList(cs)| >= |NatStrings(cs)[0]| > 0;
    }
  }

  lemma {:induction false} SplitNatList(cs: seq<nat>)
    requires cs != []
    ensures Split(NatList(cs), ',') == NatStrings(cs)
    decreases |cs|
  {
    var first := NatToString(cs[0]);
    assert ',' !in first by {
      assert forall i :: 0 <= i < |first| ==> IsAsciiDigit(first[i]);
    }
    if |cs| == 1 {
      SplitNoSeparator(first, ',');
    } else {
      SplitNatList(cs[1..]);
      assert NatList(cs) == first + [','] + NatList(cs[1..]);
      SplitAppend(first, NatList(cs[1..]), ',');
      SplitNoSeparator(first, ',');
    }
  }

  lemma {:induction false} ParsedNatStrings(cs: seq<nat>)
    ensures ParsedInts(NatStrings(cs)) == cs
    decreases |cs|
  {
    if cs != [] {
      var first := NatToString(cs[0]);
      assert Trim(first) == first by {
        assert TrimStart(first) == first;
        assert TrimEnd(first) == first;
      }
      JsParseIntOfNat(cs[0]);
      ParsedNatStrings(cs[1..]);
      assert NatStrings(cs)[1..] == NatStrings(cs[1..]);
    }
  }

  /** The residues the page shows in its text field parse back to themselves. */
  lemma CongruentsRoundTrip(cs: seq<nat>)
    ensures ParseCongruents(NatList(cs)) == cs
  {
    if cs != [] {
      SplitNatList(cs);
      ParsedNatStrings(cs);
    }
  }

  /** The embed page's `{format_js_array(congruents)}.includes(loopIndex % {modulo})`. */
  predicate EmbedVisible(c: Congruence, loopIdx: nat) {
    match ArrayLiteral(FormatJsArray(c.congruents))
    case None => false
    case Some(xs) => Includes(xs, JsRem(loopIdx, c.modulo))
  }

  /**
   * The page, reading the modulo and the residues back from its fields, decides as the embed
   * page does, for a modulo of at least 1 and at least one residue.
   */
  lemma PageMatchesEmbed(c: Congruence, loopIdx: nat)
    requires c.modulo >= 1 && c.congruents != []
    ensures ShouldShow(GetShowMode(EveryOption, NatToString(c.modulo), NatList(c.congruents)), loopIdx)
         == EmbedVisible(c, loopIdx)
  {
    CongruentsRoundTrip(c.congruents);
    FormatJsArrayRoundTrip(c.congruents);
    JsParseIntOfNat(c.modulo);
    var cs: seq<int> := c.congruents;
    assert cs == c.congruents;
  }

  /** A zero modulo: the page falls back to 2, the embed page never shows. */
  lemma ZeroModulo(cs: seq<nat>, loopIdx: nat)
    ensures GetShowMode(EveryOption, NatToString(0), NatList(cs)).modulo == 2
    ensures !EmbedVisible(Congruence(0, cs), loopIdx)
  {
    JsParseIntOfNat(0);
    FormatJsArrayRoundTrip(cs);
  }

  /**
   * No residues: the page falls back to [0] and shows every loop divisible by the modulo,
   * while the embed page's `[].includes(...)` never shows.
   */
  lemma EmptyCongruentsDiffer(m: nat, loopIdx: nat)
    requires m >= 1
    ensures ShouldShow(GetShowMode(EveryOption, NatToString(m), NatList([])), loopIdx) <==> loopIdx % m == 0
    ensures !EmbedVisible(Congruence(m, []), loopIdx)
  {
    JsParseIntOfNat(m);
    CongruentsRoundTrip([]);
    FormatJsArrayRoundTrip([]);
  }

  /** `getNumHarmonics`: 0 without a decomposition, otherwise clamped into [1, coefficients]. */
  function NumHarmonicsShown(numHarmonics: real, coeffCount: nat): (r: real)
    ensures coeffCount == 0 ==> r == 0.0
    ensures coeffCount > 0 ==> 1.0 <= r <= coeffCount as real
    ensures coeffCount > 0 && 1.0 <= numHarmonics <= coeffCount as real ==> r == numHarmonics
    ensures coeffCount > 0 && numHarmonics < 1.0 ==> r == 1.0
    ensures coeffCount > 0 && numHarmonics > coeffCount as real ==> r == coeffCount as real
  {
    if coeffCount == 0 then 0.0
    else
      var m := if numHarmonics < coeffCount as real then numHarmonics else coeffCount as real;
      if 1.0 > m then 1.0 else m
  }
}
