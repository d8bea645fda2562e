/**
 * The text handling shared by the two `parseStepsStr` page functions (src/canvas.rs and
 * src/svg.rs): `split(";")`, `trim`, dropping empty groups, `split(/\s+/)`, `Number` and `Math.min`.
 */
module StepsText {
  import opened Wrappers
  import opened Strings

  /** `Math.min` of the page scripts. */
  function Min(a: real, b: real): (r: real)
    ensures r <= a && r <= b && (r == a || r == b)
  {
    if a < b then a else b
  }

  /** ECMAScript `Number(s)`: surrounding spaces are ignored and "" is 0; None stands for NaN. */
  function JsNumber(s: string): Option<real> {
    var t := Trim(s);
    if t == [] then Some(0.0) else ParseDecimal(t)
  }

  predicate NoSpace(s: string)
    decreases |s|
  {
    s == [] || (!IsJsSpace(s[0]) && NoSpace(s[1..]))
  }

  /** A string none of whose characters is a space has no space. */
  lemma {:induction false} NoSpaceChars(s: string)
    requires forall i :: 0 <= i < |s| ==> !IsJsSpace(s[i])
    ensures NoSpace(s)
    decreases |s|
  {
    if s != [] {
      assert forall i :: 0 <= i < |s[1..]| ==> s[1..][i] == s[i + 1];
      NoSpaceChars(s[1..]);
    }
  }

  lemma {:induction false} NoSpaceLast(s: string)
    requires NoSpace(s) && s != []
    ensures !IsJsSpace(s[|s| - 1])
    decreases |s|
  {
    if |s| > 1 {
      NoSpaceLast(s[1..]);
    }
  }

  /** The length of the leading run of non-space characters. */
  function WordLen(s: string): (w: nat)
    ensures w <= |s|
    decreases |s|
  {
    if s == [] || IsJsSpace(s[0]) then 0 else 1 + WordLen(s[1..])
  }

  /** The length of the leading run of spaces. */
  function SpaceLen(s: string): (k: nat)
    ensures k <= |s|
    decreases |s|
  {
    if s != [] && IsJsSpace(s[0]) then 1 + SpaceLen(s[1..]) else 0
  }

  /** ECMAScript `s.split(/\s+/)`: the pieces between maximal runs of spaces. */
  function SplitWs(s: string): (r: seq<string>)
    ensures |r| >= 1
    decreases |s|
  {
    var w := WordLen(s);
    if w == |s| then [s]
    else
      var rest := s[w..];
      [s[..w]] + SplitWs(rest[SpaceLen(rest)..])
  }

  /** A piece without spaces is not split. */
  lemma SplitWsWord(w: string)
    requires NoSpace(w)
    ensures SplitWs(w) == [w]
  {
    WordNoSpace(w);
  }

  lemma {:induction false} WordNoSpace(w: string)
    requires NoSpace(w)
    ensures WordLen(w) == |w|
    decreases |w|
  {
    if w != [] {
      WordNoSpace(w[1..]);
    }
  }

  /** One space after a word cuts it off. */
  lemma SplitWsCons(w: string, rest: string)
    requires NoSpace(w) && rest != [] && !IsJsSpace(rest[0])
    ensures SplitWs(w + " " + rest) == [w] + SplitWs(rest)
  {
    var s := w + " " + rest;
    WordPrefix(w, " " + rest);
    assert s == w + (" " + rest);
    assert s[|w|..] == " " + rest;
    assert SpaceLen(" " + rest) == 1 by {
      assert (" " + rest)[1..] == rest;
    }
    assert (" " + rest)[1..] == rest;
    assert s[..|w|] == w;
  }

  lemma {:induction false} WordPrefix(w: string, t: string)
    requires NoSpace(w) && t != [] && IsJsSpace(t[0])
    ensures WordLen(w + t) == |w|
    decreases |w|
  {
    if w == [] {
      assert w + t == t;
    } else {
      assert (w + t)[1..] == w[1..] + t;
      WordPrefix(w[1..], t);
    }
  }

  function TrimEach(pieces: seq<string>): (r: seq<string>)
    ensures |r| == |pieces|
  {
    seq(|pieces|, i requires 0 <= i < |pieces| => Trim(pieces[i]))
  }

  /** `filter(s => s.length > 0)`. */
  function DropEmpty(pieces: seq<string>): (r: seq<string>)
    ensures forall i :: 0 <= i < |r| ==> r[i] != []
    ensures |r| <= |pieces|
  {
    if pieces == [] then []
    else (if pieces[0] == [] then [] else [pieces[0]]) + DropEmpty(pieces[1..])
  }

  /** `str.split(";").map(s => s.trim()).filter(s => s.length > 0)`. */
  function Groups(s: string): seq<string> {
    DropEmpty(TrimEach(Split(s, ';')))
  }

  /** A group as the Rust side prints it: non-blank, no ';', no space at either end. */
  predicate CleanGroup(t: string) {
    t != [] && ';' !in t && !IsJsSpace(t[0]) && !IsJsSpace(t[|t| - 1])
  }

  predicate AllSpaces(p: string) {
    forall i :: 0 <= i < |p| ==> IsJsSpace(p[i])
  }

  /** Leading spaces and a group without ';' make a text without ';'. */
  lemma NoSemicolon(p: string, t: string, q: string)
    requires AllSpaces(p) && ';' !in t && ';' !in q
    ensures ';' !in p + t + q
  {
    var a := p + t + q;
    forall i | 0 <= i < |a|
      ensures a[i] != ';'
    {
      if i < |p| {
        assert a[i] == p[i];
      } else if i < |p| + |t| {
        assert a[i] == t[i - |p|];
      } else {
        assert a[i] == q[i - |p| - |t|];
      }
    }
  }

  /** Splitting `p + Join(texts, " ; ")` on ';' and trimming gives the texts back. */
  lemma {:induction false} TrimmedPieces(p: string, texts: seq<string>)
    requires AllSpaces(p) && texts != []
    requires forall k :: 0 <= k < |texts| ==> CleanGroup(texts[k])
    ensures TrimEach(Split(p + Join(texts, " ; "), ';')) == texts
    decreases |texts|
  {
    var t0 := texts[0];
    if |texts| == 1 {
      NoSemicolon(p, t0, "");
      assert p + t0 + "" == p + t0;
      SplitNoSeparator(p + t0, ';');
      TrimPadded(p, t0, "");
      assert p + t0 + "" == p + t0;
    } else {
      TrimmedPieces(" ", texts[1..]);
      assert AllSpaces(" ");
      TrimmedStep(p, t0, texts[1..]);
      assert [t0] + texts[1..] == texts;
    }
  }

  /** One group in front of pieces that already trim back to `rest`. */
  lemma TrimmedStep(p: string, t0: string, rest: seq<string>)
    requires AllSpaces(p) && CleanGroup(t0) && rest != []
    requires TrimEach(Split(" " + Join(rest, " ; "), ';')) == rest
    ensures TrimEach(Split(p + Join([t0] + rest, " ; "), ';')) == [t0] + rest
  {
    var a := p + t0 + " ";
    var b := " " + Join(rest, " ; ");
    JoinCons(t0, rest, " ; ");
    assert p + Join([t0] + rest, " ; ") == a + [';'] + b;
    SplitAppend(a, b, ';');
    NoSemicolon(p, t0, " ");
    SplitNoSeparator(a, ';');
    TrimPadded(p, t0, " ");
    assert TrimEach([a] + Split(b, ';')) == [Trim(a)] + TrimEach(Split(b, ';'));
  }

  lemma {:induction false} DropEmptyKeeps(pieces: seq<string>)
    requires forall i :: 0 <= i < |pieces| ==> pieces[i] != []
    ensures DropEmpty(pieces) == pieces
    decreases |pieces|
  {
    if pieces != [] {
      DropEmptyKeeps(pieces[1..]);
      assert [pieces[0]] + pieces[1..] == pieces;
    }
  }

  /** The groups of `texts.join(" ; ")` are the texts themselves. */
  lemma GroupsOfJoin(texts: seq<string>)
    requires forall k :: 0 <= k < |texts| ==> CleanGroup(texts[k])
    ensures Groups(Join(texts, " ; ")) == texts
  {
    if texts == [] {
      assert Split("", ';') == [""];
      assert Trim("") == "";
      assert TrimEach([""]) == [""];
    } else {
      TrimmedPieces("", texts);
      assert "" + Join(texts, " ; ") == Join(texts, " ; ");
      DropEmptyKeeps(texts);
    }
  }

  /** A printed integer reads back through `Number`. */
  lemma JsNumberOfNat(n: nat)
    ensures JsNumber(NatToString(n)) == Some(n as real)
  {
    var s := NatToString(n);
    TrimClean(s);
    ParseDecimalOfNat(n);
  }

  /** `trim` leaves a text without spaces at its ends as it is. */
  lemma TrimClean(s: string)
    requires s != [] && !IsJsSpace(s[0]) && !IsJsSpace(s[|s| - 1])
    ensures Trim(s) == s
  {
    TrimPadded("", s, "");
    assert "" + s + "" == s;
  }
}
