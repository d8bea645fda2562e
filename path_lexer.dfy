/**
 * The tokenizer of SVG path data (`tokenize_svg_path`, shared verbatim by src/canvas.rs and
 * src/svg.rs). It scans with a one-character peek: whitespace and ',' are dropped, one
 * alphabetic character is a command token, and anything else starts a number: an optional
 * '-' then the longest run of digits and '.'. A lone "-" and an empty run are dropped.
 *
 * A character outside those classes (such as '+') is peeked but never consumed, so the Rust
 * loop never ends. `Tokenize` returns None exactly for such inputs; the method requires them
 * away.
 */
module PathLexer {
  import opened Wrappers
  import opened Strings

  predicate IsSeparator(c: char) { IsRustWhitespace(c) || c == ',' }

  /** `char::is_alphabetic`, restricted to ASCII letters (see README). */
  predicate IsAlphabetic(c: char) { IsAsciiAlpha(c) }

  predicate IsNumChar(c: char) { IsAsciiDigit(c) || c == '.' }

  /** The characters that some branch of the scanner consumes. */
  predicate Consumable(c: char) { IsSeparator(c) || IsAlphabetic(c) || c == '-' || IsNumChar(c) }

  predicate AllConsumable(s: string) { forall i :: 0 <= i < |s| ==> Consumable(s[i]) }

  /** A one-letter command token. */
  predicate IsLetterToken(t: string) { |t| == 1 && IsAlphabetic(t[0]) }

  /** A number token: an optional '-' and a non-empty run of digits and '.'. */
  predicate IsNumberToken(t: string) {
    t != [] &&
    var body := if t[0] == '-' then t[1..] else t;
    body != [] && forall i :: 0 <= i < |body| ==> IsNumChar(body[i])
  }

  /** Length of the longest prefix of digits and '.'. */
  function NumRun(s: string): (k: nat)
    ensures k <= |s|
    decreases |s|
  {
    if s != [] && IsNumChar(s[0]) then 1 + NumRun(s[1..]) else 0
  }

  /** The run is the longest prefix of digits and '.'. */
  lemma {:induction false} NumRunChars(s: string)
    ensures forall i :: 0 <= i < NumRun(s) ==> IsNumChar(s[i])
    ensures NumRun(s) < |s| ==> !IsNumChar(s[NumRun(s)])
    decreases |s|
  {
    if s != [] && IsNumChar(s[0]) {
      NumRunChars(s[1..]);
      assert forall i :: 1 <= i < |s| ==> s[i] == s[1..][i - 1];
    }
  }

  /** Where a number that starts at s[0] ends: the optional '-' plus the digit/'.' run. */
  function NumberEnd(s: string): (e: nat)
    requires s != [] && (s[0] == '-' || IsNumChar(s[0]))
    ensures 1 <= e <= |s|
  {
    var lead := if s[0] == '-' then 1 else 0;
    lead + NumRun(s[lead..])
  }

  function Cons(t: string, rest: Option<seq<string>>): Option<seq<string>> {
    match rest
    case Some(ts) => Some([t] + ts)
    case None => None
  }

  /** The tokens of `s`, or None when the scanner gets stuck on an unconsumable character. */
  function Tokenize(s: string): Option<seq<string>>
    decreases |s|
  {
    if s == [] then Some([])
    else if IsSeparator(s[0]) then Tokenize(s[1..])
    else if IsAlphabetic(s[0]) then Cons([s[0]], Tokenize(s[1..]))
    else if s[0] == '-' || IsNumChar(s[0]) then
      var e := NumberEnd(s);
      if s[..e] == "-" then Tokenize(s[e..]) else Cons(s[..e], Tokenize(s[e..]))
    else None
  }

  /** `tokenize_svg_path`, with the peekable iterator replaced by an index into the string. */
  method TokenizeSvgPath(path: string) returns (tokens: seq<string>)
    requires AllConsumable(path)
    ensures Tokenize(path) == Some(tokens)
  {
    tokens := [];
    var k := 0;
    assert path[k..] == path;
    TerminatesIffConsumable(path);
    assert tokens + Tokenize(path).value == Tokenize(path).value;
    while k < |path|
      invariant 0 <= k <= |path|
      invariant Tokenize(path[k..]).Some?
      invariant Tokenize(path) == Some(tokens + Tokenize(path[k..]).value)
    {
      var ch := path[k];
      if IsSeparator(ch) {
        StepSeparator(path, k, tokens, Tokenize(path).value);
        k := k + 1;
      } else if IsAlphabetic(ch) {
        StepLetter(path, k, tokens, Tokenize(path).value);
        tokens := tokens + [[ch]];
        k := k + 1;
      } else {
        var num, j := ScanNumber(path, k);
        StepNumber(path, k, j, tokens, Tokenize(path).value);
        if num != [] && num != "-" {
          tokens := tokens + [num];
        }
        k := j;
      }
    }
    assert path[k..] == [];
    assert tokens + [] == tokens;
  }

  /** The loop's separator branch keeps its invariant. */
  lemma StepSeparator(path: string, k: nat, tokens: seq<string>, all: seq<string>)
    requires k < |path| && IsSeparator(path[k])
    requires Tokenize(path[k..]).Some? && all == tokens + Tokenize(path[k..]).value
    ensures Tokenize(path[k + 1..]).Some? && all == tokens + Tokenize(path[k + 1..]).value
  {
    assert [path[k]] + path[k + 1..] == path[k..];
    TokenizeSeparator(path[k], path[k + 1..]);
  }

  /** The loop's letter branch keeps its invariant. */
  lemma StepLetter(path: string, k: nat, tokens: seq<string>, all: seq<string>)
    requires k < |path| && !IsSeparator(path[k]) && IsAlphabetic(path[k])
    requires Tokenize(path[k..]).Some? && all == tokens + Tokenize(path[k..]).value
    ensures Tokenize(path[k + 1..]).Some? && all == tokens + [[path[k]]] + Tokenize(path[k + 1..]).value
  {
    var ch := path[k];
    assert [ch] + path[k + 1..] == path[k..];
    TokenizeLetter(ch, path[k + 1..]);
    var later := Tokenize(path[k + 1..]).value;
    assert tokens + ([[ch]] + later) == tokens + [[ch]] + later;
  }

  /** The loop's number branch keeps its invariant; a lone "-" adds no token. */
  lemma StepNumber(path: string, k: nat, j: nat, tokens: seq<string>, all: seq<string>)
    requires k < |path| && !IsSeparator(path[k]) && !IsAlphabetic(path[k]) && (path[k] == '-' || IsNumChar(path[k]))
    requires j == k + NumberEnd(path[k..])
    requires Tokenize(path[k..]).Some? && all == tokens + Tokenize(path[k..]).value
    ensures Tokenize(path[j..]).Some?
    ensures all == (if path[k..j] != "-" then tokens + [path[k..j]] else tokens) + Tokenize(path[j..]).value
  {
    NumberHeadAt(path, k, j);
    var num := path[k..j];
    var later := Tokenize(path[j..]).value;
    if num != "-" {
      assert tokens + ([num] + later) == tokens + [num] + later;
    } else {
      assert [] + later == later;
    }
  }

  lemma NumberHeadAt(path: string, k: nat, j: nat)
    requires k < |path| && !IsSeparator(path[k]) && !IsAlphabetic(path[k]) && (path[k] == '-' || IsNumChar(path[k]))
    requires j == k + NumberEnd(path[k..])
    requires Tokenize(path[k..]).Some?
    ensures Tokenize(path[j..]).Some?
    ensures Tokenize(path[k..]).value == (if path[k..j] != "-" then [path[k..j]] else []) + Tokenize(path[j..]).value
  {
    NumberHead(path[k..]);
    SliceOfSlice(path, k, j);
  }

  /** The scanner at a number: the number token, unless it is a lone "-", then the rest. */
  lemma NumberHead(s: string)
    requires s != [] && !IsSeparator(s[0]) && !IsAlphabetic(s[0]) && (s[0] == '-' || IsNumChar(s[0]))
    requires Tokenize(s).Some?
    ensures Tokenize(s[NumberEnd(s)..]).Some?
    ensures Tokenize(s).value
         == (if s[..NumberEnd(s)] != "-" then [s[..NumberEnd(s)]] else []) + Tokenize(s[NumberEnd(s)..]).value
  {
    TokenizeNumberBranch(s);
  }

  lemma SliceOfSlice(s: string, k: nat, j: nat)
    requires k <= j <= |s|
    ensures s[k..][..j - k] == s[k..j] && s[k..][j - k..] == s[j..]
  {
  }

  /** The number branch of the scanner: an optional '-' then the digit/'.' loop. */
  method ScanNumber(path: string, k: nat) returns (num: string, j: nat)
    requires k < |path| && (path[k] == '-' || IsNumChar(path[k]))
    ensures j == k + NumberEnd(path[k..]) && num == path[k..j]
  {
    num := "";
    j := k;
    if path[k] == '-' {
      num := num + [path[k]];
      j := j + 1;
    }
    NumberEndAt(path, k, j - k);
    SliceSnoc(path, k, k);
    while j < |path| && IsNumChar(path[j])
      invariant k <= j <= |path|
      invariant num == path[k..j]
      invariant NumberEnd(path[k..]) == (j - k) + NumRun(path[j..])
    {
      NumRunStep(path, j);
      SliceSnoc(path, k, j);
      num := num + [path[j]];
      j := j + 1;
    }
    NumRunStop(path, j);
  }

  /** Where the number starting at k ends, counted from the digit run after the sign. */
  lemma NumberEndAt(s: string, k: nat, lead: nat)
    requires k < |s| && (s[k] == '-' || IsNumChar(s[k]))
    requires lead == if s[k] == '-' then 1 else 0
    ensures NumberEnd(s[k..]) == lead + NumRun(s[k + lead..])
  {
    assert s[k..][0] == s[k];
    assert s[k..][lead..] == s[k + lead..];
  }

  lemma SliceSnoc(s: string, k: nat, j: nat)
    requires k <= j < |s|
    ensures s[k..j + 1] == s[k..j] + [s[j]]
  {
  }

  lemma NumRunStep(s: string, j: nat)
    requires j < |s| && IsNumChar(s[j])
    ensures NumRun(s[j..]) == 1 + NumRun(s[j + 1..])
  {
    assert s[j..][0] == s[j] && s[j..][1..] == s[j + 1..];
  }

  lemma NumRunStop(s: string, j: nat)
    requires j <= |s| && (j == |s| || !IsNumChar(s[j]))
    ensures NumRun(s[j..]) == 0
  {
    if j < |s| {
      assert s[j..][0] == s[j];
    }
  }

  // ---------------------------------------------------------------- properties

  /** The scanner terminates exactly when every character belongs to a consumed class. */
  lemma {:induction false} TerminatesIffConsumable(s: string)
    ensures Tokenize(s).Some? <==> AllConsumable(s)
    decreases |s|
  {
    if s != [] {
      if IsSeparator(s[0]) || IsAlphabetic(s[0]) {
        TerminatesIffConsumable(s[1..]);
        assert AllConsumable(s) <==> AllConsumable(s[1..]) by {
          assert forall i :: 0 < i < |s| ==> s[i] == s[1..][i - 1];
        }
      } else if s[0] == '-' || IsNumChar(s[0]) {
        var e := NumberEnd(s);
        TerminatesIffConsumable(s[e..]);
        assert forall i :: 0 <= i < e ==> Consumable(s[i]) by {
          var lead := if s[0] == '-' then 1 else 0;
          NumRunChars(s[lead..]);
          forall i | 0 <= i < e ensures Consumable(s[i]) {
            if i >= lead { assert s[i] == s[lead..][i - lead]; }
          }
        }
        assert AllConsumable(s) <==> AllConsumable(s[e..]) by {
          assert forall i :: e <= i < |s| ==> s[i] == s[e..][i - e];
        }
      } else {
        assert !Consumable(s[0]);
      }
    }
  }

  /** Every token is a single letter or a number token: separators never end up inside one. */
  lemma {:induction false} TokenShapes(s: string)
    requires Tokenize(s).Some?
    ensures forall t :: t in Tokenize(s).value ==> IsLetterToken(t) || IsNumberToken(t)
    decreases |s|
  {
    if s != [] {
      if IsSeparator(s[0]) || IsAlphabetic(s[0]) {
        TokenShapes(s[1..]);
      } else {
        var e := NumberEnd(s);
        TokenShapes(s[e..]);
        var num := s[..e];
        if num != "-" {
          var lead := if s[0] == '-' then 1 else 0;
          var body := if num[0] == '-' then num[1..] else num;
          NumRunChars(s[lead..]);
          assert body == s[lead..][..e - lead];
          assert IsNumberToken(num);
        }
      }
    }
  }

  /** A number token holds neither separators nor letters. */
  lemma NumberTokenChars(t: string)
    requires IsNumberToken(t)
    ensures forall i :: 0 <= i < |t| ==> !IsSeparator(t[i]) && !IsAlphabetic(t[i])
  {
    var body := if t[0] == '-' then t[1..] else t;
    forall i | 0 <= i < |t| ensures !IsSeparator(t[i]) && !IsAlphabetic(t[i]) {
      if t[0] == '-' {
        if i > 0 { assert t[i] == body[i - 1]; assert IsNumChar(body[i - 1]); }
      } else {
        assert t[i] == body[i]; assert IsNumChar(body[i]);
      }
    }
  }

  function Concat(ts: seq<string>): string
    decreases |ts|
  {
    if ts == [] then "" else ts[0] + Concat(ts[1..])
  }

  /** `a` embeds into `b` in order, possibly with characters of `b` in between. */
  predicate IsSubsequence(a: string, b: string)
    decreases |b|
  {
    a == [] || (b != [] && ((a[0] == b[0] && IsSubsequence(a[1..], b[1..])) || IsSubsequence(a, b[1..])))
  }

  lemma {:induction false} SubsequenceSkip(a: string, p: string, b: string)
    requires IsSubsequence(a, b)
    ensures IsSubsequence(a, p + b)
    decreases |p|
  {
    if p != [] && a != [] {
      SubsequenceSkip(a, p[1..], b);
      assert (p + b)[1..] == p[1..] + b;
      assert IsSubsequence(a, (p + b)[1..]);
    } else if p == [] {
      assert p + b == b;
    }
  }

  lemma {:induction false} SubsequenceKeep(p: string, a: string, b: string)
    requires IsSubsequence(a, b)
    ensures IsSubsequence(p + a, p + b)
    decreases |p|
  {
    if p != [] {
      SubsequenceKeep(p[1..], a, b);
      assert (p + a)[1..] == p[1..] + a;
      assert (p + b)[1..] == p[1..] + b;
      assert (p + a)[0] == (p + b)[0];
      assert IsSubsequence((p + a)[1..], (p + b)[1..]);
    } else {
      assert p + a == a && p + b == b;
    }
  }

  /** The tokens are taken from the input in order: their concatenation embeds into it. */
  lemma {:induction false} TokensInInputOrder(s: string)
    requires Tokenize(s).Some?
    ensures IsSubsequence(Concat(Tokenize(s).value), s)
    decreases |s|
  {
    if s != [] {
      var ts := Tokenize(s).value;
      if IsSeparator(s[0]) {
        TokensInInputOrder(s[1..]);
        SubsequenceSkip(Concat(ts), [s[0]], s[1..]);
        assert [s[0]] + s[1..] == s;
      } else if IsAlphabetic(s[0]) {
        TokensInInputOrder(s[1..]);
        var ts' := Tokenize(s[1..]).value;
        assert ts[1..] == ts';
        SubsequenceKeep([s[0]], Concat(ts'), s[1..]);
        assert [s[0]] + s[1..] == s;
      } else {
        var e := NumberEnd(s);
        TokensInInputOrder(s[e..]);
        var ts' := Tokenize(s[e..]).value;
        assert s[..e] + s[e..] == s;
        if s[..e] == "-" {
          SubsequenceSkip(Concat(ts'), s[..e], s[e..]);
        } else {
          assert ts[1..] == ts';
          SubsequenceKeep(s[..e], Concat(ts'), s[e..]);
        }
      }
    }
  }

  /** The alphabetic characters of `s`, in order. */
  function Letters(s: string): string
    decreases |s|
  {
    if s == [] then "" else (if IsAlphabetic(s[0]) then [s[0]] else "") + Letters(s[1..])
  }

  /** The command letters among the tokens, in order. */
  function LetterTokens(ts: seq<string>): string
    decreases |ts|
  {
    if ts == [] then "" else (if IsLetterToken(ts[0]) then ts[0] else "") + LetterTokens(ts[1..])
  }

  lemma {:induction false} LettersAppend(a: string, b: string)
    ensures Letters(a + b) == Letters(a) + Letters(b)
    decreases |a|
  {
    if a != [] {
      assert (a + b)[1..] == a[1..] + b;
      LettersAppend(a[1..], b);
      var h := if IsAlphabetic(a[0]) then [a[0]] else "";
      calc {
        Letters(a + b);
        h + Letters(a[1..] + b);
        h + (Letters(a[1..]) + Letters(b));
        (h + Letters(a[1..])) + Letters(b);
        Letters(a) + Letters(b);
      }
    } else {
      assert a + b == b;
    }
  }

  lemma {:induction false} NoLettersInNumber(s: string)
    requires forall i :: 0 <= i < |s| ==> !IsAlphabetic(s[i])
    ensures Letters(s) == ""
    decreases |s|
  {
    if s != [] { NoLettersInNumber(s[1..]); }
  }

  /** No command letter is lost or reordered: each alphabetic character becomes its own token. */
  lemma {:induction false} LettersBecomeTokens(s: string)
    requires Tokenize(s).Some?
    ensures LetterTokens(Tokenize(s).value) == Letters(s)
    decreases |s|
  {
    if s != [] {
      var ts := Tokenize(s).value;
      if IsSeparator(s[0]) {
        LettersBecomeTokens(s[1..]);
      } else if IsAlphabetic(s[0]) {
        LettersBecomeTokens(s[1..]);
        assert ts[1..] == Tokenize(s[1..]).value;
      } else {
        var e := NumberEnd(s);
        LettersBecomeTokens(s[e..]);
        NumberHasNoLetters(s);
        TokenizeNumberBranch(s);
        if s[..e] != "-" {
          assert ts == [s[..e]] + Tokenize(s[e..]).value;
          assert ts[1..] == Tokenize(s[e..]).value;
          assert !IsLetterToken(ts[0]);
        }
      }
    }
  }

  /** The number scanned at the head of `s` contributes no letter. */
  lemma NumberHasNoLetters(s: string)
    requires s != [] && (s[0] == '-' || IsNumChar(s[0]))
    ensures Letters(s) == Letters(s[NumberEnd(s)..])
  {
    var e := NumberEnd(s);
    var num, tail := s[..e], s[e..];
    assert num + tail == s;
    LettersAppend(num, tail);
    NumberPrefixChars(s);
    NoLettersInNumber(num);
  }

  lemma NumberPrefixChars(s: string)
    requires s != [] && (s[0] == '-' || IsNumChar(s[0]))
    ensures forall i :: 0 <= i < NumberEnd(s) ==> !IsAlphabetic(s[i]) && !IsSeparator(s[i])
  {
    var lead := if s[0] == '-' then 1 else 0;
    var body := s[lead..];
    NumRunChars(body);
    forall i | 0 <= i < NumberEnd(s) ensures !IsAlphabetic(s[i]) && !IsSeparator(s[i]) {
      if i >= lead {
        assert s[i] == body[i - lead];
        assert IsNumChar(body[i - lead]);
      }
    }
  }

  // ---------------------------------------------------------------- composition

  /** A letter, then anything: the letter is the first token. */
  lemma TokenizeLetter(c: char, rest: string)
    requires IsAlphabetic(c)
    ensures Tokenize([c] + rest) == Cons([c], Tokenize(rest))
  {
    assert ([c] + rest)[1..] == rest;
  }

  /** A separator, then anything: the separator vanishes. */
  lemma TokenizeSeparator(c: char, rest: string)
    requires IsSeparator(c)
    ensures Tokenize([c] + rest) == Tokenize(rest)
  {
    assert ([c] + rest)[1..] == rest;
  }

  lemma {:induction false} NumRunOfAppend(a: string, b: string)
    requires forall i :: 0 <= i < |a| ==> IsNumChar(a[i])
    requires b == [] || !IsNumChar(b[0])
    ensures NumRun(a + b) == |a|
    decreases |a|
  {
    if a != [] {
      assert (a + b)[1..] == a[1..] + b;
      NumRunOfAppend(a[1..], b);
    } else {
      assert a + b == b;
    }
  }

  /** A number token followed by a separator (or the end) is one token. */
  lemma TokenizeNumber(num: string, rest: string)
    requires IsNumberToken(num)
    requires rest == [] || IsSeparator(rest[0])
    ensures Tokenize(num + rest) == Cons(num, Tokenize(rest))
  {
    var s := num + rest;
    NumberEndOfToken(num, rest);
    assert s[..|num|] == num && s[|num|..] == rest;
    assert num != "-" by {
      if num[0] == '-' { assert num[1..] != []; }
    }
    TokenizeNumberBranch(s);
  }

  /** The scanner's number ends exactly where the number token does. */
  lemma NumberEndOfToken(num: string, rest: string)
    requires IsNumberToken(num)
    requires rest == [] || IsSeparator(rest[0])
    ensures var s := num + rest; s != [] && !IsSeparator(s[0]) && !IsAlphabetic(s[0])
    ensures var s := num + rest; (s[0] == '-' || IsNumChar(s[0])) && NumberEnd(s) == |num|
  {
    var s := num + rest;
    var lead := if num[0] == '-' then 1 else 0;
    var body := num[lead..];
    assert s[0] == num[0];
    NumberTokenChars(num);
    assert s[lead..] == body + rest;
    assert rest == [] || !IsNumChar(rest[0]);
    NumRunOfAppend(body, rest);
  }

  /** One unfolding of `Tokenize` at a number. */
  lemma TokenizeNumberBranch(s: string)
    requires s != [] && !IsSeparator(s[0]) && !IsAlphabetic(s[0]) && (s[0] == '-' || IsNumChar(s[0]))
    ensures var e := NumberEnd(s);
      Tokenize(s) == if s[..e] == "-" then Tokenize(s[e..]) else Cons(s[..e], Tokenize(s[e..]))
  {
  }
}
