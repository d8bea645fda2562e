/**
 * The command-line tool (src/bin/circles-sketch.rs): the command line it records in the
 * generated page, the y-flip and sizing of `generate`, the output stem of `load_text`, and
 * the `d="..."` extraction of `load_svg`.
 */
module Sketch {
  import opened Wrappers
  import opened Strings
  import opened Geometry
  import PathInterpreter

  // ---------------------------------------------------------------- the recorded command line

  /** `Path::new(a).file_name()`, or `a` itself when there is none: the text after the last '/'. */
  function FileName(a: string): (r: string)
    ensures |r| <= |a| && '/' !in r
    ensures a[|a| - |r|..] == r && (|r| == |a| || a[|a| - |r| - 1] == '/')
    decreases |a|
  {
    if a == [] then []
    else if a[|a| - 1] == '/' then []
    else FileName(a[..|a| - 1]) + [a[|a| - 1]]
  }

  /** The program path as recorded: its file name, unless that is empty or `..`. */
  function ProgramName(a: string): (r: string)
    ensures '/' !in a ==> r == a
    ensures |r| <= |a| && a[|a| - |r|..] == r
    ensures '/' in a && r != a ==> '/' !in r && r != [] && r != ".."
  {
    var n := FileName(a);
    if '/' !in a then FileNameOfPlain(a); a
    else if n == [] || n == ".." then a else n
  }

  lemma {:induction false} FileNameOfPlain(a: string)
    requires '/' !in a
    ensures FileName(a) == a
    decreases |a|
  {
    if a != [] {
      FileNameOfPlain(a[..|a| - 1]);
      assert a[..|a| - 1] + [a[|a| - 1]] == a;
    }
  }

  /** The test `a.contains(|c| c.is_whitespace() || c == '\'' || c == '"')`. */
  predicate NeedsQuotes(a: string) {
    exists i :: 0 <= i < |a| && (IsRustWhitespace(a[i]) || a[i] == '\'' || a[i] == '"')
  }

  /** One argument as recorded: single-quoted, each `'` written `'\''`, when it needs quotes. */
  function QuoteArg(a: string): (r: string)
    ensures !NeedsQuotes(a) ==> r == a
    ensures NeedsQuotes(a) ==> |r| >= 2 && r[0] == '\'' && r[|r| - 1] == '\''
  {
    if NeedsQuotes(a) then "'" + ReplaceChar(a, '\'', "'\\''") + "'" else a
  }

  /** The arguments as recorded, the first reduced to its file name. */
  function QuotedArgs(args: seq<string>): (r: seq<string>)
    ensures |r| == |args|
  {
    if args == [] then [] else [QuoteArg(ProgramName(args[0]))] + QuoteAll(args[1..])
  }

  function QuoteAll(args: seq<string>): (r: seq<string>)
    ensures |r| == |args|
  {
    if args == [] then [] else [QuoteArg(args[0])] + QuoteAll(args[1..])
  }

  /** `command_line`. */
  function CommandLine(args: seq<string>): string {
    Join(QuotedArgs(args), " ")
  }

  /** The separators of a POSIX shell's command line. */
  predicate IsBlank(c: char) { c == ' ' || c == '\t' || c == '\n' }

  /**
   * The words a POSIX shell reads from a line with single quotes, backslash escapes and
   * blanks (no expansions): `quoted` inside '...', `cur` the word so far, `started` whether
   * a word has begun (`''` starts an empty one).
   */
  function ShellWords(s: string, quoted: bool, cur: string, started: bool, acc: seq<string>): seq<string>
    decreases |s|
  {
    if s == [] then (if started then acc + [cur] else acc)
    else if quoted then
      if s[0] == '\'' then ShellWords(s[1..], false, cur, true, acc)
      else ShellWords(s[1..], true, cur + [s[0]], true, acc)
    else if IsBlank(s[0]) then
      ShellWords(s[1..], false, "", false, if started then acc + [cur] else acc)
    else if s[0] == '\'' then ShellWords(s[1..], true, cur, true, acc)
    else if s[0] == '\\' && |s| >= 2 then ShellWords(s[2..], false, cur + [s[1]], true, acc)
    else ShellWords(s[1..], false, cur + [s[0]], true, acc)
  }

  function Words(line: string): seq<string> {
    ShellWords(line, false, "", false, [])
  }

  /** An argument the shell reads back: non-empty, and a backslash only inside quotes. */
  predicate ReadsBack(a: string) {
    a != [] && ('\\' in a ==> NeedsQuotes(a))
  }

  /** Inside quotes, `'\''` closes the quotes, adds an escaped `'` and opens them again. */
  lemma EscapedQuote(tail: string, cur: string, acc: seq<string>)
    ensures ShellWords("'\\''" + tail, true, cur, true, acc) == ShellWords(tail, true, cur + ['\''], true, acc)
  {
    var s := "'\\''" + tail;
    var s1 := "\\''" + tail;
    var s2 := "'" + tail;
    assert s[0] == '\'' && s[1..] == s1;
    assert s1[0] == '\\' && s1[1] == '\'' && s1[2..] == s2;
    assert s2[0] == '\'' && s2[1..] == tail;
    calc {
      ShellWords(s, true, cur, true, acc);
      ShellWords(s1, false, cur, true, acc);
      ShellWords(s2, false, cur + ['\''], true, acc);
      ShellWords(tail, true, cur + ['\''], true, acc);
    }
  }

  lemma QuotedChar(c: char, tail: string, cur: string, acc: seq<string>)
    requires c != '\''
    ensures ShellWords([c] + tail, true, cur, true, acc) == ShellWords(tail, true, cur + [c], true, acc)
  {
    assert ([c] + tail)[1..] == tail;
  }

  /** Inside quotes, the escaped text of `a` is read as `a`. */
  lemma {:induction false} QuotedBody(a: string, x: string, cur: string, acc: seq<string>)
    ensures ShellWords(ReplaceChar(a, '\'', "'\\''") + x, true, cur, true, acc) == ShellWords(x, true, cur + a, true, acc)
    decreases |a|
  {
    if a == [] {
      assert ReplaceChar(a, '\'', "'\\''") + x == x;
      assert cur + a == cur;
    } else {
      var c := a[0];
      var tail := ReplaceChar(a[1..], '\'', "'\\''") + x;
      QuotedBody(a[1..], x, cur + [c], acc);
      assert cur + [c] + a[1..] == cur + a;
      if c == '\'' {
        assert ReplaceChar(a, '\'', "'\\''") + x == "'\\''" + tail;
        EscapedQuote(tail, cur, acc);
      } else {
        assert ReplaceChar(a, '\'', "'\\''") + x == [c] + tail;
        QuotedChar(c, tail, cur, acc);
      }
    }
  }

  /** Outside quotes, an argument without blanks, quotes or backslashes is read as itself. */
  lemma {:induction false} PlainBody(a: string, x: string, cur: string, started: bool, acc: seq<string>)
    requires !NeedsQuotes(a) && '\\' !in a
    ensures ShellWords(a + x, false, cur, started, acc) == ShellWords(x, false, cur + a, started || a != [], acc)
    decreases |a|
  {
    if a == [] {
      assert a + x == x;
      assert cur + a == cur;
    } else {
      var c := a[0];
      assert !IsRustWhitespace(c) && c != '\'' && c != '"' by {
        assert !(IsRustWhitespace(a[0]) || a[0] == '\'' || a[0] == '"');
      }
      assert !NeedsQuotes(a[1..]) by {
        forall i | 0 <= i < |a[1..]|
          ensures !(IsRustWhitespace(a[1..][i]) || a[1..][i] == '\'' || a[1..][i] == '"')
        {
          assert a[1..][i] == a[i + 1];
        }
      }
      PlainBody(a[1..], x, cur + [c], true, acc);
      assert (a + x)[1..] == a[1..] + x;
      assert cur + [c] + a[1..] == cur + a;
    }
  }

  /** A single quote opens quotes outside them and closes them inside. */
  lemma QuoteToggles(rest: string, quoted: bool, cur: string, started: bool, acc: seq<string>)
    ensures ShellWords("'" + rest, quoted, cur, started, acc) == ShellWords(rest, !quoted, cur, true, acc)
  {
    assert ("'" + rest)[0] == '\'' && ("'" + rest)[1..] == rest;
  }

  /** One recorded argument is read as that argument. */
  lemma QuotedWord(a: string, x: string, cur: string, started: bool, acc: seq<string>)
    requires ReadsBack(a)
    ensures ShellWords(QuoteArg(a) + x, false, cur, started, acc) == ShellWords(x, false, cur + a, true, acc)
  {
    if NeedsQuotes(a) {
      var body := ReplaceChar(a, '\'', "'\\''");
      var closing := "'" + x;
      assert QuoteArg(a) + x == "'" + (body + closing);
      QuoteToggles(body + closing, false, cur, started, acc);
      QuotedBody(a, closing, cur, acc);
      QuoteToggles(x, true, cur + a, true, acc);
    } else {
      PlainBody(a, x, cur, started, acc);
    }
  }

  /** Every argument reads back. */
  predicate EachReadsBack(args: seq<string>) {
    args == [] || (ReadsBack(args[0]) && EachReadsBack(args[1..]))
  }

  lemma {:induction false} EachReadsBackMeans(args: seq<string>)
    ensures EachReadsBack(args) <==> forall k :: 0 <= k < |args| ==> ReadsBack(args[k])
    decreases |args|
  {
    if args != [] {
      EachReadsBackMeans(args[1..]);
      assert forall k :: 1 <= k < |args| ==> args[k] == args[1..][k - 1];
    }
  }

  lemma {:induction false} WordsOfJoin(args: seq<string>, acc: seq<string>)
    requires args != [] && EachReadsBack(args)
    ensures ShellWords(Join(QuoteAll(args), " "), false, "", false, acc) == acc + args
    decreases |args|
  {
    if |args| == 1 {
      WordOfOne(args[0], acc);
      assert args == [args[0]];
    } else {
      WordsOfJoin(args[1..], acc + [args[0]]);
      WordsOfJoinStep(args, acc);
    }
  }

  lemma WordOfOne(a: string, acc: seq<string>)
    requires ReadsBack(a)
    ensures ShellWords(Join(QuoteAll([a]), " "), false, "", false, acc) == acc + [a]
  {
    assert QuoteAll([a]) == [QuoteArg(a)];
    QuotedWord(a, "", "", false, acc);
    assert QuoteArg(a) + "" == QuoteArg(a);
    assert "" + a == a;
  }

  /** The first argument is read, then the blank ends it and the others follow. */
  lemma WordsOfJoinStep(args: seq<string>, acc: seq<string>)
    requires |args| >= 2 && ReadsBack(args[0])
    requires ShellWords(Join(QuoteAll(args[1..]), " "), false, "", false, acc + [args[0]]) == acc + [args[0]] + args[1..]
    ensures ShellWords(Join(QuoteAll(args), " "), false, "", false, acc) == acc + args
  {
    var a := args[0];
    var rest := Join(QuoteAll(args[1..]), " ");
    calc {
      ShellWords(Join(QuoteAll(args), " "), false, "", false, acc);
      { JoinQuotedHead(args); }
      ShellWords(QuoteArg(a) + (" " + rest), false, "", false, acc);
      { QuotedWord(a, " " + rest, "", false, acc); assert "" + a == a; }
      ShellWords(" " + rest, false, a, true, acc);
      { BlankEndsWord(rest, a, acc); }
      ShellWords(rest, false, "", false, acc + [a]);
      acc + [a] + args[1..];
      { assert args == [a] + args[1..]; }
      acc + args;
    }
  }

  lemma JoinQuotedHead(args: seq<string>)
    requires |args| >= 2
    ensures Join(QuoteAll(args), " ") == QuoteArg(args[0]) + (" " + Join(QuoteAll(args[1..]), " "))
  {
    assert QuoteAll(args) == [QuoteArg(args[0])] + QuoteAll(args[1..]);
    JoinCons(QuoteArg(args[0]), QuoteAll(args[1..]), " ");
  }

  /** A blank outside quotes ends the word begun. */
  lemma BlankEndsWord(rest: string, cur: string, acc: seq<string>)
    ensures ShellWords(" " + rest, false, cur, true, acc) == ShellWords(rest, false, "", false, acc + [cur])
  {
    assert (" " + rest)[0] == ' ' && (" " + rest)[1..] == rest;
  }

  /**
   * A shell reading the recorded command line gets the arguments back (the program as its
   * file name), provided each is non-empty and has a backslash only where it is quoted.
   */
  lemma CommandLineRoundTrip(args: seq<string>)
    requires args != [] && ReadsBack(ProgramName(args[0]))
    requires forall k :: 1 <= k < |args| ==> ReadsBack(args[k])
    ensures Words(CommandLine(args)) == [ProgramName(args[0])] + args[1..]
  {
    var named := [ProgramName(args[0])] + args[1..];
    assert QuotedArgs(args) == QuoteAll(named) by {
      assert named[1..] == args[1..];
    }
    EachReadsBackMeans(named);
    WordsOfJoin(named, []);
    assert [] + named == named;
  }

  /** Unquoted arguments lose their backslashes: `a\b` is read back as `ab`. */
  lemma BackslashLost()
    ensures Words(QuoteArg("a\\b")) == ["ab"]
  {
    var a := "a\\b";
    assert !NeedsQuotes(a) by {
      forall i | 0 <= i < |a| ensures !(IsRustWhitespace(a[i]) || a[i] == '\'' || a[i] == '"') {
        assert a[i] in "a\\b";
      }
    }
    assert Words(QuoteArg(a)) == ShellWords(a, false, "", false, []);
    assert a[1..] == "\\b";
    assert "\\b"[2..] == [];
    assert "" + ['a'] == "a";
    assert "a" + ['b'] == "ab";
    assert ShellWords(a, false, "", false, []) == ShellWords("\\b", false, "a", true, []);
    assert ShellWords("\\b", false, "a", true, []) == ShellWords("", false, "ab", true, []);
  }

  /** The line recorded for `p "" x`: the empty argument leaves two blanks. */
  lemma EmptyArgLine()
    ensures CommandLine(["p", "", "x"]) == "p  x"
  {
    assert !NeedsQuotes("p") by { assert "p"[0] == 'p'; }
    assert !NeedsQuotes("x") by { assert "x"[0] == 'x'; }
    assert !NeedsQuotes("");
    assert ProgramName("p") == "p" by {
      assert forall i :: 0 <= i < |"p"| ==> "p"[i] == 'p';
    }
    var args := ["p", "", "x"];
    assert args[1..] == ["", "x"] && args[1..][1..] == ["x"] && args[1..][1..][1..] == [];
    assert QuotedArgs(args) == ["p", "", "x"];
    assert ["p", "", "x"][1..] == ["", "x"] && ["", "x"][1..] == ["x"];
    assert CommandLine(args) == "p" + " " + ("" + " " + "x");
  }

  /** An empty argument is recorded as nothing, so the shell loses it: `p "" x` reads back as `p x`. */
  lemma EmptyArgLost()
    ensures Words(CommandLine(["p", "", "x"])) == ["p", "x"]
  {
    EmptyArgLine();
    assert "p  x" == "p" + "  " + "x";
    ReadBlanks("x", "p", ["p", "x"]);
  }

  /** `p`, two blanks, then `x`: the shell reads the two words and nothing between them. */
  lemma ReadBlanks(x: string, p: string, expected: seq<string>)
    requires x == "x" && p == "p" && expected == [p, x]
    ensures ShellWords(p + "  " + x, false, "", false, []) == expected
  {
    var line := p + "  " + x;
    assert line[1..] == "  " + x && line[0] == 'p';
    assert "" + ['p'] == p;
    assert ShellWords(line, false, "", false, []) == ShellWords("  " + x, false, p, true, []);
    assert ("  " + x)[0] == ' ' && ("  " + x)[1..] == " " + x && [] + [p] == [p];
    assert ShellWords("  " + x, false, p, true, []) == ShellWords(" " + x, false, "", false, [p]);
    assert (" " + x)[0] == ' ' && (" " + x)[1..] == x;
    assert ShellWords(" " + x, false, "", false, [p]) == ShellWords(x, false, "", false, [p]);
    assert x[0] == 'x' && x[1..] == [] && "" + ['x'] == x;
    assert ShellWords(x, false, "", false, [p]) == ShellWords([], false, x, true, [p]);
  }

  // ---------------------------------------------------------------- flip and sizing

  /** The contour after `flip_y`. */
  function FlippedY(points: seq<Point>): (r: seq<Point>)
    ensures |r| == |points|
  {
    seq(|points|, i requires 0 <= i < |points| => Point(points[i].x, -points[i].y))
  }

  /** Flipping keeps every x and negates every y; flipping twice restores the contour. */
  lemma FlipFacts(points: seq<Point>)
    ensures forall i :: 0 <= i < |points| ==> FlippedY(points)[i].x == points[i].x && FlippedY(points)[i].y == -points[i].y
    ensures FlippedY(FlippedY(points)) == points
  {
  }

  /** The `if opts.flip_y { for p in &mut contour.points { p.1 = -p.1; } }` of `generate`. */
  method FlipY(points: array<Point>, flip: bool)
    modifies points
    ensures points[..] == if flip then FlippedY(old(points[..])) else old(points[..])
  {
    if flip {
      for i := 0 to points.Length
        invariant points[..i] == FlippedY(old(points[..]))[..i]
        invariant points[i..] == old(points[i..])
      {
        points[i] := Point(points[i].x, -points[i].y);
        assert points[..i + 1] == points[..i] + [points[i]];
      }
    }
  }

  function Max(a: nat, b: nat): nat { if a >= b then a else b }
  function MinNat(a: nat, b: nat): nat { if a <= b then a else b }

  /** `contour.points.len().max(opts.max_harmonics * 2).max(1000)`. */
  function NumPoints(len: nat, maxHarmonics: nat): (r: nat)
    ensures r >= 1000 && r >= len && r >= 2 * maxHarmonics
    ensures r == len || r == 2 * maxHarmonics || r == 1000
  {
    Max(Max(len, maxHarmonics * 2), 1000)
  }

  /** `(num_points / 2).min(500)`. */
  function NumCoefficients(numPoints: nat): (r: nat)
    ensures r <= 500 && 2 * r <= numPoints
  {
    MinNat(numPoints / 2, 500)
  }

  /** With at least 1000 samples the decomposition always gets 500 terms, i.e. 1001 coefficients. */
  lemma AlwaysFiveHundredTerms(len: nat, maxHarmonics: nat)
    ensures NumCoefficients(NumPoints(len, maxHarmonics)) == 500
  {
  }

  // ---------------------------------------------------------------- the text stem

  /** `to_lowercase` on ASCII letters. */
  function Lower(c: char): (r: char)
    ensures !IsAsciiUpper(r)
    ensures IsAsciiAlnum(c) <==> IsAsciiAlnum(r)
    ensures IsAsciiUpper(c) ==> r as int == c as int + 32 && IsAsciiLower(r)
    ensures !IsAsciiUpper(c) ==> r == c
  {
    if IsAsciiUpper(c) then (c as int + 32) as char else c
  }

  function LowerAll(s: string): (r: string)
    ensures |r| == |s|
    ensures forall i :: 0 <= i < |r| ==> !IsAsciiUpper(r[i])
    ensures forall i :: 0 <= i < |s| && !IsAsciiUpper(s[i]) ==> r[i] == s[i]
  {
    seq(|s|, i requires 0 <= i < |s| => Lower(s[i]))
  }

  /** `replace(' ', "-")`. */
  function DashSpaces(s: string): (r: string)
    ensures |r| == |s|
    ensures ' ' !in r
    ensures forall i :: 0 <= i < |s| ==> (s[i] == ' ' ==> r[i] == '-') && (s[i] != ' ' ==> r[i] == s[i])
  {
    seq(|s|, i requires 0 <= i < |s| => if s[i] == ' ' then '-' else s[i])
  }

  predicate StemChar(c: char) { IsAsciiAlnum(c) || c == '-' }

  /** `replace(|c| !c.is_alphanumeric() && c != '-', "")`. */
  function KeepStemChars(s: string): (r: string)
    ensures |r| <= |s|
    ensures forall i :: 0 <= i < |r| ==> StemChar(r[i]) && r[i] in s
    ensures forall i :: 0 <= i < |s| && StemChar(s[i]) ==> s[i] in r
    decreases |s|
  {
    if s == [] then [] else (if StemChar(s[0]) then [s[0]] else []) + KeepStemChars(s[1..])
  }

  predicate StemText(s: string) {
    forall i :: 0 <= i < |s| ==> (IsAsciiLower(s[i]) || IsAsciiDigit(s[i]) || s[i] == '-')
  }

  /** `text.to_lowercase().replace(' ', "-").replace(..., "")`. */
  function Stem(text: string): (r: string)
    ensures |r| <= |text|
    ensures StemText(r)
  {
    var t := DashSpaces(LowerAll(text));
    var r := KeepStemChars(t);
    assert forall i :: 0 <= i < |r| ==> r[i] in t;
    r
  }

  lemma {:induction false} KeepAll(s: string)
    requires forall i :: 0 <= i < |s| ==> StemChar(s[i])
    ensures KeepStemChars(s) == s
    decreases |s|
  {
    if s != [] {
      KeepAll(s[1..]);
      assert [s[0]] + s[1..] == s;
    }
  }

  /** A text that is already a stem is its own stem; in particular stems are stable. */
  lemma StemOfStem(text: string)
    requires StemText(text)
    ensures Stem(text) == text
  {
    assert LowerAll(text) == text;
    assert DashSpaces(text) == text;
    KeepAll(text);
  }

  /** Dropping happens character by character, so it distributes over concatenation. */
  lemma {:induction false} KeepStemCharsAppend(a: string, b: string)
    ensures KeepStemChars(a + b) == KeepStemChars(a) + KeepStemChars(b)
    decreases |a|
  {
    if a != [] {
      var head := if StemChar(a[0]) then [a[0]] else [];
      assert (a + b)[0] == a[0];
      assert (a + b)[1..] == a[1..] + b;
      assert KeepStemChars(a + b) == head + KeepStemChars(a[1..] + b);
      KeepStemCharsAppend(a[1..], b);
      assert KeepStemChars(a) == head + KeepStemChars(a[1..]);
      assert head + (KeepStemChars(a[1..]) + KeepStemChars(b)) == (head + KeepStemChars(a[1..])) + KeepStemChars(b);
    } else {
      assert a + b == b;
    }
  }

  /** The stem is computed character by character. */
  lemma StemAppend(a: string, b: string)
    ensures Stem(a + b) == Stem(a) + Stem(b)
  {
    assert LowerAll(a + b) == LowerAll(a) + LowerAll(b);
    assert DashSpaces(LowerAll(a + b)) == DashSpaces(LowerAll(a)) + DashSpaces(LowerAll(b));
    KeepStemCharsAppend(DashSpaces(LowerAll(a)), DashSpaces(LowerAll(b)));
  }

  /** What one character becomes: ' ' and '-' give '-', a letter its lower case, a digit itself. */
  lemma StemOne(c: char)
    ensures Stem([c]) == if c == ' ' || c == '-' then "-" else if IsAsciiAlnum(c) then [Lower(c)] else []
  {
    assert LowerAll([c]) == [Lower(c)];
    assert KeepStemChars([]) == [];
    if c == ' ' {
      assert DashSpaces([Lower(c)]) == "-";
    } else {
      assert DashSpaces([Lower(c)]) == [Lower(c)];
      assert KeepStemChars([Lower(c)]) == (if StemChar(Lower(c)) then [Lower(c)] else []) + KeepStemChars([]);
    }
  }

  lemma StemIdempotent(text: string)
    ensures Stem(Stem(text)) == Stem(text)
  {
    StemOfStem(Stem(text));
  }

  /** An example: "A b!" gives the stem "a-b". */
  lemma StemExample()
    ensures Stem("A b!") == "a-b"
  {
    assert LowerAll("A b!") == "a b!";
    var t := DashSpaces("a b!");
    assert t == "a-b!";
    assert t[1..] == "-b!" && t[2..] == "b!" && t[3..] == "!" && t[4..] == [];
  }

  // ---------------------------------------------------------------- d="..." extraction

  /** Where the attribute text ` d="` occurs at position k. */
  predicate AttrAt(s: string, k: nat) {
    k + 4 <= |s| && s[k] == ' ' && s[k + 1] == 'd' && s[k + 2] == '=' && s[k + 3] == '"'
  }

  /** The first occurrence of ` d="` at or after `from`, as `match_indices` finds it. */
  function FindAttr(s: string, from: nat): (r: Option<nat>)
    ensures r.Some? ==> from <= r.value && AttrAt(s, r.value)
    decreases |s| - from
  {
    if from + 4 > |s| then None
    else if AttrAt(s, from) then Some(from)
    else FindAttr(s, from + 1)
  }

  /** `FindAttr` finds the first match, and None only when there is none. */
  lemma {:induction false} FindAttrFirst(s: string, from: nat)
    ensures FindAttr(s, from).Some? ==> forall k :: from <= k < FindAttr(s, from).value ==> !AttrAt(s, k)
    ensures FindAttr(s, from).None? ==> forall k :: from <= k ==> !AttrAt(s, k)
    decreases |s| - from
  {
    if from + 4 <= |s| && !AttrAt(s, from) {
      FindAttrFirst(s, from + 1);
    }
  }

  /** `s[start..].find('"')`, as an absolute position. */
  function FindQuote(s: string, start: nat): (r: Option<nat>)
    ensures r.Some? ==> start <= r.value < |s| && s[r.value] == '"'
    decreases |s| - start
  {
    if start >= |s| then None
    else if s[start] == '"' then Some(start)
    else FindQuote(s, start + 1)
  }

  /** `FindQuote` finds the first quote, and None only when there is none. */
  lemma {:induction false} FindQuoteFirst(s: string, start: nat)
    ensures FindQuote(s, start).Some? ==> forall k :: start <= k < FindQuote(s, start).value ==> s[k] != '"'
    ensures FindQuote(s, start).None? ==> forall k :: start <= k < |s| ==> s[k] != '"'
    decreases |s| - start
  {
    if start < |s| && s[start] != '"' {
      FindQuoteFirst(s, start + 1);
    }
  }

  /** The attribute values found from position `from` on; an unclosed one is skipped. */
  function DValues(s: string, from: nat): (r: seq<string>)
    decreases |s| - from
  {
    match FindAttr(s, from)
    case None => []
    case Some(k) =>
      var start := k + 4;
      (match FindQuote(s, start) case Some(e) => [s[start..e]] case None => []) + DValues(s, start)
  }

  /** `s` holds ` d="` at k, then exactly `d`, then the closing quote. */
  predicate ValueAt(s: string, k: nat, d: string) {
    AttrAt(s, k) && k + 4 + |d| < |s| && s[k + 4..k + 4 + |d|] == d && s[k + 4 + |d|] == '"' && '"' !in d
  }

  /** Where each of the values of `DValues(s, from)` was matched. */
  function DPositions(s: string, from: nat): (r: seq<nat>)
    decreases |s| - from
  {
    match FindAttr(s, from)
    case None => []
    case Some(k) =>
      (match FindQuote(s, k + 4) case Some(_) => [k] case None => []) + DPositions(s, k + 4)
  }

  /** The text between a match and the next quote is a whole attribute value. */
  lemma ValueOfMatch(s: string, at: nat, e: nat)
    requires AttrAt(s, at) && FindQuote(s, at + 4) == Some(e)
    ensures ValueAt(s, at, s[at + 4..e])
  {
    var d := s[at + 4..e];
    FindQuoteFirst(s, at + 4);
    assert '"' !in d by {
      forall i | 0 <= i < |d| ensures d[i] != '"' { assert d[i] == s[at + 4 + i]; }
    }
  }

  /** The positions step: the match itself if its value is closed, then the later ones. */
  lemma DPositionsStep(s: string, from: nat, k: nat)
    requires FindAttr(s, from) == Some(k)
    ensures FindQuote(s, k + 4).None? ==> DPositions(s, from) == DPositions(s, k + 4)
    ensures FindQuote(s, k + 4).Some? ==> DPositions(s, from) == [k] + DPositions(s, k + 4)
  {
  }

  /** One position per value. */
  lemma {:induction false} DPositionsLength(s: string, from: nat)
    ensures |DPositions(s, from)| == |DValues(s, from)|
    decreases |s| - from
  {
    var attr := FindAttr(s, from);
    if attr.Some? {
      DPositionsLength(s, attr.value + 4);
      DValuesStep(s, from, attr.value);
      DPositionsStep(s, from, attr.value);
    }
  }

  /** Every value extracted stands in the file as a whole attribute value ` d="value"`. */
  lemma {:induction false} DValuesAreAttributes(s: string, from: nat)
    ensures |DPositions(s, from)| == |DValues(s, from)|
    ensures forall i :: 0 <= i < |DValues(s, from)| ==>
      from <= DPositions(s, from)[i] && ValueAt(s, DPositions(s, from)[i], DValues(s, from)[i])
    decreases |s| - from
  {
    var attr := FindAttr(s, from);
    if attr.Some? {
      var at := attr.value;
      DValuesAreAttributes(s, at + 4);
      DPositionsLength(s, from);
      DValuesStep(s, from, at);
      DPositionsStep(s, from, at);
      var quote := FindQuote(s, at + 4);
      if quote.Some? {
        ValueOfMatch(s, at, quote.value);
        ConsValue(s, from, at, s[at + 4..quote.value], DPositions(s, at + 4), DValues(s, at + 4));
      }
    }
  }

  lemma ConsValue(s: string, from: nat, at: nat, d: string, ps: seq<nat>, ds: seq<string>)
    requires |ps| == |ds| && from <= at && ValueAt(s, at, d)
    requires forall i :: 0 <= i < |ds| ==> from <= ps[i] && ValueAt(s, ps[i], ds[i])
    ensures forall i :: 0 <= i < |ds| + 1 ==> from <= ([at] + ps)[i] && ValueAt(s, ([at] + ps)[i], ([d] + ds)[i])
  {
  }

  /** The values are found left to right, each match after the previous one. */
  lemma {:induction false} DPositionsIncrease(s: string, from: nat)
    ensures forall i :: 0 <= i < |DPositions(s, from)| ==> from <= DPositions(s, from)[i]
    ensures forall i, j :: 0 <= i < j < |DPositions(s, from)| ==> DPositions(s, from)[i] < DPositions(s, from)[j]
    decreases |s| - from
  {
    var attr := FindAttr(s, from);
    if attr.Some? {
      var at := attr.value;
      DPositionsIncrease(s, at + 4);
      DPositionsStep(s, from, at);
      if FindQuote(s, at + 4).Some? {
        ConsIncreasing(from, at, DPositions(s, at + 4));
      }
    }
  }

  lemma ConsIncreasing(from: nat, at: nat, ps: seq<nat>)
    requires from <= at
    requires forall i :: 0 <= i < |ps| ==> at + 4 <= ps[i]
    requires forall i, j :: 0 <= i < j < |ps| ==> ps[i] < ps[j]
    ensures forall i :: 0 <= i < |[at] + ps| ==> from <= ([at] + ps)[i]
    ensures forall i, j :: 0 <= i < j < |[at] + ps| ==> ([at] + ps)[i] < ([at] + ps)[j]
  {
  }

  datatype LoadError = PathFailed(err: PathInterpreter.PathError) | NoPathData

  /** What reads one path value: `points_of_svg_path` in `load_svg`. */
  type PathReader = string -> Result<seq<Point>, PathInterpreter.PathError>

  /** The loop of `load_svg` from position `from` on, with the points gathered so far. */
  function ScanFrom(s: string, from: nat, acc: seq<Point>, read: PathReader): Result<seq<Point>, PathInterpreter.PathError>
    decreases |s| - from
  {
    match FindAttr(s, from)
    case None => Ok(acc)
    case Some(k) =>
      match FindQuote(s, k + 4)
      case None => ScanFrom(s, k + 4, acc, read)
      case Some(e) =>
        match read(s[k + 4..e])
        case Err(x) => Err(x)
        case Ok(ps) => ScanFrom(s, k + 4, acc + ps, read)
  }

  /** `load_svg`'s contour, or why it exits: a path that fails, or no points at all. */
  function LoadedPoints(s: string): (r: Result<seq<Point>, LoadError>)
    ensures r.Ok? ==> r.value != []
  {
    Outcome(ScanFrom(s, 0, [], PathInterpreter.PointsOfPath))
  }

  /** The error of a failing path, the exit on no points, or the points. */
  function Outcome(r: Result<seq<Point>, PathInterpreter.PathError>): Result<seq<Point>, LoadError> {
    match r
    case Err(e) => Err(PathFailed(e))
    case Ok(points) => if points == [] then Err(NoPathData) else Ok(points)
  }

  /** The points of several path values, in order; the first failing path's error. */
  function AllPoints(ds: seq<string>, read: PathReader): Result<seq<Point>, PathInterpreter.PathError>
  {
    if ds == [] then Ok([])
    else
      var first :- read(ds[0]);
      var rest :- AllPoints(ds[1..], read);
      Ok(first + rest)
  }

  function Prepend(acc: seq<Point>, r: Result<seq<Point>, PathInterpreter.PathError>): Result<seq<Point>, PathInterpreter.PathError> {
    match r
    case Ok(ps) => Ok(acc + ps)
    case Err(e) => Err(e)
  }

  lemma ScanStep(s: string, from: nat, k: nat, acc: seq<Point>, read: PathReader)
    requires FindAttr(s, from) == Some(k)
    ensures FindQuote(s, k + 4).None? ==> ScanFrom(s, from, acc, read) == ScanFrom(s, k + 4, acc, read)
    ensures FindQuote(s, k + 4).Some? ==>
      var ps := read(s[k + 4..FindQuote(s, k + 4).value]);
      ScanFrom(s, from, acc, read) == if ps.Err? then Err(ps.error) else ScanFrom(s, k + 4, acc + ps.value, read)
  {
  }

  lemma AllPointsCons(d: string, later: seq<string>, read: PathReader)
    ensures var ps := read(d);
      AllPoints([d] + later, read) == if ps.Err? then Err(ps.error) else Prepend(ps.value, AllPoints(later, read))
  {
    assert ([d] + later)[0] == d && ([d] + later)[1..] == later;
  }

  lemma PrependAssoc(acc: seq<Point>, ps: seq<Point>, r: Result<seq<Point>, PathInterpreter.PathError>)
    ensures Prepend(acc, Prepend(ps, r)) == Prepend(acc + ps, r)
  {
    if r.Ok? {
      assert acc + (ps + r.value) == acc + ps + r.value;
    }
  }

  /** No match left: nothing more is read. */
  lemma ScanDone(s: string, from: nat, acc: seq<Point>, read: PathReader)
    requires FindAttr(s, from).None?
    ensures ScanFrom(s, from, acc, read) == Prepend(acc, AllPoints(DValues(s, from), read))
  {
    assert DValues(s, from) == [];
    assert acc + [] == acc;
  }

  /** An unclosed value is skipped. */
  lemma ScanUnclosed(s: string, from: nat, k: nat, acc: seq<Point>, read: PathReader)
    requires FindAttr(s, from) == Some(k) && FindQuote(s, k + 4).None?
    requires ScanFrom(s, k + 4, acc, read) == Prepend(acc, AllPoints(DValues(s, k + 4), read))
    ensures ScanFrom(s, from, acc, read) == Prepend(acc, AllPoints(DValues(s, from), read))
  {
    DValuesStep(s, from, k);
    ScanStep(s, from, k, acc, read);
  }

  /** A closed value whose path fails ends the scan with its error. */
  lemma ScanFails(s: string, from: nat, k: nat, e: nat, acc: seq<Point>, read: PathReader)
    requires FindAttr(s, from) == Some(k) && FindQuote(s, k + 4) == Some(e)
    requires read(s[k + 4..e]).Err?
    ensures ScanFrom(s, from, acc, read) == Prepend(acc, AllPoints(DValues(s, from), read))
  {
    DValuesStep(s, from, k);
    ScanStep(s, from, k, acc, read);
    AllPointsCons(s[k + 4..e], DValues(s, k + 4), read);
  }

  /** A closed value whose path reads contributes its points. */
  lemma ScanReads(s: string, from: nat, k: nat, e: nat, acc: seq<Point>, ps: seq<Point>, read: PathReader)
    requires FindAttr(s, from) == Some(k) && FindQuote(s, k + 4) == Some(e)
    requires read(s[k + 4..e]) == Ok(ps)
    requires ScanFrom(s, k + 4, acc + ps, read) == Prepend(acc + ps, AllPoints(DValues(s, k + 4), read))
    ensures ScanFrom(s, from, acc, read) == Prepend(acc, AllPoints(DValues(s, from), read))
  {
    DValuesStep(s, from, k);
    ScanStep(s, from, k, acc, read);
    AllPointsCons(s[k + 4..e], DValues(s, k + 4), read);
    PrependAssoc(acc, ps, AllPoints(DValues(s, k + 4), read));
  }

  /** The loop reads the points of the attribute values one after another. */
  lemma {:induction false} ScanIsAllPoints(s: string, from: nat, acc: seq<Point>, read: PathReader)
    ensures ScanFrom(s, from, acc, read) == Prepend(acc, AllPoints(DValues(s, from), read))
    decreases |s| - from
  {
    var attr := FindAttr(s, from);
    if attr.None? {
      ScanDone(s, from, acc, read);
    } else {
      var k := attr.value;
      var quote := FindQuote(s, k + 4);
      if quote.None? {
        ScanIsAllPoints(s, k + 4, acc, read);
        ScanUnclosed(s, from, k, acc, read);
      } else {
        var pd := read(s[k + 4..quote.value]);
        if pd.Err? {
          ScanFails(s, from, k, quote.value, acc, read);
        } else {
          ScanIsAllPoints(s, k + 4, acc + pd.value, read);
          ScanReads(s, from, k, quote.value, acc, pd.value, read);
        }
      }
    }
  }

  /**
   * `load_svg` gathers the points of every closed ` d="..."` value in order, stops with the
   * first path that fails, and exits when nothing was gathered.
   */
  lemma LoadedMeaning(s: string)
    ensures LoadedPoints(s) == Outcome(AllPoints(DValues(s, 0), PathInterpreter.PointsOfPath))
  {
    ScanIsAllPoints(s, 0, [], PathInterpreter.PointsOfPath);
    var all := AllPoints(DValues(s, 0), PathInterpreter.PointsOfPath);
    if all.Ok? {
      assert [] + all.value == all.value;
    }
  }

  /** One match of the loop: the value it yields, if closed, then the rest. */
  lemma DValuesStep(s: string, from: nat, k: nat)
    requires FindAttr(s, from) == Some(k)
    ensures FindQuote(s, k + 4).None? ==> DValues(s, from) == DValues(s, k + 4)
    ensures FindQuote(s, k + 4).Some? ==> DValues(s, from) == [s[k + 4..FindQuote(s, k + 4).value]] + DValues(s, k + 4)
  {
  }

  /** The loop of `load_svg` over the ` d="` matches. */
  method LoadSvg(s: string) returns (r: Result<seq<Point>, LoadError>)
    ensures r == LoadedPoints(s)
  {
    var allPoints: seq<Point> := [];
    var from := 0;
    var next := FindAttr(s, 0);
    while next.Some?
      invariant from <= |s|
      invariant next == FindAttr(s, from)
      invariant ScanFrom(s, from, allPoints, PathInterpreter.PointsOfPath) == ScanFrom(s, 0, [], PathInterpreter.PointsOfPath)
      decreases |s| - from
    {
      var start := next.value + 4;
      var end := FindQuote(s, start);
      if end.Some? {
        var ps := PathInterpreter.PointsOfPath(s[start..end.value]);
        if ps.Err? {
          return Err(PathFailed(ps.error));
        }
        allPoints := allPoints + ps.value;
      }
      from := start;
      next := FindAttr(s, from);
    }
    if allPoints == [] {
      return Err(NoPathData);
    }
    r := Ok(allPoints);
  }
}
