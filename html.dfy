/**
 * `html_escape` (src/canvas.rs), which escapes the command line before it is written into
 * the generated page: four successive `replace` calls, `&` first.
 */
module Html {
  import opened Strings

  /** The four `replace` calls, in the source's order. */
  function HtmlEscape(s: string): string {
    ReplaceChar(ReplaceChar(ReplaceChar(ReplaceChar(s, '&', "&amp;"), '<', "&lt;"), '>', "&gt;"), '"', "&quot;")
  }

  /** The entity of one character, or the character itself. */
  function EscapeChar(c: char): (r: string)
    ensures c !in "&<>\"" ==> r == [c]
    ensures c in "&<>\"" ==> |r| >= 4 && r[0] == '&' && r[|r| - 1] == ';'
  {
    if c == '&' then "&amp;"
    else if c == '<' then "&lt;"
    else if c == '>' then "&gt;"
    else if c == '"' then "&quot;"
    else [c]
  }

  /** Escaping character by character, the reference for the four passes. */
  function EscapeEach(s: string): string
    decreases |s|
  {
    if s == [] then [] else EscapeChar(s[0]) + EscapeEach(s[1..])
  }

  /** A character that is not the pattern is kept. */
  lemma {:induction false} ReplaceAbsent(s: string, c: char, rep: string)
    requires c !in s
    ensures ReplaceChar(s, c, rep) == s
    decreases |s|
  {
    if s != [] {
      ReplaceAbsent(s[1..], c, rep);
      assert [s[0]] + s[1..] == s;
    }
  }

  lemma ReplaceOne(c: char, x: char, rep: string)
    ensures ReplaceChar([c], x, rep) == if c == x then rep else [c]
  {
    assert [c][1..] == [];
  }

  /** The four passes applied to one character give its entity: the later passes never touch it. */
  lemma OneChar(c: char)
    ensures HtmlEscape([c]) == EscapeChar(c)
  {
    ReplaceOne(c, '&', "&amp;");
    if c == '&' {
      AmpKept();
    } else {
      ReplaceOne(c, '<', "&lt;");
      if c == '<' {
        LtKept();
      } else {
        ReplaceOne(c, '>', "&gt;");
        if c == '>' {
          GtKept();
        } else {
          ReplaceOne(c, '"', "&quot;");
        }
      }
    }
  }

  /** An entity has none of the characters that the passes after its own replace. */
  lemma AmpKept()
    ensures ReplaceChar("&amp;", '<', "&lt;") == "&amp;"
    ensures ReplaceChar("&amp;", '>', "&gt;") == "&amp;"
    ensures ReplaceChar("&amp;", '"', "&quot;") == "&amp;"
  {
  }

  lemma LtKept()
    ensures ReplaceChar("&lt;", '>', "&gt;") == "&lt;"
    ensures ReplaceChar("&lt;", '"', "&quot;") == "&lt;"
  {
  }

  lemma GtKept()
    ensures ReplaceChar("&gt;", '"', "&quot;") == "&gt;"
  {
  }

  lemma HtmlEscapeAppend(a: string, b: string)
    ensures HtmlEscape(a + b) == HtmlEscape(a) + HtmlEscape(b)
  {
    ReplaceCharAppend(a, b, '&', "&amp;");
    var a1, b1 := ReplaceChar(a, '&', "&amp;"), ReplaceChar(b, '&', "&amp;");
    ReplaceCharAppend(a1, b1, '<', "&lt;");
    var a2, b2 := ReplaceChar(a1, '<', "&lt;"), ReplaceChar(b1, '<', "&lt;");
    ReplaceCharAppend(a2, b2, '>', "&gt;");
    var a3, b3 := ReplaceChar(a2, '>', "&gt;"), ReplaceChar(b2, '>', "&gt;");
    ReplaceCharAppend(a3, b3, '"', "&quot;");
  }

  /** Escaping `&` first makes the four passes one pass over the characters. */
  lemma {:induction false} EscapeInOnePass(s: string)
    ensures HtmlEscape(s) == EscapeEach(s)
    decreases |s|
  {
    if s != [] {
      assert s == [s[0]] + s[1..];
      HtmlEscapeAppend([s[0]], s[1..]);
      OneChar(s[0]);
      EscapeInOnePass(s[1..]);
    }
  }

  /** The escaped text has no markup character and no double quote left. */
  lemma {:induction false} NoMarkupLeft(s: string)
    ensures var e := HtmlEscape(s); '<' !in e && '>' !in e && '"' !in e
    decreases |s|
  {
    EscapeInOnePass(s);
    if s != [] {
      NoMarkupLeft(s[1..]);
      EscapeInOnePass(s[1..]);
      EscapedCharIsClean(s[0]);
      assert HtmlEscape(s) == EscapeChar(s[0]) + HtmlEscape(s[1..]);
    }
  }

  lemma EscapedCharIsClean(c: char)
    ensures var e := EscapeChar(c); '<' !in e && '>' !in e && '"' !in e
  {
  }

  /** Decoding the four entities, left to right; any other text is kept. */
  function Unescape(s: string): string
    decreases |s|
  {
    if s == [] then []
    else if |s| >= 5 && s[..5] == "&amp;" then "&" + Unescape(s[5..])
    else if |s| >= 4 && s[..4] == "&lt;" then "<" + Unescape(s[4..])
    else if |s| >= 4 && s[..4] == "&gt;" then ">" + Unescape(s[4..])
    else if |s| >= 6 && s[..6] == "&quot;" then "\"" + Unescape(s[6..])
    else [s[0]] + Unescape(s[1..])
  }

  /** An entity at the front is decoded and the rest is left to the recursion. */
  lemma UnescapeEntity(entity: string, c: char, rest: string)
    requires c in "&<>\"" && entity == EscapeChar(c)
    ensures Unescape(entity + rest) == [c] + Unescape(rest)
  {
    var e := entity + rest;
    var n := |entity|;
    assert e[..n] == entity && e[n..] == rest;
    if entity == "&gt;" {
      assert e[..4] != "&lt;";
      assert |e| < 5 || e[..5] != "&amp;" by {
        if |e| >= 5 { assert e[1] == 'g'; }
      }
    } else if entity == "&quot;" {
      assert e[..4] != "&lt;" && e[..4] != "&gt;" && e[..5] != "&amp;" by {
        assert e[1] == 'q';
      }
    } else if entity == "&lt;" {
      assert |e| < 5 || e[..5] != "&amp;" by {
        if |e| >= 5 { assert e[1] == 'l'; }
      }
    }
  }

  lemma UnescapeChar(c: char, rest: string)
    ensures Unescape(EscapeChar(c) + rest) == [c] + Unescape(rest)
  {
    if c in "&<>\"" {
      UnescapeEntity(EscapeChar(c), c, rest);
    } else {
      var e := [c] + rest;
      assert e[0] == c && e[1..] == rest;
      PlainCharKept(e);
    }
  }

  /** Text that does not start with `&` loses its first character to no entity. */
  lemma PlainCharKept(e: string)
    requires e != [] && e[0] != '&'
    ensures Unescape(e) == [e[0]] + Unescape(e[1..])
  {
    assert |e| >= 5 ==> e[..5][0] != "&amp;"[0];
    assert |e| >= 4 ==> e[..4][0] != "&lt;"[0] && e[..4][0] != "&gt;"[0];
    assert |e| >= 6 ==> e[..6][0] != "&quot;"[0];
  }

  /** A browser decoding the page's entities reads the original text. */
  lemma {:induction false} UnescapeEscape(s: string)
    ensures Unescape(HtmlEscape(s)) == s
    decreases |s|
  {
    EscapeInOnePass(s);
    if s != [] {
      UnescapeChar(s[0], EscapeEach(s[1..]));
      UnescapeEscape(s[1..]);
      EscapeInOnePass(s[1..]);
      assert [s[0]] + s[1..] == s;
    }
  }
}
