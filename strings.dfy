/**
 * Character classes, splitting/joining, and the number <-> text conversions that the
 * Rust side (`{}` formatting, `str::parse::<f64>`) and the page scripts (`Number`,
 * `parseInt`, `String.prototype.split`/`trim`) rely on.
 *
 * Number values are exact reals: every literal the model produces or reads is a plain
 * decimal, and rounding to the nearest 64-bit float is not modelled.
 */
module Strings {
  import opened Wrappers

  // ---------------------------------------------------------------- character classes

  predicate IsAsciiDigit(c: char) { '0' <= c <= '9' }
  predicate IsAsciiUpper(c: char) { 'A' <= c <= 'Z' }
  predicate IsAsciiLower(c: char) { 'a' <= c <= 'z' }
  predicate IsAsciiAlpha(c: char) { IsAsciiUpper(c) || IsAsciiLower(c) }
  predicate IsAsciiAlnum(c: char) { IsAsciiAlpha(c) || IsAsciiDigit(c) }

  /** Rust's `char::is_whitespace`: the Unicode White_Space property. */
  predicate IsRustWhitespace(c: char) {
    ('\t' <= c <= '\r') || c == ' ' || c == '\U{85}' || c == '\U{A0}' || c == '\U{1680}'
    || ('\U{2000}' <= c <= '\U{200A}') || c == '\U{2028}' || c == '\U{2029}'
    || c == '\U{202F}' || c == '\U{205F}' || c == '\U{3000}'
  }

  /** ECMAScript WhiteSpace and LineTerminator: what `trim` strips and `\s` matches. */
  predicate IsJsSpace(c: char) {
    ('\t' <= c <= '\r') || c == ' ' || c == '\U{A0}' || c == '\U{1680}'
    || ('\U{2000}' <= c <= '\U{200A}') || c == '\U{2028}' || c == '\U{2029}'
    || c == '\U{202F}' || c == '\U{205F}' || c == '\U{3000}' || c == '\U{FEFF}'
  }

  predicate AllDigits(s: string) { forall i :: 0 <= i < |s| ==> IsAsciiDigit(s[i]) }

  // ---------------------------------------------------------------- join / split / trim

  /** `parts.join(sep)`, identical in Rust and in the page scripts. */
  function Join(parts: seq<string>, sep: string): string
    decreases |parts|
  {
    if |parts| == 0 then ""
    else if |parts| == 1 then parts[0]
    else parts[0] + sep + Join(parts[1..], sep)
  }

  lemma JoinCons(head: string, tail: seq<string>, sep: string)
    requires tail != []
    ensures Join([head] + tail, sep) == head + (sep + Join(tail, sep))
  {
    assert ([head] + tail)[1..] == tail;
  }

  /** `s.split(c)` of ECMAScript: the pieces between occurrences of `c`, never empty. */
  function Split(s: string, c: char): (r: seq<string>)
    ensures |r| >= 1
    decreases |s|
  {
    if s == [] then [""]
    else if s[0] == c then [""] + Split(s[1..], c)
    else
      var rest := Split(s[1..], c);
      [[s[0]] + rest[0]] + rest[1..]
  }

  lemma {:induction false} SplitNoSeparator(s: string, c: char)
    requires c !in s
    ensures Split(s, c) == [s]
    decreases |s|
  {
    if s != [] {
      SplitNoSeparator(s[1..], c);
      assert [s[0]] + s[1..] == s;
    }
  }

  /** A separator occurrence cuts the split list in two. */
  lemma {:induction false} SplitAppend(a: string, b: string, c: char)
    ensures Split(a + [c] + b, c) == Split(a, c) + Split(b, c)
    decreases |a|
  {
    if a == [] {
      assert a + [c] + b == [c] + b;
      assert ([c] + b)[1..] == b;
    } else {
      assert (a + [c] + b)[1..] == a[1..] + [c] + b;
      SplitAppend(a[1..], b, c);
    }
  }

  function TrimStart(s: string): (r: string)
    decreases |s|
  {
    if s != [] && IsJsSpace(s[0]) then TrimStart(s[1..]) else s
  }

  function TrimEnd(s: string): string
    decreases |s|
  {
    if s != [] && IsJsSpace(s[|s| - 1]) then TrimEnd(s[..|s| - 1]) else s
  }

  /** ECMAScript `String.prototype.trim`. */
  function Trim(s: string): string { TrimEnd(TrimStart(s)) }

  /** Trimming drops exactly the leading and trailing spaces of `pre + s + post`. */
  lemma {:induction false} TrimPadded(pre: string, s: string, post: string)
    requires forall i :: 0 <= i < |pre| ==> IsJsSpace(pre[i])
    requires forall i :: 0 <= i < |post| ==> IsJsSpace(post[i])
    requires s != [] && !IsJsSpace(s[0]) && !IsJsSpace(s[|s| - 1])
    ensures Trim(pre + s + post) == s
  {
    TrimStartSpaces(pre, s + post);
    assert pre + s + post == pre + (s + post);
    TrimEndSpaces(s, post);
  }

  lemma {:induction false} TrimStartSpaces(pre: string, s: string)
    requires forall i :: 0 <= i < |pre| ==> IsJsSpace(pre[i])
    requires s != [] && !IsJsSpace(s[0])
    ensures TrimStart(pre + s) == s
    decreases |pre|
  {
    if pre == [] {
      assert pre + s == s;
    } else {
      assert (pre + s)[1..] == pre[1..] + s;
      TrimStartSpaces(pre[1..], s);
    }
  }

  lemma {:induction false} TrimEndSpaces(s: string, post: string)
    requires forall i :: 0 <= i < |post| ==> IsJsSpace(post[i])
    requires s != [] && !IsJsSpace(s[|s| - 1])
    ensures TrimEnd(s + post) == s
    decreases |post|
  {
    if post == [] {
      assert s + post == s;
    } else {
      var shorter := post[..|post| - 1];
      assert (s + post)[..|s + post| - 1] == s + shorter;
      TrimEndSpaces(s, shorter);
    }
  }

  /** Rust `str::replace(c, rep)` for a single character pattern. */
  function ReplaceChar(s: string, c: char, rep: string): string
    decreases |s|
  {
    if s == [] then [] else (if s[0] == c then rep else [s[0]]) + ReplaceChar(s[1..], c, rep)
  }

  lemma {:induction false} ReplaceCharAppend(a: string, b: string, c: char, rep: string)
    ensures ReplaceChar(a + b, c, rep) == ReplaceChar(a, c, rep) + ReplaceChar(b, c, rep)
    decreases |a|
  {
    if a == [] {
      assert a + b == b;
    } else {
      assert (a + b)[1..] == a[1..] + b;
      ReplaceCharAppend(a[1..], b, c, rep);
    }
  }

  // ---------------------------------------------------------------- decimal numbers

  function Pow10(n: nat): (r: nat)
    ensures r >= 1
  {
    if n == 0 then 1 else 10 * Pow10(n - 1)
  }

  function DigitValue(c: char): nat
    requires IsAsciiDigit(c)
  {
    (c as int - '0' as int) as nat
  }

  function DigitChar(d: nat): (c: char)
    requires d < 10
    ensures IsAsciiDigit(c) && DigitValue(c) == d
  {
    ('0' as int + d) as char
  }

  /** The value of a run of decimal digits, most significant first. */
  function DigitsValue(s: string): nat
    requires AllDigits(s)
    decreases |s|
  {
    if s == [] then 0 else DigitsValue(s[..|s| - 1]) * 10 + DigitValue(s[|s| - 1])
  }

  /** Length of the longest prefix of `s` made of ASCII digits. */
  function DigitRunLen(s: string): (k: nat)
    ensures k <= |s|
    ensures forall i :: 0 <= i < k ==> IsAsciiDigit(s[i])
    ensures k < |s| ==> !IsAsciiDigit(s[k])
    decreases |s|
  {
    if s != [] && IsAsciiDigit(s[0]) then 1 + DigitRunLen(s[1..]) else 0
  }

  /** `{}` formatting of an unsigned integer (Rust `usize`, or an integer-valued JS number). */
  function NatToString(n: nat): (s: string)
    ensures s != [] && AllDigits(s)
  {
    if n < 10 then [DigitChar(n)] else NatToString(n / 10) + [DigitChar(n % 10)]
  }

  lemma {:induction false} NatToStringValue(n: nat)
    ensures DigitsValue(NatToString(n)) == n
  {
    var s := NatToString(n);
    if n < 10 {
      assert s[..0] == [];
    } else {
      NatToStringValue(n / 10);
      assert s[..|s| - 1] == NatToString(n / 10);
    }
  }

  lemma DigitRunLenAll(s: string)
    requires AllDigits(s)
    ensures DigitRunLen(s) == |s|
    decreases |s|
  {
    if s != [] { DigitRunLenAll(s[1..]); }
  }

  /**
   * An unsigned decimal literal: digits, then optionally '.' and more digits, with at least
   * one digit in all ("5", "5.", ".5", "5.25"). Anything else has no value.
   */
  function ParseUnsigned(s: string): Option<real> {
    var k := DigitRunLen(s);
    var rest := s[k..];
    if rest == [] then
      if k > 0 then Some(DigitsValue(s[..k]) as real) else None
    else if rest[0] == '.' && AllDigits(rest[1..]) && (k > 0 || |rest| > 1) then
      Some(DigitsValue(s[..k]) as real
           + DigitsValue(rest[1..]) as real / Pow10(|rest| - 1) as real)
    else None
  }

  /**
   * Text to number: an optional sign and an unsigned decimal literal. This is what Rust's
   * `str::parse::<f64>` and ECMAScript's `Number` agree on; their exponent, infinity, NaN
   * and hexadecimal spellings are not modelled.
   */
  function ParseDecimal(s: string): Option<real> {
    if s != [] && s[0] == '-' then
      match ParseUnsigned(s[1..])
      case Some(v) => Some(-v)
      case None => None
    else if s != [] && s[0] == '+' then ParseUnsigned(s[1..])
    else ParseUnsigned(s)
  }

  /** Formatted integers read back as themselves. */
  lemma ParseDecimalOfNat(n: nat)
    ensures ParseDecimal(NatToString(n)) == Some(n as real)
  {
    var s := NatToString(n);
    DigitRunLenAll(s);
    NatToStringValue(n);
    assert s[..|s|] == s;
  }

  /**
   * ECMAScript `parseInt(s)` without a radix: leading spaces skipped, an optional sign, the
   * longest run of decimal digits, and no value (NaN) when that run is empty. Trailing text
   * is ignored. The "0x" hexadecimal prefix is not modelled.
   */
  function JsParseInt(s: string): Option<int> {
    var t := TrimStart(s);
    var neg := t != [] && t[0] == '-';
    var u := if t != [] && (t[0] == '-' || t[0] == '+') then t[1..] else t;
    var k := DigitRunLen(u);
    if k == 0 then None
    else Some(if neg then -(DigitsValue(u[..k]) as int) else DigitsValue(u[..k]) as int)
  }

  lemma JsParseIntOfNat(n: nat)
    ensures JsParseInt(NatToString(n)) == Some(n)
  {
    var s := NatToString(n);
    assert TrimStart(s) == s;
    DigitRunLenAll(s);
    NatToStringValue(n);
    assert s[..|s|] == s;
  }

  /** `parseInt(s) || 1` of the page scripts: NaN and 0 are both falsy and become 1. */
  function ParseIntOr(s: string, fallback: int): (r: int)
    ensures r != 0 || fallback == 0
  {
    match JsParseInt(s)
    case Some(v) => if v == 0 then fallback else v
    case None => fallback
  }
}
