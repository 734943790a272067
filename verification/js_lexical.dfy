/** The lexical pieces that JavaScript's `parseInt` and `parseFloat` share:
    the white space they skip and the digits they read. */
module JsLexical {

  /** ECMAScript's StrWhiteSpaceChar: the WhiteSpace code points (tab,
      vertical tab, form feed, space, no-break space, byte order mark and
      the Unicode space separators) and the LineTerminator code points. */
  predicate IsWhiteSpace(ch: char)
  {
    || ch == '\t' || ch == '\U{B}' || ch == '\U{C}' || ch == ' '
    || ch == '\U{A0}' || ch == '\U{FEFF}' || ch == '\U{1680}'
    || ('\U{2000}' <= ch <= '\U{200A}')
    || ch == '\U{202F}' || ch == '\U{205F}' || ch == '\U{3000}'
    || ch == '\n' || ch == '\r' || ch == '\U{2028}' || ch == '\U{2029}'
  }

  /** The text with its leading white space removed. */
  function TrimStart(s: string): (t: string)
    ensures |t| <= |s|
  {
    if |s| > 0 && IsWhiteSpace(s[0]) then TrimStart(s[1..]) else s
  }

  /** Trimming removes exactly the leading run of white space: what is
      left is a suffix that starts with a visible character, and every
      character removed is white space. */
  lemma {:induction false} TrimStartSpec(s: string)
    ensures TrimStart(s) == s[|s| - |TrimStart(s)|..]
    ensures forall i :: 0 <= i < |s| - |TrimStart(s)| ==> IsWhiteSpace(s[i])
    ensures |TrimStart(s)| > 0 ==> !IsWhiteSpace(TrimStart(s)[0])
  {
    if |s| > 0 && IsWhiteSpace(s[0]) {
      TrimStartSpec(s[1..]);
      assert s[1..][|s| - 1 - |TrimStart(s)|..] == s[|s| - |TrimStart(s)|..];
      assert forall i :: 1 <= i < |s| - |TrimStart(s)| ==> s[i] == s[1..][i - 1];
    }
  }

  /** -1 when the trimmed text starts with `-`, otherwise 1. */
  function SignOf(t: string): int
  {
    if |t| > 0 && t[0] == '-' then -1 else 1
  }

  /** 1 when the trimmed text starts with `+` or `-`, otherwise 0. */
  function SignLength(t: string): nat
  {
    if |t| > 0 && (t[0] == '-' || t[0] == '+') then 1 else 0
  }

  /** The trimmed text without its leading `+` or `-`, if any. */
  function Unsigned(t: string): string
  {
    t[SignLength(t)..]
  }

  predicate StartsWith(s: string, prefix: string)
  {
    |prefix| <= |s| && s[..|prefix|] == prefix
  }

  /** The value of `ch` as a digit in radices up to 36: `0`-`9` are 0-9,
      letters of either case are 10-35, anything else is 36 (a digit in
      no radix). */
  function DigitValue(ch: char): nat
  {
    if '0' <= ch <= '9' then ch as nat - '0' as nat
    else if 'a' <= ch <= 'z' then ch as nat - 'a' as nat + 10
    else if 'A' <= ch <= 'Z' then ch as nat - 'A' as nat + 10
    else 36
  }

  predicate IsDigit(ch: char, radix: nat)
  {
    DigitValue(ch) < radix
  }

  predicate IsDecimalDigit(ch: char)
  {
    IsDigit(ch, 10)
  }

  /** A non-empty run of decimal digits. */
  predicate IsNumeral(ds: string)
  {
    |ds| > 0 && forall i :: 0 <= i < |ds| ==> IsDecimalDigit(ds[i])
  }

  /** The longest prefix of `s` made of radix-`radix` digits. */
  function DigitPrefix(s: string, radix: nat): (d: string)
    ensures |d| <= |s|
  {
    if |s| > 0 && IsDigit(s[0], radix) then [s[0]] + DigitPrefix(s[1..], radix)
    else ""
  }

  /** The prefix read is made of digits and is followed by a non-digit
      or by the end of the text. */
  lemma {:induction false} DigitPrefixSpec(s: string, radix: nat)
    ensures DigitPrefix(s, radix) == s[..|DigitPrefix(s, radix)|]
    ensures forall i :: 0 <= i < |DigitPrefix(s, radix)| ==> IsDigit(DigitPrefix(s, radix)[i], radix)
    ensures |DigitPrefix(s, radix)| < |s| ==> !IsDigit(s[|DigitPrefix(s, radix)|], radix)
  {
    if |s| > 0 && IsDigit(s[0], radix) {
      DigitPrefixSpec(s[1..], radix);
      var d := DigitPrefix(s, radix);
      var rest := DigitPrefix(s[1..], radix);
      assert d == [s[0]] + rest;
      assert forall i :: 1 <= i < |d| ==> d[i] == rest[i - 1];
      assert s == [s[0]] + s[1..];
    }
  }

  /** The number a digit string denotes in the given radix, read most
      significant digit first. */
  function DigitsValue(ds: string, radix: nat): nat
  {
    if |ds| == 0 then 0
    else DigitsValue(ds[..|ds| - 1], radix) * radix + DigitValue(ds[|ds| - 1])
  }

  /** The digits are exactly the leading run of digits when a non-digit
      (or the end of the text) follows them. */
  lemma DigitPrefixOf(ds: string, rest: string, radix: nat)
    requires forall i :: 0 <= i < |ds| ==> IsDigit(ds[i], radix)
    requires |rest| == 0 || !IsDigit(rest[0], radix)
    ensures DigitPrefix(ds + rest, radix) == ds
  {
    var s := ds + rest;
    DigitPrefixSpec(s, radix);
    assert s[..|ds|] == ds;
  }

  /** A text that starts with a visible character is left as it is. */
  lemma TrimStartVisible(s: string)
    requires |s| > 0 && !IsWhiteSpace(s[0])
    ensures TrimStart(s) == s
  {
  }

  /** Leading white space never changes what is left after trimming. */
  lemma {:induction false} TrimStartSkips(ws: string, s: string)
    requires forall i :: 0 <= i < |ws| ==> IsWhiteSpace(ws[i])
    ensures TrimStart(ws + s) == TrimStart(s)
  {
    if |ws| > 0 {
      var t := ws + s;
      assert t[0] == ws[0];
      assert IsWhiteSpace(t[0]);
      assert TrimStart(t) == TrimStart(t[1..]);
      assert t[1..] == ws[1..] + s;
      TrimStartSkips(ws[1..], s);
    } else {
      assert ws + s == s;
    }
  }
}
