/** JavaScript's global `parseFloat`, as the loader applies it to the five
    generation columns. Which text is read as a number, and which gives
    `NaN`, is modelled exactly; the IEEE double a literal rounds to is not,
    so a numeric result keeps the literal text it was read from. A literal
    such as `1e400` rounds to `Infinity` and one such as `1e-400` to 0;
    `Numeric` stands for whatever the literal rounds to, and `Infinite`
    only for the spelled-out `Infinity`. */
module JsParseFloat {
  import opened JsLexical

  datatype Float = NaN | Numeric(literal: string) | Infinite(negative: bool)

  /** When the unsigned text begins a decimal literal: `Infinity`, a
      digit, or a point followed by a digit. This is `StartsDigits` or
      `Infinity`, written out in one level so the verifier unfolds
      `parseFloat` one step less deep. */
  predicate StartsNumber(u: string)
  {
    || StartsWith(u, "Infinity")
    || (|u| > 0 && IsDecimalDigit(u[0]))
    || (|u| >= 2 && u[0] == '.' && IsDecimalDigit(u[1]))
  }

  /** Length of the exponent part (`e` or `E`, an optional sign, at least
      one digit) at the start of `s`; 0 when there is none. */
  function ExponentLength(s: string): (k: nat)
    ensures k <= |s|
    ensures k > 0 ==> s[0] == 'e' || s[0] == 'E'
  {
    if |s| >= 1 && (s[0] == 'e' || s[0] == 'E') then
      var k := if |s| >= 2 && (s[1] == '+' || s[1] == '-') then 2 else 1;
      var d := DigitPrefix(s[k..], 10);
      if |d| > 0 then k + |d| else 0
    else 0
  }

  /** When the unsigned text begins a digit-spelled decimal literal: a digit,
      or a point followed by a digit. */
  predicate StartsDigits(u: string)
  {
    (|u| > 0 && IsDecimalDigit(u[0])) || (|u| >= 2 && u[0] == '.' && IsDecimalDigit(u[1]))
  }

  /** Length of the digits, optional point and optional fraction at the
      start of `u`; 0 when there is no digit before or after the point. */
  function MantissaLength(u: string): (k: nat)
    ensures k <= |u|
    ensures k == 0 <==> !StartsDigits(u)
  {
    var whole := DigitPrefix(u, 10);
    var afterWhole := u[|whole|..];
    var hasPoint := |afterWhole| > 0 && afterWhole[0] == '.';
    var fraction := if hasPoint then DigitPrefix(afterWhole[1..], 10) else "";
    if |whole| + |fraction| == 0 then 0
    else |whole| + (if hasPoint then 1 + |fraction| else 0)
  }

  /** Length of the longest digit-spelled decimal literal at the start of `u`:
      the mantissa followed by an exponent part when one is present. */
  function LiteralLength(u: string): (k: nat)
    ensures k <= |u|
    ensures k == 0 <==> !StartsDigits(u)
  {
    var m := MantissaLength(u);
    if m == 0 then 0 else m + ExponentLength(u[m..])
  }

  /** The number read from the start of an already trimmed text: an
      optional sign, then `Infinity` or digits with an optional point and
      fraction and an optional exponent, as long as possible. It is NaN
      exactly when no literal follows the sign; a numeric literal is read
      from the start of the text; a spelled-out `Infinity` carries the
      written sign. */
  function ReadNumber(t: string): (r: Float)
    ensures r.NaN? <==> !StartsNumber(Unsigned(t))
    ensures r.Numeric? ==> 0 < |r.literal| <= |t| && r.literal == t[..|r.literal|]
    ensures r.Infinite? ==> (r.negative <==> t[0] == '-')
  {
    var u := Unsigned(t);
    if StartsWith(u, "Infinity") then Infinite(SignOf(t) < 0)
    else
      var k := LiteralLength(u);
      if k == 0 then NaN else Numeric(t[..SignLength(t) + k])
  }

  /** `parseFloat(s)`: skip white space, then read the longest prefix that
      is a decimal literal. It is NaN exactly when neither `Infinity` nor a
      digit-spelled literal follows the white space and the sign. */
  function ParseFloat(s: string): (r: Float)
    ensures r.NaN? <==> !StartsNumber(Unsigned(TrimStart(s)))
  {
    ReadNumber(TrimStart(s))
  }

  /** A run of decimal digits reads back as exactly those digits when
      what follows cannot extend the literal: a carriage return, a unit,
      or even an `e` that starts no exponent part. */
  lemma ParseFloatOfNumeral(ds: string, suffix: string)
    requires IsNumeral(ds)
    requires |suffix| == 0 || (!IsDecimalDigit(suffix[0]) && suffix[0] != '.' && ExponentLength(suffix) == 0)
    ensures ParseFloat(ds + suffix) == Numeric(ds)
  {
    var s := ds + suffix;
    assert s[0] == ds[0];
    TrimStartVisible(s);
    assert Unsigned(s) == s;
    assert !StartsWith(s, "Infinity") by {
      assert s[0] != 'I';
      assert "Infinity"[0] == 'I';
      if |s| >= 8 {
        assert s[..8][0] == s[0];
      }
    }
    WholeNumberLength(ds, suffix);
    assert s[..|ds|] == ds;
  }

  /** Digits followed by text that is not a digit, not a point and not an
      exponent part form a literal of their own length. */
  lemma WholeNumberLength(ds: string, suffix: string)
    requires IsNumeral(ds)
    requires |suffix| == 0 || (!IsDecimalDigit(suffix[0]) && suffix[0] != '.' && ExponentLength(suffix) == 0)
    ensures LiteralLength(ds + suffix) == |ds|
  {
    var s := ds + suffix;
    DigitPrefixOf(ds, suffix, 10);
    assert s[|ds|..] == suffix;
    assert MantissaLength(s) == |ds|;
  }

  /** An `e` with no digits after it is not an exponent: `parseFloat("12eV")`
      reads `12`. */
  lemma ParseFloatBareExponent()
    ensures ParseFloat("12eV") == Numeric("12")
  {
    assert IsNumeral("12");
    assert ExponentLength("eV") == 0;
    ParseFloatOfNumeral("12", "eV");
    assert "12" + "eV" == "12eV";
  }

  /** A missing field reaches `parseFloat` as `undefined`, which is NaN. */
  lemma ParseFloatUndefined()
    ensures ParseFloat("undefined").NaN?
  {
    TrimStartVisible("undefined");
  }

  /** Letters that do not spell `Infinity` are NaN. */
  lemma ParseFloatNonNumeric()
    ensures ParseFloat("abc").NaN?
  {
    TrimStartVisible("abc");
  }

  /** The empty text of an empty field is NaN. */
  lemma ParseFloatEmpty()
    ensures ParseFloat("").NaN?
  {
  }
}
