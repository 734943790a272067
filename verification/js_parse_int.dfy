/** JavaScript's global `parseInt` called without a radix, as the loader
    calls it on the year field. `None` stands for `NaN`. */
module JsParseInt {
  import opened Wrappers
  import opened JsLexical

  /** With no radix given, a leading `0x` or `0X` selects radix 16. */
  predicate HasHexPrefix(u: string)
  {
    |u| >= 2 && u[0] == '0' && (u[1] == 'x' || u[1] == 'X')
  }

  /** When the unsigned text holds no numeral: it does not start with a
      decimal digit, or it starts with `0x` and no hexadecimal digit
      follows the prefix. */
  predicate LacksNumeral(u: string)
  {
    || |u| == 0
    || !IsDecimalDigit(u[0])
    || (HasHexPrefix(u) && (|u| == 2 || !IsDigit(u[2], 16)))
  }

  /** The integer read from the start of an already trimmed text: an
      optional sign, radix 16 after `0x`, and the longest run of digits.
      It is NaN exactly when no numeral follows the sign, and negative
      only after a `-`. */
  function ReadInteger(t: string): (r: Option<int>)
    ensures r.None? <==> LacksNumeral(Unsigned(t))
    ensures r.Some? && r.value < 0 ==> t[0] == '-'
  {
    var u := Unsigned(t);
    var radix := if HasHexPrefix(u) then 16 else 10;
    var digits := DigitPrefix(if HasHexPrefix(u) then u[2..] else u, radix);
    if |digits| == 0 then None else Some(SignOf(t) * DigitsValue(digits, radix))
  }

  /** `parseInt(s)`: skip white space, then read an integer. It is NaN
      exactly when no numeral follows the white space and the sign. */
  function ParseInt(s: string): (r: Option<int>)
    ensures r.None? <==> LacksNumeral(Unsigned(TrimStart(s)))
  {
    ReadInteger(TrimStart(s))
  }

  /** The character for a decimal digit value. */
  function DecimalChar(d: nat): (ch: char)
    requires d < 10
    ensures IsDecimalDigit(ch) && DigitValue(ch) == d
  {
    ('0' as int + d) as char
  }

  /** The shortest decimal numeral for `n`, the way JavaScript prints a
      non-negative integer. */
  function NatToDecimal(n: nat): (ds: string)
    ensures |ds| > 0
    ensures forall i :: 0 <= i < |ds| ==> IsDecimalDigit(ds[i])
    ensures ds[0] == '0' ==> n == 0
  {
    if n < 10 then [DecimalChar(n)] else NatToDecimal(n / 10) + [DecimalChar(n % 10)]
  }

  /** The decimal numeral for any integer, with `-` for negatives. */
  function IntToDecimal(n: int): string
  {
    if n < 0 then "-" + NatToDecimal(-n) else NatToDecimal(n)
  }

  /** Reading back a printed numeral gives the number printed. */
  lemma {:induction false} NatToDecimalValue(n: nat)
    ensures DigitsValue(NatToDecimal(n), 10) == n
  {
    if n >= 10 {
      NatToDecimalValue(n / 10);
      var ds := NatToDecimal(n);
      assert ds[..|ds| - 1] == NatToDecimal(n / 10);
    }
  }

  /** A suffix ends the numeral of `n`: it is empty or starts with a
      character that neither extends the digits nor, after a lone `0`,
      turns the numeral into a `0x` prefix. */
  predicate EndsNumeral(n: int, suffix: string)
  {
    |suffix| == 0 || (!IsDecimalDigit(suffix[0]) && (n != 0 || (suffix[0] != 'x' && suffix[0] != 'X')))
  }

  /** `parseInt` recovers any integer from its decimal numeral, whatever
      ends the numeral: `parseInt("2020abc")` and `parseInt("2020.9")`
      are both 2020. */
  lemma ParseIntOfDecimal(n: int, suffix: string)
    requires EndsNumeral(n, suffix)
    ensures ParseInt(IntToDecimal(n) + suffix) == Some(n)
  {
    var m: nat := if n < 0 then -n else n;
    var u := NatToDecimal(m) + suffix;
    var s := IntToDecimal(n) + suffix;
    NumeralReading(m, suffix, n == 0);
    SignedNumeral(n, suffix);
    DecimalReading(s, u);
  }

  /** A printed integer starts with a visible character, and its sign is
      the number's. */
  lemma SignedNumeral(n: int, suffix: string)
    ensures var s := IntToDecimal(n) + suffix;
      var m := if n < 0 then -n else n;
      && TrimStart(s) == s
      && Unsigned(s) == NatToDecimal(m) + suffix
      && SignOf(s) * m == n
  {
    var m: nat := if n < 0 then -n else n;
    var u := NatToDecimal(m) + suffix;
    var s := IntToDecimal(n) + suffix;
    assert s[0] == '-' || s[0] == u[0];
    TrimStartVisible(s);
    if n < 0 {
      assert s == "-" + u;
      assert s[1..] == u;
    } else {
      assert s == u;
    }
  }

  /** The unsigned part: a printed natural followed by a suffix that ends
      it has no `0x` prefix, and its digits are read back as the number. */
  lemma NumeralReading(m: nat, suffix: string, zero: bool)
    requires zero == (m == 0)
    requires |suffix| == 0 || (!IsDecimalDigit(suffix[0]) && (!zero || (suffix[0] != 'x' && suffix[0] != 'X')))
    ensures var u := NatToDecimal(m) + suffix;
      && !HasHexPrefix(u)
      && DigitPrefix(u, 10) == NatToDecimal(m)
      && DigitsValue(NatToDecimal(m), 10) == m
  {
    var ds := NatToDecimal(m);
    var u := ds + suffix;
    assert !HasHexPrefix(u) by {
      if |ds| >= 2 {
        assert u[1] == ds[1];
      } else if |suffix| > 0 {
        assert u[1] == suffix[0];
      }
    }
    DigitPrefixOf(ds, suffix, 10);
    NatToDecimalValue(m);
  }

  /** A run of decimal digits reads as its decimal value. */
  lemma ParseIntOfNumeral(ds: string)
    requires IsNumeral(ds)
    ensures ParseInt(ds) == Some(DigitsValue(ds, 10))
  {
    TrimStartVisible(ds);
    assert Unsigned(ds) == ds;
    assert !HasHexPrefix(ds) by {
      if |ds| >= 2 {
        assert IsDecimalDigit(ds[1]);
      }
    }
    DigitPrefixOf(ds, "", 10);
    assert ds + "" == ds;
    DecimalReading(ds, ds);
  }

  /** How an integer is read when its numeral has no `0x` prefix. */
  lemma DecimalReading(t: string, u: string)
    requires u == Unsigned(t) && !HasHexPrefix(u)
    ensures |DigitPrefix(u, 10)| > 0 ==>
      ReadInteger(t) == Some(SignOf(t) * DigitsValue(DigitPrefix(u, 10), 10))
  {
  }

  /** Leading white space does not change the result. */
  lemma ParseIntSkipsWhiteSpace(ws: string, s: string)
    requires forall i :: 0 <= i < |ws| ==> IsWhiteSpace(ws[i])
    ensures ParseInt(ws + s) == ParseInt(s)
  {
    TrimStartSkips(ws, s);
  }

  /** The numeral 2020, as the year column holds it. */
  lemma Decimal2020()
    ensures IntToDecimal(2020) == "2020"
  {
    assert NatToDecimal(2) == "2";
    assert NatToDecimal(20) == "20";
    assert NatToDecimal(202) == "202";
  }

  /** A year with trailing text keeps its integer prefix. */
  lemma ParseIntTrailingText()
    ensures ParseInt("2020abc") == Some(2020)
  {
    Decimal2020();
    var s := IntToDecimal(2020) + "abc";
    assert s == "2020abc";
    ParseIntOfDecimal(2020, "abc");
  }

  /** A year written with a fraction is cut at the decimal point. */
  lemma ParseIntFraction()
    ensures ParseInt("2020.9") == Some(2020)
  {
    ParseIntOfDecimal(2020, ".9");
    Decimal2020();
    assert IntToDecimal(2020) + ".9" == "2020.9";
  }

  /** A text that does not start with a digit is NaN. */
  lemma ParseIntNonNumeric()
    ensures ParseInt("abc") == None
  {
    TrimStartVisible("abc");
  }

  /** `parseInt(undefined)` reads the text "undefined" and is NaN. The
      loader never gets here for the year, since `split` always yields a
      first piece; the fact serves `Field`'s contract for any position. */
  lemma ParseIntUndefined()
    ensures ParseInt("undefined") == None
  {
    TrimStartVisible("undefined");
  }

  /** The empty text, as a blank line's first field, is NaN. */
  lemma ParseIntEmpty()
    ensures ParseInt("") == None
  {
  }

  /** White space and a sign may precede the digits. */
  lemma ParseIntSigned()
    ensures ParseInt(" -42") == Some(-42)
  {
    assert NatToDecimal(42) == "42";
    var s := IntToDecimal(-42) + "";
    assert s == "-42";
    ParseIntOfDecimal(-42, "");
    ParseIntSkipsWhiteSpace(" ", s);
    assert " " + s == " -42";
  }

  /** Without a radix argument, `0x` switches to hexadecimal. */
  lemma ParseIntHex()
    ensures ParseInt("0x1A") == Some(26)
  {
    var h := "0x1A";
    TrimStartVisible(h);
    assert HasHexPrefix(h);
    assert h[2..] == "1A";
    DigitPrefixOf("1A", "", 16);
    assert "1A" + "" == "1A";
    assert Unsigned(TrimStart(h)) == h;
    assert DigitPrefix(h[2..], 16) == "1A";
    assert "1A"[..1] == "1";
    assert DigitsValue("1", 16) == 1;
    assert DigitsValue("1A", 16) == 26;
  }

  /** A `0x` prefix with no hexadecimal digit after it is NaN. */
  lemma ParseIntBareHexPrefix()
    ensures ParseInt("0x") == None
  {
    TrimStartVisible("0x");
  }
}
