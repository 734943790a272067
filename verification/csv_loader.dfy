/** The loader on the home page: the fetched CSV text is split into lines,
    the header line is dropped, each line is split on commas into six
    positional fields, the year is read with `parseInt` and the five
    generation columns with `parseFloat`, and rows whose year is NaN are
    filtered out, in order. */
module CsvLoader {
  import opened Wrappers
  import opened JsStrings
  import opened JsLexical
  import opened JsParseInt
  import opened JsParseFloat
  import opened Sequences

  /** One year of U.S. electricity generation by source, in billion
      kilowatt-hours. `year` is `None` where JavaScript holds NaN. */
  datatype DataPoint = DataPoint(
    year: Option<int>,
    coal: Float,
    naturalGas: Float,
    nuclear: Float,
    renewables: Float,
    petroleum: Float)

  /** Position `i` of the destructured row. Past the last piece the value
      is `undefined`, which both number parsers read as the text
      "undefined". */
  function Field(parts: seq<string>, i: nat): (f: string)
    ensures i < |parts| ==> f == parts[i]
    ensures i >= |parts| ==> ParseInt(f).None? && ParseFloat(f).NaN?
  {
    if i < |parts| then parts[i]
    else
      ParseIntUndefined();
      ParseFloatUndefined();
      "undefined"
  }

  /** The record one data line maps to, before filtering. The year is
      always read from the line's first piece, which `split` always
      yields, so it is never read from `undefined`. */
  function ToRecord(row: string): (p: DataPoint)
    ensures p.year == ParseInt(Split(row, ',')[0])
  {
    var parts := Split(row, ',');
    DataPoint(
      ParseInt(Field(parts, 0)),
      ParseFloat(Field(parts, 1)),
      ParseFloat(Field(parts, 2)),
      ParseFloat(Field(parts, 3)),
      ParseFloat(Field(parts, 4)),
      ParseFloat(Field(parts, 5)))
  }

  /** The filter `!isNaN(record.year)`. */
  predicate Kept(p: DataPoint)
  {
    p.year.Some?
  }

  /** The data lines: every line of the text but the first. */
  function Rows(text: string): (rows: seq<string>)
    ensures |rows| == Count(text, '\n')
  {
    Split(text, '\n')[1..]
  }

  /** The records the page stores for a fetched CSV text: the kept
      records of the data lines, in the order of their lines. */
  function ParseCsv(text: string): (out: seq<DataPoint>)
    ensures |out| <= Count(text, '\n')
    ensures forall k :: 0 <= k < |out| ==> out[k].year.Some?
    ensures '\n' !in text ==> out == []
  {
    CountAbsent(text, '\n');
    FilterMap(Rows(text), ToRecord, Kept)
  }

  /** A character that does not occur is counted zero times. */
  lemma {:induction false} CountAbsent(s: string, c: char)
    ensures c !in s ==> Count(s, c) == 0
  {
    if |s| > 0 && c !in s {
      assert forall i :: 0 <= i < |s[1..]| ==> s[1..][i] == s[i + 1];
      CountAbsent(s[1..], c);
    }
  }

  /** The line positions, among the data lines, whose year parses. */
  function SurvivorLines(text: string): seq<nat>
  {
    KeptIndices(Rows(text), ToRecord, Kept)
  }

  /** The result holds exactly the records of the data lines whose year
      parses, each built from its own line, in the lines' order. */
  lemma RecordsAreSurvivorsInOrder(text: string)
    ensures |SurvivorLines(text)| == |ParseCsv(text)|
    ensures forall k :: 0 <= k < |SurvivorLines(text)| ==>
      SurvivorLines(text)[k] < |Rows(text)|
      && ParseCsv(text)[k] == ToRecord(Rows(text)[SurvivorLines(text)[k]])
    ensures forall k, l :: 0 <= k < l < |SurvivorLines(text)| ==>
      SurvivorLines(text)[k] < SurvivorLines(text)[l]
    ensures forall j :: 0 <= j < |Rows(text)| ==>
      (j in SurvivorLines(text) <==> ToRecord(Rows(text)[j]).year.Some?)
  {
    KeptInOrder(Rows(text), ToRecord, Kept);
  }

  /** The first line is always discarded, whatever it holds, even a line
      that would parse as data: only the lines after it are read. */
  lemma HeaderDropped(header: string, body: string)
    requires '\n' !in header
    ensures ParseCsv(header + "\n" + body) == FilterMap(Split(body, '\n'), ToRecord, Kept)
  {
    FirstPiece(header, body, '\n');
  }

  /** A blank line reads as a record whose year is NaN. */
  lemma BlankLineDropped()
    ensures !Kept(ToRecord(""))
  {
    SplitPiece("", ',');
  }

  /** A text ending in a line break gives the same records as without it:
      the empty last line has a NaN year. */
  lemma TrailingNewlineDropped(text: string)
    ensures ParseCsv(text + "\n") == ParseCsv(text)
  {
    TrailingSeparator(text, '\n');
    var lines := Split(text, '\n');
    assert Rows(text + "\n") == lines[1..] + [""];
    FilterMapAppend(lines[1..], [""], ToRecord, Kept);
    BlankLineDropped();
  }

  /** Whether a line is kept depends on its first field alone: the
      generation columns never take part in the filter. */
  lemma YearFieldDecides(year: string, rest1: string, rest2: string)
    requires ',' !in year
    ensures ToRecord(year + "," + rest1).year == ParseInt(year)
    ensures Kept(ToRecord(year + "," + rest1)) == Kept(ToRecord(year + "," + rest2))
  {
    FirstPiece(year, rest1, ',');
    FirstPiece(year, rest2, ',');
  }

  /** A field the line does not have is read from `undefined` and is NaN;
      the record is still kept when its year parses. */
  lemma MissingFieldsAreNaN(row: string)
    ensures |Split(row, ',')| <= 1 ==> ToRecord(row).coal.NaN?
    ensures |Split(row, ',')| <= 2 ==> ToRecord(row).naturalGas.NaN?
    ensures |Split(row, ',')| <= 3 ==> ToRecord(row).nuclear.NaN?
    ensures |Split(row, ',')| <= 4 ==> ToRecord(row).renewables.NaN?
    ensures |Split(row, ',')| <= 5 ==> ToRecord(row).petroleum.NaN?
  {
    var parts := Split(row, ',');
    ParseFloatUndefined();
    assert ToRecord(row).coal == ParseFloat(Field(parts, 1));
    assert ToRecord(row).naturalGas == ParseFloat(Field(parts, 2));
    assert ToRecord(row).nuclear == ParseFloat(Field(parts, 3));
    assert ToRecord(row).renewables == ParseFloat(Field(parts, 4));
    assert ToRecord(row).petroleum == ParseFloat(Field(parts, 5));
  }

  /** Fields after the sixth are ignored. */
  lemma ExtraFieldsIgnored(row: string, extra: string)
    requires |Split(row, ',')| >= 6
    ensures ToRecord(row + "," + extra) == ToRecord(row)
  {
    SplitConcat(row, extra, ',');
    var parts := Split(row, ',');
    var longer := Split(row + "," + extra, ',');
    assert Field(longer, 0) == Field(parts, 0);
    assert Field(longer, 1) == Field(parts, 1);
    assert Field(longer, 2) == Field(parts, 2);
    assert Field(longer, 3) == Field(parts, 3);
    assert Field(longer, 4) == Field(parts, 4);
    assert Field(longer, 5) == Field(parts, 5);
  }

  /** The year is the integer prefix of the first field: the text after
      the digits (a fraction, letters) is ignored. */
  lemma YearIsIntegerPrefix(n: int, suffix: string, rest: string)
    requires EndsNumeral(n, suffix) && ',' !in suffix
    ensures ToRecord(IntToDecimal(n) + suffix + "," + rest).year == Some(n)
  {
    var field := IntToDecimal(n) + suffix;
    assert ',' !in IntToDecimal(n) by {
      var ds := NatToDecimal(if n < 0 then -n else n);
      assert forall i :: 0 <= i < |ds| ==> ds[i] != ',';
    }
    assert ',' !in field;
    YearFieldDecides(field, rest, rest);
    ParseIntOfDecimal(n, suffix);
  }

  /** A line of six comma-free fields becomes the record of those fields,
      read by position: the year with `parseInt`, the rest with
      `parseFloat`. */
  lemma FieldsByPosition(fields: seq<string>)
    requires |fields| == 6
    requires forall i :: 0 <= i < 6 ==> ',' !in fields[i]
    ensures ToRecord(Join(fields, ',')) == DataPoint(
      ParseInt(fields[0]), ParseFloat(fields[1]), ParseFloat(fields[2]),
      ParseFloat(fields[3]), ParseFloat(fields[4]), ParseFloat(fields[5]))
  {
    SplitJoin(fields, ',');
  }

  /** A numeral holds no comma. */
  lemma NumeralHasNoComma(ds: string)
    requires IsNumeral(ds)
    ensures ',' !in ds
  {
    assert forall i :: 0 <= i < |ds| ==> ds[i] != ',';
  }

  /** A line of six plain numerals becomes the record of those numbers:
      the year is the decimal value of the first, and the other columns
      keep their numerals. */
  lemma NumeralLine(fields: seq<string>)
    requires |fields| == 6
    requires forall i :: 0 <= i < 6 ==> IsNumeral(fields[i])
    ensures ToRecord(Join(fields, ','))
      == DataPoint(Some(DigitsValue(fields[0], 10)), Numeric(fields[1]), Numeric(fields[2]),
                   Numeric(fields[3]), Numeric(fields[4]), Numeric(fields[5]))
  {
    forall i | 0 <= i < 6
      ensures ',' !in fields[i]
    {
      NumeralHasNoComma(fields[i]);
    }
    forall i | 1 <= i < 6
      ensures ParseFloat(fields[i]) == Numeric(fields[i])
    {
      ParseFloatOfNumeral(fields[i], "");
      assert fields[i] + "" == fields[i];
    }
    ParseIntOfNumeral(fields[0]);
    FieldsByPosition(fields);
  }
}
