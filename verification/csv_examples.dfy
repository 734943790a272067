/** Concrete inputs for the loader: the worked example of a header, a
    well-formed line and a line with a non-numeric year. */
module CsvExamples {
  import opened Wrappers
  import opened JsStrings
  import opened JsLexical
  import opened JsParseInt
  import opened JsParseFloat
  import opened Sequences
  import opened CsvLoader

  /** The worked example: the column header, a well-formed line, and a
      line whose year is not a number. */
  const ExampleHeader := "year,coal,naturalGas,nuclear,renewables,petroleum"
  const ExampleGood := "2020,1000,1500,800,700,300"
  const ExampleBad := "abc,1,2,3,4,5"
  /** The fields of the well-formed line. */
  const ExampleFields: seq<string> := ["2020", "1000", "1500", "800", "700", "300"]

  /** A line with a good year and an unreadable second field. */
  const ExampleGarbage := "2020,abc"

  /** The year of the worked example. */
  lemma ExampleYear()
    ensures DigitsValue("2020", 10) == 2020
  {
    Decimal2020();
    NatToDecimalValue(2020);
  }

  /** The well-formed line is its six fields joined by commas. */
  lemma ExampleGoodFields()
    ensures ExampleGood == Join(ExampleFields, ',')
  {
    assert Join(ExampleFields, ',') == ExampleGood;
  }

  /** A well-formed data line becomes the record of its six fields. */
  lemma ExampleDataLine()
    ensures ToRecord(ExampleGood)
      == DataPoint(Some(2020), Numeric("1000"), Numeric("1500"), Numeric("800"), Numeric("700"), Numeric("300"))
  {
    ExampleGoodFields();
    ExampleYear();
    assert forall i :: 0 <= i < 6 ==> IsNumeral(ExampleFields[i]);
    NumeralLine(ExampleFields);
  }

  /** A data line whose year has no digits is not kept. */
  lemma ExampleBadLine()
    ensures !Kept(ToRecord(ExampleBad))
  {
    assert ExampleBad == "abc" + [','] + "1,2,3,4,5";
    FirstPiece("abc", "1,2,3,4,5", ',');
    ParseIntNonNumeric();
  }

  /** The pieces of the header hold no line break. */
  lemma HeaderPiecesAreOneLine()
    ensures '\n' !in "year,coal," && '\n' !in "naturalGas," && '\n' !in "nuclear,"
    ensures '\n' !in "renewables," && '\n' !in "petroleum"
  {
  }

  /** The header as the concatenation of those pieces. */
  lemma ExampleHeaderPieces()
    ensures ExampleHeader == "year,coal," + "naturalGas," + "nuclear," + "renewables," + "petroleum"
  {
  }

  /** The header holds no line break. */
  lemma ExampleHeaderIsOneLine()
    ensures '\n' !in ExampleHeader
  {
    HeaderPiecesAreOneLine();
    ExampleHeaderPieces();
  }

  /** The data lines hold no line break. */
  lemma ExampleDataAreOneLine()
    ensures '\n' !in ExampleGood && '\n' !in ExampleBad
  {
  }

  /** The two data lines of the worked example. */
  lemma ExampleLines()
    ensures Split(ExampleGood + "\n" + ExampleBad, '\n') == [ExampleGood, ExampleBad]
  {
    ExampleDataAreOneLine();
    FirstPiece(ExampleGood, ExampleBad, '\n');
    SplitPiece(ExampleBad, '\n');
  }

  /** Of two lines where only the first is kept, only its record remains. */
  lemma FirstOfTwoKept(a: string, b: string)
    requires Kept(ToRecord(a)) && !Kept(ToRecord(b))
    ensures FilterMap([a, b], ToRecord, Kept) == [ToRecord(a)]
  {
    assert [a, b][..1] == [a];
    assert [a][..0] == [];
  }

  /** A header, one good line and one line with a non-numeric year give
      exactly the one record of the good line. */
  lemma WorkedExample()
    ensures ParseCsv(ExampleHeader + "\n" + ExampleGood + "\n" + ExampleBad)
      == [DataPoint(Some(2020), Numeric("1000"), Numeric("1500"), Numeric("800"), Numeric("700"), Numeric("300"))]
  {
    var body := ExampleGood + "\n" + ExampleBad;
    ExampleHeaderIsOneLine();
    assert ExampleHeader + "\n" + body == ExampleHeader + "\n" + ExampleGood + "\n" + ExampleBad;
    HeaderDropped(ExampleHeader, body);
    ExampleLines();
    ExampleDataLine();
    ExampleBadLine();
    FirstOfTwoKept(ExampleGood, ExampleBad);
  }

  /** A data line alone, with nothing before it, is taken for the header
      and gives no record although it would parse. */
  lemma DataLineAsHeader()
    ensures ParseCsv(ExampleGood) == []
  {
    ExampleDataAreOneLine();
  }

  /** Such a line is kept; the unreadable field and the four missing ones
      are NaN. */
  lemma GarbageFieldsKept()
    ensures ToRecord(ExampleGarbage) == DataPoint(Some(2020), NaN, NaN, NaN, NaN, NaN)
  {
    GarbageLineFields();
    ExampleYear();
    ParseIntOfNumeral("2020");
    ParseFloatNonNumeric();
    MissingFieldsAreNaN(ExampleGarbage);
  }

  /** The garbage line splits into two fields. */
  lemma GarbageLineFields()
    ensures Split(ExampleGarbage, ',') == ["2020", "abc"]
  {
    assert ExampleGarbage == "2020" + [','] + "abc";
    assert ',' !in "abc";
    FirstPiece("2020", "abc", ',');
    SplitPiece("abc", ',');
  }
}
