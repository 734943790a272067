# power-map: the CSV loader and the chart style map, in Dafny

The power-map home page charts U.S. electricity generation by major
energy source. Two small pieces of logic decide what the chart receives,
and this project models both.

**The CSV loader** (`src/app/page.tsx`). The fetched text is handled as follows:
- It is split on `'\n'` and the first line is dropped.
- Each remaining line is split on `','` and destructured by position into
  `year, coal, naturalGas, nuclear, renewables, petroleum`.
- The year is read with `parseInt` and the other five with `parseFloat`.
- Records whose year is `NaN` are filtered out. The survivors keep their order.

**`ChartContainer`** (`src/components/ui/chart.tsx`). The component folds
the chart configuration into a record of CSS custom properties: each key `k`
gives `--color-k`, set to `config[k].cssVariable`. A mount flag decides
when this happens. Before the component has mounted, the record stays empty.
After mounting, the try block sets the record. The catch block holds a
second copy of the same reduction over the same configuration. So whatever
makes the try block throw makes the catch block throw too. The error then
leaves the effect and the record stays as it was.

Modules, one per file:

- `Wrappers`: `Option`.
- `JsStrings`: `String.prototype.split` with a one-character separator, its
  inverse `Join`, and the round trips between them.
- `JsLexical`: the lexical helpers both number parsers share:
  - `StrWhiteSpaceChar` skipping;
  - the optional sign;
  - digit values in radix 2–36;
  - the longest run of digits.
- `JsParseInt`: `parseInt` called without a radix (`None` is `NaN`).
  A leading `0x`/`0X` switches to radix 16. Also decimal printing, used for
  the round-trip lemmas.
- `JsParseFloat`: `parseFloat`, with the results `NaN | Numeric(literal) | Infinite(negative)`.
  Whether the result is `NaN` is exact. A number spelled with digits is kept
  as the literal text `parseFloat` reads. `Infinite` stands only for a
  spelled-out `Infinity`.
- `Sequences`: the generic map-then-filter pipeline (`rows.map(f).filter(p)`)
  and its order and membership lemmas.
- `CsvLoader`: the `DataPoint` record (`src/app/page.tsx:9-16`), the row
  parser, the whole loader, and its properties.
- `CsvExamples`: the worked example of a header, a good line and a line
  with a non-numeric year, plus a line with a garbage field.
- `ChartContainer`:
  - the style map;
  - the fallback branch;
  - the mount guard, as a state machine over effect events;
  - the configuration the home page passes.

Two details of the row parser:

- Each line is destructured from whatever `split` returns:
  - Fields past the sixth are ignored (`ExtraFieldsIgnored`).
  - Missing fields are `undefined` and parse as `NaN`. The record is still
    kept if its year parses (`MissingFieldsAreNaN`, `GarbageFieldsKept`).
- The year is not required to be a whole number. `parseInt` keeps the integer
  prefix, so `"2020.9"` and `"2020abc"` both give 2020.

A consequence worth knowing: the home page passes `cssVariable:
"--color-coal"` for the key `coal`, and likewise for the other series. So
every custom property the container sets has its own name as its value,
not a colour (`PageConfigSelfReferences`).

## Model

| member | source | states |
|---|---|---|
| JsStrings.Split | src/app/page.tsx:26 | `split` with a one-character separator gives one more piece than there are separators, and no piece holds the separator |
| JsStrings.JoinSplit | src/app/page.tsx:26 | joining the pieces with the separator gives back the text, so splitting loses no character |
| JsStrings.SplitJoin | src/app/page.tsx:28 | splitting the comma-join of comma-free fields gives back exactly those fields |
| JsStrings.SplitPiece | src/app/page.tsx:28 | a text without the separator is a single piece |
| JsStrings.SplitConcat | src/app/page.tsx:28 | the pieces of `a + sep + b` are the pieces of `a` followed by the pieces of `b` |
| JsStrings.TrailingSeparator | src/app/page.tsx:26 | a trailing separator adds one empty last piece |
| JsStrings.FirstPiece | src/app/page.tsx:26 | a separator-free first line is the first piece, and the rest splits on its own |
| JsLexical.TrimStartSpec | src/app/page.tsx:30-35 | the number parsers skip exactly the leading run of white space and continue at the first visible character |
| JsLexical.TrimStartSkips | src/app/page.tsx:30-35 | prefixing white space does not change what is left after skipping |
| JsLexical.DigitPrefixSpec | src/app/page.tsx:30 | the digits read are a prefix of the text, all digits, and followed by a non-digit or the end |
| JsLexical.DigitPrefixOf | src/app/page.tsx:30 | digits followed by a non-digit are exactly the digits read |
| JsParseInt.ParseInt | src/app/page.tsx:30 | `parseInt` is NaN exactly when, after the leading white space and the sign, no numeral follows |
| JsParseInt.ReadInteger | src/app/page.tsx:30 | after the sign, `parseInt` is NaN exactly when no numeral follows: no decimal digit, or `0x` with no hexadecimal digit; the result is negative only after `-` |
| JsParseInt.NatToDecimalValue | src/app/page.tsx:30 | the decimal value of a printed non-negative integer is that integer |
| JsParseInt.ParseIntOfDecimal | src/app/page.tsx:30 | `parseInt` recovers every integer from its decimal numeral, whatever text ends the numeral: a non-digit, and not `x`/`X` after a lone `0` |
| JsParseInt.ParseIntOfNumeral | src/app/page.tsx:30 | a field of decimal digits parses to its decimal value |
| JsParseInt.ParseIntSkipsWhiteSpace | src/app/page.tsx:30 | leading white space does not change the year read |
| JsParseInt.ParseIntTrailingText | src/app/page.tsx:30 | `parseInt("2020abc")` is 2020 |
| JsParseInt.ParseIntFraction | src/app/page.tsx:30 | `parseInt("2020.9")` is 2020 |
| JsParseInt.ParseIntNonNumeric | src/app/page.tsx:30 | `parseInt("abc")` is NaN |
| JsParseInt.ParseIntEmpty | src/app/page.tsx:30 | `parseInt("")` is NaN |
| JsParseInt.ParseIntSigned | src/app/page.tsx:30 | `parseInt(" -42")` is -42: white space and a sign may precede the digits |
| JsParseInt.ParseIntHex | src/app/page.tsx:30 | with no radix, `parseInt("0x1A")` is 26 |
| JsParseInt.ParseIntBareHexPrefix | src/app/page.tsx:30 | `parseInt("0x")` is NaN |
| JsParseFloat.ReadNumber | src/app/page.tsx:31-35 | after the sign, `parseFloat` is NaN exactly when neither `Infinity` nor a digit (or a point and a digit) follows; a numeric literal is a non-empty prefix of the trimmed text; a spelled-out `Infinity` carries the written sign |
| JsParseFloat.ParseFloat | src/app/page.tsx:31-35 | `parseFloat` is NaN exactly when, after the leading white space and the sign, neither `Infinity` nor a digit-spelled literal follows |
| JsParseFloat.ParseFloatOfNumeral | src/app/page.tsx:31-35 | a column of decimal digits reads as exactly those digits when what follows cannot extend the literal: not a digit, not `.`, and not an exponent part (so `12eV` still reads `12`) |
| JsParseFloat.WholeNumberLength | src/app/page.tsx:31-35 | digits followed by text that is not a digit, not `.` and not an exponent part form a literal of their own length |
| JsParseFloat.ParseFloatBareExponent | src/app/page.tsx:31-35 | `parseFloat("12eV")` is `12`: an `e` without exponent digits ends the literal |
| JsParseFloat.ParseFloatUndefined | src/app/page.tsx:28-35 | a missing field reaches `parseFloat` as `undefined` and is NaN |
| JsParseFloat.ParseFloatNonNumeric | src/app/page.tsx:31-35 | `parseFloat("abc")` is NaN |
| JsParseFloat.ParseFloatEmpty | src/app/page.tsx:31-35 | `parseFloat("")` is NaN |
| Sequences.FilterMap | src/app/page.tsx:27-37 | map-then-filter keeps no more items than it is given, and every item it keeps passes the filter |
| Sequences.KeptInOrder | src/app/page.tsx:27-37 | the output is exactly the mapped inputs that pass the filter: one strictly increasing input index per output item, and an index is present if and only if its item passes |
| Sequences.FilterMapAppend | src/app/page.tsx:27-37 | map-then-filter distributes over concatenation of the input |
| Sequences.MapThenFilter | src/app/page.tsx:27-37 | the two passes, a full `map` and then a `filter`, give the same sequence as the one-pass definition |
| CsvLoader.Field | src/app/page.tsx:28 | destructuring gives the piece at a position the line has; a position it lacks gives `undefined`, which both parsers read as NaN |
| CsvLoader.ToRecord | src/app/page.tsx:27-36 | the record's year is `parseInt` of the line's first piece, which `split` always yields |
| CsvLoader.Kept | src/app/page.tsx:37 | the filter `!isNaN(record.year)`: a record is kept exactly when its year is a number |
| CsvLoader.Rows | src/app/page.tsx:26 | after the header is dropped there is one data line per line break |
| CsvLoader.ParseCsv | src/app/page.tsx:26-37 | at most one record per data line, every record has a year, and a text with no line break (a header only, or empty) gives no record |
| CsvLoader.RecordsAreSurvivorsInOrder | src/app/page.tsx:26-37 | the records are exactly the data lines whose year parses, each built from its own line, in line order |
| CsvLoader.HeaderDropped | src/app/page.tsx:26 | the first line is discarded whatever it holds; the result depends only on the lines after it |
| CsvLoader.BlankLineDropped | src/app/page.tsx:28-37 | an empty line has a NaN year and is filtered out |
| CsvLoader.TrailingNewlineDropped | src/app/page.tsx:26-37 | a final line break changes nothing |
| CsvLoader.YearFieldDecides | src/app/page.tsx:37 | the year of a record is `parseInt` of the first field, and the other fields never affect whether a line is kept |
| CsvLoader.MissingFieldsAreNaN | src/app/page.tsx:28-35 | each field the line does not have is NaN |
| CsvLoader.ExtraFieldsIgnored | src/app/page.tsx:28 | fields after the sixth do not change the record |
| CsvLoader.YearIsIntegerPrefix | src/app/page.tsx:30 | the year is the integer prefix of the first field, whatever text ends the numeral in the field: a non-digit, and not `x`/`X` after a lone `0` |
| CsvLoader.FieldsByPosition | src/app/page.tsx:28-36 | a line of six comma-free fields gives `parseInt` of the first and `parseFloat` of the others, in order |
| CsvLoader.NumeralLine | src/app/page.tsx:28-36 | a line of six digit runs gives the first one's value as the year and the others' numerals as the columns |
| CsvExamples.ExampleDataLine | src/app/page.tsx:28-36 | the line `2020,1000,1500,800,700,300` gives year 2020 and columns 1000, 1500, 800, 700, 300 |
| CsvExamples.ExampleBadLine | src/app/page.tsx:37 | the line `abc,1,2,3,4,5` is filtered out |
| CsvExamples.WorkedExample | src/app/page.tsx:26-37 | a header, the good line and the `abc` line give exactly the good line's record |
| CsvExamples.DataLineAsHeader | src/app/page.tsx:26 | a data line alone is taken as the header and gives no record |
| CsvExamples.GarbageFieldsKept | src/app/page.tsx:28-37 | `2020,abc` is kept with year 2020 and all five columns NaN |
| ChartContainer.VarName | src/components/ui/chart.tsx:32 | a key's property name starts with `--color-` and continues with exactly the key |
| ChartContainer.VarNameInjective | src/components/ui/chart.tsx:32 | two keys give the same property name if and only if they are equal |
| ChartContainer.ColorVars | src/components/ui/chart.tsx:31-34 | the record's names are exactly `--color-k` for the keys `k` of the configuration |
| ChartContainer.ColorVarsLookup | src/components/ui/chart.tsx:31-34 | for every key `k`, the record sends `--color-k` to `config[k].cssVariable` |
| ChartContainer.OneVariablePerKey | src/components/ui/chart.tsx:31-34 | the record has exactly as many entries as the configuration has keys |
| ChartContainer.LabelsIgnored | src/components/ui/chart.tsx:31-34 | configurations that differ only in labels give the same record |
| ChartContainer.ColorVarsOrderFree | src/components/ui/chart.tsx:31-34 | with distinct keys, the order in which `Object.entries` lists them does not change the record |
| ChartContainer.FallbackVars | src/components/ui/chart.tsx:38-41 | the catch block's record, too, has exactly `--color-k` for the keys `k` as its names |
| ChartContainer.FallbackAgrees | src/components/ui/chart.tsx:36-43 | the catch block's reduction computes the same record as the try block's, over the same configuration |
| ChartContainer.Step | src/components/ui/chart.tsx:20-44 | `Mounted` sets the mount flag and leaves the record alone; a run of the effect never changes the flag, changes the record only when mounted and not throwing, and then installs the configuration's record; a throwing run, whose catch block throws again, changes nothing |
| ChartContainer.Run | src/components/ui/chart.tsx:20-24 | starting from an empty record and an unset flag, the component is mounted exactly when a `Mounted` event has happened |
| ChartContainer.UnmountedStaysEmpty | src/components/ui/chart.tsx:27-28 | over any sequence of events, the record is empty while the component is not mounted |
| ChartContainer.MountedEffectInstalls | src/components/ui/chart.tsx:27-35 | after mounting, a run of the effect that does not throw sets the record of the configuration it sees |
| ChartContainer.ThrowingEffectKeepsState | src/components/ui/chart.tsx:30-43 | a run of the effect whose reduction throws leaves the state unchanged, because the catch block's copy throws as well |
| ChartContainer.FirstCommit | src/components/ui/chart.tsx:20-44 | a run of the effect before the mount has taken hold leaves the record empty, thrown or not; the run after the re-render sets it |
| ChartContainer.SelfReferences | src/components/ui/chart.tsx:32 | when each `cssVariable` names its own key's property, every property's value is its own name |
| ChartContainer.PageConfigDistinct | src/app/page.tsx:76-97 | the home page's configuration has five distinct keys |
| ChartContainer.PageConfigNamesOwnVariable | src/app/page.tsx:76-97 | each `cssVariable` in the home page's configuration is `--color-` followed by its own key |
| ChartContainer.PageConfigSelfReferences | src/app/page.tsx:76-97 | with the home page's configuration, each of the container's properties has its own name as its value, not a colour |

## Left out

- The fetch, the `then` chain and `catch`/`console.error` (`src/app/page.tsx:23-25,38-40`) are network and I/O. The loader is modelled from the fetched text onwards, and `setData` is its result.
- `handleDownload` (`src/app/page.tsx:43-64`) is canvas and DOM work with no logic to prove.
- The Recharts tree and the tooltip's `toFixed(2)` are rendering only.
- `next.config.ts` holds framework settings only.
- `cn` and the wrapper `div` of `ChartContainer` are rendering only.
- JsParseFloat.ReadNumber: does not compute the IEEE-754 double that `parseFloat` rounds the literal to. A `Numeric` result is the literal text it reads, which may round to `Infinity` (`1e400`) or to 0 (`1e-400`). NaN-ness, which is all the loader's filter could observe, is exact. Floating point is out of scope.
- JsParseInt.ReadInteger: the value is the exact integer. It does not model the rounding of numerals beyond 2^53 to a double, or `-0` for `"-0"` (modelled as 0). Neither affects whether a year is NaN.
- JsStrings.Split: does not model the `2^32 - 1` limit on the number of pieces.
- ChartContainer.Step: React's scheduling is reduced to two events. `Mounted` is the render in which `setIsMounted(true)` has taken effect. `ConfigEffect` is a run of the second effect, flagged when the configuration makes the reduction throw. Re-renders that change nothing and the dependency-array comparison are not modelled. Where an escaping error goes (React's error handling) is not modelled either.
- ChartContainer.SeriesConfig: the field `label` is named `labelText`, because `label` is a Dafny keyword.
- ChartContainer.ColorVars: `Object.entries` is a sequence of key/entry pairs in whatever order JavaScript lists them: array-index keys first in ascending order, then the others in insertion order. The model does not compute that order; `ColorVarsOrderFree` shows that with distinct keys it does not matter. The reduce mutates its accumulator, which the model writes as a map update. A JavaScript object cannot repeat a key, so the lookup lemma assumes distinct keys.
