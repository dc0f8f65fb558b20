# CSV ingestion and KPI rollup of the campaign dashboard

This project models, in Dafny, the data core of a single-page campaign
dashboard (`App.jsx`). A user uploads a CSV export of daily advertising
figures. `parseCSV` then does the following:

1. It cuts the text into trimmed, non-empty lines.
2. It starts reading at the first line that begins with a `YYYY-MM-DD`
   date.
3. It skips totals rows, header rows and rows without a first field.
4. It decodes the 34 metric columns of every other line by position.
   Registration-rate columns go through `parseRate`; every other column
   goes through `parseNum`.
5. It reverses the series when the first date is after the last.

`calculateSummary` then rolls the series up into the headline figures:

- total spend, installs and registrations;
- registration rate and cost per install, both over installs;
- the day-one ROI.

Two small pieces of presentation logic are modelled as well:

- the brief under each chart (`ChartSummary`): the average, the peak and
  its date, and the trend;
- the way the insight panel sorts the lines of the analysis text into
  headings, list items, breaks and paragraphs.

Modules, one per file:

| file | module | what it holds |
|---|---|---|
| `optional.dfy` | `Optional` | the `Option` type, which stands for JavaScript's `undefined` and `NaN` |
| `seqs.dfy` | `Seqs` | facts about sequences of any kind: associativity, dropping a prefix, taking one element out of a multiset |
| `text.dfy` | `Text` | the string operations the code calls: `trim`, `split`, `replace`, `includes`, `startsWith` |
| `js_number.dfy` | `JsNumber` | `parseFloat`, read as an exact rational number |
| `cells.dfy` | `Cells` | `parseNum` and `parseRate` |
| `daily_record.dfy` | `DailyRecords` | the record of one day and the decoding of one data line |
| `series.dfy` | `Series` | `parseCSV`: its specification functions, the loops as methods proved against them, and the date comparison |
| `summary.dfy` | `Summaries` | `calculateSummary`, and the dashboard state an upload leaves behind |
| `chart_summary.dfy` | `ChartBriefs` | the chart brief |
| `insight.dfy` | `Insights` | the line classifier of the insight panel |

Some of what App.jsx does differs from what a reader of the code's names
and comments might expect. The model keeps the code's behaviour, and the
member in brackets states it:

- **Text without a date line.** `startIndex` starts at 0 and only moves when
  a date line is found (App.jsx:275-281), so a file without one is read from
  its first line, not skipped (`Series.NoDateLineReadsAll`).
- **Percent signs.** `replace('%', '')` with a string pattern removes only
  the first `%`, wherever it stands (App.jsx:290), so `5%` and `%5` read
  alike (`Cells.ParseNumIgnoresPercent`, `Text.RemoveFirstAt`).
- **Bare rates.** The comments at App.jsx:295-297 and 307-308 explain that a
  bare rate above 10 is taken for a percentage. The test is strict, so a bare
  `10` stays 10, that is 1000% (`Cells.SmallRatesKept`,
  `Cells.BareMatchesPercent`).
- **Quoted cells with commas.** Every line is cut at every comma
  (App.jsx:285), quotes or not. A quoted amount such as `"2,200.00"` becomes
  two cells and shifts the columns after it
  (`DailyRecords.QuotedAmountSplits`). `parseNum` itself drops commas, so
  `Cells.GroupedAmount` (2200) holds only for `parseNum` called on the whole
  cell.
- **Day-one ROI.** `avgROI1` divides the sum over every day, negative days
  included, by the number of days with a positive ROI (App.jsx:260-261)
  (`Summaries.NegativeRoi1Lowers`). It is the mean over the positive days
  only when no day is negative (`Summaries.Roi1MeanOfPositiveDays`).
- **Empty series.** `calculateSummary` returns before `setSummaryData`
  (App.jsx:252), so the previous summary stays on display
  (`Summaries.EmptyUploadKeepsSummary`).
- **Ordering.** Only the first date is compared with the last
  (App.jsx:358-364). The comparison is between `new Date` values, so equal
  days and invalid dates never reverse the series
  (`Series.OrientedKeepsTiesAndInvalid`). For two valid `YYYY-MM-DD`
  strings it is modelled as the order of the calendar days they name
  (`Series.DateAfterCalendar`).

## Model

| member | source | states |
|---|---|---|
| Text.Trim | App.jsx:274 | the trimmed line is the text between the leading white-space run and the trailing one: it occurs in the line right after the leading run, only white space follows it, it has no white space at either end, and it is empty exactly when the line is all white space |
| Text.SpaceRun | App.jsx:222 | the length of the white-space run a text starts with: everything before it is white space and the character after it is not |
| Text.TrimStart | App.jsx:274 | the leading white space is dropped: the result is a suffix of the text, what was dropped is all white space, and the result does not start with white space |
| Text.TrimEnd | App.jsx:274 | the trailing white space is dropped: the result is a prefix of the text, what was dropped is all white space, and the result does not end with white space |
| Text.StartsWith | App.jsx:218-221 | `startsWith` holds exactly when the prefix is no longer than the text and agrees with it character by character |
| Text.Contains | App.jsx:286 | `includes` holds exactly when the text occurs in the string at some position |
| Text.Split | App.jsx:274 | `split` yields at least one piece and no piece contains the separator |
| Text.JoinSplit | App.jsx:274 | joining the pieces with the separator gives back the text: splitting loses nothing |
| Text.SplitJoin | App.jsx:285 | splitting a join of separator-free pieces gives back exactly those pieces |
| Text.SplitConcat | App.jsx:274 | splitting two texts joined by the separator gives the pieces of the first followed by those of the second |
| Text.SplitLength | App.jsx:285 | a line has one field more than it has commas |
| Text.RemoveAll | App.jsx:290 | the global replace keeps only characters of the cell that are not dropped, and never lengthens it |
| Text.RemoveAllConcat | App.jsx:290 | the global replace works character by character: it distributes over concatenation |
| Text.RemoveFirst | App.jsx:290 | the string-pattern replace leaves a text without `%` unchanged, and otherwise removes exactly one character and adds none |
| Text.RemoveFirstAt | App.jsx:290 | the string-pattern replace removes only the first `%` and leaves everything around it |
| JsNumber.ParseFloat | App.jsx:291 | `parseFloat` is `NaN` exactly when, after white space and an optional sign, neither a digit nor a point followed by a digit comes next |
| JsNumber.ParseFloatSkipsSpace | App.jsx:291 | leading white space does not change what `parseFloat` reads |
| JsNumber.ParseFloatNatText | App.jsx:291 | `parseFloat` reads the decimal digits of any natural number back as that number when the text after them does not start with a digit, a point, `e` or `E` |
| JsNumber.ParseFloatNegated | App.jsx:291 | a leading minus negates the digits that follow, when the text after them does not start with a digit, a point, `e` or `E` |
| JsNumber.ParseFloatDecimal | App.jsx:291 | `d.f` reads as the whole part plus the fraction |
| JsNumber.ParseFloatExponent | App.jsx:291 | digits, an `e` and exponent digits read as the whole part times ten to the exponent |
| Cells.Clean | App.jsx:290 | the cleaned cell holds no quote or comma and only characters of the cell |
| Cells.ParseNum | App.jsx:288-293 | a missing or empty cell, and a cell whose cleaned text does not start with a number, decode to 0 (never NaN) |
| Cells.ParseRate | App.jsx:298-313 | a missing or empty cell gives 0; a cell with `%` gives a hundredth of `parseNum`; a bare value above 10 gives a hundredth; any other bare value is kept |
| Cells.ParseNumNatText | App.jsx:288-293 | a cell holding the digits of `n` decodes to `n` |
| Cells.ParseNumIgnoresSeparator | App.jsx:290 | a quote or comma anywhere in a cell does not change its value |
| Cells.ParseNumIgnoresPercent | App.jsx:290 | one `%` anywhere in a cell does not change its value |
| Cells.ParseNumDecimal | App.jsx:288-293 | a decimal cell decodes to its whole part plus its fraction |
| Cells.GroupedDecimal | App.jsx:290-291 | an amount with a thousands comma decodes as the same digits without it |
| Cells.GroupedAmount | App.jsx:290-291 | `2,200.00` decodes to 2200 |
| Cells.BareRateBounded | App.jsx:307-312 | a bare value between 0 and 1000 always gives a rate between 0 and 10 |
| Cells.BareMatchesPercent | App.jsx:298-313 | above 10, the bare number and the same number with `%` give the same rate |
| Cells.SmallBareIsFraction | App.jsx:298-313 | at or below 10, the bare number is kept while the number with `%` is divided by 100 |
| Cells.FiftyIsPercent | App.jsx:298-313 | `50` and `50%` both decode to 0.5 |
| Cells.SmallRatesKept | App.jsx:309-312 | `5` decodes to 5 and `10` to 10: the threshold is strict |
| Cells.DecimalRateKept | App.jsx:309-312 | `1.11` decodes to 1.11 |
| DailyRecords.Row | App.jsx:285 | the fields of a line hold no comma, there is one field more than the line has commas, and joined with commas they give back the line |
| DailyRecords.Cell | App.jsx:285 | a field past the end of the row is `undefined` (`None`); any other field is the row's text |
| DailyRecords.ParseRow | App.jsx:315-355 | the record's date is field 0 and its weekday field 1; metric `i` is field `i + 2`, decoded by that column's decoder |
| DailyRecords.IsRateColumn | App.jsx:322-347 | the rate columns are the ones right after the registrations of the total, Android and iOS blocks |
| DailyRecords.DecodeColumnCases | App.jsx:319-354 | a missing or empty cell decodes to 0 in every column; a non-rate column is read by `parseNum`; a rate cell with `%` gives a hundredth of `parseNum`, and a bare one a hundredth above 10 and `parseNum` itself otherwise |
| DailyRecords.ParseRowColumn | App.jsx:319-354 | columns 5, 17 and 28 go through `parseRate` and every other metric column through `parseNum` |
| DailyRecords.ShortRowZero | App.jsx:315-355 | a line cut short gives 0 for every missing metric, and a line without a comma has no weekday |
| DailyRecords.ExtraColumnsIgnored | App.jsx:315-355 | fields after column 35 do not change the record |
| DailyRecords.RowOfFields | App.jsx:285 | five comma-free fields joined by commas split back into exactly those five fields |
| DailyRecords.LeadingMetrics | App.jsx:285-321 | in a five-field line, spend, installs and registrations are `parseNum` of fields 2, 3 and 4 |
| DailyRecords.QuotedAmountSplits | App.jsx:285-291 | in the line `date,weekday,"2,200.00",180` the spend decodes to 2, the installs to 200 and the registrations to 180: the quoted amount is cut at its comma |
| Series.Kept | App.jsx:274 | trimming and dropping empty pieces gives no more lines than pieces, and no line at all exactly when every piece is blank |
| Series.Lines | App.jsx:274 | every working line is non-empty and has no white space at either end |
| Series.LinesConcat | App.jsx:274 | the lines of two texts joined by a line feed are the lines of the first followed by those of the second |
| Series.LinesSingle | App.jsx:274 | a text without line feeds gives no line when blank, and its trimmed self otherwise |
| Series.IsDateLine | App.jsx:277 | `/^\d{4}-\d{2}-\d{2}/` matches exactly when the line has at least ten characters, dashes at positions 4 and 7 and digits at the other eight |
| Series.FirstDateLine | App.jsx:276-281 | the index found is a date line and no earlier line is one; none is found exactly when no line is a date line |
| Series.StartIndex | App.jsx:275-281 | reading starts at the first date line, or at 0 when there is none |
| Series.FindStart | App.jsx:275-281 | the scan with `break` returns exactly the start index |
| Series.Skipped | App.jsx:286 | a line is skipped exactly when its first field is not a possible record date: empty, or holding the totals or header marker |
| Series.Records | App.jsx:283-356 | no more records than lines; every record's date is non-empty and has no totals or header marker |
| Series.RecordsConcat | App.jsx:284-356 | each line is read on its own: records of two runs of lines are the records of the first followed by those of the second |
| Series.RecordsAllKept | App.jsx:284-356 | when no line is skipped, record `i` is the record of line `i` |
| Series.SkippedLineIgnored | App.jsx:286 | a totals, header or empty-first-field line anywhere contributes nothing |
| Series.ReadRecords | App.jsx:283-356 | the record loop with `continue` builds exactly the records of the lines from the start index on |
| Series.DateAfter | App.jsx:359-361 | the comparison is false whenever either date is invalid, and when true the two dates are valid and different |
| Series.DateAfterCalendar | App.jsx:359-361 | for two valid dates, one is after the other exactly when it has a later year, or the same year and a later month, or the same month and a later day |
| Series.DateAfterTransitive | App.jsx:359-361 | a date after a second that is after a third is after the third |
| Series.DateAfterAsymmetric | App.jsx:359-361 | of two dates, at most one is after the other |
| Series.Reverse | App.jsx:362 | reversing keeps the length |
| Series.ReverseAt | App.jsx:362 | reversing puts element `|s| - 1 - i` at position `i` |
| Series.ReversePermutes | App.jsx:362 | reversing keeps exactly the same records |
| Series.ReverseReverse | App.jsx:362 | reversing twice gives back the series |
| Series.Oriented | App.jsx:358-364 | a series of two or more records whose first date is after its last is reversed, and every other series is left exactly as it is; afterwards the first date is not after the last |
| Series.OrientedPermutes | App.jsx:358-364 | orientation keeps exactly the records it was given |
| Series.OrientedIdempotent | App.jsx:358-364 | orienting an oriented series changes nothing |
| Series.OrientedByDate | App.jsx:358-364 | with two valid end dates, a series whose first day is not later than its last is kept and one whose first day is later is reversed |
| Series.OrientedKeepsTiesAndInvalid | App.jsx:358-364 | a series whose end dates are the same, or whose first or last date is invalid, is never reversed |
| Series.Body | App.jsx:283-356 | the records read from the start index on are no more than the lines from there, and every one carries a record date |
| Series.Ingest | App.jsx:273-366 | the uploaded series has no more records than the lines from the start index, only record dates, and its first date is not after its last |
| Series.ParseCsv | App.jsx:273-366 | the line scan, the record loop and the conditional reverse compute exactly `Ingest` |
| Series.NoDateLineReadsAll | App.jsx:275-281 | with no date line, every line is a candidate record |
| Series.BodyAfterPreamble | App.jsx:275-286 | lines before the first date line never contribute a record |
| Series.PreambleDropped | App.jsx:274-286 | an upload made of a dateless preamble, a line feed and a body with a date line reads as the body alone |
| Summaries.Total | App.jsx:254-256 | an empty series totals 0 and a one-day series totals that day's value |
| Summaries.TotalNonNegative | App.jsx:254-256 | over days whose values are never negative, the total is not negative |
| Summaries.PositiveCount | App.jsx:260 | the count of positive days is at most the number of days |
| Summaries.PositiveCountZero | App.jsx:260-261 | no day counts exactly when no day has a positive value, which is when the day-one ROI falls back to 0 |
| Summaries.Ratio | App.jsx:258-261 | a guarded quotient: times a positive denominator it gives the numerator, and it is 0 otherwise |
| Summaries.CalculateSummary | App.jsx:251-271 | no summary for an empty series. Otherwise: the three totals; rate and cost per install over the installs, or 0 without installs; the day-one ROI times the count of positive days is the ROI total, or 0 without a positive day |
| Summaries.TotalAppend | App.jsx:254-256 | the total over two runs of days is the sum of their totals |
| Summaries.TotalPermutation | App.jsx:254-261 | totals and positive counts do not depend on the order of the days: two series holding the same days (as multisets) agree on both |
| Summaries.TotalReverse | App.jsx:254-261 | reversing the days changes neither the totals nor the positive counts |
| Summaries.SummaryIgnoresOrientation | App.jsx:251-271 | reversing the series before the rollup changes no headline figure |
| Summaries.TotalVersusPositive | App.jsx:260-261 | the ROI total never exceeds the total over positive days, and equals it when no day is negative |
| Summaries.Roi1MeanOfPositiveDays | App.jsx:260-261 | with no negative day, the day-one ROI is the mean over the positive days |
| Summaries.NegativeRoi1Lowers | App.jsx:260-261 | a day at 0.5 and a day at -0.5 give a day-one ROI of 0, not 0.5 |
| Summaries.AfterParse | App.jsx:366-367 | the upload always replaces the series; the summary is replaced by the rollup only when the series is not empty |
| Summaries.AfterParseIdempotent | App.jsx:366-367 | uploading the same text twice is uploading it once |
| Summaries.EmptyUploadKeepsSummary | App.jsx:252 | an upload that yields no record empties the charts and keeps the previous headline figures |
| ChartBriefs.PointsOf | App.jsx:66 | one point per day, carrying its date and the metric's value |
| ChartBriefs.ValidPoints | App.jsx:63 | the valid points all have a value and are points of the chart; a single point is kept exactly when it has a value |
| ChartBriefs.ValidPointsConcat | App.jsx:63 | the filter keeps the valued points in their order and once each: the valid points of two charts laid end to end are those of the first followed by those of the second |
| ChartBriefs.ValidPointsKeeps | App.jsx:63 | every point with a value survives the filter |
| ChartBriefs.Values | App.jsx:66 | one number per valid point, its value |
| ChartBriefs.Max | App.jsx:67 | the maximum is one of the values and no value exceeds it |
| ChartBriefs.Average | App.jsx:68 | the average times the number of values is their sum |
| ChartBriefs.FirstIndexOf | App.jsx:70 | `find` returns a position holding the peak with no earlier one |
| ChartBriefs.FirstWithValue | App.jsx:70 | the first point whose value is the peak |
| ChartBriefs.FindAgrees | App.jsx:63-71 | searching the values of the valid points finds the first point of the whole chart that reaches the peak |
| ChartBriefs.TrendOf | App.jsx:84-91 | one value gives the default sentence; otherwise rising above 110% of the first value, falling below 90%, stable in between |
| ChartBriefs.Movement | App.jsx:88-90 | rising exactly when the last value exceeds 110% of the first; falling exactly when it does not and lies below 90% of the first; stable exactly when it lies between the two |
| ChartBriefs.Describe | App.jsx:59-91 | no data exactly for an empty chart; no valid data exactly when every value is missing; otherwise the average and the trend are those of the valid values, the peak is at least every value, and its date is that of the first point reaching it |
| ChartBriefs.Figures | App.jsx:63-91 | for a chart with a valid value: the average and trend of the valid values, the largest valid value as the peak, and the date of the first point reaching it |
| ChartBriefs.AverageAtMostPeak | App.jsx:67-68 | the average never exceeds the peak |
| ChartBriefs.TrendScaleFree | App.jsx:84-91 | scaling every value by the same positive factor keeps the trend |
| ChartBriefs.FlatNegativeReadsRising | App.jsx:88 | a flat series of negative values is reported as rising |
| ChartBriefs.FlatPositiveIsStable | App.jsx:88-90 | a flat series of positive values is stable |
| Insights.MarkerRun | App.jsx:222 | the length of the run of `[-*1.]` characters a line starts with: every character before it is a marker character and the one after it is not |
| Insights.StripMarker | App.jsx:222 | a line without a leading marker character is unchanged; otherwise the marker run and the white space after it are dropped |
| Insights.Classify | App.jsx:217-226 | a heading exactly when the line starts with `###` or `**`, holding the line with every `#` and `*` removed; otherwise an item exactly when the trimmed line starts with `-` or `1.`, holding the line with its leading marker stripped; otherwise a break exactly when the line is blank; otherwise a paragraph holding the line itself |
| Insights.Blocks | App.jsx:217 | one block per line of the analysis, each the class of its line |
| Insights.BlockCount | App.jsx:217 | there is one block more than there are line feeds |
| Insights.BreakIffBlank | App.jsx:224 | a line is a break exactly when it is blank |
| Insights.DashItem | App.jsx:221-222 | `- text` is an item whose text has the dash and the space removed |
| Insights.IndentedItemKeepsMarker | App.jsx:221-222 | an indented ` - text` is recognised as an item but keeps its marker, because the marker is only stripped at the very start |
| Insights.SecondNumberIsParagraph | App.jsx:221-225 | a line starting `2.` is a paragraph: only `1.` opens a numbered item |

## Left out

- Rendering, React state and hooks are not modelled. The state setters
  `setData` and `setSummaryData` become the value `Summaries.Dashboard`,
  which `Summaries.AfterParse` computes.
- The language-model report (`generateAnalysis` and its `fetch`) is
  network I/O and is not modelled. The panel is modelled only through its
  line classifier.
- `handleFileUpload` and `FileReader` (App.jsx:370-380) are file I/O.
  `Series.ParseCsv` takes the text the reader would deliver.
- The number formatters and the wording of the chart brief are not
  modelled. `ChartBriefs.Brief` keeps the figures and the trend the
  sentence is built from.
- The mock data set and the `main.jsx` entry point carry no logic.
- JsNumber.ParseFloat: numbers are exact rationals. The `Infinity`
  literal, IEEE rounding, overflow and `-0` are not modelled.
- Summaries.Ratio: the divisions for the registration rate, the cost per
  install and the day-one ROI are exact; the rounding of floating-point
  division is not modelled.
- Cells.ParseRate: the division by 100 is exact; the rounding of
  floating-point division is not modelled.
- Summaries.Total: sums are exact, so the rounding of floating-point
  addition is not modelled.
- Series.DateAfter: `new Date` is modelled as a calendar day only for
  strings of exactly the form `YYYY-MM-DD`, with month 01-12 and day 01-31,
  and the time value as a key that grows with the day (`Series.DayKey`).
  Any other string counts as an invalid date, which never compares after
  another. The engine's lenient parsing of other formats, and day-of-month
  roll-over such as `2025-02-30`, are not modelled.
- Series.Reverse: `parsedData.reverse()` is modelled as a function on a
  local sequence. The array is local to `parseCSV`, so there is no
  aliasing to lose.
- ChartBriefs.TrendOf: the thresholds `first * 1.1` and `first * 0.9` are
  exact here. In doubles 1.1 and 0.9 are not exact, so a last value within
  rounding distance of a threshold may get another trend than in the model.
- ChartBriefs.Average: the sum and the division are exact; floating-point
  rounding is not modelled.
- ChartBriefs.PointsOf: a record always holds numbers, so every point of
  a series built by the parser has a value. Missing values (`null`, `NaN`)
  are modelled by `Point` values with `None`.
