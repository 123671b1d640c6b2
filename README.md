# Survey scoring and aggregation engine, in Dafny

This project models the core of a student well-being survey tool. The tool reads a
spreadsheet of survey answers, scores every student, groups the students by school,
and summarises each school. The model covers that engine (`src/lib/excel-parser.ts`).
It also covers the school card's choice of a school's dominant stress band
(`src/components/SchoolCard.tsx`). Its input is the grid of cells that the spreadsheet
decoder hands over. Its outputs are the school summaries and, for each summary, the
band the card highlights.

Modules, one per file:

- `JsValues` (`js_values.dfy`): the cells of the grid (`Cell`: a number, a string or
  nothing) and the JavaScript coercions the engine applies to them: `Number(v)`,
  `String(v)`, truthiness, `trim`, `toLowerCase` and `Math.round`.
- `Types` (`types.dfy`): the student record, the five stress bands and the school
  summary. The average and the eight percentages are held in whole tenths
  (`623` stands for 62.3).
- `ExcelScoring` (`excel_scoring.dfy`): `getCategory`, `reverseScore`, `clampScore`.
- `ExcelGrouping` (`excel_grouping.dfy`): finding the school-name column, reading a
  row's school name, dropping empty rows, and building the school map.
  `schoolMap` is a sequence of entries in insertion order, the order a JavaScript
  `Map` iterates in. Independent descriptions of the result (`RowsNamed`,
  `Retained`, `FirstRow`) are tied to the map by the invariant `GroupFacts`.
- `ExcelAggregation` (`excel_aggregation.dfy`): a student's twenty answers, total and
  band; a school's counts, the one-decimal rounding, and the summary.
- `ExcelParser` (`excel_parser.dfy`): `parseExcelFile` once the grid exists.
  The function `Parse` says what the engine resolves or rejects with. The engine's
  loops are methods (`GroupRows`, `ScoreColumns`, `BuildAnswers`, `BuildStudents`,
  `BuildResults`, `ParseGrid`), each proved to compute the function that specifies
  it. The lemmas at the end state what `Parse` promises.
- `SchoolCard` (`school_card.dfy`): the `reduce` that picks the dominant band. It is
  proved to pick the first band with the largest percentage.

The name cell is read with `row[nameColIdx] || 'Unknown'`, which treats `undefined`,
`""` and the number `0` alike as missing; `SchoolNameFalsy` states it.

## Model

| member | source | states |
|---|---|---|
| JsValues.Trim | src/lib/excel-parser.ts:50 | the result sits in the input with only white space on either side, and it is empty exactly when the input is all white space |
| JsValues.ToLower | src/lib/excel-parser.ts:43 | the result has the input's length and lowers each character on its own |
| JsValues.NumberText | src/lib/excel-parser.ts:50 | `String(x)` neither starts nor ends with white space, and starts with `-` exactly when `x` is negative |
| JsValues.StringToNumber | src/lib/excel-parser.ts:18 | `Number(s)` of a string that is empty or all white space is 0 |
| JsValues.Round | src/lib/excel-parser.ts:21 | `Math.round(x)` is the whole number within half of `x`, halves rounded up |
| JsValues.DigitsRoundTrip | src/lib/excel-parser.ts:18 | reading back the numeral of a natural number gives that number |
| JsValues.IntegerTextRoundTrip | src/lib/excel-parser.ts:18 | `Number(String(x)) == x` for every whole number `x`, negative ones included |
| ExcelScoring.GetCategory | src/lib/excel-parser.ts:4-10 | the band returned covers the score: up to 40 Balanced, 41..65 Mild, 66..85 Moderate, 86..90 High, above 90 Severe |
| ExcelScoring.BandsPartition | src/lib/excel-parser.ts:4-10 | a score lies in a band exactly when that band is `getCategory`'s answer, so the bands do not overlap |
| ExcelScoring.GetCategoryMonotone | src/lib/excel-parser.ts:4-10 | a higher total never gets a lower band |
| ExcelScoring.ReverseScore | src/lib/excel-parser.ts:12-15 | reversal maps 1..5 onto 1..5 and turns an answer below 3 into one above 3, and back |
| ExcelScoring.ReverseInvolution | src/lib/excel-parser.ts:12-15 | reversing twice gives the answer back |
| ExcelScoring.ReverseFixedPoint | src/lib/excel-parser.ts:12-15 | 3 is the only answer reversal leaves unchanged |
| ExcelScoring.ClampScore | src/lib/excel-parser.ts:17-22 | a clamped answer always lies in 1..5 |
| ExcelScoring.ClampScoreCases | src/lib/excel-parser.ts:17-22 | `NaN`, minus infinity and anything below 1 give 1; plus infinity and anything above 5 give 5; a number in 1..5 gives the answer within half of it |
| ExcelScoring.ClampIdempotent | src/lib/excel-parser.ts:17-22 | clamping a clamped answer changes nothing |
| ExcelScoring.ClampBlank | src/lib/excel-parser.ts:17-22 | a missing cell, or text of white space only, scores 1 |
| ExcelScoring.ClampTextAgrees | src/lib/excel-parser.ts:17-22 | a whole number typed as text scores the same as the number |
| ExcelGrouping.NonTextHeaderIsNoLabel | src/lib/excel-parser.ts:43-44 | a number or missing header cell never marks the name column: only a text cell can |
| ExcelGrouping.FindSchoolLabel | src/lib/excel-parser.ts:44 | the first column labelled `sname`, `school name` or `school`, or -1 exactly when no label matches |
| ExcelGrouping.NameColumn | src/lib/excel-parser.ts:44-45 | the name column is the first labelled column, and column 0 when there is none |
| ExcelGrouping.SchoolNameFalsy | src/lib/excel-parser.ts:50 | a missing cell, the empty string or the number 0 names the school `Unknown` |
| ExcelGrouping.SchoolNameText | src/lib/excel-parser.ts:50 | a non-empty text name is trimmed |
| ExcelGrouping.SchoolNameNumber | src/lib/excel-parser.ts:50 | a non-zero number names the school by its numeral, which is never empty |
| ExcelGrouping.SchoolNameEmpty | src/lib/excel-parser.ts:50-51 | the name is empty exactly when the cell is non-empty text made only of white space, so only such rows are skipped |
| ExcelGrouping.NonEmptyRows | src/lib/excel-parser.ts:40 | the kept rows are non-empty rows of the input, every non-empty row is kept, and all-empty input gives no rows |
| ExcelGrouping.NonEmptyRowsOne | src/lib/excel-parser.ts:40 | a single row is kept exactly when it holds a cell |
| ExcelGrouping.NonEmptyRowsSnoc | src/lib/excel-parser.ts:40 | a row added at the end is kept after the earlier kept rows exactly when it holds a cell |
| ExcelGrouping.NonEmptyRowsAppend | src/lib/excel-parser.ts:40 | filtering two parts one after the other gives the two filtered parts one after the other, so the kept rows keep their input order and their repetitions |
| ExcelGrouping.BucketIndex | src/lib/excel-parser.ts:52-53 | the position of the entry with that name, or -1 exactly when no entry has it |
| ExcelGrouping.RowsNamed | src/lib/excel-parser.ts:49-54 | the reference selection of one school's rows: every row it keeps has that name |
| ExcelGrouping.Retained | src/lib/excel-parser.ts:49-54 | the reference selection of the rows the loop keeps: none of them has an empty name |
| ExcelGrouping.FirstRowIsFirst | src/lib/excel-parser.ts:52 | `FirstRow` is the first row with that name, and no row before it has it |
| ExcelGrouping.GroupFactsHold | src/lib/excel-parser.ts:49-54 | the loop's map has one entry per distinct non-empty name; each entry holds exactly the rows of that name in input order; every named row is in an entry; the entries hold all named rows; entries come in first-seen order |
| ExcelGrouping.AddRowKeepsFacts | src/lib/excel-parser.ts:50-53 | one step of the loop keeps those facts |
| ExcelGrouping.SkipKeepsFacts | src/lib/excel-parser.ts:51 | skipping a row with an empty name keeps them |
| ExcelGrouping.OpenKeepsFacts | src/lib/excel-parser.ts:52-53 | opening an entry for a new school with its first row keeps them |
| ExcelGrouping.AppendKeepsFacts | src/lib/excel-parser.ts:53 | appending a row to its school's entry keeps them |
| ExcelAggregation.Answer | src/lib/excel-parser.ts:64-72 | a stored answer lies in 1..5, and undoing the reversal gives the clamped cell |
| ExcelAggregation.AnswerMissing | src/lib/excel-parser.ts:64-72 | a missing cell stores 1 for Q1..Q16 and 5 for Q17..Q20 |
| ExcelAggregation.Answers | src/lib/excel-parser.ts:62-72 | twenty answers, each in 1..5, each giving back its clamped cell once the reversal is undone |
| ExcelAggregation.SumBounds | src/lib/excel-parser.ts:74 | `n` numbers in `lo..hi` sum to between `n * lo` and `n * hi` |
| ExcelAggregation.StudentOf | src/lib/excel-parser.ts:74-81 | a student record holds the row's answers, a total in 20..100 equal to their sum, and the band of that total |
| ExcelAggregation.Students | src/lib/excel-parser.ts:61-82 | one record per row, in row order; each is a scored student of that school holding its own row's answers |
| ExcelAggregation.CountCategory | src/lib/excel-parser.ts:89 | a band count never exceeds the number of students |
| ExcelAggregation.CategoriesPartition | src/lib/excel-parser.ts:89 | the five band counts add up to the number of students |
| ExcelAggregation.CountHigh | src/lib/excel-parser.ts:98-103 | an indicator count never exceeds the number of students |
| ExcelAggregation.CountRaw | src/lib/excel-parser.ts:98-103 | the reference count read from the sheet never exceeds the number of rows |
| ExcelAggregation.IndicatorReadsSheet | src/lib/excel-parser.ts:94-105 | testing the stored answers, with Q19 un-reversed, counts exactly the rows whose clamped cell is 4 or more: how the answer is stored does not change the indicator |
| ExcelAggregation.SumTotalsBounds | src/lib/excel-parser.ts:87 | the students' totals add up to between 20 and 100 per student |
| ExcelAggregation.RoundingUnique | src/lib/excel-parser.ts:90 | at most one whole number is the half-up rounding of a quotient |
| ExcelAggregation.RoundedQuotient | src/lib/excel-parser.ts:90 | the result is `num / den` rounded half up |
| ExcelAggregation.PctTenths | src/lib/excel-parser.ts:90 | `pct(n)` is `1000 * n / total` rounded half up, at most 100.0 when `n <= total` |
| ExcelAggregation.AvgTenths | src/lib/excel-parser.ts:87 | the average is `10 * sum / total` rounded half up, in 20.0..100.0 when every total is in 20..100 |
| ExcelAggregation.Metrics | src/lib/excel-parser.ts:84-120 | a summary carries the school, its students and their count; the average and all eight percentages are the rounded shares of the matching counts; the average lies in 20.0..100.0 and every percentage in 0..100.0 |
| ExcelAggregation.BandPercentagesNearHundred | src/lib/excel-parser.ts:111-115 | the five band percentages add up to 100.0 give or take 0.2 |
| ExcelAggregation.FiveRoundings | src/lib/excel-parser.ts:111-115 | five shares of a whole, each rounded to tenths of a percent, sum to 99.8..100.2 |
| ExcelParser.Summary | src/lib/excel-parser.ts:107-120 | a school's summary names the school, counts its rows and holds one record per row |
| ExcelParser.DataRows | src/lib/excel-parser.ts:39-40 | the data rows are non-empty rows after the header, fewer than the grid's rows; filtering the whole grid gives the header (when it holds a cell) followed by exactly the data rows |
| ExcelParser.GroupRows | src/lib/excel-parser.ts:47-54 | the loop builds exactly the map `Group` describes |
| ExcelParser.ScoreColumns | src/lib/excel-parser.ts:65-67 | one score per column of the range, in column order, each the scoring of that column's cell |
| ExcelParser.BuildAnswers | src/lib/excel-parser.ts:62-72 | the two loops produce exactly the row's `Answers` |
| ExcelParser.ColumnsGiveAnswers | src/lib/excel-parser.ts:64-72 | columns 8..23 clamped, then columns 24..27 clamped and reversed, are the twenty stored answers |
| ExcelParser.BuildStudents | src/lib/excel-parser.ts:59-82 | the loop produces exactly `Students` of the school's rows |
| ExcelParser.BuildResults | src/lib/excel-parser.ts:56-121 | the loop produces exactly the summaries of the map's non-empty entries, in map order |
| ExcelParser.ParseGrid | src/lib/excel-parser.ts:34-123 | the engine resolves or rejects exactly as `Parse` describes |
| ExcelParser.ParseRejectsShortGrids | src/lib/excel-parser.ts:34-37 | the grid is rejected exactly when it has fewer than two rows |
| ExcelParser.ParseBlankData | src/lib/excel-parser.ts:40 | a header followed only by empty rows gives no schools |
| ExcelParser.MapFilledOfEntries | src/lib/excel-parser.ts:84-85 | when every entry holds rows, each entry gives one result, in entry order |
| ExcelParser.SummariesFields | src/lib/excel-parser.ts:107-120 | the i-th summary names the i-th school, counts its rows and holds their records |
| ExcelParser.TotalStudentsOfEntries | src/lib/excel-parser.ts:109 | the summaries' student counts add up to the rows in the map |
| ExcelParser.GroupedSchools | src/lib/excel-parser.ts:47-58 | one summary per distinct non-empty name, each with at least one student and the records of exactly that name's rows in row order; every named row's school has a summary |
| ExcelParser.GroupedOrder | src/lib/excel-parser.ts:47-58 | summaries come in the order their schools first appear, and their student counts add up to the rows kept |
| ExcelParser.ParseSchools | src/lib/excel-parser.ts:34-123 | for a grid of two rows or more, the engine resolves with summaries that have the grouping properties above, stated on the data rows and the name column |
| ExcelParser.SummaryFigures | src/lib/excel-parser.ts:84-120 | a school's summary has an average in 20.0..100.0, percentages in 0..100.0, band percentages summing to 100.0 give or take 0.2, and indicators that count the sheet's Often/Always cells |
| ExcelParser.GroupedFigures | src/lib/excel-parser.ts:58-121 | every summary of a grouping has those figures for the rows of its school |
| ExcelParser.ParseFigures | src/lib/excel-parser.ts:34-123 | every school the engine resolves with has those figures for its data rows |
| SchoolCard.Field | src/components/SchoolCard.tsx:22-23 | a key reads a percentage exactly when it is one of the eight percentage keys |
| SchoolCard.Step | src/components/SchoolCard.tsx:21-23 | one step of the fold keeps the leader or takes the new band |
| SchoolCard.CategoryNames | src/components/SchoolCard.tsx:20 | the card folds over the five band names in band order |
| SchoolCard.LowerName | src/components/SchoolCard.tsx:22 | a band's lower-cased name, as `toLowerCase` gives it |
| SchoolCard.PctKeyOfBand | src/components/SchoolCard.tsx:22-23 | the key built from a band's name is that band's percentage key, `pct_mod` for Moderate |
| SchoolCard.KeyReadsBand | src/components/SchoolCard.tsx:22-23 | that key reads the band's own percentage |
| SchoolCard.StepOnBands | src/components/SchoolCard.tsx:21-23 | a later band takes over exactly when its percentage is strictly greater than the leader's |
| SchoolCard.NamesDistinct | src/components/SchoolCard.tsx:20 | different bands have different names |
| SchoolCard.LeadsExtend | src/components/SchoolCard.tsx:21-23 | after one more band, the leader is still the first of the largest so far |
| SchoolCard.FoldLeads | src/components/SchoolCard.tsx:20-24 | folding the remaining bands from the leader of the first `k` ends on the first of the largest of all five |
| SchoolCard.DominantUnique | src/components/SchoolCard.tsx:20-24 | at most one band is the first of the largest |
| SchoolCard.DominantCategoryIsFirstLargest | src/components/SchoolCard.tsx:20-24 | the dominant category is a band's name exactly when that band has the largest percentage and every earlier band a strictly smaller one: ties go to the earliest band |

## Left out

- Reading the file: `FileReader`, the XLSX decoder, and the `Promise` with its `reject`
  on read or decode errors. The model starts from the decoded grid of rows.
  `ParseError` holds only the error the engine raises itself.
- Cell kinds: booleans, dates and error values are not modelled. A cell is a number,
  a string, or nothing. A `null` row, which the `r &&` test drops, is not modelled either.
- Floating point: the average and the percentages are exact rationals rounded half up
  to whole tenths. The double-precision rounding of `n / total * 100 * 10` can differ
  from the exact value by one tenth at exact halves.
- JsValues.StringToNumber: decimal text is read as an exact rational, not rounded to
  the nearest double. Text with seventeen or more significant digits next to a half
  can therefore score one point differently: `"4.4999999999999999"` clamps to 4 here,
  while `Number()` reads it as 4.5 and `Math.round` gives 5. Hexadecimal, octal and
  binary literals (`0x1A`) read as `NaN` here, but the real `Number()` accepts them.
  Words other than `Infinity` are `NaN`, as in JavaScript.
- JsValues.NumberText: a number with a fraction is written with at most sixteen
  truncated fraction digits, not JavaScript's shortest round-trip form. Exponent
  notation for very large or very small magnitudes is not produced. Only whole
  numbers are proved to read back.
- JsValues.ToLower: lowers the ASCII letters only. The labels it is compared with
  (`sname`, `school name`, `school`) contain no letter that another character lowers to.
- The rest of the application: the generative-text client (`src/lib/gemini.ts`), the
  pages, the report template and every React component other than the
  `dominantCategory` fold of the school card.
