# Simple-summary CSV transform

This project models `process_simple_summary_csv` from the pdf_mailer
service. The function is given the path of a terminal summary report,
reads the CSV file itself and cleans three columns of the table it read.
The model starts from that table, once read. It then derives four columns: the
surcharge per withdrawal, the average withdrawal, the daily vault average
and the commission. Finally it drops three presentation columns and sorts
the rows by `Surch`, largest first, before the table goes to the PDF
renderer. The Dafny project models that computation and proves what it
returns.

The project has five modules:

- **`Cells`** (`cells.dfy`) holds the cell values. A cell is text, an exact
  number or NaN. The module also has rounding to cents (half to even),
  stripping of the currency marks `$ , )`, and the part of `float()` the
  transform relies on.
- **`Commission`** (`commission.dfy`) holds the nested
  `extract_commission_rate`. Its regular-expression search is written as a
  scan, and the scan is proved to find the leftmost, longest match of
  `[-]?\d+(?:\.\d+)?`.
- **`Frames`** (`frames.dfy`) holds the table and the three DataFrame
  operations the transform uses:
  - column assignment;
  - `drop`, which raises on a missing name;
  - `sort_values(ascending=False)`, which puts NaN last. It is written as
    an insertion sort and promised only to be sorted and a permutation.
- **`CsvProcessor`** (`csv_processor.dfy`) holds the transform itself:
  - The method `ProcessSimpleSummaryCsv` follows the source's control flow.
    It keeps one working table that it updates column by column, with an
    early return at every missing column and at every exception.
  - It is proved equal to the function `Transform`.
  - `ProcessRow` is an independent, row-at-a-time account of the whole
    computation. The transform is proved to return exactly the sorted
    `ProcessRow` results whenever it returns a table.
  - `TransformOutcomes` says exactly when the result is the empty table
    and exactly when it is a table.
- **`Scenarios`** (`scenarios.dfy`) works through concrete report rows.

An outcome is one of three things:

- `Done(table)`;
- `Empty`, the empty DataFrame the fail-fast column checks return;
- `Error(failure)`, an exception. `@logger.catch` logs the exception and
  makes the call return `None`.

Some behaviours of the code are easy to miss:

- A value that `float()` rejects raises, so the call returns `None`
  (`Error(ParseFailure(col))`). Only a missing required column gives the
  empty table.
- Without `Group`, the commission rate falls back to 0.0. The unconditional
  `drop` of `Group` then raises, so the call returns `None`
  (`GroupMissingIsError`).
- A text cell in `Surcharge WDs` makes the product raise `TypeError`
  (`Error(NonNumericProduct)`). This includes a number written as text,
  such as `"4"`. `read_csv` gives a numeric column as numbers, so the
  scenarios use `Num(4.0)` for it.
- The guards before the three metric steps cannot fail once the cleaning
  has passed. The method therefore states them as an assertion and has no
  unreachable branch.
- `Surch` is cleaned, and may raise, before `Settlement`'s presence is
  checked. So which of `Empty` and `Error` is returned depends on that
  order, and `EndsEmpty` states it.

## Model

| member | source | states |
|---|---|---|
| Cells.Round2 | src/app/csv_processor.py:54 | the result is a whole number of cents within half a cent of the input |
| Cells.Round2Nearest | src/app/csv_processor.py:54 | no number of cents is closer to the input than the rounded value |
| Cells.Round2Exact | src/app/csv_processor.py:64 | an amount already in cents is left unchanged, so rounding is idempotent |
| Cells.Round2HalfEven | src/app/csv_processor.py:74 | three ties as examples: 0.125 goes to 0.12, 0.135 to 0.14 and -0.125 to -0.12 |
| Cells.Round2Tie | src/app/csv_processor.py:54 | for every x exactly halfway between two cents, the result is the even number of cents, half a cent away |
| Cells.StripCurrency | src/app/csv_processor.py:39 | no `$`, `,` or `)` is left and the text does not grow |
| Cells.StripCurrencyConcat | src/app/csv_processor.py:39 | stripping distributes over concatenation |
| Cells.StripCurrencyChar | src/app/csv_processor.py:39 | a single character is deleted exactly when it is a currency mark |
| Cells.StripCurrencyKeeps | src/app/csv_processor.py:39 | text without currency marks comes back unchanged |
| Cells.StripCurrencyKeepsChar | src/app/csv_processor.py:39 | every character that is not a mark (`(` in particular) survives stripping |
| Cells.ParseUnsigned | src/app/csv_processor.py:46 | an accepted numeral is non-empty, made of digits and a point, and its value non-negative |
| Cells.ParseDecimal | src/app/csv_processor.py:39 | an accepted text is non-empty and made of numeral characters; without a leading minus its value is non-negative |
| Cells.ParseDecimalNegate | src/app/csv_processor.py:86 | a leading minus negates the value of the numeral after it |
| Cells.ParseDecimalRejectsParen | src/app/csv_processor.py:39 | text holding `(` is rejected, so `float("(5.00")` raises |
| Cells.DigitChar | src/app/csv_processor.py:46 | the character written for a digit is a digit of that value |
| Cells.NatDigits | src/app/csv_processor.py:46 | the decimal numeral of a number is a non-empty run of digits |
| Cells.NatDigitsValue | src/app/csv_processor.py:46 | digits written for n are read back as n |
| Cells.DecimalValue | src/app/csv_processor.py:39 | the value of whole.fraction is non-negative |
| Cells.ParseUnsignedDigits | src/app/csv_processor.py:46 | every non-empty run of digits is accepted, with the number it denotes |
| Cells.ParseUnsignedFraction | src/app/csv_processor.py:39 | every digits-point-digits text with at least one digit (`12.5`, `12.`, `.5`) is accepted, with its whole part plus its fraction |
| Cells.ParseUnsignedShape | src/app/csv_processor.py:39 | every accepted text is a run of digits or digits-point-digits, so with the two lemmas above this is exactly the set of numerals accepted |
| Cells.ParseDecimalUnsigned | src/app/csv_processor.py:46 | without a sign `float()` reads the numeral as unsigned |
| Cells.ParseDecimalPlus | src/app/csv_processor.py:46 | a leading `+` leaves the value unchanged |
| Cells.ParseDecimalNat | src/app/csv_processor.py:46 | `float(str(n)) == n` for every natural number n |
| Cells.ParseDecimalCents | src/app/csv_processor.py:39 | an amount written as whole units, a point and two digits of cents parses to units plus cents/100 |
| Commission.Contains | src/app/csv_processor.py:84 | a prefix occurrence makes `sub in s` true, and a true search needs sub no longer than s |
| Commission.OccursContains | src/app/csv_processor.py:84 | an occurrence of sub at any index makes `sub in s` true |
| Commission.ContainsOccurs | src/app/csv_processor.py:84 | when `sub in s` is true, sub occurs at some index |
| Commission.ContainsIff | src/app/csv_processor.py:84 | `sub in s` holds exactly when sub occurs at some index of s |
| Commission.NumeralParses | src/app/csv_processor.py:86 | every match of the pattern is accepted by `float()`, so `float(m.group(1))` never raises |
| Commission.DigitRunEnd | src/app/csv_processor.py:85 | the run of `\d` starting at an index ends at the first non-digit |
| Commission.LeadingDigitsUnique | src/app/csv_processor.py:85 | the length of the leading run of digits is determined by where the digits stop |
| Commission.LeadingDigitsOfSlice | src/app/csv_processor.py:85 | a slice's leading digits are the text's run of digits, cut at the slice's end |
| Commission.UnsignedNumeralSlice | src/app/csv_processor.py:85 | a slice matches `\d+(?:\.\d+)?` exactly when it is a prefix of a run of digits, or a run of digits, a point and a prefix of the next run |
| Commission.NumeralSliceSign | src/app/csv_processor.py:85 | a match starting with `-` is a minus sign followed by an unsigned match |
| Commission.NumeralEnd | src/app/csv_processor.py:85 | the greedy match at a start position is non-empty and inside the text |
| Commission.NumeralEndMatches | src/app/csv_processor.py:85 | the greedy extent found at a start position is a match of the pattern |
| Commission.NumeralBounded | src/app/csv_processor.py:85 | a match can begin only at a scan start and never extends past the greedy end |
| Commission.FindNumeral | src/app/csv_processor.py:85 | the scan returns the first start position at or after its origin with its greedy end, or none when no position can start a match |
| Commission.LeftmostLongestMatch | src/app/csv_processor.py:85 | the scan returns no match exactly when no slice matches; otherwise it returns the match with the leftmost start and the longest extent there |
| Commission.CommissionRate | src/app/csv_processor.py:83-87 | a non-zero rate comes only from text containing "Commission"; for such text it is `float` of the first match, or 0.0 when there is none |
| Frames.SetColumn | src/app/csv_processor.py:53-56 | the column is added and each row gets its own value in that column, while everything else stays unchanged |
| Frames.DropColumns | src/app/csv_processor.py:103 | the drop succeeds exactly when every name is a column; it removes just those columns from the table and each row |
| Frames.KeyGeTotal | src/app/csv_processor.py:107 | any two cells are comparable in the descending, NaN-last order |
| Frames.KeyGeTransitive | src/app/csv_processor.py:107 | the order is transitive |
| Frames.HeadBoundsRest | src/app/csv_processor.py:107 | when the first sorted row is above the row being inserted, it is not below any row of the rest after the insertion |
| Frames.Insert | src/app/csv_processor.py:107 | inserting into sorted rows keeps them sorted and adds exactly that row |
| Frames.SortValuesDesc | src/app/csv_processor.py:107 | the result is sorted by the key column, largest first with NaN last, and is a permutation of the input rows |
| Frames.SortKeepsColumns | src/app/csv_processor.py:107 | sorting keeps every row whole, so every row keeps its columns |
| CsvProcessor.ColumnNamesDistinct | src/app/csv_processor.py:37-103 | the column names are distinct; no written column is dropped, and `Group` and `Surcharge WDs` are never written |
| CsvProcessor.CleanCurrency | src/app/csv_processor.py:39 | text converts exactly when its stripped form parses, and a number or NaN passes through |
| CsvProcessor.AsFloat | src/app/csv_processor.py:46 | text converts exactly when it parses without stripping, and a number or NaN passes through |
| CsvProcessor.CleanColumn | src/app/csv_processor.py:39 | the column cleans exactly when each of its cells converts; each row then holds its converted cell and nothing else changes |
| CsvProcessor.CleanCurrencyStep | src/app/csv_processor.py:38-42 | one iteration of the loop: the empty table for a missing column, a parse failure when a cell does not convert, and otherwise the cleaned table with the same columns and rows |
| CsvProcessor.CleanCurrencyColumns | src/app/csv_processor.py:37-42 | the loop runs on only when every listed column is present, keeps the columns, the row count and well-formedness, and stops only with the empty table or a parse failure of one of the listed columns |
| CsvProcessor.SurchargeAmtStep | src/app/csv_processor.py:52-56 | adds `Surcharge amt`, keeps the row count, and gives each row the per-withdrawal surcharge of its own cells, changing nothing else |
| CsvProcessor.AverageWdStep | src/app/csv_processor.py:62-66 | adds `Average WD amount`, keeps the row count, and gives each row the per-withdrawal settlement of its own cells, changing nothing else |
| CsvProcessor.DailyVaultStep | src/app/csv_processor.py:72-76 | adds `Daily Vault AVG`, keeps the row count, and gives each row its settlement over 30 days, changing nothing else |
| CsvProcessor.PerWithdrawal | src/app/csv_processor.py:54 | the result is 0 when the withdrawal count is not positive (NaN included); otherwise it is NaN for a NaN amount, or whole cents within half a cent of amount divided by withdrawals |
| CsvProcessor.DailyVaultAvg | src/app/csv_processor.py:74 | the result is whole cents within half a cent of the settlement over 30 days, and NaN for NaN |
| CsvProcessor.CommissionRateStep | src/app/csv_processor.py:82-92 | each row's `Commission` is the rate extracted from its `Group`, or 0.0 in every row without that column; nothing else changes |
| CsvProcessor.MulCells | src/app/csv_processor.py:96 | the product raises exactly when a side is text, is NaN when a side is NaN, and is otherwise the product of the numbers |
| CsvProcessor.CommissionTotalStep | src/app/csv_processor.py:95-99 | without `Surcharge WDs` the table is unchanged; with it the step succeeds exactly when every product is defined, and each row's `Commission` becomes its product |
| CsvProcessor.Enrich | src/app/csv_processor.py:51-110 | never the empty table; it raises only on a failed product or a drop of missing columns, and a table returned has one row per cleaned row |
| CsvProcessor.Transform | src/app/csv_processor.py:34-110 | a table returned has one row per input row; its full properties are TransformOutcomes and TransformDone |
| CsvProcessor.CommissionTotal | src/app/csv_processor.py:94-99 | the rate alone without `Surcharge WDs`; with it, a number exactly when `Surcharge WDs` is one |
| CsvProcessor.CommissionTotalIsProduct | src/app/csv_processor.py:96 | with `Surcharge WDs` not text, the row-wise total is the element the column product gives |
| CsvProcessor.ProcessSimpleSummaryCsv | src/app/csv_processor.py:34-110 | the step-by-step method equals Transform; it returns the empty table exactly on EndsEmpty and a table exactly on EndsDone, and that table satisfies IsProcessedTable |
| CsvProcessor.ProcessRow | src/app/csv_processor.py:36-107 | a row processes exactly when its three cells convert and its `Surcharge WDs` is not text; the result has the cleaned cells, the metrics of those cells, the rate times `Surcharge WDs`, and the input's other cells unchanged; the dropped columns are removed |
| CsvProcessor.ProcessedRows | src/app/csv_processor.py:51-99 | one processed row per input row |
| CsvProcessor.CleanColumnKeepsOthers | src/app/csv_processor.py:39 | cleaning one column leaves every other column's cells unchanged |
| CsvProcessor.CleanLoop | src/app/csv_processor.py:37-42 | the loop over the currency columns: the empty table without `Surch`, a parse failure when `Surch` does not convert, and otherwise the `Settlement` step on the cleaned table |
| CsvProcessor.CleanedTableIs | src/app/csv_processor.py:36-46 | the three cleaning steps, when each succeeds, give the row-wise cleaned table |
| CsvProcessor.CleaningStage | src/app/csv_processor.py:36-49 | with the three columns present, cleaning raises unless every cell converts; otherwise the rest of the transform works on the row-wise cleaned table |
| CsvProcessor.RatedRowFacts | src/app/csv_processor.py:51-92 | cleaning and the metric and rate steps leave `Surcharge WDs` alone and put the `Group` rate in `Commission` |
| CsvProcessor.RatedRows | src/app/csv_processor.py:51-88 | the metric and rate steps act on each row separately |
| CsvProcessor.ProcessRowStages | src/app/csv_processor.py:51-103 | ProcessRow is the cleaned, rated row with its total commission, minus the dropped columns |
| CsvProcessor.CommissionTotalRow | src/app/csv_processor.py:95-99 | one row at a time, the total commission is the rate times `Surcharge WDs`, or the rate alone without that column |
| CsvProcessor.EnrichWithoutGroup | src/app/csv_processor.py:90-103 | without `Group` the drop raises, whatever the commission steps do |
| CsvProcessor.RatedTableRow | src/app/csv_processor.py:51-92 | row i of the table after the rate step is the cleaned, rated raw row i, keeps its `Surcharge WDs` and carries the row's rate; it processes exactly when its `Surcharge WDs` is not text |
| CsvProcessor.RatedTableKeepsInputs | src/app/csv_processor.py:51-92 | the metric and rate steps do not add `Surcharge WDs` |
| CsvProcessor.ProductFailureRow | src/app/csv_processor.py:95-99 | when the product raises, the table has `Surcharge WDs` and some row's rate times that cell is undefined |
| CsvProcessor.EnrichProductFails | src/app/csv_processor.py:96 | a text cell of `Surcharge WDs` makes both the whole transform and that row raise |
| CsvProcessor.EnrichDropFails | src/app/csv_processor.py:103 | a missing `Settlement Date`, `Terminal` or `Group` makes the drop raise |
| CsvProcessor.EnrichRowsProcess | src/app/csv_processor.py:95-99 | when the products are all defined, every row processes |
| CsvProcessor.TotalDroppedRow | src/app/csv_processor.py:95-103 | row i after the total commission and the drop is the ProcessRow result for raw row i |
| CsvProcessor.EnrichRows | src/app/csv_processor.py:95-103 | after the drop, the rows are exactly the ProcessRow results |
| CsvProcessor.EnrichDone | src/app/csv_processor.py:95-110 | with every row processed and the dropped columns present, the result is the sorted ProcessRow results |
| CsvProcessor.EnrichStage | src/app/csv_processor.py:51-110 | after cleaning, a table is returned exactly when the dropped columns are present and every row processes, and it is the sorted ProcessRow results |
| CsvProcessor.MissingRequired | src/app/csv_processor.py:37-49 | without one of `Surch`, `Settlement` and `WD Trxs` the result is never a table; it is the empty table exactly on EndsEmpty, and otherwise a parse failure |
| CsvProcessor.NotAllConvertRow | src/app/csv_processor.py:39-46 | a cell of a cleaned column that does not convert makes its row raise |
| CsvProcessor.TransformOutcomes | src/app/csv_processor.py:7-110 | the result is the empty table exactly on EndsEmpty, and a table exactly when every column read or dropped is present and no row raises |
| CsvProcessor.TransformDone | src/app/csv_processor.py:51-110 | the table returned has the input's columns plus the derived ones minus the dropped ones, one row per input row, the ProcessRow results as a multiset, and is sorted on `Surch` |
| CsvProcessor.GroupMissingIsError | src/app/csv_processor.py:90-103 | without `Group` (and with the three cleaned columns) the call raises instead of returning a table |
| CsvProcessor.ParenthesisedSurchFails | src/app/csv_processor.py:39 | an accounting-style `Surch` cell such as "(5.00)" makes the call raise on `Surch` |
| CsvProcessor.OutputRows | src/app/csv_processor.py:51-107 | each row returned is the ProcessRow result of some input row and carries the metrics of its own cleaned cells |
| Scenarios.FindNumeralSkip | src/app/csv_processor.py:85 | the scan passes over positions where no match can start |
| Scenarios.LacksFirstChar | src/app/csv_processor.py:84 | text that lacks the first character of a substring does not contain it |
| Scenarios.ParseTwoAndAHalf | src/app/csv_processor.py:86 | "2.5" parses to 2.5 |
| Scenarios.FindAfterWord | src/app/csv_processor.py:85 | in "Commission 2.5" the match is "2.5" |
| Scenarios.RateAfterWord | src/app/csv_processor.py:83-87 | the rate of "Commission 2.5" is 2.5 |
| Scenarios.RateBeforeWord | src/app/csv_processor.py:83-87 | the rate of "5% Commission" is 5.0: the numeral may come before the word |
| Scenarios.ParseMinusOneAndAHalf | src/app/csv_processor.py:86 | "-1.5" parses to -1.5 |
| Scenarios.FindNegative | src/app/csv_processor.py:85 | in "Commission -1.5" the match includes the minus sign |
| Scenarios.RateNegative | src/app/csv_processor.py:83-87 | the rate of "Commission -1.5" is -1.5 |
| Scenarios.RateWithoutNumeral | src/app/csv_processor.py:83-87 | the rate is 0.0 for "Commission" with no numeral, and for a number |
| Scenarios.RateLowerCase | src/app/csv_processor.py:84 | the rate of lower-case "commission 2.5" is 0.0: the word test is case-sensitive |
| Scenarios.StripDollar | src/app/csv_processor.py:39 | a leading `$` is removed from a numeral without marks |
| Scenarios.ParseTen | src/app/csv_processor.py:39 | "10.00" parses to 10.0 |
| Scenarios.ParseHundred | src/app/csv_processor.py:39 | "100.00" parses to 100.0 |
| Scenarios.ParseWithdrawals | src/app/csv_processor.py:46 | "5" and "0" parse to 5.0 and 0.0 |
| Scenarios.CleanedSurch | src/app/csv_processor.py:39 | "$10.00" cleans to 10.0 |
| Scenarios.CleanedSettlement | src/app/csv_processor.py:39 | "$100.00" cleans to 100.0 |
| Scenarios.CleanedWithdrawals | src/app/csv_processor.py:46 | "5" and "0" convert to 5.0 and 0.0 |
| Scenarios.DailyHundred | src/app/csv_processor.py:74 | a settlement of 100.00 is 3.33 a day |
| Scenarios.ProcessedCells | src/app/csv_processor.py:51-99 | a processed row's derived cells, in terms of its cleaned cells; the dropped columns are gone |
| Scenarios.ReportRowExample | src/app/csv_processor.py:51-103 | a row with "$10.00", "$100.00", 5 withdrawals, "Commission 2.5" and 4 surcharged withdrawals gives surcharge 2.0, average 20.0, daily 3.33 and commission 10.0, without `Settlement Date`, `Terminal` or `Group` |
| Scenarios.NoWithdrawalsExample | src/app/csv_processor.py:54-74 | with 0 withdrawals both per-withdrawal amounts are 0 and the daily average is still 3.33 |
| Scenarios.OneRowProcesses | src/app/csv_processor.py:51-99 | a one-row table whose row processes has every row processed |
| Scenarios.SingleRow | src/app/csv_processor.py:107 | sorting one row gives that row back |
| Scenarios.ReportRows | src/app/csv_processor.py:34-110 | a one-row report with every column read and dropped and a row that processes gives exactly that row processed, with the expected columns |
| Scenarios.ReportExample | src/app/csv_processor.py:34-110 | a one-row report holding the example row gives a one-row table with the example's derived cells |
| Scenarios.ReportWithoutSurch | src/app/csv_processor.py:37-42 | any report without `Surch` gives the empty table |

## Left out

- Reading the CSV is left out: `read_csv`, and the empty table returned when reading fails (lines 13-18). The model starts from the table already read, and cells come as text, numbers or NaN in the way `read_csv` would type them.
- The formatting-file load (lines 20-32) is left out. It is file I/O, its failure is never fatal, and its result `column_details` is never used.
- Logging is left out. `@logger.catch` is modelled only through its effect: `Error`, which the caller sees as `None`.
- Floating point is modelled with exact reals, with these consequences:
  - `Round2` rounds the exact quotient half to even. A double can make Python's `round` land on the other side of a tie.
  - Division and products are exact.
  - Infinities are not modelled.
- Cells.ParseDecimal: accepts only plain signed decimals with ASCII digits (exactly the shapes ParseUnsignedShape, ParseUnsignedDigits and ParseUnsignedFraction describe, with an optional sign). It does not model the exponents, whitespace, underscores, `inf`/`nan` spellings or non-ASCII digits that `float()` also accepts.
- Commission matching: `\d` in the search matches any Unicode digit. The model's `IsDigit` is ASCII only.
- Column order is left out: a table's columns are a set.
- Frames.SortValuesDesc: pandas' default sort is not stable. So the contract promises only the order of the keys and the permutation of rows, not the order among equal keys.
- The zero-row table is not modelled faithfully. There `DataFrame.apply` returns a frame rather than a column, and what the assignment then does depends on the pandas version. The model treats that table like any other.
- The PDF rendering, e-mail sending and HTTP endpoints that call the transform are not part of this model.
