# Afina MoM sales dashboard: a Dafny model of its data core

The dashboard (`main.py`) reads a month-over-month sales sheet and shows
KPIs, charts and insights. This project models the part of it that computes
and proves properties about it:

- `load_data` (main.py:12-26). The header names are trimmed. In the four
  currency columns every `$` and `,` is removed, a cell that is then exactly
  `-` becomes `0`, and the text is parsed as a number, with text that does
  not parse becoming NaN. The two MoM % columns get the same treatment with
  only `%` removed. A column that is absent raises KeyError.
- The values derived from the loaded frame: the latest row (main.py:29), total
  sales (main.py:37), the increase/decrease highlight and its check-mark to
  warning-sign swap (main.py:40-44), the month of peak MoM growth per channel
  (main.py:81-82), the two `melt` reshapes behind the bar charts (main.py:58,
  main.py:65) and the month filter (main.py:89-90).

Modules, in dependency order:

- `Wrappers` (wrappers.dfy): `Option` and `Result`.
- `Cleaning` (cleaning.dfy): a cell (`Text`, `Num` or `Missing` for NaN), the
  character removal, the decimal parser standing for `to_numeric(errors='coerce')`,
  and the cleaning of one cell and one column.
- `Formats` (formats.dfy): the display forms `${x:,.0f}` and `{x:.2f}%` for whole
  amounts and whole hundredths, with proofs that cleaning reads them back, and
  worked examples.
- `Loading` (loading.dfy): the frame as a table of columns. `Normalize`
  specifies what `load_data` returns. The class `Frame` with the method
  `LoadData` performs it the way the source does, one column at a time in
  place, and `LoadData` is proved equal to `Normalize`.
- `Metrics` (metrics.dfy): the loaded frame read as records, and the latest
  row, total, highlight and peak.
- `Reshape` (reshape.dfy): `melt` and the month filter.

The model follows what the code does, including where that differs from
what the dashboard's purpose suggests:

- An empty cell and a cell holding only `%` become NaN, not 0. Only a cell
  that is exactly `-` after stripping becomes 0.
- A total with a missing part is NaN: pandas adds NaN, it does not zero-fill.
- An empty sheet and a channel whose MoM % values are all NaN fail with the
  same IndexError (`NoRow`). They are not distinct errors.
- Nothing checks that net sales are non-negative. The model does not assume it.

## Model

| member | source | states |
|---|---|---|
| Cleaning.Remove | main.py:18 | the result holds none of the removed characters and is no longer than the input |
| Cleaning.RemoveKeepsOthers | main.py:18 | every character outside the removed set occurs as often as before |
| Cleaning.RemoveAppend | main.py:18 | removal works piece by piece: removing from `a + b` is removing from `a`, then from `b`, in order |
| Cleaning.RemoveNothing | main.py:18 | text with none of the characters is unchanged |
| Cleaning.RemoveFrom | main.py:18 | every character left was in the input |
| Cleaning.RemoveIdempotent | main.py:18 | removing twice is removing once |
| Cleaning.ParseUnsigned | main.py:19 | an unsigned decimal that parses has a non-negative value |
| Cleaning.ParseDecimal | main.py:19 | text that parses holds a digit; a plain digit string parses as its integer value |
| Cleaning.DigitsParse | main.py:19 | a non-empty digit string parses, without a sign, as its integer value |
| Cleaning.UnsignedRejects | main.py:19 | a character other than a digit or the point makes unsigned text fail to parse |
| Cleaning.StrayCharRejected | main.py:19 | past the sign position, any character other than a digit or the point makes the text unparseable |
| Cleaning.MinusNegates | main.py:19 | a leading minus gives the negated value of what follows |
| Cleaning.UnsignedForm | main.py:19 | unsigned text parses exactly when it holds only digits and points, at most one point, and at least one digit |
| Cleaning.DecimalForm | main.py:19 | text parses exactly when it is such unsigned text, optionally after one leading `-` or `+` |
| Cleaning.SecondPointRejected | main.py:19 | text with two points, such as `1.2.3`, does not parse, with or without a sign |
| Cleaning.LeadingPoint | main.py:19 | no digit is needed before the point: `.5` parses as a half, and `.` followed by digits as their fraction |
| Cleaning.ToNumeric | main.py:19 | coercion never leaves text, and leaves numbers and NaN as they are |
| Cleaning.CleanCell | main.py:17-24 | a cleaned cell is a number or NaN; cells that were not text pass through unchanged |
| Cleaning.CleanColumnCells | main.py:17-24 | a column is cleaned cell by cell, keeping its length |
| Cleaning.CleanText | main.py:17-24 | a text cell becomes 0 exactly when its stripped text is `-`, and otherwise becomes the parse of the stripped text or NaN |
| Cleaning.CleanIdempotent | main.py:17-24 | cleaning an already cleaned cell, by either rule, changes nothing |
| Cleaning.CleanColumnIdempotent | main.py:17-24 | the same for whole columns |
| Cleaning.CleanAbsorbsStrip | main.py:18 | stripping the characters beforehand does not change the cleaned value |
| Cleaning.DashIsZero | main.py:18 | `-` and `$-` in a currency column, and `-` and `-%` in a MoM % column, become 0 |
| Cleaning.NoDigitIsMissing | main.py:19 | text with no digit (and not the lone dash) becomes NaN, never an error |
| Formats.NatDigitsValue | main.py:35-37 | the printed digits of a whole number have that number as their value |
| Formats.RemoveGrouping | main.py:18 | removing `$` and `,` from digits grouped by thousands gives the plain digits back |
| Formats.UnsignedValue | main.py:19 | digits, a point and digits parse as whole part plus fraction |
| Formats.CurrencyTextStripped | main.py:18 | the dashboard's currency text minus `$` and `,` is the sign followed by the digits |
| Formats.SignedDigitsValue | main.py:19 | the signed digits of an integer parse as that integer |
| Formats.CurrencyRoundTrip | main.py:17-19 | cleaning a currency cell written as `${n:,.0f}` gives back `n`, negative amounts included |
| Formats.TwoDigitsFraction | main.py:19 | two fraction digits of `r` are worth `r / 100` |
| Formats.HundredthsValue | main.py:19 | the text of `a` hundredths parses as `a / 100` |
| Formats.PercentTextStripped | main.py:23 | the dashboard's percent text minus `%` is the signed number |
| Formats.PercentRoundTrip | main.py:22-24 | cleaning a MoM % cell written as `{x:.2f}%` gives back `x` |
| Formats.GroupedAmountExample | main.py:18-19 | `$1,234.50` becomes 1234.5 |
| Formats.NegativeAmountExample | main.py:18-19 | `-$250` becomes -250 |
| Formats.PercentExample | main.py:23-24 | `12.34%` becomes 12.34 |
| Formats.NegativePercentExample | main.py:23-24 | `-12.34%` becomes -12.34 |
| Formats.MissingExamples | main.py:19 | the empty cell and `abc` in a currency column, and `%` in a MoM % column, become NaN |
| Formats.SeparatorInPercentIsMissing | main.py:23-24 | a thousands separator is not stripped from a MoM % cell, so `1,234%` becomes NaN |
| Loading.TrimStart | main.py:14 | only leading whitespace is dropped, and what remains does not start with whitespace |
| Loading.TrimEnd | main.py:14 | only trailing whitespace is dropped, and what remains does not end with whitespace |
| Loading.TrimSlice | main.py:14 | a trimmed name is a contiguous slice of the name, with only whitespace outside it |
| Loading.TrimEnds | main.py:14 | a trimmed name neither starts nor ends with whitespace |
| Loading.TrimIdempotent | main.py:14 | trimming twice is trimming once |
| Loading.TrimAll | main.py:14 | every header name is trimmed, and their number and order are kept |
| Loading.TrimmedHeader | main.py:14 | trimming the header leaves the cells and the row count alone |
| Loading.IndexOf | main.py:18 | `df[col]` finds the first column of that name, or reports that there is none |
| Loading.CleanColumnOf | main.py:18-19 | one iteration fails exactly when the column is absent, names it, and otherwise keeps the header and row count |
| Loading.CleanColumns | main.py:17-19 | a loop keeps the header, the row count and the frame's shape |
| Loading.CleanColumnsFails | main.py:17-19 | a loop fails exactly when one of its columns is absent, and reports the first absent one |
| Loading.CleanColumnsCells | main.py:17-19 | a successful loop cleans the first column of each of its names and leaves every other column as it was |
| Loading.ErrorPersists | main.py:17-19 | once a loop has hit an absent column, the columns after it change nothing |
| Loading.NormalizeFails | main.py:12-26 | loading fails exactly when one of the six columns is absent after trimming, and reports the first in loop order |
| Loading.NormalizeCleans | main.py:12-26 | a successful load trims the header, keeps the rows, cleans each of the six columns by its family's rule and leaves every other column untouched |
| Loading.NumericAfterLoad | main.py:17-24 | after a successful load, each of the six columns holds only numbers and NaN |
| Loading.NormalizeNumeric | main.py:17-24 | the same, for all six at once |
| Loading.NormalizeHasRequired | main.py:12-26 | after a successful load the header is the sheet's trimmed header, the row count is kept, and each of the six names heads a column |
| Loading.LoadedCell | main.py:14-24 | after a successful load, row `i` of a cleaned column is row `i` of the sheet's column of that trimmed name, cleaned by its loop's rule |
| Loading.LoadedMonth | main.py:14-24 | after a successful load, row `i` of the Month column is the sheet's cell as it stands |
| Loading.Frame.constructor | main.py:13 | the frame holds the sheet as read |
| Loading.Frame.TrimHeader | main.py:14 | the frame's header is replaced by its trimmed names; nothing else changes |
| Loading.Frame.CleanColumn | main.py:18-19 | the column is found exactly when its name is in the header; then it is overwritten by its cleaned cells, and otherwise the frame is unchanged |
| Loading.CleanLoop | main.py:17-19 | the in-place loop either cleans every column of the list, or stops at the first absent one and returns its name |
| Loading.LoadData | main.py:12-26 | the in-place `load_data` returns exactly what `Normalize` specifies, including which KeyError it raises |
| Metrics.Records | main.py:28 | the loaded frame read as one record per row; it fails exactly when there is no Month column (the fields of each record are stated by Metrics.DatasetAt) |
| Metrics.Dataset | main.py:28 | loading and reading keep one record per row of the sheet, and fail exactly when loading fails or Month is absent |
| Metrics.DatasetFails | main.py:28 | the same failure stated on the raw header: one of the six names or Month is absent after trimming |
| Metrics.LoadedNumber | main.py:17-24 | the number read from row `i` of a cleaned column is the sheet's cell cleaned by that column's rule |
| Metrics.DatasetSalesAt | main.py:17-19 | record `i`'s two net sales and two deltas are the sheet's row-`i` cells of those columns, cleaned as currency |
| Metrics.DatasetMonthAt | main.py:12-26 | record `i`'s month is the sheet's row-`i` Month cell, uncleaned |
| Metrics.DatasetMomAt | main.py:22-24 | record `i`'s two MoM % values are the sheet's row-`i` cells of those columns, cleaned as percentages |
| Metrics.DatasetAt | main.py:12-28 | record `i` of the dataset is row `i` of the sheet: the Month cell and each of the six cells cleaned by its column's rule |
| Metrics.Latest | main.py:29 | the latest row exists exactly when the frame is non-empty, and is one of its rows |
| Metrics.LatestIsLastAdded | main.py:29 | the latest row is the one added last |
| Metrics.LatestTotal | main.py:29-37 | a loaded sheet has a latest row exactly when it has rows, and its total is the sum of the sheet's last website and Amazon net-sales cells, each cleaned as currency |
| Metrics.Add | main.py:37 | a sum is a number exactly when both operands are, and then it is their sum |
| Metrics.TotalSales | main.py:37 | the total is a number exactly when both channels' net sales are, and then it is their sum |
| Metrics.MissingIsNotZero | main.py:37 | a missing Amazon value makes the total NaN; it is not read as zero |
| Metrics.ChangeTypeDecrease | main.py:40-42 | the highlight is a decrease exactly when neither MoM % is above zero, NaN counting as not above zero |
| Metrics.MarkWarning | main.py:44 | no check mark is left, and text without one is unchanged |
| Metrics.MarkWarningAppend | main.py:44 | the replacement works piece by piece |
| Metrics.MarkWarningUndone | main.py:44 | in text without a warning sign of its own, turning warning signs back into check marks restores the text |
| Metrics.DecreaseHighlight | main.py:43-44 | on a decrease the highlight starts with the warning sign and its words are unchanged |
| Metrics.MomColumn | main.py:81-82 | a channel's MoM % column has one value per row, in row order |
| Metrics.Max | main.py:81-82 | the maximum skipping NaN exists exactly when some value does; it is one of the values and nothing exceeds it |
| Metrics.FirstIndex | main.py:81-82 | the position found holds the value and no earlier one does |
| Metrics.PeakIndex | main.py:81-82 | a peak exists exactly when the channel has a non-NaN value; it holds the largest value, and every earlier row is NaN or strictly smaller |
| Metrics.PeakGrowth | main.py:81-82 | the peak record is the row at the peak position, with the same failure condition |
| Metrics.PeakIsUnique | main.py:81-82 | any row holding the largest value before every other such row is the peak: ties go to the earliest row |
| Reshape.Stack | main.py:58 | one value column stacked: a row per original row, with the month, the column name and its value |
| Reshape.MeltAppend | main.py:58 | melting two lists of columns is melting them one after the other |
| Reshape.MeltLength | main.py:58 | the long table has one row per value column per original row |
| Reshape.MeltAt | main.py:58 | row `i` of block `k` of the long table is row `i`'s month, the `k`-th column's name and that column's value |
| Reshape.DeltaBarsShape | main.py:58 | the delta chart data has every Δ Website row first, then every Δ Amazon row |
| Reshape.MomBarsShape | main.py:65 | the MoM % chart data has every MoM % Website row first, then every MoM % Amazon row |
| Reshape.FilterMonths | main.py:90 | the filter never adds rows and keeps only rows whose month is selected |
| Reshape.FilterAppend | main.py:90 | filtering works piece by piece, so kept rows stay in their order |
| Reshape.FilterMembers | main.py:90 | a row is kept exactly when it is in the frame and its month is selected |
| Reshape.FilterKeepsAll | main.py:90 | when every row's month is selected, nothing is dropped |
| Reshape.DefaultSelectionKeepsAll | main.py:89-90 | with the default selection of every month, the filtered table is the whole frame |
| Reshape.FilterTwice | main.py:90 | filtering twice is filtering once by the months both selections share |
| Reshape.FilterNone | main.py:90 | an empty selection shows no rows |

## Left out

- Reading the CSV file (main.py:13, `skiprows=1`) is not modelled. The model starts from the sheet as pandas holds it: a header and the cells of each column, as text, number or NaN.
- The cache with a 10-second lifetime (main.py:11) is not modelled. It changes when the file is re-read, not what loading returns.
- Streamlit and plotly output is not modelled: page layout, KPI widgets, charts, markdown and the footer. Only the values handed to them are modelled.
- Python's number formatting (`:,.0f`, `:.2f`, `:+.2f`) of floating-point values is not modelled. `Formats` covers the display forms for whole amounts and whole hundredths, in exact arithmetic. `HighlightText` takes the month and the two percentages already formatted.
- Floating point: numbers are exact reals, so rounding and overflow are not modelled.
- Cleaning.ParseDecimal: accepts an optional sign, then digits with an optional point. This is narrower than pandas' `to_numeric`, which also accepts surrounding whitespace, exponents, `inf` and `nan`; such text becomes NaN in the model.
- Loading.CleanColumnOf: cleans only the first column of a name. When a header repeats one of the six names after trimming, `df[col]` selects a DataFrame and `pd.to_numeric` at main.py:19 raises TypeError, so the source fails; the model does not capture that error and instead returns Ok with only the first column of that name cleaned.
- Metrics.Records: requires the Month column up front. The source only needs it where the month is shown (main.py:43, main.py:58) and would raise KeyError there instead.
- The line charts indexed by Month (main.py:48, main.py:53) and the pie chart (main.py:72-76) are not modelled, because they only pass columns of the latest row or the frame to plotly.
- The `Frame` methods and its constructor use `old` and `modifies`, so their contracts state the in-place updates; `LoadData` ties them to `Normalize`.
