# Weather summary model

A Dafny model of `weather.py`, a small utility that summarises historical
weather readings. Each reading is a day record `(date, low, high)` with the
temperatures in Fahrenheit. The model covers five parts:

- **Loading** (`Loader`): the row loop of `load_data_from_csv`, run over rows
  that have already been split into fields. It skips the header and blank
  rows and reads the date and the two integer temperatures. Parse failures
  become error results.
- **Unit conversion and display** (`Units`, `Rounding`, `Decimal`):
  `convert_f_to_c` computes `(F - 32) * 5/9` rounded to one decimal.
  `format_temperature` appends the degree sign and `C` with no space.
  `round`, `str` and `int` of the Python runtime are modelled on exact numbers.
- **Aggregation** (`Aggregates`): `find_min` and `find_max` scan left to right.
  On a tie they report the LAST position, and an empty list gives nothing.
  `calculate_mean` first overwrites the caller's list in place with float
  values, then returns the mean rounded to five decimals. The builtins the
  summary relies on (`sum`, `min`, `max`, `list.index`) are reference
  functions with their own contracts.
- **Overview** (`Summaries.GenerateSummary`): the record count, the lowest
  converted low and the highest converted high, each dated by the FIRST
  record holding it, and the two averages, rendered through the fixed
  template.
- **Daily breakdown** (`Summaries.GenerateDailySummary`): one fixed block per
  record, concatenated in record order.

State follows the source. `find_min`, `find_max`, `generate_summary`,
`generate_daily_summary` and the loader are methods with loops, proved
against reference functions. `calculate_mean` works on an `array` because
it mutates its argument. Conversion, rounding and rendering are functions.

Temperatures are exact `real`s. `round(x, d)` is the nearest multiple of
10^-d, with ties going to the even multiple. A Python list element is a
`Number`, either an int or a float, so that the in-place `float()` coercion
of `calculate_mean` can be seen. `convert_date` is passed to both summary
methods as the parameter `convertDate`.

Two behaviours of the code are kept as written:
- `calculate_mean` overwrites every element of the list it is given with its
  float value (weather.py:55-56), so the caller's list changes.
- On empty input `generate_summary` raises, because `summary` is only bound
  inside the loop (weather.py:154-156); the means are never computed. The
  model returns `Failure(NoDays)`.

## Model

| member | source | states |
|---|---|---|
| `Decimal.DigitsOf` | weather.py:154 | `str(n)` of a count: non-empty, all decimal digits, and no leading zero unless `n` is 0 |
| `Decimal.IntText` | weather.py:154 | `str(n)` of an int: a minus sign exactly when `n` is negative, then digits with no leading zero unless `n` is 0 |
| `Decimal.ParseNat` | weather.py:80-81 | digit text reads as a number exactly when it is non-empty and all digits |
| `Decimal.ParseLeadingZero` | weather.py:80-81 | a leading zero does not change the value read, so `int("050") == 50` |
| `Decimal.Strip` | weather.py:80-81 | the result is a slice of the text with only whitespace cut before and after it, and it neither starts nor ends with whitespace; text without outer whitespace is unchanged |
| `Decimal.ParseInt` | weather.py:80-81 | `int(s)` succeeds exactly when the stripped text is digits, optionally after one sign; a negative result comes from a leading minus |
| `Decimal.ParseIntStrip` | weather.py:80-81 | `int(s)` depends only on the text left after stripping outer whitespace |
| `Decimal.ParseIntDigits` | weather.py:80-81 | `int(d)` of bare digits is their value |
| `Decimal.ParseIntPlus` | weather.py:80-81 | `int("+" + d)` is the value of the digits `d` |
| `Decimal.ParseIntMinus` | weather.py:80-81 | `int("-" + d)` is minus the value of the digits `d` |
| `Decimal.StripPadded` | weather.py:80-81 | one blank on each side of a text without outer whitespace is stripped, leaving exactly that text |
| `Decimal.ParsePaddedField` | weather.py:80-81 | `int(" 0" + d + " ")` is the value of the digits `d`, so `int(" 050 ") == 50` |
| `Decimal.ParseSignedField` | weather.py:80-81 | `int("-7")` is -7 |
| `Decimal.ParseBadField` | weather.py:80-81 | `int("5x")` fails |
| `Decimal.ParseDigitsOf` | weather.py:80-81 | the digits written for `n` read back as `n` |
| `Decimal.ParseIntText` | weather.py:80-81 | `int(str(n)) == n` for every integer, negative ones included |
| `Rounding.RoundTo` | weather.py:43 | `round(x, d)` has at most `d` decimals and lies within half a unit of the last decimal of `x` |
| `Rounding.RoundOnGrid` | weather.py:148-149 | rounding a value that already has at most `d` decimals returns it unchanged |
| `Rounding.OnGridWiden` | weather.py:145-146 | a value with at most one decimal also has at most five, so `round(.., 5)` leaves it alone |
| `Rounding.RoundMonotone` | weather.py:145-146 | rounding never reverses the order of two values |
| `Units.ConvertFToC` | weather.py:33-43 | the result has one decimal and is within 0.05 of `(F - 32) * 5/9` |
| `Units.ConvertFixedPoints` | weather.py:41-43 | 32 F is 0 C, 212 F is 100 C, -40 F is -40 C |
| `Units.ConvertMonotone` | weather.py:41-43 | a warmer Fahrenheit reading never converts to a colder Celsius one |
| `Units.ShowTenths` | weather.py:16 | `str(x)` of a one-decimal float: a minus sign exactly when the rounded value is negative, then the integer part as digits with no leading zero unless it is 0, a point and one digit |
| `Units.SignedTenths` | weather.py:16 | the text of `k / 10` has a minus sign exactly when `k` is negative, followed by the canonical unsigned text |
| `Units.UnsignedTenths` | weather.py:16 | the unsigned text is digits without a leading zero (unless the integer part is 0), a point and one digit |
| `Units.ReadSignedTenths` | weather.py:16 | the text of `k / 10` reads back as `k / 10` |
| `Units.ShowTenthsReadsBack` | weather.py:16 | the one-decimal text of a value reads back as that value rounded to one decimal |
| `Units.FormatTemperature` | weather.py:4-16 | the text ends in the degree sign and `C` with a digit right before them (no space); the number before them is in the canonical form of `ShowTenths`, negative exactly when the rounded temperature is, and reads back as the temperature rounded to one decimal |
| `Units.FormatTemperatureReadsBack` | weather.py:7-16 | a temperature that already has one decimal reads back exactly from its text |
| `Aggregates.FindMin` | weather.py:87-104 | nothing exactly for an empty list; otherwise a position holding the minimum, its float value, and no later position with that value |
| `Aggregates.FindMax` | weather.py:107-123 | nothing exactly for an empty list; otherwise a position holding the maximum, its float value, and no later position with that value |
| `Aggregates.LastMinExample` | weather.py:93-100 | in `[1, 2, 1, 3]` the last-occurrence minimum is at position 2 and nowhere else |
| `Aggregates.LastMaxExample` | weather.py:113-119 | in `[1, 3, 3, 2]` the last-occurrence maximum is at position 2 and nowhere else |
| `Aggregates.CalculateMean` | weather.py:46-60 | every element is replaced in place by its float value; the result is the mean rounded to five decimals, or a division-by-zero error for an empty list |
| `Aggregates.MeanExample` | weather.py:54-60 | the mean of `[0, 8, 4]` is 4 |
| `Aggregates.SumAppend` | weather.py:57 | the `sum` of two runs of numbers is the sum of each run, added |
| `Aggregates.SumBounds` | weather.py:57 | the `sum` of `n` numbers that lie between two bounds lies between `n` times each bound |
| `Aggregates.Mean` | weather.py:57-58 | the mean times the number of elements gives back their sum |
| `Aggregates.SumPermutation` | weather.py:57 | `sum` does not depend on the order of the elements |
| `Aggregates.MeanPermutation` | weather.py:57-58 | the mean is invariant under reordering |
| `Aggregates.MeanBounded` | weather.py:57-58 | the mean lies between any lower and upper bound of the elements |
| `Aggregates.MeanBetween` | weather.py:57-58 | the mean lies between the smallest and the largest element |
| `Aggregates.MinOf` | weather.py:148 | `min(xs)` is an element of `xs` and no element is smaller |
| `Aggregates.MaxOf` | weather.py:149 | `max(xs)` is an element of `xs` and no element is larger |
| `Aggregates.FirstIndex` | weather.py:151-152 | `xs.index(v)` holds `v` and no earlier position does |
| `Aggregates.FirstIndexOfMin` | weather.py:151 | `xs.index(min(xs))` is the first position of the minimum |
| `Aggregates.FirstIndexOfMax` | weather.py:152 | `xs.index(max(xs))` is the first position of the maximum |
| `Aggregates.FirstAndLastMin` | weather.py:151 | the first-occurrence rule of the summary and the last-occurrence rule of `find_min` agree on the value; the first is never after the last; they coincide exactly when the minimum occurs once |
| `Loader.ParseRow` | weather.py:77-82 | a row is skipped exactly when it has no fields; it fails exactly when it is non-empty and has fewer than three fields or an unreadable field 1 or 2; otherwise it is the record of field 0 as date and fields 1 and 2 as integers |
| `Loader.ParseData` | weather.py:76-82 | a successful parse has at most one record per row; a failure is a missing field or a bad integer, never a missing header |
| `Loader.ParseTable` | weather.py:73-84 | the missing-header error happens exactly for a file without rows; a successful load has fewer records than rows |
| `Loader.ParseWrittenRow` | weather.py:77-82 | a record written as `date,low,high` reads back as that record |
| `Loader.LoadDataFromCsv` | weather.py:63-84 | the result is the header-less, blank-less parse of the rows, stopping at the first missing field or bad integer; a file without rows is an error |
| `Loader.ParseDataSucceeds` | weather.py:76-82 | the data rows load exactly when every one of them parses on its own |
| `Loader.ParseDataFirstError` | weather.py:76-82 | a failed load reports the error of the first row that does not parse; every row before it parses |
| `Loader.FirstErrorStops` | weather.py:76-82 | once a row fails, the rows after it do not change the outcome |
| `Loader.LoadWrittenRows` | weather.py:73-84 | records written as `date,low,high` under any header load back as the same records |
| `Loader.OneRecordPerNonBlankRow` | weather.py:76-82 | a successful load yields one record per non-empty row, in order, built from that row's fields |
| `Summaries.OverviewOf` | weather.py:138-152 | the day count is the number of records, and every reported temperature has one decimal |
| `Summaries.OverviewText` | weather.py:154 | the template opens with the count, contains the lowest, highest, average low and average high lines, and ends with a full stop and a newline |
| `Summaries.Render` | weather.py:154 | the overview opens with the day count, which reads back as that count; it contains the line giving the formatted lowest temperature and its date, the same for the highest, and the lines giving the two formatted averages; it ends with a full stop and a newline |
| `Summaries.GenerateSummary` | weather.py:126-156 | no records is an error; otherwise the rendered overview of the accumulated dates, converted lows and converted highs |
| `Summaries.OverviewLowest` | weather.py:148-151 | the count is the number of records; the lowest temperature is the minimum converted low, dated by the first record holding it |
| `Summaries.OverviewHighest` | weather.py:149-152 | the highest temperature is the maximum converted high, dated by the first record holding it |
| `Summaries.ExtremesConvertReadings` | weather.py:138-149 | the reported lowest and highest are the conversions of the coldest low and the warmest high in Fahrenheit |
| `Summaries.LowestConvertsMin` | weather.py:140-148 | the reported lowest is the conversion of the coldest Fahrenheit low |
| `Summaries.HighestConvertsMax` | weather.py:142-149 | the reported highest is the conversion of the warmest Fahrenheit high |
| `Summaries.AveragesWithinExtremes` | weather.py:145-149 | the reported average low is never below the lowest, and the average high never above the highest, after both roundings |
| `Summaries.TwoDayOverview` | weather.py:138-154 | for 32/86 F then 50/104 F: 2 days, lowest 0 on the first date, highest 40 on the second |
| `Summaries.DayBlock` | weather.py:170-173 | each daily block opens with `---- ` and the rendered date, contains the line giving the formatted Celsius minimum and the line giving the formatted Celsius maximum, and ends with a blank line |
| `Summaries.GenerateDailySummary` | weather.py:159-175 | the result is the concatenation of one block per record in input order, and empty for no records |
| `Summaries.DailyTextAppend` | weather.py:167-175 | the breakdown of two runs of records is the breakdown of each, one after the other |
| `Summaries.DailyTextFirst` | weather.py:168-173 | the breakdown is the first record's block followed by the breakdown of the rest |

## Left out

- Opening the file, UTF-8 decoding and CSV tokenising in `load_data_from_csv` (weather.py:71-73) are I/O and library work. The loader takes the rows already split into fields.
- `convert_date` (weather.py:19-30) depends on `datetime` and on the locale. It is the `convertDate` parameter, which is total. The `ValueError` it raises on a malformed date is not modelled.
- `float()` applied to text, as in `convert_f_to_c("50")`, is not modelled. A `Number` is an int or a float, and temperatures reach the converter as reals.
- IEEE floating point is not modelled. Arithmetic is exact, so `5.00 / 9.00` is exactly 5/9. Python rounds the binary value, so it can differ from round-half-even on the exact decimal at a tie, and it can produce `-0.0`.
- `Units.ShowTenths` renders `str(float)` with one decimal. That is what Python prints for every value `weather.py` formats: all of them are already rounded to one decimal and far below 1e16. Exponent notation and `-0.0` are not modelled.
- FormatTemperature: a value with more than one decimal is shown rounded to one. An int argument gets a `.0`, where Python prints it bare (`0°C`). No call in `weather.py` passes such a value.
- `Decimal.ParseInt` accepts ASCII whitespace, an optional sign and ASCII digits. `int()` also accepts underscores between digits, non-ASCII digits and other Unicode whitespace. These are not modelled.
- `generate_summary` recomputes its means, extremes and text on every pass of its loop (weather.py:145-154). Only the last pass is observable, so the model computes them once, after the loop.
- The lists `min_data` and `max_data` are handed to `calculate_mean` as fresh arrays holding the same floats. The in-place coercion changes nothing there because every element is already a float.
