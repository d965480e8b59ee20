# Taxas referenciais B3: a verified model of the rate pipeline

This project models the core of a small service. The service publishes the
B3 reference rates (*taxas referenciais*) for USD/BRL (`PTX`) and EUR/BRL
(`EUR`) as one table with one row per forward day count.

A request goes through these steps:

1. It anchors on the **retroactive date**, the first Monday to Friday of the
   current month.
2. It derives the **horizon month**: the anchor's month twelve months on, as
   `YYYY-MM`.
3. It fetches both rate pages for the anchor date. It normalises their markup
   (`trata_html`) and reads the day cells and the rate cells.
4. It builds one table per currency (`get_currencies`). Each row:
   - normalises the Brazilian-formatted rate text (`R$ 5.123,45` → ` 5123.45`);
   - steps the anchor forward by the day count;
   - records the month of the date it reaches.
5. It attaches the EUR rates to the USD rows by position.
6. It keeps the rows whose month is not after the horizon (`filter_currencies`).

The modules follow the program:

| module | file | what it holds |
|---|---|---|
| `Wrappers` | wrappers.dfy | `Option`, `Result` and the two failures the core can raise |
| `Calendar` | calendar.dfy | the proleptic Gregorian calendar of Python's `date`: validity, ordinal, `weekday()` (Monday = 0), `+ relativedelta(days=n)`, `+ relativedelta(months=n)` |
| `PyStr` | pystr.dfy | the Python `str` operations used: `<`/`<=`, `re.split`, `join`, `replace`, character-class deletion, zero padding |
| `DateText` | date_text.dfy | `str(date)` (ISO 8601 extended date) and `strftime('%Y-%m')` (section 4.1.2.3 of ISO 8601:2004), and their order |
| `Anchor` | anchor.dfy | `get_retroactive_date` (loop method and its specification), `get_first_day_month`, `get_max_month`, `format_date` |
| `Markup` | markup.dfy | `trata_html` |
| `Rates`, `RateExample` | rates.dfy, rate_example.dfy | the text stage of `convert_string_to_float` |
| `Currencies` | currencies.dfy | `get_currencies` from the cell texts onward (loop method and its specification), `filter_currencies` |
| `Pipeline` | pipeline.dfy | `process_data` (straight-line method and its specification) |

Three operations update state step by step in the source. Each is a `method`
proved equal to a specification function, and the properties are proved as
lemmas about that function:

- `get_retroactive_date` becomes `Anchor.GetRetroactiveDate` and `Anchor.RetroactiveDate`.
- `get_currencies` becomes `Currencies.GetCurrencies` and `Currencies.CurrencyFrameOf`.
- `process_data` becomes `Pipeline.ProcessData` and `Pipeline.ProcessDataOf`.

Errors the source raises become `Result` values:

- `MalformedTable` stands for the `DataFrame` constructor's `ValueError` when the day and rate columns differ in length.
- `DateOutOfRange` stands for `OverflowError`/`ValueError` when a date step or the horizon leaves years 1..9999.

## Behaviour as coded

- The rate text loses every `R` and every `$` wherever they stand (regex
  class `[R$]`), not only a leading currency symbol.
- The USD and EUR tables are not checked against each other. The EUR column
  is assigned by index, so this model requires both tables to have the same
  number of day counts.
- The retroactive day is always 1, 2 or 3: one of any three consecutive days
  is a weekday, so the loop runs at most twice.
- Day counts are not required to be non-negative. A negative count gives a
  step date before the anchor. Only for non-negative counts is the row's month
  proved to be no earlier than the reference month.
- The columns `filter_currencies` keeps are exactly `days`, `usd_brl`,
  `eur_brl`, `date_retroactive` and `month_year`. They are the fields of
  `Currencies.OutputRow`.

## Model

| member | source | states |
|---|---|---|
| `Calendar.AddDays` | utils/functions.py:113-115 | the step date exists exactly when its day number stays within 0001-01-01..9999-12-31, and it lies exactly n days after the anchor |
| `Calendar.AddMonths` | utils/functions.py:38 | adding n months moves the (year, month) index by n, clamps the day to the target month's length, and fails exactly past year 9999 |
| `Calendar.DaysBeforeYearFormula` | utils/functions.py:26 | the day count before a year equals the closed formula Python's `date` uses for ordinals, so `weekday()` agrees with Python's |
| `Calendar.BusinessDayWithinThree` | utils/functions.py:26-27 | one of the 1st, 2nd and 3rd of every month is Monday to Friday |
| `Calendar.AddDaysMonthMonotone` | utils/functions.py:113-116 | a non-negative number of days never lands in an earlier month |
| `DateText.MonthKeyBelow` | utils/functions.py:38-39 | Python's string `<` on two `%Y-%m` keys holds exactly when the first (year, month) comes earlier |
| `DateText.MonthYearOrder` | utils/functions.py:134 | `<` and `<=` on the `month_year` texts of two dates follow the order of their months, both directions |
| `Anchor.FirstDayOfMonth` | utils/functions.py:32-33 | the result is a valid date in today's month, `today.day - 1` days earlier |
| `Anchor.RetroactiveDate` | utils/functions.py:24-29 | same year and month as today, day 1 to 3, Monday to Friday, and no earlier day of the month is Monday to Friday |
| `Anchor.GetRetroactiveDate` | utils/functions.py:24-29 | the loop that steps one day while the weekday is Saturday or Sunday returns exactly the retroactive date |
| `Anchor.RetroactiveIdempotent` | utils/functions.py:24-29 | the retroactive date of the retroactive date is itself |
| `Anchor.RetroactiveFromFirstDay` | utils/functions.py:24-33 | starting from the first day of the month gives the same retroactive date, which is on or after the first |
| `Anchor.GetMaxMonth` | utils/functions.py:36-39 | the horizon is the 7-character key of (year + 1, same month) and is strictly greater as a string than the date's own key; it fails exactly in year 9999 |
| `Anchor.FormatDateForms` | utils/functions.py:42-51 | the first form is `DD/MM/YYYY` (10 characters) and the second the ISO 8601 basic form `YYYYMMDD` (8 characters, section 4.1.2.2 of ISO 8601:2004) |
| `Anchor.FormatDateFields` | utils/functions.py:46-51 | the second form is 8 digits that read back as the year, month and day, and the first form is its three fields reversed and joined with `/` |
| `Markup.WordsAreWords` | utils/functions.py:55 | every piece `split()` returns is non-empty and holds no whitespace |
| `Markup.WordsKeepText` | utils/functions.py:55 | the pieces of `split()` concatenated are the non-whitespace characters of the input, in order |
| `Markup.CollapseNormal` | utils/functions.py:55 | on text already single-spaced and trimmed, `" ".join(s.split())` gives the text back |
| `Markup.CloseTagGapsNoGap` | utils/functions.py:55 | after `replace('> <', '><')` no `> <` is left |
| `Markup.CloseTagGapsFixed` | utils/functions.py:55 | on text without `> <`, the replacement changes nothing |
| `Markup.NormalizeMarkupShape` | utils/functions.py:54-55 | the output's only whitespace is single plain spaces, with none leading or trailing, and it holds no `> <` |
| `Markup.NormalizeMarkupKeepsText` | utils/functions.py:54-55 | the non-whitespace characters of the input appear unchanged and in order |
| `Markup.NormalizeMarkupIdempotent` | utils/functions.py:54-55 | normalising twice is normalising once |
| `Rates.NormalizeRateIsRateChars` | utils/functions.py:78-80 | the three replacements in their order equal one character-wise map: `R`, `$`, `.` deleted, `,` to `.`, all else kept |
| `Rates.RateCharsConcat` | utils/functions.py:78-80 | the character-wise map distributes over concatenation |
| `Rates.RateCharsLength` | utils/functions.py:78-80 | output length is input length minus the number of `R`, `$` and `.` |
| `Rates.RateCharsSeparators` | utils/functions.py:78-80 | no `R`, `$` or `,` remains, and there are as many `.` as the input had `,` |
| `Rates.RateCharsKeepsDigits` | utils/functions.py:78-80 | apart from the decimal point, the output is the input's other characters in their order |
| `Rates.NormalizeRateProperties` | utils/functions.py:78-80 | all of the above, stated on the three replacements themselves |
| `RateExample.BrazilianPrice` | utils/functions.py:78-80 | `R$ 5.123,45` becomes ` 5123.45` |
| `Currencies.CurrencyFrameOf` | utils/functions.py:101-118 | a table results exactly when the day and rate columns have one length and every step stays in range; the length mismatch is the `MalformedTable` error; the table has one row per day count |
| `Currencies.GetCurrencies` | utils/functions.py:104-120 | building the columns step by step, with the date steps computed in a loop, gives exactly the specified table or error |
| `Currencies.CurrencyRowsAnchored` | utils/functions.py:106-118 | row i pairs day i with normalised rate i; its step date lies days[i] days after the anchor and its month is that date's; every row carries the anchor's ISO text and month |
| `Currencies.MonthYearNotBeforeReference` | utils/functions.py:109-116 | for a non-negative day count, `month_year_reference <= month_year` as strings |
| `Currencies.KeepUpTo` | utils/functions.py:134 | the filter keeps only rows with `month_year <= max_month`, keeps every such row, and adds none |
| `Currencies.KeepUpToSubsequence` | utils/functions.py:134 | the kept rows are an order-preserving subsequence of the input |
| `Currencies.KeepUpToDropped` | utils/functions.py:134 | every dropped row has `max_month < month_year` |
| `Currencies.KeepUpToCounts` | utils/functions.py:134 | each kept row keeps its multiplicity, and a row past the horizon occurs zero times |
| `Currencies.KeepUpToIdempotent` | utils/functions.py:123-136 | filtering twice is filtering once |
| `Pipeline.AttachEur` | process_data.py:19 | merged row i is USD row i with the rate of EUR row i, and the length is the USD length |
| `Pipeline.ProcessData` | process_data.py:5-22 | the straight-line composition returns exactly the specified result or error |
| `Pipeline.ProcessDataFails` | process_data.py:7-17 | the request fails exactly when today is in year 9999, a table's columns differ in length, or a day count leaves the date range |
| `Pipeline.MaxMonthOfToday` | process_data.py:7-8 | the horizon computed from the retroactive date is (today's year + 1, today's month) |
| `Pipeline.ProcessDataMerged` | process_data.py:12-20 | the result is the horizon filter of the merged rows: day count, USD rate, anchor text and month from USD row i, EUR rate from EUR row i |
| `Pipeline.ProcessDataBounded` | process_data.py:7-20 | no more rows than USD day counts; every row carries the ISO text of today's retroactive date and a month no later than the horizon |
| `Pipeline.ProcessDataNotBeforeToday` | process_data.py:7-20 | with non-negative day counts, no returned row lies before today's month |

## Left out

- Fetching the pages is left out: `create_bsoup_object`, `get_bsoup_object`, the URL, `urlopen` and Latin-1 decoding are I/O. `format_date` and `trata_html`, which feed them, are modelled.
- BeautifulSoup's `findAll` cell selection is left out because it is a foreign library. Tables start from the day counts, taken as integers with `int()` already applied, and the rate cell texts.
- `float()` on the rate and `month_currency_means` are left out: both are floating point, and the pipeline never calls the second. A rate stays its normalised decimal text.
- The loop of `convert_string_to_float` over column names is not modelled as a loop. The core always passes the one rate column, and the model applies the text stage to that column.
- `date.today()` is a parameter. The network results are parameters too.
- Pipeline.ProcessData: requires the USD and EUR tables to have the same number of day counts. With different lengths pandas aligns on the index, filling NaN or dropping values, and that is not modelled.
- Anchor.GetMaxMonth: fails only when the horizon passes year 9999. `pd.to_datetime` also rejects dates outside pandas' `Timestamp` range (years 1677 to 2262), and that bound is not modelled.
- DateText.MonthKey: always pads the year to four digits. Some platforms' `strftime('%Y')` does not pad years below 1000.
- Currencies.GetCurrencies: on an empty table, pandas' row-wise `apply` behaviour depends on the version. The model returns an empty table.
- Calendar.AddMonths: is defined for non-negative month counts only. The core only adds twelve months.
- `app.py` is HTTP plumbing and is not part of this model.
