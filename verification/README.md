# Volunteer-attendance cleaning and aggregation, modelled in Dafny

This project models the data logic of `explorefuncs.py`, a small pandas library that
cleans a volunteer-attendance export and aggregates it for four charts. A table is a
sequence of records whose cells are `Option` values (`None` is pandas' NaN), and
every step is a pure function over that sequence:

- `clean_data` (module `Cleaning`):
  - keeps twelve columns and renames `Date`/`Time` to `Start Date`/`Start Time`;
  - derives the weekday of every start date;
  - drops every date whose non-null `User ID` count exceeds 5000, with all of its rows;
  - drops rows lacking `Start Date`, `Start Time` or `Opportunity Zip`;
  - derives `Start`, `End` and `Calculated Hours`. `Calculated Hours` is the seconds
    part of `End - Start`, kept as an integer in [0, 86400).
- The grouped per-date count used by the cleaning and by the yearly chart (module
  `Grouping`).
- `hoursPlot`: the zero-hour replacement and the 24-hour cut that feed the session
  histogram (module `Sessions`).
- `weektimeHeatmap`: the `floor_hour` parser, the 4-hour slots and the 6 x 7 table of
  counts over 52 (module `Heatmap`).
- `participationYear`: reading the month from a date string, and the year-average line
  (module `Participation`).

Supporting modules:

- `Outcomes`: `Option` and `Result`. A Python exception is a `Failure`, carrying a
  value that names what raised.
- `Seqs`: row filtering, the subsequence relation, and a column-wide map that stops
  at the first failure.
- `PyText`: Python's `int()` on text.
- `Records`: the row types.

The date library (`pd.Timestamp`, `pd.to_datetime`) is a parameter, `Records.Clock`. It
maps a date string to a weekday number 0-6 and a "date time" string to an instant in
whole seconds. Either may answer `None` for text that does not parse.

Where the code and its prose description differ, the model follows the code:

- The weekday is computed for every row before any null filter (explorefuncs.py:50), so
  a null `Start Date` raises instead of giving a null weekday. `Cleaning.Clean` fails
  with `NullStartDate`. The later filter on a null `Start Date` (explorefuncs.py:60)
  therefore never removes a row. It is still modelled.
- A null `End Date` or `End Time` is not replaced by the start date. The end instant is
  NaN, and so is `Calculated Hours`: `calculatedSeconds == None`.
- The bulk-date threshold counts non-null `User ID` values per date, not rows.
- An export with a header and no rows raises. The bulk-date mask (explorefuncs.py:57)
  is then an empty column of object type, which pandas reads as a list of column labels
  rather than as a mask, so the selection keeps no column and `Start Date` is missing at
  explorefuncs.py:60. `Cleaning.Clean` fails with `NoRows`.
- An `End Date` column that no row of the export fills is read as numbers, and adding a
  space to it (explorefuncs.py:66) raises. `Cleaning.Clean` fails with `EndDateNotText`,
  after the start timestamps are parsed.
- The heatmap selects all seven weekday columns (explorefuncs.py:113). When some weekday
  has no rows at all, that selection raises. `Heatmap.WeeklyAverages` fails with the
  missing days.

## Model

| member | source | states |
|---|---|---|
| `Cleaning.Project` | explorefuncs.py:22-41 | Fails exactly when some of the twelve columns is missing, naming exactly the missing ones; otherwise row i of the result is row i of the input restricted to the twelve columns, with Date/Time under their new names |
| `Cleaning.ProjectIgnoresOtherColumns` | explorefuncs.py:35 | Two tables that agree on the twelve columns project to the same result, whatever their other columns hold |
| `Records.DayName` | explorefuncs.py:42-48 | The weekday table is the inverse of weekday numbering, Monday = 0 to Sunday = 6 |
| `Cleaning.WeekdayOf` | explorefuncs.py:50 | A row gets a weekday exactly when its start date is present and the date library reads it, and that weekday carries the library's number; a null date raises |
| `Grouping.CountByDate` | explorefuncs.py:55 | The group-count table has exactly the non-null start dates as keys, and each maps to the number of that date's rows with a User ID |
| `Grouping.UserCountFilter` | explorefuncs.py:57 | A filter that keeps every row of date d leaves d's count unchanged |
| `Cleaning.ExcludeBulkDates` | explorefuncs.py:55-57 | A row survives exactly when it is an input row whose date is null or whose date count is at most the threshold |
| `Cleaning.ExcludeBulkDatesByCounts` | explorefuncs.py:55-57 | The count table, then the set of dates over the threshold, then one membership test per row, gives the same rows as the whole-date exclusion |
| `Cleaning.WholeDateExclusion` | explorefuncs.py:55-57 | A date over the threshold loses all of its rows; any other date keeps all of its rows, in order |
| `Cleaning.ExcludeBulkDatesIdempotent` | explorefuncs.py:55-57 | A second exclusion removes nothing |
| `Cleaning.DropIncomplete` | explorefuncs.py:60-62 | A row survives the three null filters exactly when it has Start Date, Start Time and Opportunity Zip |
| `Cleaning.DropIncompleteIsOneFilter` | explorefuncs.py:60-62 | The three successive filters are one filter on the conjunction, order preserved |
| `Cleaning.KeptRowsIsOneFilter` | explorefuncs.py:55-62 | The rows that survive cleaning are exactly the complete input rows on dates within the threshold, in input order |
| `Cleaning.KeptRowsIdempotent` | explorefuncs.py:55-62 | Cleaning the surviving rows again removes nothing |
| `Cleaning.CalculatedSeconds` | explorefuncs.py:67 | The calculated seconds exist exactly when both instants do, lie in [0, 86400), differ from end - start by whole days, and equal end - start when that is under a day |
| `Sessions.CalculatedHours` | explorefuncs.py:67 | Calculated Hours lies in [0, 24) and is the calculated seconds over 3600 |
| `Sessions.CalculatedHoursExamples` | explorefuncs.py:65-67 | 9:00 AM to 5:00 PM gives 8 hours; an end one hour before the start wraps to 23 hours |
| `Cleaning.DerivedEndsPropagate` | explorefuncs.py:66-67 | For cleaned rows, End and Calculated Hours are null exactly when End Date or End Time is null: NaN propagates and nothing else makes them null |
| `Cleaning.Finish` | explorefuncs.py:50-67 | The derived columns are added to every kept row exactly when every date and timestamp is readable and End Date holds text; the rows themselves are unchanged. A timestamp failure is the first unreadable start in row order, or, when every start parses, the first unreadable end; when every start parses and End Date holds no text, it fails with the type error |
| `Cleaning.Clean` | explorefuncs.py:19-69 | Succeeds exactly when the columns exist, every date has a weekday, the export has a row, every kept timestamp parses and some row fills End Date, failing with a column error, then a date error, then the empty-export error, then a timestamp or End Date type error, by the first step that raises; on success its rows are the kept rows, each complete, with a start instant and the derived values of its row, End and Calculated Hours being null exactly when End Date or End Time is |
| `Cleaning.CleanRows` | explorefuncs.py:50-67 | After the projection: fails with the error of the first date, in row order, that has no weekday; then fails when there is no row, the bulk-date mask then selecting no column; then with the first unreadable start timestamp of a kept row, then the first unreadable end timestamp, or the type error of an End Date column no row fills; otherwise gives exactly the kept rows with their derived columns |
| `Cleaning.CleanKeepsExactly` | explorefuncs.py:55-62 | A row is in the cleaned table exactly when it is a complete input row on a date within the threshold |
| `Cleaning.CleanIsSubsequence` | explorefuncs.py:57-62 | Cleaning only deletes rows: the cleaned rows appear in the projected input, unchanged and in the same order |
| `Sessions.ReplacedHoursAsWritten` | explorefuncs.py:81-83 | For a row within 24 hours, the replacement as written is null exactly when Calculated Hours is null |
| `Sessions.SessionLength` | explorefuncs.py:81-83 | A zero Hours is replaced by Calculated Hours, any other Hours within 24 is kept unchanged, and the result is at most 24 |
| `Sessions.AsWrittenAgreesWithCalculatedHours` | explorefuncs.py:82-83 | Whenever Calculated Hours is present, the replacement as written equals the intended session length |
| `Sessions.AsWrittenLosesSessionWithoutEnd` | explorefuncs.py:83 | A 1-hour session with no end date is null as written but 1 hour as intended |
| `Sessions.SessionSample` | explorefuncs.py:78-85 | The binned values as written: with `raw`, exactly the present Hours values; otherwise exactly the non-null values of the replacement as written over the rows with Hours at most 24; each value occurs as many times as there are rows contributing it |
| `Sessions.IntendedSessionSample` | explorefuncs.py:74-83 | The sample the docstring describes: exactly the session lengths of the rows with Hours at most 24, all at most 24, each occurring as many times as there are rows of that length |
| `Sessions.SamplesAgree` | explorefuncs.py:81-83 | When every row with Hours at most 24 has its Calculated Hours, the sample as written and the intended sample are the same sequence |
| `PyText.ParseIntText` | explorefuncs.py:104 | `int()` reads back the decimal text of any integer |
| `PyText.ParseIntDigits` | explorefuncs.py:104 | `int()` of a non-empty run of ASCII digits is their decimal value |
| `Heatmap.FloorHour` | explorefuncs.py:101-109 | `floor_hour` gives an hour in 0..23 or raises |
| `Heatmap.MilitaryHour` | explorefuncs.py:102 | The 24-hour reading of a 12-hour clock: PM exactly for hours 12 and up, same hour modulo 12 |
| `Heatmap.FloorHourOfClockText` | explorefuncs.py:101-109 | For every "H:MM AM/PM" or "HH:MM AM/PM" text with H in 1..12, `floor_hour` gives the 24-hour hour: 12 AM is 0, 12 PM is 12, other PM hours gain 12 |
| `Heatmap.Bucket` | explorefuncs.py:111 | The slot of hour h is a multiple of 4 with slot <= h < slot + 4, one of 0, 4, 8, 12, 16, 20 for h in 0..23 |
| `Heatmap.TimeOfDay` | explorefuncs.py:111 | A row has a slot exactly when its start time is present and `floor_hour` reads it; the slot holds that hour |
| `Heatmap.WeeklyAverages` | explorefuncs.py:111-113 | Succeeds exactly when every start time is readable and every weekday has a row, otherwise naming exactly the absent weekdays; on success a 6 x 7 table, Sunday first, each cell times 52 being the count of User IDs of that weekday and slot |
| `Heatmap.EveryArrivalInOneCell` | explorefuncs.py:112 | The table's counts add up to the number of rows with a User ID: each is counted in exactly one cell |
| `Participation.MonthOf` | explorefuncs.py:144-146 | The month read from a date's prefix is in 1..12, or reading it raises |
| `Participation.MonthOfDateText` | explorefuncs.py:144 | The month of an "M/..." or "MM/..." date is M |
| `Participation.DistinctDates` | explorefuncs.py:142 | The groups of the per-date count: each non-null start date once, and nothing else |
| `Participation.MonthsAddUp` | explorefuncs.py:161 | When every date has a month in 1..12, the twelve month totals add up to the sum of the daily counts |
| `Participation.YearTotal` | explorefuncs.py:161 | The sum of the month totals is the sum of the daily counts |
| `Participation.DatesAddUp` | explorefuncs.py:142 | The daily counts of the distinct dates add up to the number of dated rows with a User ID |
| `Participation.YearAverage` | explorefuncs.py:161 | Succeeds exactly when every date's month is readable, otherwise naming an unreadable date; the value is NaN exactly when there are no dates (0 / 0), and otherwise the number of dated rows with a User ID over the number of distinct dates |

## Left out

- `read_file` (explorefuncs.py:16-17): CSV loading is library I/O. A table is given as a
  header and a sequence of typed rows.
- Every figure, its layout and `write_html` (explorefuncs.py:85-94, 114-122, 156-169,
  186-193): rendering and file output. That includes the 24-bin histogram binning:
  `Sessions.SessionSample` stops at the values binned.
- `locationPlot` (explorefuncs.py:172-193): it fetches GeoJSON over the network
  (`urlopen`) and takes `np.log` of zip counts in floating point.
- Date parsing by `pd.Timestamp` and `pd.to_datetime` (explorefuncs.py:50, 65-66, 143):
  the `Clock` parameter stands for it, and the model does not look inside it.
- The `Day` column and the sort by month and day (explorefuncs.py:143, 145): they only
  order the plotted points and feed no value the model states.
- Participation.YearAverage: does not model the day parse `pd.to_datetime(s).day`
  (explorefuncs.py:143), which runs before the month is read and raises on a date it
  cannot parse; its success condition mentions only the months.
- Cleaning.Clean: `pd.to_datetime` (explorefuncs.py:65-66) parses the whole column at
  once and can infer one format from the first value, then raise on a row that does not
  match it. The `Clock` reads each "date time" text on its own, so whether cleaning fails
  cannot depend on other rows here.
- Cleaning.CleanRows: of the column types `read_csv` infers from the whole file, the model
  tracks only whether End Date holds text. Other columns are taken to hold text
  whenever they hold a value, as they do in the export.
- Cell values are reals. The floating-point rounding of `t.seconds / 3600` and of the
  division by 52 is not modelled.
- `PyText.ParseInt` models `int()` on text made of ASCII whitespace, an optional sign
  and ASCII digits; whitespace is space and tab through carriage return. Underscores
  between digits, non-ASCII digits and spaces, and the separators U+001C to U+001F in
  text that also holds a non-ASCII character, which Python also accepts, read as errors
  here.
- The order of columns in the cleaned table, and the extra `Date`/`Time` columns between
  their copy (explorefuncs.py:38-41) and their removal (explorefuncs.py:51), carry no
  values the model states.
- `Heatmap.WeeklyAverages`: when a slot has no rows on any weekday, the source's table
  lacks that row; the model still gives it, with zero counts. Its contract states the
  six slots and the counts, not the row-less shape.
- `explore.py`: it checks the argument count and calls the functions in order; there is
  no logic beyond plumbing.

## Findings

| source | as written | input that shows it | evidently intended | confidence | as-written member | corrected member |
|---|---|---|---|---|---|---|
| explorefuncs.py:83 | `Hours + Calculated Hours * (Hours == 0)` is NaN whenever Calculated Hours is NaN, even when Hours is not zero | a row with Hours = 1 and no End Date | the row contributes its Hours (1), as the docstring says only zero-hour sessions are replaced | not executed | `Sessions.ReplacedHoursAsWritten` and `Sessions.SessionSample`, with the counterexample `Sessions.AsWrittenLosesSessionWithoutEnd` | `Sessions.SessionLength` and `Sessions.IntendedSessionSample` |
