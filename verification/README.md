# Drone flight dashboard: loading and aggregation, modelled in Dafny

The dashboard (`app.py`) takes a CSV drone-flight log and shows key metrics
and per-day and per-category tables. This project models the part of it
that computes something:

- `load_data` (lines 12-18). It normalises the column names (`strip()`,
  then every `"` removed). It parses the
  `Date (YYYY-MM-DD HH:MM:SS)` column tolerantly into `Date`, drops the rows
  whose timestamp did not parse, and derives
  `Duration (minutes)` = `Duration (seconds)` / 60.
- The four key metrics (lines 43-49). These are the number of flights, the
  total flight hours, the mean duration, and the integer part of the maximum
  altitude.
- The two per-day tables (lines 56 and 63). One gives the flights per
  calendar date. The other gives the minutes flown per calendar date.
- The three breakdowns: flights per pilot (79-81), per project (88-90) and per
  flight type (97-99). Each is computed only when its column is present.

pandas semantics are written out explicitly:

- A cell is `Blank` (NaN), a number or text. Short rows read as NaN.
- `df[name]` fails when the name is missing. It also fails when several
  columns carry the name: pandas then yields a frame on which every later
  use raises.
- `sum`, `mean`, `max` and `value_counts` skip NaN. A `sum` over nothing is
  0, while `mean` and `max` are NaN.
- Dividing a text cell by 60 raises.
- `int()` truncates toward zero.
- `groupby` sorts its keys and makes no group for a date with no flights.

The timestamp parser is a parameter of the model: it maps one cell to a
timestamp or to "not a timestamp". A missing cell is always "not a
timestamp".

Modules:

- `Groups`: generic group-by. Its partition lemmas show that the group sizes
  and group sums of distinct keys add up to the whole.
- `Records`: cells, tables, flights and column lookup.
- `Header`: line 14.
- `Loader`: lines 15-17.
- `Metrics`: lines 43-49.
- `Daily`: lines 56 and 63.
- `Categories`: lines 79-99.
- `Example`: a worked three-row file.

Four behaviours of the code are easy to miss. The model follows the code
in each:

- Header normalisation strips whitespace first and removes quotes afterwards.
  Whitespace that was inside quotes therefore stays: `"\" Wind\""` becomes
  `" Wind"` (`Header.ExposedSpaceKept`).
- Of the modelled sections, only the three breakdowns are guarded by a check
  that their column is present. Line 49 raises when the altitude column is
  absent (`Metrics.PeakAltitude`).
- `read_csv` renames a repeated header name, but two different names can
  still become equal at line 14: `Pilot in Command Email` and
  `"Pilot in Command Email"` both normalise to the first
  (`Header.QuotedNameCollides`). `df[name]` then yields several columns.
  For the timestamp this stops the load. For the seconds, line 17 divides
  all copies before it assigns, so text in any copy raises first
  (`Example.ExampleDuplicateSeconds`). For a breakdown column the section
  raises (`Example.ExampleDuplicatePilot`).
- A missing seconds cell gives a missing minutes value
  (`Loader.MinutesFromSeconds`). Such a flight is kept, and the sums and the
  mean skip it.

Some functions are only vocabulary for the contracts below, so they have no
row of their own. `Metrics.AltitudeCells` is the altitude column flight by
flight, `Daily.Dates` the date of every flight, and `Groups.KeysOf` the key
column of a grouped table.

## Model

| member | source | states |
|---|---|---|
| Header.StripLeading | app.py:14 | the result is a suffix of the name, everything removed is whitespace, and the result does not start with whitespace |
| Header.StripTrailing | app.py:14 | the result is a prefix of the name, everything removed is whitespace, and the result does not end with whitespace |
| Header.Strip | app.py:14 | `strip()` never lengthens a name, adds no character, and leaves a result that is empty or neither starts nor ends with whitespace; StripCharacterised pins it exactly |
| Header.StripCharacterised | app.py:14 | `strip()` keeps exactly the part between a whitespace-only prefix and a whitespace-only suffix, ending in non-whitespace on both sides; for an all-whitespace name it keeps nothing |
| Header.RemoveQuotes | app.py:14 | the result has no `"` and is no longer than the name |
| Header.RemoveQuotesKeepsOthers | app.py:14 | quote removal drops the quotes and nothing else: every other character occurs as often as in the name |
| Header.RemoveQuotesAppend | app.py:14 | quote removal distributes over concatenation |
| Header.RemoveQuotesKeepsUnquoted | app.py:14 | quote removal leaves a name without quotes unchanged |
| Header.RemoveQuotesAround | app.py:14 | quotes around a quote-free name simply disappear |
| Header.NormaliseName | app.py:14 | a normalised name contains no `"` and is no longer than the original |
| Header.NormaliseHeader | app.py:14 | the header keeps its length and order, each position holds the normalisation of the name at that position, and no column name contains `"` |
| Header.NormaliseHeaderAppend | app.py:14 | normalisation works name by name, so normalising two header parts one after the other gives the normalised whole |
| Header.ExposedSpaceKept | app.py:14 | a quoted name with a space inside the quotes keeps that space, so normalising once is not the same as normalising twice |
| Header.NormalisedNameFixed | app.py:14 | a quote-free name without whitespace at its ends is its own normal form |
| Header.QuotedNameCollides | app.py:14 | a quote-free name in quotes normalises to the bare name, and so does the bare name when it has no whitespace at its ends, so the two become one name |
| Records.FirstIndex | app.py:15 | the position found holds the name, and no earlier position does |
| Records.ColumnIndex | app.py:15 | a lookup succeeds iff the name occurs exactly once, and then it gives that column's position; it reports a missing name iff the name does not occur, and a duplicated name iff it occurs more than once |
| Loader.ParseCell | app.py:15 | `to_datetime(..., errors='coerce')` on one cell: a missing cell is NaT, any other cell is what the date parser makes of it |
| Loader.Unparsed | app.py:16 | the number of rows whose timestamp does not parse is at most the number of rows |
| Loader.DropUnparsed | app.py:15-16 | rows kept plus rows whose timestamp does not parse give all rows; every kept row is an input row, and its stamp is what its timestamp cell parses to; every row whose timestamp parses is kept, with that stamp |
| Loader.DropUnparsedAppend | app.py:16 | filtering a concatenation concatenates the filtered parts, so the kept rows stay in their original order |
| Loader.DropUnparsedOne | app.py:15-16 | a single row is kept, with its parsed stamp, iff its timestamp parses |
| Loader.AddMinutes | app.py:17 | it fails iff a kept row has text as its seconds; otherwise each flight keeps its row's cells and stamp, and its minutes are defined iff its seconds are a number, and then equal seconds / 60 |
| Loader.TextInOnlyColumn | app.py:17 | when a name occurs once, text under that name is exactly text in the one column the lookup finds |
| Loader.LoadRows | app.py:15-17 | the load succeeds iff the timestamp and seconds columns each occur once and no kept row has text in a seconds column. A missing or duplicated timestamp column is reported first. Then text in any column named as the seconds is reported, since line 17 divides every such column before assigning. Only then is a missing or duplicated seconds column reported. On success the columns are kept |
| Loader.Load | app.py:12-18 | the file loads iff its normalised header has the timestamp and seconds columns once each and no kept row has text as its seconds; on success the columns are the header normalised name by name, in order and without quotes, the flights are the rows whose timestamp parses, in order, and each flight's minutes are its seconds / 60 |
| Loader.LoadedFlights | app.py:15-17 | after LoadRows succeeds on a normalised header, both columns it reads occur once. The flights are exactly the rows whose timestamp parses, in their original order and with their cells unchanged. Flights plus dropped rows give all rows. Each flight's stamp is its parsed timestamp, and its minutes are its seconds / 60 |
| Metrics.TotalFlights | app.py:43 | Total Flights is the number of loaded flights; Daily.DailyCounts proves the daily counts add up to it |
| Metrics.TotalMinutes | app.py:45 | the sum of `Duration (minutes)` skips missing values: it is 0 when no flight has a duration, and never negative when no duration is; Daily.DailyDurations splits it into the daily totals |
| Metrics.MinutesSumBounds | app.py:45 | by induction: a NaN-skipping sum over missing values only is 0, and over non-negative values is non-negative |
| Metrics.TotalHours | app.py:45 | the total hours times 60 is the sum of the defined minutes |
| Metrics.Timed | app.py:47 | the number of flights with defined minutes is at most the number of flights, and zero iff no flight has a duration; TimedAppend and TimedOne fix it as the count of timed flights |
| Metrics.TimedAppend | app.py:47 | the count of timed flights adds up over concatenation, so it counts flight by flight |
| Metrics.TimedOne | app.py:47 | a single flight is counted iff it has a duration |
| Metrics.MeanMinutes | app.py:47 | the mean is undefined iff no flight has a duration; otherwise it times the number of timed flights is the sum of minutes, and it is never negative when no duration is |
| Metrics.Truncate | app.py:49 | `int()` rounds toward zero: the result lies within 1 of x, on the side of zero |
| Metrics.TruncateMonotone | app.py:49 | truncation keeps order, so the truncated maximum is the largest truncated value |
| Metrics.Peak | app.py:49 | the maximum is undefined iff no cell is a number; otherwise it is one of the cells and at least every number among them |
| Metrics.PeakAltitude | app.py:49 | it reports a missing or duplicated altitude column. When the column occurs once, it succeeds iff no altitude is text and some altitude is a number; text anywhere is one error and all-missing another; on success the result is some flight's altitude and at least every flight's altitude |
| Metrics.MaxAltitude | app.py:49 | it fails iff the maximum does; otherwise the result is the truncation of some flight's altitude, and no flight's truncated altitude exceeds it |
| Groups.Occurrences | app.py:15 | the count of a name is the number of times it occurs in the header: positive iff the name occurs, and at most the length |
| Groups.SecondOccurrence | app.py:15 | two different positions holding a name make it occur at least twice, so a name that occurs once is at one position only |
| Groups.Distinct | app.py:80 | the distinct values have no repeats; each is an input value, and each input value is among them |
| Groups.Group | app.py:56 | a group holds only elements with its key, every element with its key, and each such element exactly as often as the input does |
| Groups.Among | app.py:80 | the rows carrying a listed key are input rows; when every row carries one, they are all the rows |
| Groups.Sizes | app.py:56 | one row per key, in key order, holding that key's group size |
| Groups.SizesKeys | app.py:56 | a table of group sizes has exactly the keys it was built from, in that order |
| Groups.TotalsKeys | app.py:63 | a table of group sums has exactly the keys it was built from, in that order |
| Groups.Totals | app.py:63 | one row per key, in key order, holding the sum over that key's group |
| Groups.SizesPartition | app.py:56 | the group sizes of distinct keys add up to the number of rows carrying one of those keys |
| Groups.TotalsPartition | app.py:63 | the group sums of distinct keys add up to the sum over the rows carrying one of those keys |
| Groups.SizesCons | app.py:56 | one more row adds one to the total size exactly when its key is listed |
| Groups.TotalsCons | app.py:63 | one more row adds its weight to the total exactly when its key is listed |
| Daily.InsertDate | app.py:56 | inserting a date into ascending dates keeps them ascending and adds exactly that date |
| Daily.DailyKeys | app.py:56 | the day keys are ascending (hence distinct) and are exactly the dates flown |
| Daily.FlownDaysNonEmpty | app.py:56 | a day that some flight has has at least one flight in its group |
| Daily.DailyCounts | app.py:56 | the days are strictly ascending and exactly the dates flown; each count is the number of flights that day and at least one; the counts add up to the number of flights |
| Daily.DailyDurations | app.py:63 | the same days, in the same order, as the daily counts; each total is the sum of the minutes of that day's flights; the totals add up to the sum of all minutes, 60 times the total hours |
| Categories.Present | app.py:80 | the values of the column with the missing ones skipped: none is missing, each belongs to some flight, and each non-missing value of a flight is there |
| Categories.Blanks | app.py:80 | the flights with a missing value are exactly those the present values skip: with them they make up all flights |
| Categories.PresentValues | app.py:80 | the distinct values of the column have no repeats and are exactly the values present |
| Categories.PresentCounted | app.py:80 | every present value is carried by at least one flight |
| Categories.PresentPartition | app.py:80 | when the keys are exactly the present values, the flights carrying a key plus the flights with a missing value are all flights |
| Categories.AmongPresent | app.py:80 | when the keys are exactly the non-missing values, the flights carrying a key plus the flights with a missing value are all flights |
| Categories.ValueCounts | app.py:80 | the values are distinct and exactly the non-missing values of the column; each count is the exact number of flights with that value (no case folding) and at least one; the counts plus the missing values add up to the number of flights |
| Categories.CategoryCounts | app.py:79-81 | the section is skipped iff the column is absent; it raises iff the name is carried by several columns; it shows the value counts of that column iff the name occurs once |
| Categories.PilotCounts | app.py:79-81 | skipped iff there is no pilot column; raises iff several columns carry the name; shows the value counts of that column iff the name occurs once |
| Categories.ProjectCounts | app.py:88-90 | skipped iff there is no project column; raises iff several columns carry the name; shows the value counts of that column iff the name occurs once |
| Categories.FlightTypeCounts | app.py:97-99 | skipped iff there is no flight-type column; raises iff several columns carry the name; shows the value counts of that column iff the name occurs once |
| Example.ExampleColumnsFound | app.py:15 | in the example header, each column the dashboard reads is found once, at its position |
| Example.ExampleHeaderNormalised | app.py:14 | the example header's spaces after the commas are stripped |
| Example.ExampleDropped | app.py:15-16 | the example row whose timestamp does not parse is dropped and the other two keep their parsed timestamps |
| Example.ExampleMinutes | app.py:17 | 120 s and 60 s become 2 and 1 minutes |
| Example.ExampleLoads | app.py:15-17 | the example rows load to two flights of 2 and 1 minutes; the row whose timestamp does not parse is dropped |
| Example.ExampleFileLoads | app.py:12-18 | the example file, header included, loads to those two flights |
| Example.ExampleDaily | app.py:56 | two flights on one day give the single daily count 2 |
| Example.ExampleHours | app.py:45 | 120 s and 60 s make 0.05 flight hours |
| Example.ExampleAltitude | app.py:49 | altitudes 50 and 30 give a maximum altitude of 50 |
| Example.ExampleDuplicatePilot | app.py:79-81 | a file whose header carries the pilot column bare and in quotes loads, with the pilot column twice, and its pilot breakdown raises |
| Example.ExampleDuplicateDate | app.py:14-15 | a file whose header carries the timestamp column bare and in quotes stops the load with a duplicate-column error |
| Example.ExampleDuplicateSeconds | app.py:14-17 | a file whose header carries the seconds column bare and in quotes, with text in the second copy, fails on the text rather than the duplicate |

## Left out

- The page itself is not modelled: Streamlit layout and styling, the upload
  widget, `st.metric` and `st.plotly_chart`. The plotly figures are not
  modelled either.
- The weather scatter loop (lines 70-74) only draws charts, so it is not
  modelled.
- `st.cache_data` is not modelled. Every load in the model is a function of
  its input, so loading the same file twice gives the same result.
- `read_csv` is not modelled. The model starts from a header and rows of
  typed cells. Byte decoding, quoting, type inference and the
  renaming of duplicate header names (`a`, `a.1`) are not part of this model.
  Neither are structural read errors.
- `to_datetime` is replaced by the per-cell parser parameter. Its formats and
  time zones are not modelled. Neither is pandas' inference of a format
  from the first value, which makes parsing depend on other rows.
- Display rounding (`round(..., 2)`) is not modelled. Numbers are exact
  reals, not floating point, so NaN, infinities and rounding error in sums
  and means are not modelled either.
- The descending order of `value_counts` and its tie order are not
  modelled. `Categories.ValueCounts` lists values in order of first
  appearance. The counts are the same.
- Metrics.PeakAltitude: an altitude column holding text is treated as an
  error. In pandas an all-text column has a maximum string, and `int()` can
  accept that string when it spells an integer.
- A CSV column already called `Date` or `Duration (minutes)` is not
  modelled. The model keeps the derived values in their own fields, so it
  does not capture how such a column would be overwritten.
- An exception in one section stops the sections after it. The model
  computes each section on its own and does not model that ordering.
