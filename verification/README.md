# COVID globe: temporal aggregation engine

A Dafny model of the data core of the COVID-19 globe visualisation
(`src/index.js`). The program loads a CSV file of confirmed-case reports, one
row per (place, date). It keeps the rows it can parse, turns the distinct
report dates into a sorted date axis, sums the reports per date and per rounded
coordinate key, and registers every location the first time it is seen. It then
builds two dense series per location:

- a cumulative series: a report replaces the running value, and a date with no
  report carries the previous value forward;
- a daily series: the increase over the previous date, clamped at 0.

For the date being shown, it projects one of the two series onto a
per-location value array, totals the positive values per country, and ranks
the countries. A timer can step through the dates cyclically; play, stop,
speed, mode and Top N controls drive it.

Modules, in the order the data flows:

| file | module | what it holds |
|---|---|---|
| `wrappers.dfy` | `Wrappers` | `Option` |
| `ingest.dfy` | `Ingest` | `split`/`join`, `trim`, JS `Number` and `parseInt(x) \|\| 0` on decimal strings, `parseCsvDate`, the row filter and the ingestion loop |
| `date_index.dfy` | `DateIndex` | the sorted distinct timestamps and the timestamp → index map |
| `aggregate.dfy` | `Aggregate` | raw per-date sums per location key, and the location registry |
| `temporal.dfy` | `Temporal` | `buildCumulativeAndDaily` and what the two series mean |
| `query.dfy` | `Query` | the dense projection, `computeCountryStats`, and the Top-N stable sort and slice |
| `engine.dfy` | `Engine` | the global state as a class: load, `updateForDate`, the timer tick, play/stop/restart and the GUI handlers |

Some things the model takes as parameters instead of modelling them:

- Coordinates: `parseFloat` of the latitude and longitude, the `isNaN` test and
  the `toFixed(4)` key are one parameter, `locate: (string, string) -> Option<LocKey>`.
- Dates: the `Date` constructor followed by `getTime()` is a parameter,
  `stamp: CsvDate -> int`.
- The timer: a timer is the handle the caller supplies, together with the
  period it was started with. `Engine.Engine.Tick` is the callback the caller
  runs when an active timer fires.

The model follows what the code does, including these behaviours:

- Reports can be negative. `parseInt("-5") || 0` is `-5`, which is truthy, so
  counts are `int`, not a non-negative count. Consequences:
  - cumulative values are negative wherever the last report is;
  - `Temporal.CarryNonNegative` shows that non-negative reports give
    non-negative cumulative values;
  - the daily series is never negative in any case (`Temporal.Max0`).
- `updateForDate` clamps an out-of-range index to the nearest valid one; it
  does not reject it. `Engine.Clamp` models the clamp.
- With no dates at all, `updateForDate` returns without touching anything.
  `Engine.Engine.UpdateForDate` returns `None` and leaves the state unchanged.
- Several reports for the same location key on the same date are added
  together (`(map.get(key) || 0) + r.confirmed`).

## Model

| member | source | states |
|---|---|---|
| Ingest.Split | src/index.js:138 | `split` yields one more part than there are separators, and no part contains the separator |
| Ingest.JoinSplit | src/index.js:138 | joining the parts of a split with the separator gives back the original string |
| Ingest.SplitJoin | src/index.js:138 | splitting a join of separator-free parts gives back exactly those parts |
| Ingest.SplitNoSeparatorPrefix | src/index.js:138 | a separator-free prefix joins onto the first part of the split of what follows, and the other parts are unchanged |
| Ingest.JoinConsHead | src/index.js:138 | a character prepended to the first part is prepended to the joined string |
| Ingest.Trim | src/index.js:129-131 | `trim()` returns a slice of the line with only white space outside it, and the slice has no white space at either end (which fixes it uniquely) |
| Ingest.TrimWithin | src/index.js:129-131 | trimming never introduces a character the line did not have |
| Ingest.TrimStartShape | src/index.js:129-131 | stripping leading white space removes a prefix made only of white space, and what is left does not start with white space |
| Ingest.TrimEndShape | src/index.js:129-131 | stripping trailing white space removes a suffix made only of white space, and what is left does not end with white space |
| Ingest.TrimTrimmed | src/index.js:129-131 | trimming a string without white space at its ends changes nothing |
| Ingest.NonBlank | src/index.js:129-134 | there is one kept line per piece that is not blank once trimmed, and each kept line is non-empty and trimmed |
| Ingest.NonBlankAt | src/index.js:129-134 | each piece that is not blank once trimmed appears, trimmed, at the position counted by the non-blank pieces before it: nothing is reordered and nothing else dropped |
| Ingest.NonBlankNoSeparator | src/index.js:129-134 | filtering the pieces of a split never brings the separator back into a kept line |
| Ingest.NonBlankKeeps | src/index.js:129-134 | lines that are already non-empty and trimmed all survive the filter, unchanged and in order |
| Ingest.CsvLines | src/index.js:127-134 | one line per newline-separated piece that is not blank once trimmed, holding that piece trimmed, in file order; every line is non-empty, trimmed and free of newlines (so `\r\n` endings and blank lines are dropped) |
| Ingest.CsvLinesJoin | src/index.js:127-134 | writing non-blank trimmed lines one per row and reading them back yields the same lines in the same order |
| Ingest.Decimal | src/index.js:104 | a rendering helper with no counterpart in the code, used to state the `Number` and `parseInt` round trips: the decimal rendering of a natural number is a non-empty digit string |
| Ingest.ToNumber | src/index.js:104 | `Number` of a date part is 0 for the empty part; a finite result has digits after its first character, is negative only with a leading minus, and is non-negative for a digit string |
| Ingest.DecimalValue | src/index.js:104 | reading the digits of a rendered number gives the number back |
| Ingest.ToNumberDecimal | src/index.js:104 | `Number` of a rendered natural number is that number |
| Ingest.ToNumberSigned | src/index.js:104 | `Number` of a minus sign and a rendered number is its negation; with a plus sign it is the number |
| Ingest.LeadingZerosValue | src/index.js:104 | leading zeros do not change the value of a digit string |
| Ingest.ZerosValue | src/index.js:104 | a string of zeros has the value 0 |
| Ingest.ToNumberLeadingZeros | src/index.js:104 | `Number` ignores leading zeros, so "01" and "1" are the same month or day |
| Ingest.ToNumberNaN | src/index.js:104 | a non-empty part that is not an optional sign followed by one or more digits is `NaN` (see "## Left out" for the forms JS reads otherwise) |
| Ingest.LeadingDigitsOf | src/index.js:144 | `parseInt` reads exactly the digit prefix when a non-digit (or nothing) follows it |
| Ingest.ParseIntOrZero | src/index.js:144 | `parseInt(x) \|\| 0` is 0 for a blank field, and negative only when the field starts (after white space) with a minus followed by more text |
| Ingest.ParseIntOrZeroDigits | src/index.js:144 | `parseInt(x) \|\| 0` of a digit prefix followed by a non-digit is the prefix's value |
| Ingest.ParseIntOrZeroNegative | src/index.js:144 | with a leading minus, `parseInt(x) \|\| 0` gives the negated value of the digit prefix, so negative counts get through |
| Ingest.ParseIntOrZeroDecimal | src/index.js:144 | `parseInt(x) \|\| 0` of a rendered count reads the count back, with or without a leading minus, whatever non-digit follows |
| Ingest.ParseIntOrZeroNoNumber | src/index.js:144 | an empty field, one whose first character is not a digit, white space or a sign, and a sign followed by nothing or by a non-digit (such as "-") all count as 0 |
| Ingest.ParseIntOrZeroSpace | src/index.js:144 | white space before the number is skipped: it never changes the count |
| Ingest.TrimStartSkips | src/index.js:144 | removing leading white space ignores any white space put in front of a string |
| Ingest.ParseIntOrZeroPlus | src/index.js:144 | a leading plus sign reads like no sign |
| Ingest.ParseCsvDate | src/index.js:102-111 | a date field is rejected exactly when it is empty or has fewer than two slashes |
| Ingest.WidenYear | src/index.js:109 | the year stays NaN or finite as it was; every finite year below 100 becomes 2000 + year (so -5 becomes 1995), and a year from 100 up is kept |
| Ingest.ParseCsvDateFormat | src/index.js:102-111 | parsing `M/D/Y` gives back month, day and year, with a year below 100 read as 2000 + year |
| Ingest.ParseRowMeaning | src/index.js:137-154 | a row is kept exactly when it has at least 7 fields, its date parses and its coordinates are accepted; the record's country is field 2, its key the located coordinates of fields 3 and 4, its timestamp the stamp of the parsed field 5, and its count `parseInt(field 6) \|\| 0` |
| Ingest.IngestRows | src/index.js:136-155 | the loop yields the parsed records of lines 1 onward, in line order |
| Ingest.KeptRecordsSound | src/index.js:136-155 | every record comes from a data line (never the header) that parses to it |
| Ingest.KeptRecordsComplete | src/index.js:136-155 | every data line that parses contributes its record |
| Ingest.KeptRecordsLength | src/index.js:136-155 | there are at most as many records as data lines |
| Ingest.HeaderIgnored | src/index.js:137 | the first line is never parsed, whatever it holds |
| DateIndex.InsertAscending | src/index.js:161-163 | inserting a new timestamp into an ascending list keeps it strictly ascending and adds exactly that element |
| DateIndex.AboveHead | src/index.js:161-163 | a new timestamp above the head of an ascending list, together with the rest of that list, holds only elements larger than the head |
| DateIndex.SortAscending | src/index.js:161-163 | sorting distinct timestamps with `a - b` gives a strictly ascending permutation |
| DateIndex.SortedUnique | src/index.js:157-163 | two strictly ascending lists with the same elements are equal, so the date axis is determined by the set of timestamps |
| DateIndex.DistinctStamps | src/index.js:157-161 | the timestamp set holds each record's timestamp once, and nothing else |
| DateIndex.IndexPositions | src/index.js:164-166 | `dateIndexMap` sends each date to its position, and every entry points back to its date |
| DateIndex.BuildDateIndex | src/index.js:157-166 | the date axis is strictly ascending and holds exactly the records' timestamps; the map is its inverse and covers every record |
| Aggregate.AggregateRecords | src/index.js:168-193 | each date's raw map holds exactly the keys reported on that date, each with the sum of its reports; the locations are the distinct keys in first-seen order, and `locKeyToIndex` is their inverse |
| Aggregate.AddRecord | src/index.js:172-192 | one record adds its count to its date's map and registers its key if new, keeping the loader's state tied to the records seen so far |
| Aggregate.RawSumsStep | src/index.js:179-181 | adding a record's count to its date's map keeps every cell equal to the sum of the records seen |
| Aggregate.AddCount | src/index.js:181 | adding a report creates or updates only its own key: that key's sum grows by the count (from 0 when absent) and every other key keeps its sum |
| Aggregate.RegistryStep | src/index.js:183-192 | the key is in `locKeyToIndex` exactly when it is registered, and a new key is appended to the locations with the next index |
| Aggregate.IndexExtends | src/index.js:184-186 | giving a new key the next index keeps `locKeyToIndex` the inverse of the locations |
| Aggregate.LoadedStep | src/index.js:172-192 | one loop step keeps the raw sums, the registry and its index tied to the records seen so far |
| Aggregate.LocationKeysOfIndex | src/index.js:217 | the keys `locKeyToIndex` yields are exactly the registered keys, key number `i` mapping to index `i` |
| Aggregate.ReportSumAppend | src/index.js:181 | a report adds its count to its (date, key) cell and leaves every other cell alone |
| Aggregate.ReportSumUnreported | src/index.js:181 | a cell with no report sums to 0 |
| Aggregate.RegisteredDistinct | src/index.js:183-192 | no location key is registered twice |
| Aggregate.RegisteredCovers | src/index.js:183-192 | a key is registered exactly when some record has it |
| Aggregate.RegisteredPrefix | src/index.js:183-192 | later records never change or reorder the locations already registered |
| Aggregate.RegisteredFirstSighting | src/index.js:183-192 | a location's index is the number of keys seen before its first record, and its country is that first record's country |
| Temporal.ScanLocation | src/index.js:218-239 | one location's scan writes, on every date, its carried cumulative value and its clamped increase, and changes no other key |
| Temporal.BuiltStep | src/index.js:218-239 | scanning one more location extends the built series to that location's key |
| Temporal.BuiltRecurrence | src/index.js:224-235 | the built series follow the loop's recurrence: a report replaces, otherwise the previous date's value carries over, and daily is the clamped difference |
| Temporal.Max0 | src/index.js:234-235 | the daily increase is the larger of 0 and the raw difference: never negative, never below the difference, and equal to one of them |
| Temporal.BuildCumulativeAndDaily | src/index.js:209-241 | every date has an entry for exactly the registered keys; a report replaces the running value, a missing report carries the previous date's value (0 before the first date), and daily is the increase clamped at 0 |
| Temporal.CarryIsLastReport | src/index.js:224-231 | the cumulative value is the location's most recent report on or before that date |
| Temporal.CarryBeforeFirstReport | src/index.js:220-229 | before a location's first report its cumulative value is 0 |
| Temporal.CarryNonNegative | src/index.js:224-231 | non-negative reports give non-negative cumulative values |
| Temporal.DailyTotalAtLeastCumulative | src/index.js:234-235 | clamping never loses increases: the daily values up to a date sum to at least the cumulative value |
| Temporal.DailyTotalExact | src/index.js:234-235 | when the cumulative series never decreases, the daily values sum exactly to the cumulative value |
| Temporal.ScenarioCarryForward | src/index.js:224-237 | reports 100, none, 150 give cumulative 100, 100, 150 and daily 100, 0, 50 |
| Temporal.ScenarioCorrection | src/index.js:224-237 | reports 100 then 80 give cumulative 100, 80 and daily 100, 0; the daily sum exceeds the final cumulative value |
| Query.ProjectValues | src/index.js:276-280 | the value array has one slot per location, holding the map's value for its key, or 0 when the map has none |
| Query.Label | src/index.js:303 | a location's country label is the country itself when that is non-empty and "Unknown" when it is empty |
| Query.FindCountry | src/index.js:304 | the lookup returns -1 exactly when the country has no entry, and otherwise an entry for that country |
| Query.ComputeCountryStats | src/index.js:298-307 | the loop computes `CountryStats`: each label that has a positive value, in the order it first got one, with the sum of its positive values |
| Query.PositiveLabelsMember | src/index.js:301-305 | a label is listed exactly when one of its locations has a positive value |
| Query.PositiveLabelsDistinct | src/index.js:301-305 | no label is listed twice |
| Query.PositiveLabelsOrder | src/index.js:301-305 | labels are listed in increasing order of their first positive location |
| Query.PositiveSumSign | src/index.js:302-305 | a label's total is never negative, and is positive exactly when it has a positive value |
| Query.FirstPositiveAtMost | src/index.js:302-305 | a label's first positive location comes no later than any of its positive locations |
| Query.NotCountedBefore | src/index.js:302-305 | no location before a label's first positive location gives it a positive value |
| Query.FirstPositiveCounts | src/index.js:302-305 | a label's first positive location, when there is one, has that label and a positive value |
| Query.CountryStatsSkip | src/index.js:302 | a location whose value is not positive leaves the statistics unchanged |
| Query.FindCountryListed | src/index.js:304 | the `Map` lookup finds exactly the listed labels, at their listed position |
| Query.CountryStatsNew | src/index.js:304-305 | a positive value for a label not yet listed appends an entry holding that value |
| Query.CountryStatsAdd | src/index.js:304-305 | a positive value for a listed label adds to that entry and changes no other |
| Query.CountryStatsTotals | src/index.js:298-307 | each country appears once, and its total is the sum of its positive values and is positive |
| Query.CountryStatsCoverage | src/index.js:298-307 | every label with a positive value has an entry, and the entries stand in first-seen order |
| Query.CountryStatsEmpty | src/index.js:298-307 | there are no entries exactly when no value is positive |
| Query.InsertByTotal | src/index.js:330-332 | inserting into a list sorted by descending total keeps it sorted and adds exactly that entry |
| Query.InsertByTotalStable | src/index.js:330-332 | the inserted entry goes before existing entries with an equal total |
| Query.SortByTotal | src/index.js:330-332 | the sort is a permutation ordered by descending total |
| Query.SortByTotalStable | src/index.js:330-332 | entries with equal totals keep their original relative order |
| Query.TopCountries | src/index.js:329-333 | the ranking has `min(topN, count)` entries, taken from the statistics, in descending order of total |
| Query.TopCountriesDominates | src/index.js:329-333 | every country left out of the ranking has a total no larger than every country in it |
| Query.TopCountriesStable | src/index.js:329-333 | among equal totals the ranking keeps the leading countries, in first-seen order |
| Engine.Clamp | src/index.js:269 | the clamped index is a valid date index; it is the index itself when valid, 0 below the range and the last index above it |
| Engine.NextIndex | src/index.js:419-422 | the timer's step moves to the next date, and to 0 after the last |
| Engine.AdvanceLap | src/index.js:418-424 | within one lap, k ticks from index i land on i + k, wrapped once past the last date |
| Engine.PlaybackCycles | src/index.js:418-424 | as many ticks as there are dates bring playback back to the date it started from |
| Engine.PlaybackVisitsAll | src/index.js:418-424 | every date is shown within one lap, from any starting date |
| Engine.SeriesAt | src/index.js:276-280 | every registered location has an entry in both series on every date, holding its cumulative or daily value |
| Engine.ProjectedSeries | src/index.js:276-280 | projecting the chosen series puts each location's cumulative or daily value on that date in its slot |
| Engine.Engine.Load | src/index.js:124-207 | loading yields the ingested records and a consistent state: date axis, raw sums, locations and both series tied to the records; date index 0, not playing, speed 400 ms, daily mode, top 10 |
| Engine.Engine.RenderFrame | src/index.js:276-333 | the frame holds, for the given date and mode, each location's value, the country totals computed from them, and `TopCountries` of those totals |
| Engine.Engine.UpdateForDate | src/index.js:266-296 | with no dates nothing changes; otherwise the clamped index becomes current, and the frame holds each location's cumulative or daily value on that date, the country totals, and `TopCountries` of them; nothing else changes |
| Engine.Engine.Tick | src/index.js:418-424 | a tick moves the current index one date forward, wrapping to 0, and the frame shows that date in the current mode and ranking length; the data, the timer and every setting stay as they were |
| Engine.Engine.StartPlay | src/index.js:415-425 | with a timer already active nothing changes; otherwise playback is on with a new timer at the current speed |
| Engine.Engine.StopPlay | src/index.js:427-433 | playback is off, no timer is active, and the timer cleared is the one that was active, if any |
| Engine.Engine.RestartPlay | src/index.js:435-438 | the active timer is cleared and a new one runs at the current speed, with the current date index unchanged |
| Engine.Engine.SetPlaying | src/index.js:362-365 | the play toggle starts or stops playback as asked; the data, the date index, the speed, the mode and the ranking length stay as they were |
| Engine.Engine.SetSpeed | src/index.js:368-375 | the new speed is stored; while playing, the timer restarts at that speed; the data, the date index, the mode and the ranking length stay as they were |
| Engine.Engine.SelectDate | src/index.js:355-357 | with dates, the clamped slider position becomes current and the frame shows that date; without dates nothing is drawn; the data, the timer and every setting stay as they were |
| Engine.Engine.SetCumulative | src/index.js:378-383 | the mode changes and, when there are dates, the frame shows the current date in the new mode; the data, the date index, the timer, the speed and the ranking length stay as they were |
| Engine.Engine.SetTopN | src/index.js:393-399 | the ranking length changes and, when there are dates, the frame shows the current date with `min(n, count)` ranked countries; the data, the date index, the timer, the speed and the mode stay as they were |

Every state-changing `Engine.Engine` method also keeps `Valid()`. The
invariant says:

- the date axis is strictly ascending and `dateIndexMap` is its inverse;
- the raw sums, the locations and both series are the ones the ingested
  records determine;
- the current index is a valid date index, or 0 with no dates;
- playback is on exactly when a timer is active, and the active timer's
  period is the current speed.

## Left out

- Load: the constructor does not return the first frame that `loadCSV` draws at its end (`updateForDate(0)` and the ranking update). That frame is the caller's `UpdateForDate(0)` on the loaded state: it leaves every field as `Load` set it and returns the frame showing date 0 (`None` when there are no dates).
- The HTTP `fetch` of the CSV file is left out, along with its failure. `Engine.Engine.Load` takes the file's text as a parameter.
- `parseFloat` of the coordinates, the `isNaN` test and the `toFixed(4)` rounding are left out. Together they are the `locate` parameter. Two coordinates that round to the same key are one location.
- The `Date` constructor and `getTime()` are the `stamp` parameter. An `Invalid Date` (for example from a non-numeric month) is truthy and passes the row filter with a `NaN` timestamp; the model gives every parsed date an integer timestamp, so `NaN` on the date axis is not modelled.
- `Ingest.ToNumber` models JS `Number` only for the empty string and for an optional sign followed by decimal digits. Every other string, including one with surrounding white space, a fraction, an exponent or a hex prefix, is read as `NaN`.
- `Ingest.ParseIntOrZero` models `parseInt` with leading white space, an optional sign and a decimal digit prefix. The `0x` hex prefix is not modelled.
- `latLonToVector3` and every use of the position (`pos`) are left out. So is the three.js scene: instanced mesh, dot scale `cbrt(v + 1) * baseDotSize`, camera, renderer and resize handling. They only draw.
- The `Float32Array` storage of the values is not modelled: values stay exact integers. Float32 rounding matters only for counts above 2^24.
- The HTML of the ranking panel and the `updateGuiDateControllerValue` date label (`toLocaleDateString`) are left out. They are display only.
- The `baseDotSize` control and the "reset view" button are left out. They only affect drawing; the control's redraw is the same `updateForDate` call that `Engine.Engine.SetCumulative` models.
- `settings.dateIndex` is not a separate field. Every path that sets it also sets `currentDateIndex` to the same value, so `currentDateIndex` stands for both.
- The real timer is left out, and so is concurrency between it and the controls. Handles come from the caller, and `Tick` runs only while a timer is active.
