# Earthquake data cleaning and analyst queries, modelled in Dafny

This project models the logic of a small earthquake-analysis tool in Dafny and proves properties
of that model. The tool has two parts:

- `basic_clean` (clean_data.py) normalises a table of earthquake events:
  - it turns `time` and `updated` into timestamps;
  - it coerces sixteen numeric columns and fills their missing cells with the column median, or 0
    when the column holds no number;
  - it fills twelve text columns with "unknown";
  - it derives `year`, `month` and `depth_category`.
- The dashboard (dashboard.py) does three things:
  - `load_data` re-reads the cleaned table and re-derives `country`, `year`, `month` and
    `depth_category` when they are missing;
  - it offers thirty analyst queries in a select box;
  - it runs the branch of an `if`/`elif` chain chosen by the label's prefix.

A table is a set of column names and a sequence of rows (`Frames.Table`). A row maps column names to
optional cells. A cell is a number, a text or a timestamp in epoch milliseconds. A missing cell,
NaN or NaT, is `None`. Every step returns a new table.

A query branch produces a `Queries.Outcome`, which is one of four things:

- the result it shows;
- the `st.warning` it prints when a column it checks for is absent;
- the `KeyError` pandas raises when the branch reads a column it did not check for;
- any other exception pandas raises on the way (Q26 on a table with no usable rows).

Grouped results are lists of `Summary(key, value)`. Their contracts use a few shared predicates:

- `Grouping.GroupTable`: one entry per key, each the aggregate of exactly the rows with that key,
  with no key twice.
- `Grouping.CoversGroups`: every key that occurs (and passes the branch's filter) is listed.
- `Grouping.IsRanking`: both of the above, sorted by the branch's sort column.
- `Grouping.IsTopGroups`: the first `k` entries of such a ranking. No group left out ranks ahead of
  one that is shown.
- `Sorting.IsTopK`: the same property for plain rows.
- `Queries.IsSelection`: exactly the rows a mask keeps, each projected, with none missing and none
  extra.

Modules follow the program's structure:

- `Frames`: the table, cells and column operations.
- `Sorting`, `Stats`, `Grouping`: `sort_values`, `head`/`tail`, masks, median and mean, and
  `groupby`.
- `Strings`: the place-name regex, numerals and string order.
- `Calendar`: the `.dt` accessors on a proleptic Gregorian calendar.
- `Cleaning`: `basic_clean`.
- `Loading`: `load_data`.
- `Dashboard`: the task list and the dispatch.
- `Queries`, `Summaries`, `CrossTab`, `Growth`, `Proximity`: the thirty query branches.

A few behaviours of the code are easy to misread. The model follows the code in each:

- Sort ties: `sort_values` uses pandas' default sort, which is not stable. The model promises
  nothing about tied rows.
- Missing columns: a query does not always degrade to a warning. Many branches read a column they
  never checked for, and pandas raises `KeyError`. The model returns `Raised` there.
- Failure of `basic_clean`: it raises `KeyError` without `time`, `updated` or `depth_km`, and the
  model returns an error for each.
- Shallow depths: the code tests only `d < 50`, so negative depths are shallow too.
- Growth from zero: a rise from a count of 0 divides a positive number by 0, which gives `inf`,
  and `fillna(0)` leaves `inf` alone. The model keeps it as `Growth.Infinite`.

## Model

| member | source | states |
|---|---|---|
| Cleaning.ToNumber | clean_data.py:22 | `to_numeric(errors="coerce")` on one cell: the result is a number or missing; numbers are kept, missing stays missing, a text becomes a number exactly when it is a numeral and then the number the numeral denotes, and a timestamp becomes its count of nanoseconds |
| Cleaning.ToNumberOfDecimal | clean_data.py:22 | a cell holding a decimal written with a whole part and `n` fraction digits coerces to exactly the number it denotes |
| Cleaning.ToTimestamp | clean_data.py:10-11 | `to_datetime(unit="ms", errors="coerce")`: a number becomes a timestamp with the same millisecond value when it lies in the datetime64[ns] range, and NaT otherwise; missing stays missing |
| Cleaning.CoerceNumeric | clean_data.py:20-22 | every listed column the table has is coerced cell by cell; every other cell, the column set and the row count are unchanged, and no column is created |
| Cleaning.MedianOrZero | clean_data.py:27-28 | the fill value is 0 when the column holds no number; otherwise it is exactly the column's median, the mean of its two middle order statistics; at most half of the numbers lie below it and at most half above, and it is one of them when their count is odd |
| Stats.Median | clean_data.py:27 | `median(skipna=True)`: None exactly for no values; otherwise the mean of the `(n-1)/2`-th and `n/2`-th order statistics (the same value for odd `n`, so then a value of the column), with at most half of the values below and at most half above |
| Stats.MiddleOfSorted | clean_data.py:27 | the middle of any sorted arrangement of the values is their median: the mean of the two middle order statistics, with at most half of the values on either side |
| Stats.SortedOrderStatistic | clean_data.py:27 | position `k` of a sorted arrangement of the values holds their `k`-th order statistic |
| Stats.OrderStatisticUnique | clean_data.py:27 | the `k`-th order statistic of a list of values is unique |
| Stats.MedianOfMiddle | clean_data.py:27 | whatever two values are the middle order statistics, the median is their mean, so the median does not depend on how the values are sorted |
| Stats.MedianOfTwo | clean_data.py:27 | the median of 1 and 3 is 2, the mean of the two middle values and not either of them |
| Stats.MedianCounts | clean_data.py:27 | the middle element of the sorted values (or the mean of the two middle ones) has at most half of the unsorted values strictly below it and at most half strictly above |
| Cleaning.FillColumn | clean_data.py:29 | `fillna(v)`: exactly the missing cells of the column become `v`; nothing else changes |
| Cleaning.FillNumberIn | clean_data.py:26-29 | one turn of the fill loop: only missing cells of the column change, to its median computed before the fill; an absent column is skipped; no other column's fill value moves |
| Cleaning.FillValueElsewhere | clean_data.py:27-29 | filling one column does not change the median of any other column |
| Cleaning.FillNumeric | clean_data.py:25-29 | the whole fill loop: in each listed column the table has, exactly the missing cells change, each to that column's own pre-fill median; all other cells, the columns and the row count are unchanged |
| Cleaning.FillNumericStep | clean_data.py:25-29 | filling the first listed column and then the rest fills every listed column with its own median, since the columns are distinct and each fill leaves the others' medians alone |
| Cleaning.FillText | clean_data.py:37-39 | in each listed text column the table has, a missing cell becomes "unknown" and a present cell is kept as it is; nothing else changes |
| Cleaning.NumericStage | clean_data.py:20-29 | after coercion and the median fill, every listed numeric column present in the input holds a number in every row |
| Cleaning.CoerceAndFill | clean_data.py:20-29 | the same, for the sixteen columns the source lists, with the column set and row count unchanged |
| Cleaning.TextStage | clean_data.py:37-39 | after the text fill every listed text column present holds a value in every row, and the numeric columns filled before stay filled |
| Cleaning.YearCell | clean_data.py:42 | `.dt.year` on one cell: missing iff the cell is not a timestamp; otherwise a whole number, the year whose days include the timestamp's day |
| Cleaning.MonthCell | clean_data.py:43 | `.dt.month` on one cell: missing iff the cell is not a timestamp; otherwise a whole number, the month whose days include the timestamp's day |
| Cleaning.DeriveCalendar | clean_data.py:42-43 | `year` and `month` are added, each row's being the year and month of that row's `time`; each is missing exactly when `time` is NaT; the month is a number from 1 to 12; other cells are unchanged |
| Cleaning.DepthCategory | clean_data.py:45-50 | "unknown" iff the depth is missing, "shallow" iff below 50, "intermediate" iff from 50 to 300 inclusive, "deep" iff above 300 |
| Cleaning.ClassifyDepth | clean_data.py:45-50 | `depth_category` is added as the band of each row's `depth_km`; other columns are unchanged |
| Cleaning.DeriveStage | clean_data.py:42-50 | adding the three derived columns keeps every filled listed column filled |
| Cleaning.DepthNeverUnknown | clean_data.py:45-50 | once `depth_km` holds a number in every row, no depth category is "unknown" |
| Cleaning.CoerceThenFill | clean_data.py:20-29 | after coercion and the median fill of distinct columns, every cell is the coerced input cell, or, where that is missing, the median the coerced column had before any fill |
| Cleaning.CoercedFillSameColumn | clean_data.py:26-29 | a column's fill value depends only on that column's cells |
| Cleaning.Timed | clean_data.py:10-11 | `time` and `updated` are converted to timestamps cell by cell, every other cell kept |
| Cleaning.NormalizeCells | clean_data.py:10-39 | the timestamp, numeric and text stages, each described cell by cell, compose to the cell-by-cell description of lines 10-39 |
| Cleaning.NormalizedCellsIn | clean_data.py:10-39 | lines 10-39 for any distinct numeric columns and disjoint text columns: each cell is converted, coerced or filled with the pre-fill median, filled with "unknown", or kept |
| Cleaning.NormalizedCells | clean_data.py:10-39 | the same, for the columns the source lists |
| Cleaning.Normalize | clean_data.py:10-39 | the steps before the derived columns: same columns and rows; every listed numeric and text column the input has is filled; every cell is the converted, coerced, median-filled, "unknown"-filled or kept input cell as its column dictates |
| Cleaning.DeriveCells | clean_data.py:42-50 | each row's `year`, `month` and `depth_category` come from its own `time` and `depth_km`; every other cell is kept |
| Cleaning.Derive | clean_data.py:42-50 | adds exactly `year`, `month` and `depth_category`, each row's from its own `time` and `depth_km`; keeps every other cell and the fills, and leaves no "unknown" category when `depth_km` was filled |
| Cleaning.DerivedCells | clean_data.py:42-50 | deriving the three columns from a normalised table gives, in every cell, the value `basic_clean` computes from the raw input |
| Cleaning.DerivedIsCleaned | clean_data.py:10-50 | deriving the three columns from any table normalised from the input gives everything `basic_clean` promises (`Cleaning.Cleaned`) |
| Cleaning.CleanedOf | clean_data.py:5-53 | the pipeline run on an input with `time`, `updated` and `depth_km` satisfies everything `basic_clean` promises (`Cleaning.Cleaned`), down to the content of every cell |
| Cleaning.BasicClean | clean_data.py:5-53 | KeyError iff `time`, `updated` or `depth_km` is absent; otherwise the input columns plus the three derived ones, the same number of rows, no missing cell in any listed column present, no "unknown" depth category, and every cell: a timestamp, the coerced input or the column's pre-fill median, the input text or "unknown", the year, month or depth band of its row, or the input cell unchanged |
| Cleaning.RefillChangesNothing | clean_data.py:25-39 | idempotence: running both fill loops again on a cleaned table changes no cell |
| Cleaning.FillsNothing | clean_data.py:25-39 | with no listed cell missing, the numeric and text fill loops leave every cell as it was |
| Frames.MapColumn | clean_data.py:22 | `df[c] = f(df[c])` rewrites column `c` cell by cell and leaves every other cell alone |
| Frames.SetColumn | clean_data.py:42 | `df[c] = ...` creates or overwrites column `c` from each row and leaves every other cell alone |
| Frames.Project | dashboard.py:95 | `df[[...]]` on a row keeps exactly the listed columns the row has, with the same cells |
| Frames.FirstMissing | dashboard.py:95 | the column pandas' KeyError names: None iff all listed columns are present, otherwise a listed column that is absent |
| Frames.NumbersInSameColumn | clean_data.py:27 | a column's numbers depend on that column's cells only |
| Sorting.Sort | dashboard.py:95 | an ordered permutation of the input under a total preorder |
| Sorting.SortBy | dashboard.py:95 | `sort_values`: a permutation of the rows in key order, missing keys last in either direction |
| Sorting.Head | dashboard.py:95 | `head(k)`: the first `min(k, n)` rows |
| Sorting.Tail | dashboard.py:302 | `tail(k)`: the last `min(k, n)` rows |
| Sorting.SortedHeadFirst | dashboard.py:95 | in a key-sorted sequence nothing after the first `n` entries ranks ahead of any of them |
| Sorting.SortedTailLast | dashboard.py:302 | in a key-sorted sequence nothing before the last `n` entries ranks after any of them |
| Sorting.TailIsLastK | dashboard.py:302 | the tail of any key-sorted arrangement of the rows is a bottom-k selection: `min(k, n)` rows drawn from the input, in key order, with no row left out ranking after one kept |
| Sorting.HeadIsTopK | dashboard.py:95 | the head of any key-sorted arrangement of the rows is a top-k selection: `min(k, n)` rows drawn from the input, in key order, with no row left out ranking ahead of one kept |
| Sorting.TopBy | dashboard.py:95 | `sort_values(...).head(k)` is a top-k selection of the rows |
| Sorting.Filter | dashboard.py:103 | a boolean mask keeps every row that passes and only such rows |
| Sorting.FilterMultiset | dashboard.py:103 | the mask keeps each passing row as often as it occurs and drops every other row |
| Stats.Mean | dashboard.py:109 | `mean()` is NaN exactly for no values; otherwise it times the number of values is their sum |
| Stats.SumConcat | dashboard.py:109 | the sum under `mean()` splits over any division of the values into two parts |
| Stats.MeanBounds | dashboard.py:109 | a mean lies between any lower and upper bound of the values |
| Grouping.KeysOf | dashboard.py:109 | the distinct non-missing keys, each of which occurs, with every key that occurs among them |
| Grouping.SummarizeBy | dashboard.py:109 | `groupby(key).agg(f)`: one summary per occurring key, each the aggregate of exactly that key's rows |
| Grouping.RankGroups | dashboard.py:109 | the group table restricted to the branch's filter, sorted by the sort column |
| Grouping.OrderGroups | dashboard.py:240 | the group table sorted by a total preorder on keys |
| Grouping.RankingPrefix | dashboard.py:123 | the first `k` entries of a ranking are its top-k groups |
| Grouping.TopGroups | dashboard.py:123 | `...sort_values(...).head(k)` over a group table satisfies `IsTopGroups` |
| Strings.Contains | dashboard.py:187 | `str.contains(t)` with a plain pattern holds iff `t` occurs at some position |
| Strings.AfterLastComma | dashboard.py:24 | None iff there is no comma; otherwise the position after the last comma, with no comma after it |
| Strings.LeadingSpaces | dashboard.py:24 | `\s*` consumes all leading whitespace except the last character |
| Strings.TrailingField | dashboard.py:24 | the capture of `,\s*([^,]+)$`: None iff there is no comma or the text ends in a comma; otherwise a non-empty, comma-free regex match |
| Strings.FieldMatchUnique | dashboard.py:24 | the pattern has at most one match |
| Strings.TrailingFieldAfterSeparator | dashboard.py:24 | "<where>, <name>" captures exactly `name` when `name` is non-empty, comma-free and does not start with whitespace |
| Strings.ParseNumber | clean_data.py:22 | a text that reads as a number is non-empty, and a digit follows its optional sign either at once or after a decimal point |
| Strings.ParseNumberHasDigit | clean_data.py:22 | a text that reads as a number contains a digit |
| Strings.ParseShowFixed | clean_data.py:22 | a decimal `q + r / 10^n` written with `n` fraction digits reads back as itself |
| Strings.ParseNegated | clean_data.py:22 | a leading '-' negates the number a numeral starting with a digit reads as |
| Strings.ParseDigitsDotDigits | clean_data.py:22 | digits, '.', digits reads as the whole part plus the fraction the digits denote |
| Strings.ParseShowInt | clean_data.py:22 | every integer written in decimal reads back as itself |
| Strings.TextLeTotal | dashboard.py:240 | the text order used for `sort_values` on text keys is total |
| Strings.TextLeTransitive | dashboard.py:240 | the text order is transitive |
| Strings.TextLeAntisymmetric | dashboard.py:240 | the text order is antisymmetric |
| Calendar.WalkYears | clean_data.py:42 | counting days from 1 January of a year reaches a year and a day within it that denote the same day |
| Calendar.YearPositionUnique | clean_data.py:42 | each day belongs to exactly one (year, day-of-year) position |
| Calendar.DateOfDay | clean_data.py:42-43 | the date of a day number is a valid date that maps back to that day number |
| Calendar.DateOfEpochDay | clean_data.py:42-43 | dates and day numbers correspond one to one |
| Calendar.DateOf | clean_data.py:42-43 | the date of any timestamp, the day counted by flooring milliseconds to whole days, is a valid calendar date |
| Calendar.YearOf | clean_data.py:42 | `.dt.year`: the year whose days include the timestamp's day |
| Calendar.YearOfOnly | clean_data.py:42 | no other year includes that day |
| Calendar.MonthOf | clean_data.py:43 | `.dt.month` lies between 1 and 12 and is the month, within the day's year, whose days include the timestamp's day |
| Calendar.MonthOfOnly | clean_data.py:43 | no other month includes that day |
| Calendar.HourOf | dashboard.py:135 | `.dt.hour` lies between 0 and 23 |
| Calendar.DayNameOf | dashboard.py:131 | `.dt.day_name()` is one of the seven day names |
| Calendar.EpochFields | dashboard.py:131 | the epoch is Thursday, 1 January 1970, hour 0 |
| Loading.CountryOf | dashboard.py:24 | the derived country is non-empty and comma-free; it is "unknown" for a missing place, for a place without a comma and for a place ending in a comma; otherwise it is the regex's capture after the last comma |
| Loading.CountryOfPlace | dashboard.py:24 | "<where>, <country>" yields `country` |
| Loading.LoadRow | dashboard.py:17-35 | one row of `load_data`: it gains exactly the derived columns that the table read lacks |
| Loading.LoadData | dashboard.py:14-36 | reading fails iff `time` or `updated`, named in `parse_dates`, is absent, and the error names an absent column; otherwise there is one row out per row in |
| Loading.LoadedShape | dashboard.py:21-35 | the loaded columns are those read plus `country`, `year` and `month`, plus `depth_category` when `depth_km` was read; well-formed rows stay well-formed |
| Loading.LoadedCountry | dashboard.py:21-26 | `country` is kept when read; otherwise it is the country of the row's place, or "unknown" throughout without a `place` column |
| Loading.LoadedYear | dashboard.py:28-29 | `year` is kept when read, otherwise the year of `time`, missing for NaT |
| Loading.LoadedMonth | dashboard.py:30-31 | `month` is kept when read, otherwise the month of `time`, missing for NaT |
| Loading.LoadedDepthCategory | dashboard.py:32-35 | `depth_category` is derived, with `basic_clean`'s thresholds, only when it is absent and `depth_km` is present; otherwise it is kept as read |
| Loading.LoadedOther | dashboard.py:17-19 | every other cell is coerced when its column is one of the nine listed ones, and kept as read otherwise |
| Loading.LoadedCountryCommaFree | dashboard.py:24 | a derived country is always a non-empty text without a comma |
| Loading.LoadKeepsCleaned | dashboard.py:14-36 | loading a table that `basic_clean` produced succeeds and keeps every cell outside the coerced and derived columns |
| Dashboard.Tasks | dashboard.py:43-74 | thirty labels, label `i` being "Q<i+1> " followed by its title |
| Dashboard.FirstMatch | dashboard.py:94-323 | the `if`/`elif` chain: it takes the first query whose code starts the choice, and no earlier query's code starts it; None falls through to "Task not implemented." |
| Dashboard.DispatchAsWritten | dashboard.py:94-323 | as written, branch `Qn` is the first one for which the choice starts with "Qn" |
| Dashboard.Dispatch | dashboard.py:94-323 | corrected: branch `Qn` is the first one for which the choice starts with "Qn " |
| Dashboard.SpacedCodeUnique | dashboard.py:43-74 | a string starts with at most one spaced code |
| Dashboard.DispatchSelectsOwn | dashboard.py:43-74 | with the corrected test, every label runs the query it names |
| Dashboard.DispatchAsWrittenFirstDigit | dashboard.py:94-138 | as written, label `i` runs query `i+1` for the first nine labels and the query of its first digit for the rest |
| Dashboard.Q10RunsQ1 | dashboard.py:138 | choosing "Q10 ..." runs Q1 as written and Q10 once corrected |
| Dashboard.UnreachableAsWritten | dashboard.py:138-320 | as written, no label runs any of queries Q10 to Q30 |
| Queries.TopEvents | dashboard.py:95-100 | KeyError iff a projected column is absent; otherwise the top ten projected rows by the key, in non-increasing order |
| Queries.StrongestEvents | dashboard.py:95 | Q1: the ten events of largest magnitude, as a top-k selection |
| Queries.DeepestEvents | dashboard.py:99 | Q2: the ten deepest events, as a top-k selection |
| Queries.TopEventsFromInput | dashboard.py:95-99 | the result has `min(10, n)` rows, each the projection of an input row |
| Queries.ShallowStrongEvents | dashboard.py:103 | Q3: exactly the events with depth below 50 and magnitude above 7.5, each as often as it occurs, projected, in non-increasing magnitude |
| Queries.HighCoverage | dashboard.py:201-207 | Q18: a warning iff `nst` is absent; otherwise exactly the events with `nst` above the threshold, each as often as it occurs, projected, in non-increasing `nst` |
| Queries.HighCoverageMonotone | dashboard.py:204 | raising the threshold never lengthens the result |
| Queries.ErrorScore | dashboard.py:292 | `rms.fillna(0) + gap.fillna(0)`: the sum of the parts present, 0 when both are missing |
| Queries.ErrorScoreMissingIsZero | dashboard.py:292 | a missing part scores exactly as a part recorded as 0 would |
| Queries.LeastReliable | dashboard.py:290-296 | Q28: a warning iff `rms` or `gap` is absent; otherwise the hundred rows of largest `rms + gap`, missing parts counted as 0, each showing that sum |
| Queries.ScoredRows | dashboard.py:292-293 | every row drawn from the scored rows carries the sum of its own `rms` and `gap` |
| Queries.SelectionOf | dashboard.py:103 | any arrangement of the projected rows a mask keeps is a selection: every kept row appears, each row shown is a projection of a kept row, and nothing else appears |
| Summaries.DepthByCountry | dashboard.py:106-113 | Q4: a warning iff `country` is absent; KeyError iff `country` is present and `depth_km` is not; otherwise the mean depth of every country, deepest first |
| Summaries.MagnitudeByType | dashboard.py:115-120 | Q5: a warning iff `magType` is absent; otherwise the count and mean magnitude of every magnitude type, highest mean first |
| Summaries.BusiestYear | dashboard.py:122-124 | Q6: KeyError without `time` or `id`; otherwise the top-1 year by count of events with an `id` |
| Summaries.BusiestMonth | dashboard.py:126-128 | Q7: the top-1 calendar month, between 1 and 12 |
| Summaries.WeekdayCounts | dashboard.py:130-132 | Q8: counts per weekday name, busiest first, at most seven rows, each a real day name |
| Summaries.HourlyCounts | dashboard.py:134-136 | Q9: counts per hour in ascending hour order, each hour from 0 to 23 |
| Summaries.StrictlyAscending | dashboard.py:135 | the hour and year groups are in strictly ascending key order |
| Summaries.TopNetworks | dashboard.py:138-143 | Q10: a warning iff `net` is absent; otherwise the ten most frequent networks |
| Summaries.CasualtiesByPlace | dashboard.py:145-150 | Q11: the source's warning iff `casualties` is absent; otherwise the top five (place, country) groups by total casualties |
| Summaries.LossByCountry | dashboard.py:152-158 | Q12: the source's warning iff `economic_loss` is absent; otherwise the top twenty countries by total loss |
| Summaries.LossByAlert | dashboard.py:160-165 | Q13: the source's warning iff `alert` or `economic_loss` is absent; otherwise the mean and count of loss per alert level, highest mean first |
| Summaries.ValueCounts | dashboard.py:167-172 | `value_counts()`: a warning iff the column is absent; otherwise one row per non-missing value with its number of rows, largest first |
| Summaries.ValueCountsTotal | dashboard.py:169 | each count is the number of rows holding that value, and it is positive |
| Summaries.StatusCounts | dashboard.py:167-172 | Q14: the value counts of `status` |
| Summaries.TypeCounts | dashboard.py:174-179 | Q15: the value counts of `type` |
| Summaries.TokenCounts | dashboard.py:181-191 | Q16: one row for each of the five tokens, with the number of events whose `types` contains it, most frequent first |
| Summaries.RmsGapByCountry | dashboard.py:193-199 | Q17: mean `rms` and `gap` per country, highest mean `rms` first |
| Summaries.TsunamisPerYear | dashboard.py:209-214 | Q19: the tsunami flags summed per year, in ascending year order |
| Summaries.AlertCounts | dashboard.py:216-221 | Q20: the value counts of `alert` |
| Summaries.RecentStrongCountries | dashboard.py:223-227 | Q21: among events from ten years before the given current year on, the five countries of highest mean magnitude that have at least ten events |
| CrossTab.ShallowAndDeep | dashboard.py:229-243 | Q22: a warning iff `depth_km` is absent; otherwise (country, year, month) periods in key order, each listed at most once |
| CrossTab.ShallowAndDeepExactly | dashboard.py:232-240 | a period is listed iff it has both an event shallower than 50 km and one deeper than 300 km |
| CrossTab.GroupCountPositive | dashboard.py:236-237 | `(s < 50).any()` over a group holds iff some row of the group passes |
| CrossTab.ListedIfBoth | dashboard.py:236-240 | a period with both a shallow and a deep event is listed by any table that covers the groups kept by the mask |
| CrossTab.ListedOnlyIfBoth | dashboard.py:236-240 | a period listed by the group table under the mask has both a shallow and a deep event |
| Growth.ChangeFrom | dashboard.py:248-250 | the growth is infinite iff a positive count follows 0; it is 0 for the first year and for 0 after 0 |
| Growth.ChangeRebuilds | dashboard.py:249 | the previous count grown by the percentage gives the new count |
| Growth.ChangeSign | dashboard.py:249 | the growth is positive iff the count rose, and zero iff it stayed the same |
| Growth.Changes | dashboard.py:248-250 | the growth column: 0 first, then each entry relative to the one before |
| Growth.ChangesExample | dashboard.py:247-250 | counts 100, 150 and 90 give growth 0, 50 and -40 percent |
| Growth.GrowthTable | dashboard.py:247-250 | each row carries its year and count, the previous row's count (0 first) and the growth from it |
| Growth.GrowthColumn | dashboard.py:248-249 | the table's growth column is the growth of its count column |
| Growth.YearCounts | dashboard.py:247 | the events with an `id` counted per year: a ranking of the year groups in ascending year order |
| Growth.YearGrowthTable | dashboard.py:247-250 | the table lists the yearly counts in year order; the first row has no previous count and growth 0; each later row takes the previous row's count and the growth from it |
| Growth.YearOverYear | dashboard.py:245-250 | Q23: KeyError without `time` or `id`; otherwise the yearly counts in year order, each with the previous count and the growth from it |
| Summaries.ActiveRegions | dashboard.py:252-257 | Q24: the three places of highest `freq * avg_mag` among those with at least five events |
| Summaries.EquatorialDepth | dashboard.py:259-266 | Q25: a warning iff `latitude` or `depth_km` is absent; otherwise the mean depth per country over events between -5 and 5 degrees latitude |
| Summaries.EquatorialGroups | dashboard.py:262-263 | every country Q25 shows has an event within the band |
| Summaries.Ratio | dashboard.py:276 | the ratio is missing iff there is no deep event; otherwise `ratio * deep == shallow` |
| Summaries.ShallowDeepRatio | dashboard.py:268-280 | Q26: a warning iff `depth_km` is absent; KeyError iff `depth_km` is present and `country` is not; pandas' ValueError iff no row has both a country and a depth; otherwise the top twenty countries by shallow:deep ratio among those with at least five shallow or deep events |
| Summaries.ShallowDeepRows | dashboard.py:276-277 | at most twenty rows, each with support of at least five, and a missing ratio exactly when there is no deep event |
| Summaries.NoDeepRanksLast | dashboard.py:276-277 | a country without a deep event has no ratio, and under the descending sort every other country may precede it |
| Summaries.TsunamiMagnitudes | dashboard.py:282-288 | Q27: each mean is NaN iff its partition has no magnitude; the difference is defined iff both means are, and it is their difference |
| Proximity.PairOf | dashboard.py:303-310 | a kept pair is within 60 minutes and 50 km, its minutes being the time difference in minutes |
| Proximity.PairOfCells | dashboard.py:303-309 | a kept pair's times, id, place and distance come from the two rows' cells |
| Proximity.PairOfDropped | dashboard.py:307-310 | with all cells present, a pair is dropped iff it is more than 60 minutes or more than 50 km apart |
| Proximity.PairForward | dashboard.py:302-308 | a pair of time-ordered rows has non-negative minutes |
| Proximity.Consecutive | dashboard.py:303-305 | `shift(1)`: every row after the first is paired with its predecessor |
| Proximity.ClosePairs | dashboard.py:303-310 | the kept pairs are exactly the pairs of consecutive rows that pass both limits |
| Proximity.ClosePairsForward | dashboard.py:302-310 | in a time-ordered table every kept pair runs forward in time |
| Proximity.RecentInOrder | dashboard.py:302 | `sort_values("time").tail(N)`: the `min(N, n)` latest rows of the table, in ascending time order, none left out being later than one kept |
| Proximity.ShownPairs | dashboard.py:302-311 | the 500 latest close pairs among the recent rows, latest first, none left out being later than one shown, each with `0 <= minutes <= 60` and distance at most 50 |
| Proximity.ShownWithinLimits | dashboard.py:302-311 | every pair drawn from the close pairs of time-ordered rows runs forward in time and lies within both limits |
| Proximity.ShownPairsFromRows | dashboard.py:302-311 | every pair shown comes from two rows of the table, the earlier row first |
| Proximity.NearbyPairs | dashboard.py:298-313 | Q29: the source's warning iff `latitude` or `longitude` is absent; KeyError without `time`, `id` or `place`; otherwise the pairs above |
| Summaries.DeepFocusCountries | dashboard.py:315-320 | Q30: a warning iff `depth_km` is absent; otherwise the twenty countries with the most events deeper than 300 km |

## Left out

- Reading and writing CSV files, `st.cache_data`, and every Streamlit widget, message box and
  download button are not modelled. The `nst` threshold (Q18), the row cap `N` (Q29) and the
  current year (Q21) are parameters.
- fetch_api.py, save_mysql.py, main.py and config.py are not part of this model: they hold network
  paging, a database insert, orchestration and constants.
- `haversine_km` (dashboard.py:83-90) is floating-point trigonometry. Q29 takes the distance as a
  function parameter, and only the window and filter properties are proved.
- Floating point is not modelled: numbers are exact reals. Two-decimal rounding (Q23) and IEEE NaN
  arithmetic are left out. NaN is a missing value, and a growth from 0 is `Growth.Infinite`.
- The order of tied rows after `sort_values` is not promised, because pandas' default sort is not
  stable.
- Keys of mixed types (numbers and texts in one grouping column) are ordered by a fixed total order
  on values. Pandas would raise a `TypeError` comparing them.
- Q4, Q12 and Q17 ask for a country-to-continent mapping that does not exist in the tool. Their
  fallback, grouping by country, is modelled.
- The `st.info` texts and the rendering of Q27's dictionary are not modelled.
- Q28's write of `error_score` into the shared frame is modelled as a column added to a copy.
- Q26 on a table with no row holding both a country and a depth: pandas raises `ValueError`
  because the row-wise `apply` returns a frame that cannot be assigned to the single column `ratio`.
  The model returns `Failed` with that message. Other pandas versions that behave differently are
  not modelled.
- Q29 bounds `N` between 500 and 50000 in its widget. The model takes any natural number.
- `pd.read_csv(parse_dates=...)` failing on an absent `time` or `updated` is modelled as an error
  naming the column. The exact exception type is not modelled.
- Loading.LoadData: a `time` cell that holds text is read as NaT. In pandas, one value that
  `read_csv` cannot parse as a date leaves the whole `time` column as text. Every `.dt` use then
  raises `AttributeError`: `load_data` itself when `year` or `month` is absent (dashboard.py:29-31),
  and the queries that group or filter by `time`. Those queries are Summaries.BusiestYear,
  Summaries.BusiestMonth, Summaries.WeekdayCounts, Summaries.HourlyCounts,
  Summaries.TsunamisPerYear, Summaries.RecentStrongCountries, CrossTab.ShallowAndDeep and
  Growth.YearOverYear (dashboard.py:123, 127, 131, 135, 211, 225, 233 and 247), and
  Proximity.NearbyPairs (dashboard.py:302-308), where subtracting two text times raises `TypeError`,
  and `.dt.total_seconds()` raises `AttributeError` when no pair is left. The model shows a result
  there, with missing years, months, weekdays, hours and times for such rows, where pandas raises.
- Summaries.CasualtiesByPlace, Summaries.LossByCountry, Summaries.LossByAlert: neither `casualties`
  nor `economic_loss` is coerced to numbers, by `basic_clean` or by `load_data`. The model sums and
  averages only the number cells of a group and counts every non-missing cell. When pandas reads
  such a column as text, the sums at dashboard.py:147 and 155 join the texts, or raise `TypeError`
  when texts and numbers mix, and the result is then sorted as text. The mean at dashboard.py:162
  raises `TypeError`. The model shows a numeric result in all of these cases.
- Strings.ParseNumber: only plain decimal numerals are read. Exponents, "inf", "nan", surrounding
  whitespace and other spellings that `pd.to_numeric` accepts count as non-numbers.
- Cleaning.ToTimestamp: the datetime64[ns] range is modelled as a fixed bound on milliseconds. The
  exact nanosecond edge of the range is not modelled.
- Loading.LoadData, Summaries.TokenCounts: pandas' `.str` accessor raises `AttributeError` only
  when a column holds no text at all, that is when every cell is missing or a number. This happens
  to `place` at dashboard.py:24 and to `types` at dashboard.py:187. There the model gives "unknown"
  for every country, and five zero counts for Q16, where pandas raises. A column that mixes texts
  with other values behaves in pandas as it does in the model: a non-text cell yields NaN, which
  `fillna("unknown")` turns into "unknown" (`Loading.CountryOf`), and `contains(..., na=False)`
  does not count it (`Summaries.TokenCounts`).
- Calendar: dates are computed on the proleptic Gregorian calendar in UTC. Time zones and leap
  seconds are not modelled.

## Findings

| source | as written | input that shows it | evidently intended | confidence | as-written member | corrected member |
|---|---|---|---|---|---|---|
| dashboard.py:94-320 | each branch tests `choice.startswith("Qn")`, so the "Q1" test also matches "Q10".."Q19", "Q2" matches "Q20".."Q29" and "Q3" matches "Q30" | choosing "Q10 Most active reporting network (net)" runs the Q1 query (top 10 strongest earthquakes) | each label runs the query it names, as a test on "Qn " with the trailing space would do | high (not executed) | Dashboard.DispatchAsWritten, Dashboard.DispatchAsWrittenFirstDigit, Dashboard.Q10RunsQ1, Dashboard.UnreachableAsWritten | Dashboard.Dispatch, Dashboard.DispatchSelectsOwn |
