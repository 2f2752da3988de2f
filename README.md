# Bike-sharing dashboard: the aggregation pipeline

This project models the part of the bike-sharing dashboard script
(`dashboard/dashboard.py`) that computes the tables it charts. It leaves out
the charts and the page. It follows the script's own steps:

- The day table `day_data.csv` is sorted by date in place.
- A date range (both ends inclusive) selects `main_df`.
- `create_daily_bikesharing` builds one row per date: `cnt`, `registered` and
  `casual` summed, plus the English weekday name.
- From that daily table come the three headline totals, the peak day (the
  highest daily `cnt` and the first date reaching it) and the monthly
  registered/casual trend in long form.
- Over the whole day table, with its `weekday` column recomputed from the
  dates, come these views:
  - the weekday-by-weather mean pivot, melted and ordered Sunday to Saturday;
  - the mean count per working-day flag, after the guarded
    `Weekend`/`Weekday` → 0/1 encoding and the integer cast;
  - the mean count per (weekday, flag) over the days whose flag agrees with
    their weekday;
  - the mean count per (season, flag).
- The hour table `hour_data.csv` gives the hour-by-weather mean pivot, its
  columns renamed to weather labels and melted.

The script stops in two places:

- at `.values[0]` when the range selects no day;
- at `astype(int)` when a working-day entry is not a number.

The model has those two outcomes, plus the rendered views (`Dashboard.Run`).
`Dashboard.RunCorrected` is the same script with the season categories it
evidently means (see Findings).

Layout, one module per file:

- `Ordering`: the key orders pandas sorts by.
  - Integers.
  - Integer pairs, for a two-key `groupby`.
  - Python strings, compared by code point.
- `Grouping`:
  - mask selection;
  - `groupby` keys, groups, sums and means;
  - key relabelling with `map`;
  - `sort_values`.
- `Reshape`: `pivot_table(aggfunc='mean')`, `rename(columns=…)` and `melt`.
- `Calendar`:
  - dates as days since 1970-01-01;
  - `dt.day_name()`;
  - the Sunday-to-Saturday category order;
  - `dt.to_period('M')`.
- `Tables`: the two loaded tables. A column whose dtype the script tests
  (`workingday`, `season`) holds `Cell`s: text, integer or NaN.
- `Rollups`: the range filter, the daily table, the totals, the peak day and
  the monthly trend.
- `Weather`: the two weather breakdowns.
- `WorkingDay`: the working-day encoding, the per-flag means and the
  consistent-day means.
- `Seasons`: the season breakdown.
- `Dashboard`: the script as a whole.
  - The class `DayData` holds the day table. The script changes that table
    in place: the sort, the weekday names, the encoding.
  - `RunDashboard` performs those updates in the script's order.
  - It is proved to produce the outcome `Run` describes.

A mean is kept exactly, as its total and its row count (`Grouping.Mean`). A
NaN cell is `None`.

## Model

| member | source | states |
|---|---|---|
| Ordering.StrLess | dashboard/dashboard.py:211-216 | a string comparison that holds is between different strings (Python's order on the pivot's `weekday` index) |
| Ordering.IntLessIsStrictTotal | dashboard/dashboard.py:26 | the integer key order is irreflexive, transitive and connected |
| Ordering.PairLessIsStrictTotal | dashboard/dashboard.py:361 | the lexicographic order on the key pairs of a two-key `groupby` is a strict total order |
| Ordering.StrLessIsStrictTotal | dashboard/dashboard.py:211-216 | Python's string order is a strict total order |
| Grouping.Where | dashboard/dashboard.py:62-63 | the rows a boolean mask selects are exactly the input rows the mask accepts, and there are no more of them than input rows |
| Grouping.WhereIsSubsequence | dashboard/dashboard.py:62-63 | a mask selection keeps the surviving rows in their original relative order |
| Grouping.WhereAppend | dashboard/dashboard.py:62-63 | selecting from two concatenated tables is concatenating the two selections |
| Grouping.WhereMultiplicity | dashboard/dashboard.py:62-63 | an accepted row is kept exactly as many times as it occurs, a rejected row never |
| Grouping.WhereIdempotent | dashboard/dashboard.py:62-63 | applying the same mask twice equals applying it once |
| Grouping.WhereKeepsAll | dashboard/dashboard.py:62-63 | a mask that accepts every row returns the table unchanged |
| Grouping.WhereKeepsSorted | dashboard/dashboard.py:62-63 | selecting from a sorted table leaves it sorted |
| Grouping.SumOfAppend | dashboard/dashboard.py:77-86 | a column sum over two concatenated tables is the sum of the two column sums |
| Grouping.SumOfOne | dashboard/dashboard.py:328 | summing 1 over the rows counts them |
| Grouping.SumOfAdds | dashboard/dashboard.py:26-30 | when one column is pointwise the sum of two others, its sum is the sum of their sums |
| Grouping.SumOf | dashboard/dashboard.py:77-86 | a column sum over rows whose values are all non-negative is non-negative |
| Grouping.Keys | dashboard/dashboard.py:26 | every row's key is among the `groupby` keys |
| Grouping.KeyObserved | dashboard/dashboard.py:26 | every listed key is the key of some row |
| Grouping.KeysSorted | dashboard/dashboard.py:26 | the keys come out strictly ascending under a strict total order, so each one appears once |
| Grouping.Group | dashboard/dashboard.py:26-30 | a group holds exactly the rows with its key |
| Grouping.SumOverKeysConserves | dashboard/dashboard.py:26-30 | when the keys are distinct and cover every row, the per-group totals add up to the column total |
| Grouping.MeanOf | dashboard/dashboard.py:328 | a mean is NaN exactly over no rows; otherwise its count is the row count and its total the column sum |
| Grouping.MeansOver | dashboard/dashboard.py:328 | one mean per listed key, with that key's group count and total |
| Grouping.KeysHaveRows | dashboard/dashboard.py:328 | every listed key has a non-empty group, so no mean is NaN |
| Grouping.GroupMean | dashboard/dashboard.py:328 | `groupby(key)[val].mean()` gives one row per observed key, with count > 0, that group's row count and its total |
| Grouping.GroupMeanSorted | dashboard/dashboard.py:328 | the rows of a grouped mean come in strictly ascending key order |
| Grouping.GroupMeanConserves | dashboard/dashboard.py:328 | across the groups the counts add up to the row count and the totals to the column total |
| Grouping.RelabelKeys | dashboard/dashboard.py:330 | mapping the key column relabels each row's key and leaves its mean and position alone |
| Grouping.RelabelKeysSums | dashboard/dashboard.py:330 | relabelling keeps the group counts and totals |
| Grouping.InsertByRank | dashboard/dashboard.py:38 | inserting into a sorted table adds the row and keeps the table sorted |
| Grouping.SortByRank | dashboard/dashboard.py:38 | `sort_values` returns a permutation of the rows whose ranks never decrease |
| Reshape.CellRows | dashboard/dashboard.py:211-216 | the rows behind a pivot cell are exactly those with both keys |
| Reshape.PivotMean | dashboard/dashboard.py:211-216 | the pivot's index and columns are the sorted distinct keys, and each cell is the mean over its rows |
| Reshape.CellMeaning | dashboard/dashboard.py:211-216 | a pivot cell is NaN exactly when no row has its pair of keys; otherwise it holds their count and total |
| Reshape.RenameColumns | dashboard/dashboard.py:273 | renaming relabels each column and changes neither the index nor any cell |
| Reshape.MeltColumn | dashboard/dashboard.py:219-223 | one wide column becomes one long row per index entry, in index order |
| Reshape.Melt | dashboard/dashboard.py:219-223 | `melt` gives one long row per (column, index entry) pair: \|columns\| × \|index\| rows |
| Reshape.MeltAt | dashboard/dashboard.py:219-223 | a melted table has columns × index rows, and the cell of column c and index row i is row c·\|index\| + i |
| Reshape.MeltMember | dashboard/dashboard.py:219-223 | a row is in the melted table exactly when it is some cell labelled with its index and column |
| Reshape.MeltLabels | dashboard/dashboard.py:219-223 | every melted row carries an index entry and a column label of the wide table |
| Reshape.MapVariable | dashboard/dashboard.py:179 | mapping the variable column relabels each long row and keeps its id and value |
| Reshape.PivotMeltSound | dashboard/dashboard.py:211-223 | every row of a melted pivot is an observed pair of keys with the mean over their rows |
| Reshape.PivotMeltComplete | dashboard/dashboard.py:211-223 | every observed pair of keys appears in the melted pivot with its mean, NaN included |
| Calendar.Weekday | dashboard/dashboard.py:33 | the weekday position is in 0..6 |
| Calendar.DayName | dashboard/dashboard.py:33 | `dt.day_name()` is always one of the seven English names, the one at the date's weekday position |
| Calendar.DayCode | dashboard/dashboard.py:227-231 | the weekday category code exists exactly for the seven names, and indexes back to the name |
| Calendar.DayCodeOfName | dashboard/dashboard.py:227-231 | the category code of a date's day name is the date's weekday |
| Calendar.DayCodeOfIndex | dashboard/dashboard.py:227-231 | the code of the c-th category is c |
| Calendar.WeekdayAnchoredAndCycling | dashboard/dashboard.py:33 | 2012-01-01 is a Sunday, each next day is the next weekday, and names repeat every 7 days |
| Calendar.CivilFromDays | dashboard/dashboard.py:161 | every day number has a calendar month 1..12 and a day 1..31 |
| Calendar.YearMonth | dashboard/dashboard.py:161 | `to_period('M')` gives a month in 1..12 |
| Calendar.YearLengthOfDigits | dashboard/dashboard.py:161 | Gregorian leap years: a (March-based) year is 366 days long exactly when the next year is divisible by 4 and does not start a century, the 400th year's leap day closing the era |
| Calendar.YoeInverse | dashboard/dashboard.py:161 | every day inside the span of a year of a 400-year era is assigned to that year |
| Calendar.NextDay | dashboard/dashboard.py:161 | the day after any day is the next day of the same month or the first day of the next month |
| Calendar.YearMonthMonotone | dashboard/dashboard.py:161-164 | a later day never falls in an earlier month |
| Calendar.EarlierMonthEarlierDay | dashboard/dashboard.py:161-164 | a day in a strictly earlier month is a strictly earlier day |
| Calendar.CalendarAnchor2012 | dashboard/dashboard.py:161 | day 15340 is 2012-01-01 |
| Calendar.CalendarLeapDay2012 | dashboard/dashboard.py:161 | 2012-02-29 exists and is followed by 2012-03-01 |
| Rollups.InRange | dashboard/dashboard.py:62-63 | the mask accepts a row exactly when its date lies in [start, end], both ends inclusive |
| Rollups.RangeFilter | dashboard/dashboard.py:62-63 | `main_df` holds exactly the rows dated within [start, end], in table order; an inverted range selects nothing |
| Rollups.RangeFilterMultiplicity | dashboard/dashboard.py:62-63 | a row in range is kept as often as it occurs, any other row never |
| Rollups.RangeFilterSorted | dashboard/dashboard.py:62-63 | the selection from the date-sorted table is still sorted by date |
| Rollups.RangeFilterIdempotent | dashboard/dashboard.py:62-63 | selecting the same range twice equals selecting it once |
| Rollups.RangeFilterFullRange | dashboard/dashboard.py:51-63 | a range that covers every date selects the whole table |
| Rollups.RangeFilterOneDay | dashboard/dashboard.py:62-63 | a one-day range over two consecutive days keeps only the first day's row |
| Rollups.DailyDates | dashboard/dashboard.py:26-30 | the date column of the daily table, entry by entry |
| Rollups.DailyOver | dashboard/dashboard.py:26-33 | for each listed date, its summed counts and its day name |
| Rollups.DailyRollup | dashboard/dashboard.py:24-34 | one row per date of the input, strictly ascending, no date without rows, each with the three sums over that date's rows and the English day name |
| Rollups.DailyRollupConserves | dashboard/dashboard.py:77-86 | the daily table's totals of `cnt`, `registered` and `casual` equal those of the selected rows |
| Rollups.DailyRollupKeepsSplit | dashboard/dashboard.py:26-30 | when every row's total is registered plus casual, so is every day's |
| Rollups.DailyRollupTwoDays | dashboard/dashboard.py:24-34 | rows for 2012-01-01 and 2012-01-02 roll up to two rows in date order, named Sunday and Monday, with their own counts |
| Rollups.MaxCnt | dashboard/dashboard.py:91 | the maximum bounds every daily `cnt` and is attained |
| Rollups.FirstWith | dashboard/dashboard.py:92 | the first position holding a total, when one holds it; no earlier position does |
| Rollups.PeakDay | dashboard/dashboard.py:91-92 | no peak exactly for an empty daily table; otherwise the maximum `cnt`, reached at the first row attaining it, whose date is the peak date |
| Rollups.PeakIsEarliest | dashboard/dashboard.py:92 | on a date-ordered daily table, the peak date is the earliest date with the peak total |
| Rollups.PeakDateSelected | dashboard/dashboard.py:91-92 | a non-empty selection has a peak, and its date is the date of a selected row |
| Rollups.PeakBoundsDates | dashboard/dashboard.py:91-92 | no selected date's summed count exceeds the peak total |
| Rollups.AddYearMonth | dashboard/dashboard.py:161 | each daily row gets its (year, month) and is otherwise unchanged |
| Rollups.AddYearMonthSums | dashboard/dashboard.py:161 | adding the month keeps the registered and casual totals |
| Rollups.MonthlyOver | dashboard/dashboard.py:164 | for each listed month, the registered and casual sums over its days |
| Rollups.MonthlyTrend | dashboard/dashboard.py:164 | one row per observed month, in strict (year, month) order, each with the sums over its days |
| Rollups.MonthlyTrendCovers | dashboard/dashboard.py:164 | every month of a daily row has its monthly row |
| Rollups.MonthlyTrendChronological | dashboard/dashboard.py:161-164 | the monthly trend is chronological: every day of an earlier row comes before every day of a later row |
| Rollups.MonthlyTrendConserves | dashboard/dashboard.py:68-164 | from the selected rows to the monthly trend the registered and casual totals are preserved |
| Rollups.UserTypeLabel | dashboard/dashboard.py:175-179 | exactly the two melted column names get a legend label |
| Rollups.MonthlyWide | dashboard/dashboard.py:170-172 | the wide form has the months as index and `registered`, `casual` as its two columns |
| Rollups.MeltMonthly | dashboard/dashboard.py:170-179 | the long form has two rows per month, each labelled "Registered Users" or "Casual Users" |
| Rollups.MeltMonthlyLayout | dashboard/dashboard.py:170-179 | the long form has two rows per month: every "Registered Users" row in month order, then every "Casual Users" row, each with that month's count |
| Weather.WeekdayPivotLong | dashboard/dashboard.py:211-223 | the melted weekday pivot has codes × weekdays rows, each an observed weekday with an observed weather code |
| Weather.WeekdayWeather | dashboard/dashboard.py:211-234 | the sorted `pivot_long` is a permutation of the melted pivot, ordered by weekday category |
| Weather.WeekdayWeatherCells | dashboard/dashboard.py:211-234 | an entry is in the sorted table exactly when it is an observed weekday with an observed weather code and the mean over the rows with both; that mean is NaN exactly when no row has both |
| Weather.WeekdayWeatherDayOrder | dashboard/dashboard.py:205-234 | with weekday names taken from the dates, every entry names a day, and the day codes never decrease from Sunday to Saturday |
| Weather.WeatherLabel | dashboard/dashboard.py:265-273 | code 1 becomes "Clear", 2 "Mist + Cloudy", 3 "Light Snow" and 4 "Heavy Rain"; only these get a name, and any other column label is left as it is |
| Weather.WeatherLabelInjective | dashboard/dashboard.py:273 | distinct weather codes keep distinct column labels after the rename |
| Weather.HourPivot | dashboard/dashboard.py:257-273 | hours as index, weather labels as columns, and each cell the mean `cnt` over the hourly rows with that hour and code |
| Weather.HourWeather | dashboard/dashboard.py:276-280 | `weather_long` has one row per weather code and hour: codes × hours rows |
| Weather.HourWeatherLayout | dashboard/dashboard.py:257-280 | `weather_long` has codes × hours rows; the row for the c-th code and the i-th hour holds the hour, the code's label and its mean |
| Weather.HourWeatherCells | dashboard/dashboard.py:276-280 | every observed hour and weather code appears in `weather_long` with its label and mean |
| Weather.HourWeatherSound | dashboard/dashboard.py:276-280 | every row of `weather_long` comes from an observed hour and code in that way |
| Tables.WorkingDayIsText | dashboard/dashboard.py:313 | the `object` dtype test holds exactly when some `workingday` entry is text |
| Tables.SeasonIsText | dashboard/dashboard.py:394 | the same test on `season` holds exactly when some entry is text |
| WorkingDay.WorkingDayCode | dashboard/dashboard.py:314-315 | "Weekend" maps to 0 and "Weekday" to 1, each only from that label; anything else becomes NaN |
| WorkingDay.WorkingDayLabel | dashboard/dashboard.py:329-330 | exactly the flags 0 and 1 get a label |
| WorkingDay.LabelRoundTrip | dashboard/dashboard.py:314-330 | encoding a label and decoding the flag gives the label back |
| WorkingDay.FlagRoundTrip | dashboard/dashboard.py:314-330 | decoding a flag and encoding the label gives the flag back |
| WorkingDay.EncodeWorkingDay | dashboard/dashboard.py:313-315 | a column with text is recoded cell by cell; any other column is left unchanged |
| WorkingDay.EncodeWorkingDayIdempotent | dashboard/dashboard.py:312-315 | after encoding no text is left, so encoding again changes nothing |
| WorkingDay.EncodedTextCasts | dashboard/dashboard.py:313-318 | after encoding, a text column casts to integers exactly when every entry is "Weekend" or "Weekday" |
| WorkingDay.WorkingDayIsInt | dashboard/dashboard.py:318 | `astype(int)` succeeds exactly when every entry is a number, and then none is text |
| WorkingDay.AvgByWorkingDay | dashboard/dashboard.py:328-330 | one row per distinct flag, ascending, labelled by the flag's name, with the count and `cnt` total of that flag's rows |
| WorkingDay.AvgByWorkingDayConserves | dashboard/dashboard.py:328 | every row is counted in exactly one flag group |
| WorkingDay.AvgByWorkingDayBars | dashboard/dashboard.py:328-330 | with flags 0 and 1 only, there are at most two bars, both labelled, and "Weekend" comes before "Weekday" |
| WorkingDay.IsConsistentDay | dashboard/dashboard.py:357-358 | a row is consistent exactly when its weekday is a day name and its flag is the one that day must have: 1 for Monday–Friday, 0 for Saturday and Sunday |
| WorkingDay.ConsistentDays | dashboard/dashboard.py:356-359 | `valid_df` holds exactly the rows with Monday–Friday and flag 1 or Saturday/Sunday and flag 0, in table order |
| Calendar.DayRank | dashboard/dashboard.py:227-234 | the sort rank of a weekday under the ordered categories is its position, below 7 exactly for the seven day names, and 7 (NaN, sorted last) for any other text |
| WorkingDay.ConsistentKey | dashboard/dashboard.py:356-361 | a consistent row's key names its day and carries the flag that day must have |
| WorkingDay.AvgByDayType | dashboard/dashboard.py:361-362 | one row per observed (weekday, flag) pair of `valid_df`, labelled, with a non-empty group's count and total |
| WorkingDay.DayTypeKeysConsistent | dashboard/dashboard.py:356-361 | every key is a weekday code with its expected flag, observed on a consistent row |
| WorkingDay.AvgByDayTypeBar | dashboard/dashboard.py:356-362 | every bar names an observed day, "Weekday" for Monday–Friday and "Weekend" for Saturday and Sunday |
| WorkingDay.AvgByDayTypeOrder | dashboard/dashboard.py:321-361 | the bars come strictly in Sunday-to-Saturday order, one per day |
| WorkingDay.AvgByDayTypeConserves | dashboard/dashboard.py:361 | every consistent row is counted in exactly one bar |
| Seasons.CategoryCode | dashboard/dashboard.py:396 | a text value gets a categorical code exactly when it is a category: its first position in the list |
| Seasons.SeasonCode | dashboard/dashboard.py:394-396 | in a text column the key is the category code (NaN otherwise); in a numeric column it is the number itself |
| Seasons.SeasonRows | dashboard/dashboard.py:399 | `groupby` keeps exactly the rows with a known season |
| Seasons.SeasonBreakdown | dashboard/dashboard.py:391-403 | one row per observed (season, flag) pair, in code order, labelled, with a non-empty group's count and total |
| Seasons.SeasonBreakdownConserves | dashboard/dashboard.py:399 | every kept row is counted once and the dropped rows not at all |
| Seasons.SeasonBreakdownLabels | dashboard/dashboard.py:394-403 | in a text column every bar is labelled with one of the categories |
| Seasons.SpringDroppedAsWritten | dashboard/dashboard.py:395-396 | with the categories as written, a day whose season is "Spring" is dropped |
| Seasons.SpringNotACategoryAsWritten | dashboard/dashboard.py:395 | "Spring" is not among the categories as written |
| Seasons.SpringDayAsWritten | dashboard/dashboard.py:395-399 | as written, a table holding one spring weekend day gives no bar at all |
| Seasons.SeasonBreakdownKeepsNamedSeasons | dashboard/dashboard.py:395-399 | with the season names as categories, a table of named seasons loses no row: counts add up to the rows and totals to the column |
| Seasons.SpringDayCorrected | dashboard/dashboard.py:395-403 | corrected, the same day gives one bar, Spring/Weekend, with its count |
| Dashboard.WithWeekdayNames | dashboard/dashboard.py:205-206 | the weekday column is recomputed from each row's date; nothing else changes |
| Dashboard.WithWeekdayNamesLabels | dashboard/dashboard.py:206 | afterwards every row carries its own date's day name, and recomputing changes nothing |
| Dashboard.Prepared | dashboard/dashboard.py:37-39 | the loaded table once sorted and its weekday column recomputed (lines 205-206): a permutation of the loaded rows with their weekdays recomputed, as many rows as loaded, in date order, each row carrying its own date's day name |
| Dashboard.Encoded | dashboard/dashboard.py:313-315 | the prepared table after the working-day encoding: as many rows, no text entry left in `workingday`, and every other field of each row as prepared |
| Dashboard.MainTable | dashboard/dashboard.py:62-63 | `main_df` of the sorted table holds exactly the loaded rows dated within [start, end], each as often as it was loaded, in date order |
| Dashboard.DayData.constructor | dashboard/dashboard.py:20 | the day table starts as the loaded rows |
| Dashboard.DayData.SortByDate | dashboard/dashboard.py:37-39 | the in-place sort leaves a permutation of the rows in date order |
| Dashboard.DayData.AddWeekdayNames | dashboard/dashboard.py:205-206 | the in-place overwrite leaves every row labelled with its date's day name |
| Dashboard.DayData.EncodeWorkingDayColumn | dashboard/dashboard.py:313-318 | the column is encoded in place, and the cast is reported successful exactly when every entry is a number |
| Dashboard.Run | dashboard/dashboard.py:20-403 | the script stops at the peak day exactly when the range selects nothing, and at the cast exactly when the selection is non-empty and a working-day entry is not a number; otherwise it renders the daily table of the selection, non-empty, with its peak; the season view uses the categories as written |
| Dashboard.BreakdownsIgnoreRange | dashboard/dashboard.py:205-403 | the weather, working-day and season views do not depend on the chosen range |
| Dashboard.RenderedViews | dashboard/dashboard.py:161-403 | a rendered run's other views are the melted monthly trend of its daily table, the weekday-by-weather table of the prepared rows, the hour-by-weather table, and the per-flag and per-day-type means of the encoded table |
| Dashboard.RenderedTotals | dashboard/dashboard.py:77-179 | the headline metrics are the totals of the selected rows, and the monthly trend carries the same registered and casual totals |
| Dashboard.RenderedPeak | dashboard/dashboard.py:91-92 | the peak date lies in the chosen range, and no selected date has a higher summed count |
| Dashboard.RenderedWeekdayOrder | dashboard/dashboard.py:205-234 | the rendered weekday-by-weather view names only days and runs from Sunday to Saturday |
| Dashboard.RenderedSeasonView | dashboard/dashboard.py:313-399 | a rendered run has cast its working-day column, and its season view is the breakdown of the prepared table with the categories as written |
| Dashboard.EncodedSeasonIsText | dashboard/dashboard.py:394 | sorting, recomputing the weekday column and encoding the working-day column leave a text `season` column text |
| Dashboard.EncodedSeasons | dashboard/dashboard.py:391-399 | the prepared table has as many rows as the loaded one, and each row's season is that of a loaded row |
| Dashboard.RenderedSeasonsAsWritten | dashboard/dashboard.py:394-403 | over a text `season` column every rendered season bar is one of the categories as written, so none is "Spring" |
| Dashboard.CorrectedSeasonsKeepRows | dashboard/dashboard.py:395-399 | with the season names as categories, a table whose seasons are all named keeps every row in the season view |
| Dashboard.RunCorrected | dashboard/dashboard.py:394-403 | the script with the evidently intended categories renders exactly when the script does, differs only in the season view, and then loses no row of a table whose seasons are all named |
| Dashboard.RunDashboard | dashboard/dashboard.py:20-403 | the in-place run gives `Run`'s outcome; the day table ends up sorted when the range selects nothing, and otherwise sorted, with its weekday column recomputed from the dates and its working-day column encoded |

## Left out

- The page, sidebar, metrics widgets and every chart (Streamlit, Plotly, seaborn). These only display the computed tables.
- Tables.WorkingDayIsText, Tables.SeasonIsText: on an empty table both are false, while pandas gives the column of a header-only file `object` dtype; the script stops at the peak day before either test is reached, so no outcome depends on it.
- Reading `day_data.csv` and `hour_data.csv` (lines 20-21) is I/O. The loaded rows are parameters of the model.
- Date parsing (`pd.to_datetime` at lines 25, 37, 58-59, 205) is not modelled. Dates are already day numbers.
  - The conversion at line 25 writes to a slice of the day table and does not change any value the model reads.
- The date formatting with `strftime` (line 95) is display only.
- The `Period` to timestamp conversion of `year_month` (line 167) is not modelled. Months stay (year, month) pairs, which sort in the same order.
- The categorical cast of `weekday` at line 322 leaves the values unchanged. Its category order is modelled by `Calendar.DayRank`.
- The day table's `weathersit` is modelled as integer weather codes. If the CSV held text labels, the pivot would sort them as text; that case is not modelled.
- The branch for a missing `weathersit` column (lines 209 and 251-252) is not modelled. The record type always has the column.
- Floating-point means and their rounding are modelled exactly, as a total and a count (`Grouping.Mean`).
- Grouping.SortByRank: pandas' default `sort_values` is not stable. The contract promises only a permutation that is sorted by rank, and says nothing about the order of ties.
- Weather.WeekdayWeather: the order of the weather codes within one weekday is not promised, because the script's sort does not fix it.
- Dashboard.DayData.SortByDate: the contract ties the result to the stable `SortByRank`, which keeps rows sharing a date in input order; that is one order pandas may produce, not the one it must.
- An inverted date range (start after end) is not an error: the filter selects nothing and the script then stops at the peak day.
- Caching, concurrency and the page's re-runs on widget changes are not modelled.

## Findings

| source | as written | input that shows it | evidently intended | confidence | as-written member | corrected member |
|---|---|---|---|---|---|---|
| dashboard/dashboard.py:395 | the season categories are `'Springer', 'Summer', 'Fall', 'Winter'`, so a text season "Spring" becomes NaN and `groupby(observed=True)` drops every spring day | a day table whose `season` column holds text and has one row: 2012-01-01, season "Spring", flag 0, `cnt` 100. As written the season breakdown is empty | the category "Spring", the name the commented-out mapping at line 409 uses, giving one Spring/Weekend bar with mean 100 | not executed; it matters only if the CSV spells the season "Spring" | Seasons.SpringDayAsWritten | Seasons.SpringDayCorrected |
