/**
 * The script as a whole: the module-level day table that is sorted and
 * has columns overwritten in place, and the order in which the views are
 * computed from it. Only the daily and monthly views read the date-filtered
 * selection; every breakdown reads the whole table. The script stops at the
 * peak day when the range selects nothing, and at the integer cast when a
 * working-day entry is not a number.
 */
module Dashboard {
  import opened Wrappers
  import opened Ordering
  import opened Grouping
  import opened Reshape
  import opened Calendar
  import opened Tables
  import opened Rollups
  import opened Weather
  import opened WorkingDay
  import opened Seasons

  /** The `weekday` column recomputed from the dates; no other column changes. */
  function WithWeekdayNames(rows: seq<DayRow>): (r: seq<DayRow>)
    ensures |r| == |rows|
    ensures forall i :: 0 <= i < |r| ==> r[i] == rows[i].(weekday := DayName(rows[i].dteday))
  {
    seq(|rows|, i requires 0 <= i < |rows| => rows[i].(weekday := DayName(rows[i].dteday)))
  }

  /** After the recomputation every row is labelled with its own day name, and redoing it changes nothing. */
  lemma WithWeekdayNamesLabels(rows: seq<DayRow>)
    ensures forall x :: x in WithWeekdayNames(rows) ==> x.weekday == DayName(x.dteday) && x.weekday in DayNames
    ensures WithWeekdayNames(WithWeekdayNames(rows)) == WithWeekdayNames(rows)
  {
  }

  /** The loaded `day_data.csv`, changed in place by the script. */
  class DayData {
    var rows: seq<DayRow>

    constructor (loaded: seq<DayRow>)
      ensures rows == loaded
    {
      rows := loaded;
    }

    /** `sort_values(by='dteday', inplace=True)` and `reset_index`: the same rows in date order. */
    method SortByDate()
      modifies this
      ensures rows == SortByRank(old(rows), Date)
      ensures multiset(rows) == multiset(old(rows)) && SortedByRank(rows, Date)
    {
      rows := SortByRank(rows, Date);
    }

    /** Overwriting `weekday` with the day name of each date. */
    method AddWeekdayNames()
      modifies this
      ensures rows == WithWeekdayNames(old(rows))
      ensures forall x :: x in rows ==> x.weekday == DayName(x.dteday)
    {
      rows := WithWeekdayNames(rows);
      WithWeekdayNamesLabels(old(rows));
    }

    /**
     * The guarded label-to-flag `map` followed by `astype(int)`; `ok` says
     * whether the cast succeeds (it raises otherwise).
     */
    method EncodeWorkingDayColumn() returns (ok: bool)
      modifies this
      ensures rows == EncodeWorkingDay(old(rows))
      ensures ok <==> WorkingDayIsInt(rows)
    {
      rows := EncodeWorkingDay(rows);
      ok := forall i | 0 <= i < |rows| :: rows[i].workingday.Num?;
    }
  }

  /** Why the script stops early. */
  datatype Stop =
    | NoDayInRange          // `.values[0]` on an empty selection
    | WorkingDayNotInteger  // `astype(int)` on a NaN or text entry

  /** The three headline metrics over the daily table. */
  datatype Totals = Totals(registered: int, total: int, casual: int)

  /** Every table the script charts. */
  datatype Views = Views(
    daily: seq<DailyRow>,
    totals: Totals,
    peak: Peak,
    monthly: seq<Long<(int, int), Option<string>, int>>,
    weekdayWeather: seq<WeekdayCell>,
    hourWeather: seq<HourCell>,
    byWorkingDay: seq<Agg<Option<string>>>,
    byDayType: seq<Agg<(string, Option<string>)>>,
    bySeason: seq<Agg<(Cell, Option<string>)>>)

  datatype Outcome = Rendered(views: Views) | Stopped(reason: Stop)

  /** Sorting by date keeps the rows: the same count and the same members. */
  lemma SortedSameRows(loaded: seq<DayRow>)
    ensures |SortByRank(loaded, Date)| == |loaded|
    ensures forall x :: x in SortByRank(loaded, Date) <==> x in loaded
  {
    var sorted := SortByRank(loaded, Date);
    assert |sorted| == |multiset(sorted)| == |multiset(loaded)| == |loaded|;
    forall x ensures x in sorted <==> x in loaded {
      assert x in sorted <==> x in multiset(sorted);
      assert x in loaded <==> x in multiset(loaded);
    }
  }

  /** Recomputing the weekday names keeps the date order. */
  lemma WithWeekdayNamesSorted(sorted: seq<DayRow>)
    requires SortedByRank(sorted, Date)
    ensures SortedByRank(WithWeekdayNames(sorted), Date)
  {
    var r := WithWeekdayNames(sorted);
    forall i, j | 0 <= i < j < |r| ensures Date(r[i]) <= Date(r[j]) {
      assert Date(r[i]) == Date(sorted[i]) && Date(r[j]) == Date(sorted[j]);
    }
  }

  /** Recomputing the weekday names maps each row to the same row with its own date's weekday. */
  lemma WithWeekdayNamesMembers(rows: seq<DayRow>)
    ensures forall x :: x in rows ==> x.(weekday := DayName(x.dteday)) in WithWeekdayNames(rows)
    ensures forall y :: y in WithWeekdayNames(rows) ==> exists x :: x in rows && y == x.(weekday := DayName(x.dteday))
  {
    var r := WithWeekdayNames(rows);
    forall x | x in rows ensures x.(weekday := DayName(x.dteday)) in r {
      var i :| 0 <= i < |rows| && rows[i] == x;
      assert r[i] == x.(weekday := DayName(x.dteday));
    }
    forall y | y in r ensures exists x :: x in rows && y == x.(weekday := DayName(x.dteday)) {
      var i :| 0 <= i < |r| && r[i] == y;
      assert rows[i] in rows;
    }
  }

  /** Recomputing the weekday names distributes over concatenation. */
  lemma WithWeekdayNamesAppend(xs: seq<DayRow>, ys: seq<DayRow>)
    ensures WithWeekdayNames(xs + ys) == WithWeekdayNames(xs) + WithWeekdayNames(ys)
  {
    var l := WithWeekdayNames(xs + ys);
    var r := WithWeekdayNames(xs) + WithWeekdayNames(ys);
    forall i | 0 <= i < |l| ensures l[i] == r[i] {
      if i < |xs| {
        assert (xs + ys)[i] == xs[i];
      } else {
        assert (xs + ys)[i] == ys[i - |xs|];
      }
    }
  }

  /** Two orderings of the same rows give the same rows once their weekday names are recomputed. */
  lemma {:induction false} WithWeekdayNamesPermutes(xs: seq<DayRow>, ys: seq<DayRow>)
    requires multiset(xs) == multiset(ys)
    ensures multiset(WithWeekdayNames(xs)) == multiset(WithWeekdayNames(ys))
    decreases |xs|
  {
    if xs != [] {
      var x := xs[0];
      assert x in multiset(ys);
      var k :| 0 <= k < |ys| && ys[k] == x;
      var rest := ys[..k] + ys[k + 1..];
      assert ys == ys[..k] + [x] + ys[k + 1..];
      assert xs == [x] + xs[1..];
      assert multiset(ys) == multiset(ys[..k]) + multiset{x} + multiset(ys[k + 1..]);
      assert multiset(xs) == multiset{x} + multiset(xs[1..]);
      assert multiset(rest) == multiset(ys[..k]) + multiset(ys[k + 1..]);
      forall z ensures multiset(xs[1..])[z] == multiset(rest)[z] {
        assert multiset(xs)[z] == multiset{x}[z] + multiset(xs[1..])[z];
        assert multiset(ys)[z] == multiset{x}[z] + multiset(rest)[z];
      }
      assert multiset(xs[1..]) == multiset(rest);
      WithWeekdayNamesPermutes(xs[1..], rest);
      WithWeekdayNamesAppend([x], xs[1..]);
      WithWeekdayNamesAppend(ys[..k] + [x], ys[k + 1..]);
      WithWeekdayNamesAppend(ys[..k], [x]);
      WithWeekdayNamesAppend(ys[..k], ys[k + 1..]);
    }
  }

  /** Filtering the sorted table keeps each in-range row as often as it was loaded. */
  lemma RangeFilterCounts(loaded: seq<DayRow>, start: int, end: int)
    ensures forall x :: multiset(RangeFilter(SortByRank(loaded, Date), start, end))[x] ==
                        if start <= x.dteday <= end then multiset(loaded)[x] else 0
  {
    forall x ensures multiset(RangeFilter(SortByRank(loaded, Date), start, end))[x]
      == if start <= x.dteday <= end then multiset(loaded)[x] else 0 {
      RangeFilterMultiplicity(SortByRank(loaded, Date), start, end, x);
    }
  }

  /**
   * The day table once sorted and its weekday names recomputed: the loaded
   * rows in date order, each with the weekday of its own date.
   */
  function Prepared(loaded: seq<DayRow>): (r: seq<DayRow>)
    ensures |r| == |loaded|
    ensures SortedByRank(r, Date)
    ensures forall i :: 0 <= i < |r| ==> r[i].weekday == DayName(r[i].dteday)
    ensures forall x :: x in loaded ==> x.(weekday := DayName(x.dteday)) in r
    ensures forall y :: y in r ==> exists x :: x in loaded && y == x.(weekday := DayName(x.dteday))
    ensures multiset(r) == multiset(WithWeekdayNames(loaded))
  {
    SortedSameRows(loaded);
    WithWeekdayNamesPermutes(SortByRank(loaded, Date), loaded);
    WithWeekdayNamesSorted(SortByRank(loaded, Date));
    WithWeekdayNamesMembers(SortByRank(loaded, Date));
    WithWeekdayNames(SortByRank(loaded, Date))
  }

  /** The day table as the working-day breakdowns see it: the prepared rows with only `workingday` encoded. */
  function Encoded(loaded: seq<DayRow>): (r: seq<DayRow>)
    ensures |r| == |loaded|
    ensures !WorkingDayIsText(r)
    ensures forall i :: 0 <= i < |r| ==> r[i].(workingday := Prepared(loaded)[i].workingday) == Prepared(loaded)[i]
  {
    EncodeWorkingDayIdempotent(Prepared(loaded));
    EncodeWorkingDay(Prepared(loaded))
  }

  /** `main_df`: exactly the loaded rows dated within the chosen range, in date order. */
  function MainTable(loaded: seq<DayRow>, start: int, end: int): (r: seq<DayRow>)
    ensures forall x :: x in r <==> x in loaded && start <= x.dteday <= end
    ensures SortedByRank(r, Date)
    ensures forall x :: multiset(r)[x] == if start <= x.dteday <= end then multiset(loaded)[x] else 0
  {
    SortedSameRows(loaded);
    RangeFilterCounts(loaded, start, end);
    RangeFilterSorted(SortByRank(loaded, Date), start, end);
    RangeFilter(SortByRank(loaded, Date), start, end)
  }

  /**
   * The script from the loaded tables and the chosen range to its views,
   * stopping where it raises: with no day in range at the peak day, and
   * with an unconvertible working-day entry at the cast.
   */
  function Run(loaded: seq<DayRow>, hours: seq<HourRow>, start: int, end: int): (o: Outcome)
    ensures o == Stopped(NoDayInRange) <==> MainTable(loaded, start, end) == []
    ensures o == Stopped(WorkingDayNotInteger) <==>
      MainTable(loaded, start, end) != [] && !WorkingDayIsInt(Encoded(loaded))
    ensures o.Rendered? ==>
      && o.views.daily == DailyRollup(MainTable(loaded, start, end))
      && o.views.daily != []
      && Some(o.views.peak) == PeakDay(o.views.daily)
  {
    var main := MainTable(loaded, start, end);
    var daily := DailyRollup(main);
    if main != [] then
      assert main[0] in main;
      match PeakDay(daily)
      case None => Stopped(NoDayInRange)
      case Some(peak) =>
        var table := Encoded(loaded);
        if !WorkingDayIsInt(table) then Stopped(WorkingDayNotInteger)
        else
          Rendered(Views(
            daily,
            Totals(SumOf(daily, DailyRegistered), SumOf(daily, DailyCnt), SumOf(daily, DailyCasual)),
            peak,
            MeltMonthly(MonthlyTrend(AddYearMonth(daily))),
            WeekdayWeather(Prepared(loaded)),
            HourWeather(hours),
            AvgByWorkingDay(table),
            AvgByDayType(table),
            SeasonBreakdown(table, SeasonCategoriesAsWritten)))
    else
      Stopped(NoDayInRange)
  }

  /**
   * The date range reaches only the daily, total, peak and monthly views:
   * two rendered runs over the same tables have the same breakdowns,
   * whatever their ranges.
   */
  lemma BreakdownsIgnoreRange(loaded: seq<DayRow>, hours: seq<HourRow>, s1: int, e1: int, s2: int, e2: int)
    requires Run(loaded, hours, s1, e1).Rendered? && Run(loaded, hours, s2, e2).Rendered?
    ensures
      var v1 := Run(loaded, hours, s1, e1).views;
      var v2 := Run(loaded, hours, s2, e2).views;
      && v1.weekdayWeather == v2.weekdayWeather
      && v1.hourWeather == v2.hourWeather
      && v1.byWorkingDay == v2.byWorkingDay
      && v1.byDayType == v2.byDayType
      && v1.bySeason == v2.bySeason
  {
  }

  /**
   * The remaining views of a rendered run: the melted monthly trend of the
   * daily table, the weekday-by-weather and hour-by-weather tables, and the
   * two working-day breakdowns of the encoded table.
   */
  lemma RenderedViews(loaded: seq<DayRow>, hours: seq<HourRow>, start: int, end: int)
    requires Run(loaded, hours, start, end).Rendered?
    ensures
      var v := Run(loaded, hours, start, end).views;
      && v.monthly == MeltMonthly(MonthlyTrend(AddYearMonth(v.daily)))
      && v.weekdayWeather == WeekdayWeather(Prepared(loaded))
      && v.hourWeather == HourWeather(hours)
      && v.byWorkingDay == AvgByWorkingDay(Encoded(loaded))
      && v.byDayType == AvgByDayType(Encoded(loaded))
  {
  }

  /**
   * The headline metrics are the totals of the selected rows, and the
   * monthly long table carries those same registered and casual totals.
   */
  lemma RenderedTotals(loaded: seq<DayRow>, hours: seq<HourRow>, start: int, end: int)
    requires Run(loaded, hours, start, end).Rendered?
    ensures
      var v := Run(loaded, hours, start, end).views;
      var main := MainTable(loaded, start, end);
      && v.totals == Totals(SumOf(main, Registered), SumOf(main, Cnt), SumOf(main, Casual))
      && SumOf(MonthlyTrend(AddYearMonth(v.daily)), MonthRegistered) == v.totals.registered
      && SumOf(MonthlyTrend(AddYearMonth(v.daily)), MonthCasual) == v.totals.casual
  {
    var main := MainTable(loaded, start, end);
    DailyRollupConserves(main);
    MonthlyTrendConserves(main);
  }

  /** The peak date is a selected date, and no selected day has a higher total. */
  lemma RenderedPeak(loaded: seq<DayRow>, hours: seq<HourRow>, start: int, end: int)
    requires Run(loaded, hours, start, end).Rendered?
    ensures
      var p := Run(loaded, hours, start, end).views.peak;
      && start <= p.date <= end
      && forall x :: x in MainTable(loaded, start, end) ==> SumOf(Group(MainTable(loaded, start, end), Date, x.dteday), Cnt) <= p.maxTotal
  {
    var main := MainTable(loaded, start, end);
    PeakDateSelected(main);
    forall x | x in main ensures SumOf(Group(main, Date, x.dteday), Cnt) <= Run(loaded, hours, start, end).views.peak.maxTotal {
      PeakBoundsDates(main, x);
    }
  }

  /** The weekday-by-weather view runs from Sunday to Saturday. */
  lemma RenderedWeekdayOrder(loaded: seq<DayRow>, hours: seq<HourRow>, start: int, end: int)
    requires Run(loaded, hours, start, end).Rendered?
    ensures
      var w := Run(loaded, hours, start, end).views.weekdayWeather;
      && (forall k :: 0 <= k < |w| ==> w[k].id in DayNames)
      && forall i, j :: 0 <= i < j < |w| ==> DayCode(w[i].id).value <= DayCode(w[j].id).value
  {
    WithWeekdayNamesLabels(SortByRank(loaded, Date));
    WeekdayWeatherDayOrder(Prepared(loaded));
  }

  /** The sort, the weekday names and the encoding leave the `season` column's dtype as loaded. */
  lemma EncodedSeasonIsText(loaded: seq<DayRow>)
    requires SeasonIsText(loaded)
    ensures SeasonIsText(Encoded(loaded))
  {
    var x :| x in loaded && x.season.Text?;
    var sorted := SortByRank(loaded, Date);
    assert x in multiset(sorted);
    var i :| 0 <= i < |sorted| && sorted[i] == x;
    var named := WithWeekdayNames(sorted);
    assert named[i].season == x.season;
    assert Encoded(loaded)[i].season == x.season;
  }

  /** A rendered run cast its working-day column and broke the seasons down with the list as written. */
  lemma RenderedSeasonView(loaded: seq<DayRow>, hours: seq<HourRow>, start: int, end: int)
    requires Run(loaded, hours, start, end).Rendered?
    ensures WorkingDayIsInt(Encoded(loaded))
    ensures Run(loaded, hours, start, end).views.bySeason == SeasonBreakdown(Encoded(loaded), SeasonCategoriesAsWritten)
  {
  }

  /**
   * With the category list as written, a rendered season view over a text
   * `season` column labels every bar with one of those categories, so no bar
   * is "Spring": the spring days are missing from the chart.
   */
  lemma RenderedSeasonsAsWritten(loaded: seq<DayRow>, hours: seq<HourRow>, start: int, end: int, i: nat)
    requires Run(loaded, hours, start, end).Rendered?
    requires SeasonIsText(loaded)
    requires i < |Run(loaded, hours, start, end).views.bySeason|
    ensures
      var bar := Run(loaded, hours, start, end).views.bySeason[i];
      bar.key.0.Text? && bar.key.0.s in SeasonCategoriesAsWritten && bar.key.0 != Text("Spring")
  {
    var table := Encoded(loaded);
    RenderedSeasonView(loaded, hours, start, end);
    EncodedSeasonIsText(loaded);
    SeasonBreakdownLabels(table, SeasonCategoriesAsWritten, i);
    SpringNotACategoryAsWritten();
  }

  /** Every row of the prepared table carries the season of some loaded row, and no row is added or lost. */
  lemma EncodedSeasons(loaded: seq<DayRow>)
    ensures |Encoded(loaded)| == |loaded|
    ensures forall y :: y in Encoded(loaded) ==> exists x :: x in loaded && x.season == y.season
  {
    var sorted := SortByRank(loaded, Date);
    assert |sorted| == |multiset(sorted)| == |multiset(loaded)| == |loaded|;
    forall y | y in Encoded(loaded) ensures exists x :: x in loaded && x.season == y.season {
      var i :| 0 <= i < |Encoded(loaded)| && Encoded(loaded)[i] == y;
      assert sorted[i] in multiset(loaded);
      assert y.season == sorted[i].season;
    }
  }

  /** With the corrected categories, named seasons keep every prepared row in the season view. */
  lemma CorrectedSeasonsKeepRows(loaded: seq<DayRow>)
    requires WorkingDayIsInt(Encoded(loaded))
    ensures (forall x :: x in loaded ==> x.season.Text? && x.season.s in SeasonNames) ==>
      SumOf(SeasonBreakdown(Encoded(loaded), SeasonNames), AggCount) == |loaded|
  {
    EncodedSeasons(loaded);
    if forall x :: x in loaded ==> x.season.Text? && x.season.s in SeasonNames {
      SeasonBreakdownKeepsNamedSeasons(Encoded(loaded));
    }
  }

  /**
   * The script with the season categories it evidently means: the outcome
   * of `Run` with only the season view replaced. With those categories a
   * table whose seasons are all named loses no row from the season view.
   */
  function RunCorrected(loaded: seq<DayRow>, hours: seq<HourRow>, start: int, end: int): (o: Outcome)
    ensures o.Rendered? <==> Run(loaded, hours, start, end).Rendered?
    ensures !o.Rendered? ==> o == Run(loaded, hours, start, end)
    ensures o.Rendered? ==> o.views.(bySeason := []) == Run(loaded, hours, start, end).views.(bySeason := [])
    ensures o.Rendered? && (forall x :: x in loaded ==> x.season.Text? && x.season.s in SeasonNames) ==>
      SumOf(o.views.bySeason, AggCount) == |loaded|
  {
    match Run(loaded, hours, start, end)
    case Rendered(v) =>
      RenderedSeasonView(loaded, hours, start, end);
      CorrectedSeasonsKeepRows(loaded);
      Rendered(v.(bySeason := SeasonBreakdown(Encoded(loaded), SeasonNames)))
    case Stopped(reason) => Stopped(reason)
  }

  /**
   * The state-changing run: the day table is sorted in place, its weekday
   * column recomputed and its working-day column encoded, in the script's
   * order, and the outcome is the one `Run` describes.
   */
  method RunDashboard(day: DayData, hours: seq<HourRow>, start: int, end: int) returns (out: Outcome)
    modifies day
    ensures out == Run(old(day.rows), hours, start, end)
    ensures out == Stopped(NoDayInRange) ==> day.rows == SortByRank(old(day.rows), Date)
    ensures out != Stopped(NoDayInRange) ==> day.rows == Encoded(old(day.rows))
  {
    ghost var loaded := day.rows;
    day.SortByDate();
    var main := RangeFilter(day.rows, start, end);
    var daily := DailyRollup(main);
    var peak := PeakDay(daily);
    if peak.None? {
      out := Stopped(NoDayInRange);
      return;
    }
    var totals := Totals(SumOf(daily, DailyRegistered), SumOf(daily, DailyCnt), SumOf(daily, DailyCasual));
    var monthly := MeltMonthly(MonthlyTrend(AddYearMonth(daily)));
    day.AddWeekdayNames();
    var weekdayWeather := WeekdayWeather(day.rows);
    var hourWeather := HourWeather(hours);
    var ok := day.EncodeWorkingDayColumn();
    if !ok {
      out := Stopped(WorkingDayNotInteger);
      return;
    }
    out := Rendered(Views(daily, totals, peak.value, monthly, weekdayWeather, hourWeather,
                          AvgByWorkingDay(day.rows), AvgByDayType(day.rows), SeasonBreakdown(day.rows, SeasonCategoriesAsWritten)));
  }
}
