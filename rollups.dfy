/**
 * The date-range selection and the time-based roll-ups of the dashboard:
 * the daily table built from the selected rows, the three headline totals,
 * the peak day and the monthly registered/casual trend in long form.
 */
module Rollups {
  import opened Wrappers
  import opened Ordering
  import opened Grouping
  import opened Reshape
  import opened Calendar
  import opened Tables

  // ---------------------------------------------------------------- date range

  /** The boolean mask `start <= dteday <= end`, both ends inclusive. */
  function InRange(start: int, end: int): (inRange: DayRow -> bool)
    ensures forall x :: inRange(x) <==> start <= x.dteday <= end
  {
    (x: DayRow) => start <= x.dteday <= end
  }

  /**
   * `main_df`: the rows of the day table dated within [start, end], kept in
   * table order. An inverted range selects nothing and is not an error.
   */
  function RangeFilter(rows: seq<DayRow>, start: int, end: int): (r: seq<DayRow>)
    ensures forall i :: 0 <= i < |r| ==> start <= r[i].dteday <= end
    ensures forall x :: x in r <==> x in rows && start <= x.dteday <= end
    ensures IsSubsequence(r, rows)
    ensures start > end ==> r == []
  {
    WhereIsSubsequence(rows, InRange(start, end));
    var r := Where(rows, InRange(start, end));
    assert forall i :: 0 <= i < |r| ==> r[i] in r;
    r
  }

  /** Every row in range is kept as often as it occurs; every other row is dropped. */
  lemma RangeFilterMultiplicity(rows: seq<DayRow>, start: int, end: int, x: DayRow)
    ensures multiset(RangeFilter(rows, start, end))[x]
         == if start <= x.dteday <= end then multiset(rows)[x] else 0
  {
    WhereMultiplicity(rows, InRange(start, end), x);
  }

  /** A table sorted by date (as the script sorts it) stays sorted after selection. */
  lemma RangeFilterSorted(rows: seq<DayRow>, start: int, end: int)
    requires SortedByRank(rows, Date)
    ensures SortedByRank(RangeFilter(rows, start, end), Date)
  {
    WhereKeepsSorted(rows, InRange(start, end), Date);
  }

  /** Selecting the same range twice is selecting it once. */
  lemma RangeFilterIdempotent(rows: seq<DayRow>, start: int, end: int)
    ensures RangeFilter(RangeFilter(rows, start, end), start, end) == RangeFilter(rows, start, end)
  {
    WhereIdempotent(rows, InRange(start, end));
  }

  /** The full range of dates present selects the whole table. */
  lemma RangeFilterFullRange(rows: seq<DayRow>, start: int, end: int)
    requires forall x :: x in rows ==> start <= x.dteday <= end
    ensures RangeFilter(rows, start, end) == rows
  {
    WhereKeepsAll(rows, InRange(start, end));
  }

  // ---------------------------------------------------------------- daily table

  /** A row of `daily_bikesharing_df`: one date with its summed counts and weekday name. */
  datatype DailyRow = DailyRow(dteday: int, cnt: int, registered: int, casual: int, weekday: string)

  /** The `dteday` column of the daily table. */
  function DailyDates(daily: seq<DailyRow>): (ds: seq<int>)
    ensures |ds| == |daily| && forall i :: 0 <= i < |daily| ==> ds[i] == daily[i].dteday
  {
    seq(|daily|, i requires 0 <= i < |daily| => daily[i].dteday)
  }
  function DailyCnt(d: DailyRow): int { d.cnt }
  function DailyRegistered(d: DailyRow): int { d.registered }
  function DailyCasual(d: DailyRow): int { d.casual }

  /** The daily rows for the listed dates, in the order listed. */
  function DailyOver(rows: seq<DayRow>, ds: seq<int>): (r: seq<DailyRow>)
    ensures |r| == |ds|
    ensures forall i :: 0 <= i < |ds| ==>
      r[i] == DailyRow(ds[i],
                       SumOf(Group(rows, Date, ds[i]), Cnt),
                       SumOf(Group(rows, Date, ds[i]), Registered),
                       SumOf(Group(rows, Date, ds[i]), Casual),
                       DayName(ds[i]))
  {
    if ds == [] then []
    else
      [DailyRow(ds[0],
                SumOf(Group(rows, Date, ds[0]), Cnt),
                SumOf(Group(rows, Date, ds[0]), Registered),
                SumOf(Group(rows, Date, ds[0]), Casual),
                DayName(ds[0]))]
      + DailyOver(rows, ds[1..])
  }

  /**
   * `create_daily_bikesharing`: one row per distinct date, ascending, with
   * `cnt`, `registered` and `casual` summed over that date's rows and the
   * English name of its weekday.
   */
  function DailyRollup(rows: seq<DayRow>): (r: seq<DailyRow>)
    ensures forall i, j :: 0 <= i < j < |r| ==> r[i].dteday < r[j].dteday
    ensures forall i :: 0 <= i < |r| ==> Group(rows, Date, r[i].dteday) != []
    ensures forall x :: x in rows ==> x.dteday in DailyDates(r)
    ensures forall i :: 0 <= i < |r| ==>
      && r[i].cnt == SumOf(Group(rows, Date, r[i].dteday), Cnt)
      && r[i].registered == SumOf(Group(rows, Date, r[i].dteday), Registered)
      && r[i].casual == SumOf(Group(rows, Date, r[i].dteday), Casual)
      && r[i].weekday == DayName(r[i].dteday)
  {
    var ds := Keys(rows, Date, IntLess);
    IntLessIsStrictTotal();
    KeysSorted(rows, Date, IntLess);
    KeysHaveRows(rows, Date, IntLess);
    var r := DailyOver(rows, ds);
    assert DailyDates(r) == ds;
    r
  }

  /** Summing the daily rows over the dates gives back the column sums of the dates. */
  lemma {:induction false} DailyOverSums(rows: seq<DayRow>, ds: seq<int>)
    ensures SumOf(DailyOver(rows, ds), DailyCnt) == SumOverKeys(rows, Date, ds, Cnt)
    ensures SumOf(DailyOver(rows, ds), DailyRegistered) == SumOverKeys(rows, Date, ds, Registered)
    ensures SumOf(DailyOver(rows, ds), DailyCasual) == SumOverKeys(rows, Date, ds, Casual)
  {
    if ds != [] {
      DailyOverSums(rows, ds[1..]);
      assert DailyOver(rows, ds)[1..] == DailyOver(rows, ds[1..]);
    }
  }

  /**
   * The three headline metrics: the totals of the daily table equal the
   * totals of the selected rows, so grouping by date loses and duplicates nothing.
   */
  lemma DailyRollupConserves(rows: seq<DayRow>)
    ensures SumOf(DailyRollup(rows), DailyCnt) == SumOf(rows, Cnt)
    ensures SumOf(DailyRollup(rows), DailyRegistered) == SumOf(rows, Registered)
    ensures SumOf(DailyRollup(rows), DailyCasual) == SumOf(rows, Casual)
  {
    var ds := Keys(rows, Date, IntLess);
    IntLessIsStrictTotal();
    KeysSorted(rows, Date, IntLess);
    DailyOverSums(rows, ds);
    SumOverKeysConserves(rows, Date, ds, Cnt);
    SumOverKeysConserves(rows, Date, ds, Registered);
    SumOverKeysConserves(rows, Date, ds, Casual);
  }

  /** When every row's total is its registered plus casual count, so is every day's. */
  lemma DailyRollupKeepsSplit(rows: seq<DayRow>)
    requires forall x :: x in rows ==> x.cnt == x.registered + x.casual
    ensures forall i :: 0 <= i < |DailyRollup(rows)| ==>
      DailyRollup(rows)[i].cnt == DailyRollup(rows)[i].registered + DailyRollup(rows)[i].casual
  {
    var r := DailyRollup(rows);
    forall i | 0 <= i < |r| ensures r[i].cnt == r[i].registered + r[i].casual {
      var g := Group(rows, Date, r[i].dteday);
      SumOfAdds(g, Cnt, Registered, Casual);
    }
  }

  /** A range of one day selects only the row of that day. */
  lemma RangeFilterOneDay(a: DayRow, b: DayRow)
    requires a.dteday == Jan1st2012 && b.dteday == Jan1st2012 + 1
    ensures RangeFilter([a, b], Jan1st2012, Jan1st2012) == [a]
  {
    assert [a, b][1..] == [b] && [b][1..] == [];
    assert Where([b], InRange(a.dteday, a.dteday)) == [];
  }

  /** Two rows on consecutive days: two date keys, ascending, each with its own row as group. */
  lemma TwoDayGroups(a: DayRow, b: DayRow)
    requires b.dteday == a.dteday + 1
    ensures Keys([a, b], Date, IntLess) == [a.dteday, b.dteday]
    ensures Group([a, b], Date, a.dteday) == [a] && Group([a, b], Date, b.dteday) == [b]
  {
    assert [a, b][1..] == [b] && [b][1..] == [];
    assert Keys([b], Date, IntLess) == Insert(b.dteday, [], IntLess) == [b.dteday];
    assert Group([b], Date, a.dteday) == [] && Group([b], Date, b.dteday) == [b];
  }

  /** The sums over a single row are that row's counts. */
  lemma SingleRowSums(a: DayRow)
    ensures SumOf([a], Cnt) == a.cnt && SumOf([a], Registered) == a.registered && SumOf([a], Casual) == a.casual
  {
    assert [a][1..] == [];
  }

  /**
   * Two rows on 2012-01-01 and 2012-01-02 roll up to two daily rows, in date
   * order, carrying their own counts and the names Sunday and Monday.
   */
  lemma DailyRollupTwoDays(a: DayRow, b: DayRow)
    requires a.dteday == Jan1st2012 && b.dteday == Jan1st2012 + 1
    ensures DailyRollup([a, b]) == [DailyRow(a.dteday, a.cnt, a.registered, a.casual, "Sunday"),
                                   DailyRow(b.dteday, b.cnt, b.registered, b.casual, "Monday")]
  {
    TwoDayGroups(a, b);
    SingleRowSums(a);
    SingleRowSums(b);
    WeekdayAnchoredAndCycling(Jan1st2012);
    assert DayName(b.dteday) == DayNames[1];
    var r := DailyOver([a, b], [a.dteday, b.dteday]);
    assert r[0] == DailyRow(a.dteday, a.cnt, a.registered, a.casual, "Sunday");
    assert r[1] == DailyRow(b.dteday, b.cnt, b.registered, b.casual, "Monday");
  }

  // ---------------------------------------------------------------- peak day

  /** The highest daily total and the first date that reaches it. */
  datatype Peak = Peak(maxTotal: int, date: int)

  /** `daily_bikesharing_df['cnt'].max()`. */
  function MaxCnt(daily: seq<DailyRow>): (m: int)
    requires daily != []
    ensures forall i :: 0 <= i < |daily| ==> daily[i].cnt <= m
    ensures exists i :: 0 <= i < |daily| && daily[i].cnt == m
  {
    if |daily| == 1 then daily[0].cnt
    else
      var rest := MaxCnt(daily[1..]);
      assert forall i :: 1 <= i < |daily| ==> daily[i] == daily[1..][i - 1];
      if daily[0].cnt >= rest then daily[0].cnt else rest
  }

  /** The first position holding the total `v`, or `|daily|` when there is none. */
  function FirstWith(daily: seq<DailyRow>, v: int): (k: nat)
    ensures k <= |daily|
    ensures k < |daily| ==> daily[k].cnt == v
    ensures forall j :: 0 <= j < k ==> daily[j].cnt != v
    ensures (exists i :: 0 <= i < |daily| && daily[i].cnt == v) ==> k < |daily|
  {
    if daily == [] then 0
    else if daily[0].cnt == v then 0
    else
      assert forall i :: 1 <= i < |daily| ==> daily[i] == daily[1..][i - 1];
      1 + FirstWith(daily[1..], v)
  }

  /**
   * The peak day: the maximum of `cnt` and the date of the first row
   * attaining it. On an empty daily table the script's `.values[0]` fails;
   * that is `None` here.
   */
  function PeakDay(daily: seq<DailyRow>): (p: Option<Peak>)
    ensures p.None? <==> daily == []
    ensures p.Some? ==> forall i :: 0 <= i < |daily| ==> daily[i].cnt <= p.value.maxTotal
    ensures p.Some? ==>
      exists k :: 0 <= k < |daily| && daily[k].cnt == p.value.maxTotal && daily[k].dteday == p.value.date &&
        (forall j :: 0 <= j < k ==> daily[j].cnt < p.value.maxTotal)
  {
    if daily == [] then None
    else
      var m := MaxCnt(daily);
      var k := FirstWith(daily, m);
      Some(Peak(m, daily[k].dteday))
  }

  /** On a daily table in ascending date order the peak date is the earliest date with the peak total. */
  lemma PeakIsEarliest(daily: seq<DailyRow>)
    requires forall i, j :: 0 <= i < j < |daily| ==> daily[i].dteday < daily[j].dteday
    requires daily != []
    ensures forall i :: 0 <= i < |daily| && daily[i].cnt == PeakDay(daily).value.maxTotal ==>
      PeakDay(daily).value.date <= daily[i].dteday
  {
    var p := PeakDay(daily).value;
    var k :| 0 <= k < |daily| && daily[k].cnt == p.maxTotal && daily[k].dteday == p.date &&
      (forall j :: 0 <= j < k ==> daily[j].cnt < p.maxTotal);
    forall i | 0 <= i < |daily| && daily[i].cnt == p.maxTotal ensures p.date <= daily[i].dteday {
      assert k <= i;
    }
  }

  /** The daily row of a selected row's date carries the summed count of that date. */
  lemma DailyRowOf(rows: seq<DayRow>, x: DayRow) returns (i: nat)
    requires x in rows
    ensures i < |DailyRollup(rows)| && DailyRollup(rows)[i].dteday == x.dteday
    ensures DailyRollup(rows)[i].cnt == SumOf(Group(rows, Date, x.dteday), Cnt)
  {
    var daily := DailyRollup(rows);
    assert x.dteday in DailyDates(daily);
    i :| 0 <= i < |daily| && DailyDates(daily)[i] == x.dteday;
  }

  /** The peak of a non-empty selection exists and is the date of some selected row. */
  lemma PeakDateSelected(rows: seq<DayRow>)
    requires rows != []
    ensures PeakDay(DailyRollup(rows)).Some?
    ensures exists y :: y in rows && y.dteday == PeakDay(DailyRollup(rows)).value.date
  {
    var daily := DailyRollup(rows);
    var _ := DailyRowOf(rows, rows[0]);
    var p := PeakDay(daily).value;
    var k :| 0 <= k < |daily| && daily[k].dteday == p.date;
    var g := Group(rows, Date, daily[k].dteday);
    assert g[0] in g;
  }

  /** The peak total bounds the summed count of every selected date. */
  lemma PeakBoundsDates(rows: seq<DayRow>, x: DayRow)
    requires x in rows
    ensures PeakDay(DailyRollup(rows)).Some?
    ensures SumOf(Group(rows, Date, x.dteday), Cnt) <= PeakDay(DailyRollup(rows)).value.maxTotal
  {
    var i := DailyRowOf(rows, x);
  }

  // ---------------------------------------------------------------- monthly trend

  /** A row of the daily table with its `year_month` period appended. */
  datatype MonthTagged = MonthTagged(day: DailyRow, yearMonth: (int, int))

  function TagMonth(t: MonthTagged): (int, int) { t.yearMonth }
  function TagRegistered(t: MonthTagged): int { t.day.registered }
  function TagCasual(t: MonthTagged): int { t.day.casual }

  /** Appending `year_month` to every daily row; the other columns are unchanged. */
  function AddYearMonth(daily: seq<DailyRow>): (r: seq<MonthTagged>)
    ensures |r| == |daily|
    ensures forall i :: 0 <= i < |r| ==> r[i].day == daily[i] && r[i].yearMonth == YearMonth(daily[i].dteday)
  {
    seq(|daily|, i requires 0 <= i < |daily| => MonthTagged(daily[i], YearMonth(daily[i].dteday)))
  }

  /** The tagged rows carry the same registered and casual totals as the daily rows. */
  lemma {:induction false} AddYearMonthSums(daily: seq<DailyRow>)
    ensures SumOf(AddYearMonth(daily), TagRegistered) == SumOf(daily, DailyRegistered)
    ensures SumOf(AddYearMonth(daily), TagCasual) == SumOf(daily, DailyCasual)
  {
    if daily != [] {
      AddYearMonthSums(daily[1..]);
      assert AddYearMonth(daily)[1..] == AddYearMonth(daily[1..]);
    }
  }

  /** A row of `monthly_trend`. */
  datatype MonthRow = MonthRow(yearMonth: (int, int), registered: int, casual: int)

  function MonthRegistered(m: MonthRow): int { m.registered }
  function MonthCasual(m: MonthRow): int { m.casual }

  function MonthlyOver(tagged: seq<MonthTagged>, ms: seq<(int, int)>): (r: seq<MonthRow>)
    ensures |r| == |ms|
    ensures forall i :: 0 <= i < |ms| ==>
      r[i] == MonthRow(ms[i],
                       SumOf(Group(tagged, TagMonth, ms[i]), TagRegistered),
                       SumOf(Group(tagged, TagMonth, ms[i]), TagCasual))
  {
    if ms == [] then []
    else
      [MonthRow(ms[0],
                SumOf(Group(tagged, TagMonth, ms[0]), TagRegistered),
                SumOf(Group(tagged, TagMonth, ms[0]), TagCasual))]
      + MonthlyOver(tagged, ms[1..])
  }

  /**
   * `monthly_trend`: one row per observed month, in (year, month) order, with
   * the registered and casual counts summed over that month's days.
   */
  function MonthlyTrend(tagged: seq<MonthTagged>): (r: seq<MonthRow>)
    ensures forall i, j :: 0 <= i < j < |r| ==> PairLess(r[i].yearMonth, r[j].yearMonth)
    ensures forall i :: 0 <= i < |r| ==> Group(tagged, TagMonth, r[i].yearMonth) != []
    ensures forall i :: 0 <= i < |r| ==>
      && r[i].registered == SumOf(Group(tagged, TagMonth, r[i].yearMonth), TagRegistered)
      && r[i].casual == SumOf(Group(tagged, TagMonth, r[i].yearMonth), TagCasual)
  {
    var ms := Keys(tagged, TagMonth, PairLess);
    PairLessIsStrictTotal();
    KeysSorted(tagged, TagMonth, PairLess);
    KeysHaveRows(tagged, TagMonth, PairLess);
    MonthlyOver(tagged, ms)
  }

  /** Every month of a tagged row has its row in the monthly trend. */
  lemma MonthlyTrendCovers(tagged: seq<MonthTagged>, t: MonthTagged)
    requires t in tagged
    ensures exists i :: 0 <= i < |MonthlyTrend(tagged)| && MonthlyTrend(tagged)[i].yearMonth == t.yearMonth
  {
    var ms := Keys(tagged, TagMonth, PairLess);
    assert TagMonth(t) in ms;
    var i :| 0 <= i < |ms| && ms[i] == t.yearMonth;
    assert MonthlyTrend(tagged)[i].yearMonth == t.yearMonth;
  }

  /**
   * The monthly trend is chronological: every day of an earlier row of the
   * trend comes before every day of a later row.
   */
  lemma MonthlyTrendChronological(daily: seq<DailyRow>, i: nat, j: nat, x: DailyRow, y: DailyRow)
    requires i < j < |MonthlyTrend(AddYearMonth(daily))|
    requires YearMonth(x.dteday) == MonthlyTrend(AddYearMonth(daily))[i].yearMonth
    requires YearMonth(y.dteday) == MonthlyTrend(AddYearMonth(daily))[j].yearMonth
    ensures x.dteday < y.dteday
  {
    EarlierMonthEarlierDay(x.dteday, y.dteday);
  }

  lemma {:induction false} MonthlyOverSums(tagged: seq<MonthTagged>, ms: seq<(int, int)>)
    ensures SumOf(MonthlyOver(tagged, ms), MonthRegistered) == SumOverKeys(tagged, TagMonth, ms, TagRegistered)
    ensures SumOf(MonthlyOver(tagged, ms), MonthCasual) == SumOverKeys(tagged, TagMonth, ms, TagCasual)
  {
    if ms != [] {
      MonthlyOverSums(tagged, ms[1..]);
      assert MonthlyOver(tagged, ms)[1..] == MonthlyOver(tagged, ms[1..]);
    }
  }

  /**
   * From the selected rows to the monthly trend nothing is lost: the monthly
   * registered and casual totals add up to those of the selected rows.
   */
  lemma MonthlyTrendConserves(rows: seq<DayRow>)
    ensures SumOf(MonthlyTrend(AddYearMonth(DailyRollup(rows))), MonthRegistered) == SumOf(rows, Registered)
    ensures SumOf(MonthlyTrend(AddYearMonth(DailyRollup(rows))), MonthCasual) == SumOf(rows, Casual)
  {
    var tagged := AddYearMonth(DailyRollup(rows));
    var ms := Keys(tagged, TagMonth, PairLess);
    PairLessIsStrictTotal();
    KeysSorted(tagged, TagMonth, PairLess);
    MonthlyOverSums(tagged, ms);
    SumOverKeysConserves(tagged, TagMonth, ms, TagRegistered);
    SumOverKeysConserves(tagged, TagMonth, ms, TagCasual);
    AddYearMonthSums(DailyRollup(rows));
    DailyRollupConserves(rows);
  }

  /** The legend labels that replace the melted column names. */
  function UserTypeLabel(s: string): (l: Option<string>)
    ensures l.Some? <==> s == "registered" || s == "casual"
  {
    if s == "registered" then Some("Registered Users")
    else if s == "casual" then Some("Casual Users")
    else None
  }

  /** `monthly_trend` laid out wide: the months as index, `registered` and `casual` as columns. */
  function MonthlyWide(m: seq<MonthRow>): (w: Wide<(int, int), string, int>)
    ensures w.Valid()
    ensures w.index == seq(|m|, i requires 0 <= i < |m| => m[i].yearMonth)
    ensures w.columns == ["registered", "casual"]
    ensures w.cells == [seq(|m|, i requires 0 <= i < |m| => m[i].registered),
                        seq(|m|, i requires 0 <= i < |m| => m[i].casual)]
  {
    Wide(seq(|m|, i requires 0 <= i < |m| => m[i].yearMonth),
         ["registered", "casual"],
         [seq(|m|, i requires 0 <= i < |m| => m[i].registered),
          seq(|m|, i requires 0 <= i < |m| => m[i].casual)])
  }

  /** `monthly_trend_melted`, its `user_type` column relabelled. */
  function MeltMonthly(m: seq<MonthRow>): (r: seq<Long<(int, int), Option<string>, int>>)
    ensures |r| == 2 * |m|
    ensures forall k :: 0 <= k < |r| ==> r[k].variable == Some("Registered Users") || r[k].variable == Some("Casual Users")
  {
    MeltLabels(MonthlyWide(m));
    MapVariable(Melt(MonthlyWide(m)), UserTypeLabel)
  }

  /**
   * The long form has two rows per month: all "Registered Users" rows first,
   * in month order, then all "Casual Users" rows, each with the month's count.
   */
  lemma MeltMonthlyLayout(m: seq<MonthRow>)
    ensures |MeltMonthly(m)| == 2 * |m|
    ensures forall i :: 0 <= i < |m| ==>
      MeltMonthly(m)[i] == Long(m[i].yearMonth, Some("Registered Users"), m[i].registered)
    ensures forall i :: 0 <= i < |m| ==>
      MeltMonthly(m)[|m| + i] == Long(m[i].yearMonth, Some("Casual Users"), m[i].casual)
  {
    var w := MonthlyWide(m);
    forall i | 0 <= i < |m|
      ensures MeltMonthly(m)[i] == Long(m[i].yearMonth, Some("Registered Users"), m[i].registered)
      ensures MeltMonthly(m)[|m| + i] == Long(m[i].yearMonth, Some("Casual Users"), m[i].casual)
    {
      MeltAt(w, 0, i);
      MeltAt(w, 1, i);
    }
  }
}
