/**
 * The two weather breakdowns, both over the unfiltered tables: the mean
 * daily count per (weekday, weather code), melted and put in Sunday-to-Saturday
 * order, and the mean hourly count per (hour, weather label), melted.
 */
module Weather {
  import opened Wrappers
  import opened Ordering
  import opened Grouping
  import opened Reshape
  import opened Calendar
  import opened Tables

  // ---------------------------------------------------------------- weekday x weather

  /** A row of `pivot_long`: weekday, weather code and mean count (NaN as `None`). */
  type WeekdayCell = Long<string, int, Option<Mean>>

  /** The sort key of `pivot_long`: the rank of the row's weekday category. */
  function WeekdayRank(l: WeekdayCell): int
  {
    DayRank(l.id)
  }

  /** The melted weekday-by-weather pivot, before sorting. */
  function WeekdayPivotLong(rows: seq<DayRow>): (r: seq<WeekdayCell>)
    ensures |r| == |Keys(rows, Weathersit, IntLess)| * |Keys(rows, WeekdayText, StrLess)|
    ensures forall k :: 0 <= k < |r| ==>
      r[k].id in Keys(rows, WeekdayText, StrLess) && r[k].variable in Keys(rows, Weathersit, IntLess)
  {
    MeltLabels(PivotMean(rows, WeekdayText, StrLess, Weathersit, Cnt));
    Melt(PivotMean(rows, WeekdayText, StrLess, Weathersit, Cnt))
  }

  /**
   * `pivot_long` after `sort_values(by='weekday')`: a reordering of the
   * melted pivot, ordered by weekday; the order of the weather codes within
   * one weekday is not promised.
   */
  function WeekdayWeather(rows: seq<DayRow>): (r: seq<WeekdayCell>)
    ensures multiset(r) == multiset(WeekdayPivotLong(rows))
    ensures SortedByRank(r, WeekdayRank)
  {
    SortByRank(WeekdayPivotLong(rows), WeekdayRank)
  }

  /**
   * An entry of the sorted table is exactly an observed weekday with an
   * observed weather code and the mean of `cnt` over the rows with both,
   * NaN when no row has the pair.
   */
  lemma WeekdayWeatherCells(rows: seq<DayRow>, l: WeekdayCell)
    ensures l in WeekdayWeather(rows) <==>
      && l.id in Keys(rows, WeekdayText, StrLess)
      && l.variable in Keys(rows, Weathersit, IntLess)
      && l.value == MeanOf(CellRows(rows, WeekdayText, Weathersit, l.id, l.variable), Cnt)
    ensures l in WeekdayWeather(rows) ==>
      (l.value.None? <==> forall x :: x in rows ==> !(x.weekday == l.id && x.weathersit == l.variable))
  {
    var r := WeekdayWeather(rows);
    assert l in r <==> l in WeekdayPivotLong(rows) by {
      assert l in r <==> l in multiset(r);
    }
    if l in r {
      PivotMeltSound(rows, WeekdayText, StrLess, Weathersit, Cnt, l);
    }
    if l.id in Keys(rows, WeekdayText, StrLess) && l.variable in Keys(rows, Weathersit, IntLess) {
      PivotMeltComplete(rows, WeekdayText, StrLess, Weathersit, Cnt, l.id, l.variable);
    }
    CellMeaning(rows, WeekdayText, Weathersit, Cnt, l.id, l.variable);
  }

  /**
   * Once every weekday cell holds the name of its date's day, the sorted
   * table runs from Sunday to Saturday: each entry's weekday is a day name
   * and the day codes never decrease.
   */
  lemma WeekdayWeatherDayOrder(rows: seq<DayRow>)
    requires forall x :: x in rows ==> x.weekday == DayName(x.dteday)
    ensures forall k :: 0 <= k < |WeekdayWeather(rows)| ==> WeekdayWeather(rows)[k].id in DayNames
    ensures forall i, j :: 0 <= i < j < |WeekdayWeather(rows)| ==>
      DayCode(WeekdayWeather(rows)[i].id).value <= DayCode(WeekdayWeather(rows)[j].id).value
  {
    var r := WeekdayWeather(rows);
    forall k | 0 <= k < |r| ensures r[k].id in DayNames {
      WeekdayWeatherCells(rows, r[k]);
      KeyObserved(rows, WeekdayText, StrLess, r[k].id);
    }
    forall i, j | 0 <= i < j < |r|
      ensures DayCode(r[i].id).value <= DayCode(r[j].id).value
    {
      assert WeekdayRank(r[i]) <= WeekdayRank(r[j]);
    }
  }

  // ---------------------------------------------------------------- hour x weather

  /** `weather_mapping` applied by `rename(columns=…)`: codes 1-4 get names, other labels stay. */
  function WeatherLabel(code: int): (l: Cell)
    ensures l.Text? <==> 1 <= code <= 4
    ensures code == 1 ==> l == Text("Clear")
    ensures code == 2 ==> l == Text("Mist + Cloudy")
    ensures code == 3 ==> l == Text("Light Snow")
    ensures code == 4 ==> l == Text("Heavy Rain")
    ensures !l.Text? ==> l == Num(code)
  {
    if code == 1 then Text("Clear")
    else if code == 2 then Text("Mist + Cloudy")
    else if code == 3 then Text("Light Snow")
    else if code == 4 then Text("Heavy Rain")
    else Num(code)
  }

  /** Distinct weather codes keep distinct labels, so the renamed columns stay distinct. */
  lemma WeatherLabelInjective(a: int, b: int)
    ensures WeatherLabel(a) == WeatherLabel(b) ==> a == b
  {
  }

  /** A row of `weather_long`: hour, weather label and mean count. */
  type HourCell = Long<int, Cell, Option<Mean>>

  /** `weather_by_hour` after the rename: the hour-by-weather pivot with labelled columns. */
  function HourPivot(hours: seq<HourRow>): (w: Wide<int, Cell, Option<Mean>>)
    ensures w.Valid()
    ensures w.index == Keys(hours, Hour, IntLess)
    ensures |w.columns| == |Keys(hours, HourWeathersit, IntLess)|
    ensures forall c :: 0 <= c < |w.columns| ==> w.columns[c] == WeatherLabel(Keys(hours, HourWeathersit, IntLess)[c])
    ensures forall c, i :: 0 <= c < |w.columns| && 0 <= i < |w.index| ==>
      w.cells[c][i] == MeanOf(CellRows(hours, Hour, HourWeathersit, w.index[i], Keys(hours, HourWeathersit, IntLess)[c]), HourCnt)
  {
    RenameColumns(PivotMean(hours, Hour, IntLess, HourWeathersit, HourCnt), WeatherLabel)
  }

  /** `weather_long`: the renamed pivot melted, one weather column after another. */
  function HourWeather(hours: seq<HourRow>): (r: seq<HourCell>)
    ensures |r| == |Keys(hours, HourWeathersit, IntLess)| * |Keys(hours, Hour, IntLess)|
  {
    Melt(HourPivot(hours))
  }

  /**
   * Layout of `weather_long`: for the c-th weather code (ascending) and the
   * i-th hour (ascending), row `c * hours + i` holds that hour, the code's
   * label and the mean of `cnt` over the hourly rows with both.
   */
  lemma HourWeatherLayout(hours: seq<HourRow>, c: nat, i: nat)
    requires c < |Keys(hours, HourWeathersit, IntLess)| && i < |Keys(hours, Hour, IntLess)|
    ensures |HourWeather(hours)| == |Keys(hours, HourWeathersit, IntLess)| * |Keys(hours, Hour, IntLess)|
    ensures c * |Keys(hours, Hour, IntLess)| + i < |HourWeather(hours)|
    ensures
      var hs := Keys(hours, Hour, IntLess);
      var ws := Keys(hours, HourWeathersit, IntLess);
      HourWeather(hours)[c * |hs| + i]
        == Long(hs[i], WeatherLabel(ws[c]), MeanOf(CellRows(hours, Hour, HourWeathersit, hs[i], ws[c]), HourCnt))
  {
    MeltAt(HourPivot(hours), c, i);
  }

  /**
   * An entry of `weather_long` is exactly an observed hour with an observed
   * weather code, the code's label and the mean over the matching hourly rows.
   */
  lemma HourWeatherCells(hours: seq<HourRow>, h: int, code: int)
    requires h in Keys(hours, Hour, IntLess) && code in Keys(hours, HourWeathersit, IntLess)
    ensures Long(h, WeatherLabel(code), MeanOf(CellRows(hours, Hour, HourWeathersit, h, code), HourCnt)) in HourWeather(hours)
  {
    var hs := Keys(hours, Hour, IntLess);
    var ws := Keys(hours, HourWeathersit, IntLess);
    var i :| 0 <= i < |hs| && hs[i] == h;
    var c :| 0 <= c < |ws| && ws[c] == code;
    MeltAt(HourPivot(hours), c, i);
  }

  /** Conversely, every entry comes from an observed hour and weather code in that way. */
  lemma HourWeatherSound(hours: seq<HourRow>, l: HourCell)
    requires l in HourWeather(hours)
    ensures
      exists code :: code in Keys(hours, HourWeathersit, IntLess) && l.variable == WeatherLabel(code) &&
        l.id in Keys(hours, Hour, IntLess) && l.value == MeanOf(CellRows(hours, Hour, HourWeathersit, l.id, code), HourCnt)
  {
    var w := HourPivot(hours);
    var ws := Keys(hours, HourWeathersit, IntLess);
    MeltMember(w, l);
    var c, i :| 0 <= c < |w.columns| && 0 <= i < |w.index| && l == Long(w.index[i], w.columns[c], w.cells[c][i]);
    assert ws[c] in ws && w.index[i] in w.index;
  }
}
