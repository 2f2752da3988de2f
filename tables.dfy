/**
 * The two loaded tables of the dashboard, one record per CSV row, keeping
 * only the columns the aggregations read. Dates are day numbers; a column
 * whose dtype the script tests (`workingday`, `season`) holds `Cell`s.
 */
module Tables {

  /** One entry of a column whose dtype varies: text, an integer, or NaN. */
  datatype Cell = Text(s: string) | Num(n: int) | Missing

  /** A row of the daily table `day_data.csv`. */
  datatype DayRow = DayRow(
    dteday: int,
    season: Cell,
    weathersit: int,
    workingday: Cell,
    weekday: string,
    cnt: int,
    registered: int,
    casual: int)

  /** A row of the hourly table `hour_data.csv`. */
  datatype HourRow = HourRow(dteday: int, hr: int, weathersit: int, cnt: int)

  // Column accessors, passed as the key and value functions of the grouping steps.

  function Date(r: DayRow): int { r.dteday }
  function Cnt(r: DayRow): int { r.cnt }
  function Registered(r: DayRow): int { r.registered }
  function Casual(r: DayRow): int { r.casual }
  function Weathersit(r: DayRow): int { r.weathersit }
  function WeekdayText(r: DayRow): string { r.weekday }

  function Hour(h: HourRow): int { h.hr }
  function HourWeathersit(h: HourRow): int { h.weathersit }
  function HourCnt(h: HourRow): int { h.cnt }

  /**
   * The test `dtype == 'object'` on the `workingday` column: a column holding
   * any text is an object column (ints with NaN are float, not object).
   */
  predicate WorkingDayIsText(rows: seq<DayRow>)
    ensures WorkingDayIsText(rows) <==> exists x :: x in rows && x.workingday.Text?
    ensures rows == [] ==> !WorkingDayIsText(rows)
  {
    exists i :: 0 <= i < |rows| && rows[i].workingday.Text?
  }

  /** The same dtype test on the `season` column. */
  predicate SeasonIsText(rows: seq<DayRow>)
    ensures SeasonIsText(rows) <==> exists x :: x in rows && x.season.Text?
    ensures rows == [] ==> !SeasonIsText(rows)
  {
    exists i :: 0 <= i < |rows| && rows[i].season.Text?
  }
}
