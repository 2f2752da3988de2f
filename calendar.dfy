/**
 * Dates as day numbers (days since 1970-01-01, the epoch of pandas'
 * datetime64), the English weekday name `Series.dt.day_name()` gives, the
 * weekday category order Sunday→Saturday, and the calendar month
 * `Series.dt.to_period('M')` gives.
 */
module Calendar {
  import opened Wrappers
  import opened Ordering

  /** The fixed category order of the weekday charts, Sunday first. */
  const DayNames: seq<string> := ["Sunday", "Monday", "Tuesday", "Wednesday", "Thursday", "Friday", "Saturday"]

  /** Day number of 2012-01-01, a Sunday. */
  const Jan1st2012: int := 15340

  /** Position of day `d` in the week, 0 = Sunday; 1970-01-01 (day 0) was a Thursday. */
  function Weekday(d: int): (w: int)
    ensures 0 <= w < 7
  {
    (d + 4) % 7
  }

  /** `dt.day_name()`: always one of the seven English names. */
  function DayName(d: int): (s: string)
    ensures s in DayNames
    ensures s == DayNames[Weekday(d)]
  {
    DayNames[Weekday(d)]
  }

  /** The weekday category code of `s`: its position in DayNames, or NaN (`None`) for any other text. */
  function DayCode(s: string): (r: Option<int>)
    ensures r.Some? <==> s in DayNames
    ensures r.Some? ==> 0 <= r.value < 7 && DayNames[r.value] == s
  {
    if s == "Sunday" then Some(0)
    else if s == "Monday" then Some(1)
    else if s == "Tuesday" then Some(2)
    else if s == "Wednesday" then Some(3)
    else if s == "Thursday" then Some(4)
    else if s == "Friday" then Some(5)
    else if s == "Saturday" then Some(6)
    else None
  }

  /**
   * The sort rank of `s` as an ordered weekday category: its code, or 7 for
   * any other text, which becomes NaN and sorts after every day.
   */
  function DayRank(s: string): (k: int)
    ensures 0 <= k <= 7
    ensures k < 7 <==> s in DayNames
    ensures k < 7 ==> DayNames[k] == s
  {
    match DayCode(s)
    case Some(code) => code
    case None => 7
  }

  /** The day name and the categorical code agree: the code of a date's name is its weekday. */
  lemma DayCodeOfName(d: int)
    ensures DayCode(DayName(d)) == Some(Weekday(d))
  {
  }

  /** The code of the c-th name is c. */
  lemma DayCodeOfIndex(c: int)
    requires 0 <= c < 7
    ensures DayCode(DayNames[c]) == Some(c)
  {
  }

  /**
   * The week is anchored and cycles: 2012-01-01 is a Sunday and each next day
   * is the next name in the list, Saturday wrapping to Sunday. These two facts
   * determine the weekday of every day number.
   */
  lemma WeekdayAnchoredAndCycling(d: int)
    ensures DayName(Jan1st2012) == "Sunday"
    ensures Weekday(d + 1) == (Weekday(d) + 1) % 7
    ensures DayName(d + 7) == DayName(d)
  {
    var q := (d + 4) / 7;
    var w := Weekday(d);
    assert d + 4 == 7 * q + w;
    if w < 6 {
      RemainderBy7(d + 5, q, w + 1);
    } else {
      RemainderBy7(d + 5, q + 1, 0);
    }
    RemainderBy7(d + 11, q + 1, w);
    assert Weekday(Jan1st2012) == 0;
  }

  lemma RemainderBy7(n: int, q: int, r: int)
    requires n == 7 * q + r && 0 <= r < 7
    ensures n % 7 == r
  {
  }

  /**
   * The year of era (0..399) of day `doe` of a 400-year era of 146097 days,
   * the years running from 1 March to the end of February.
   */
  function Yoe(doe: int): int
  {
    (doe - doe / 1460 + doe / 36524 - doe / 146096) / 365
  }

  /** The day of the era on which year of era `y` begins: 365 days a year plus the leap days before it. */
  function YearStart(y: int): int
  {
    365 * y + y / 4 - y / 100
  }

  /**
   * Proleptic Gregorian (year, month, day) of day number `d`: the
   * civil-from-days algorithm, which splits `d` into a 400-year era, a year
   * of that era starting on 1 March and a day of that year.
   */
  function CivilFromDays(d: int): (ymd: (int, int, int))
    ensures 1 <= ymd.1 <= 12
    ensures 1 <= ymd.2 <= 31
  {
    var z := d + 719468;
    var era := z / 146097;
    var doe := z - era * 146097;
    var yoe := Yoe(doe);
    InYear(doe);
    YearDayBounds(era * 400 + yoe, doe - YearStart(yoe));
    CivilOfYearDay(era * 400 + yoe, doe - YearStart(yoe))
  }

  /**
   * The date of day `doy` (0 = 1 March) of the year that begins in March of
   * year `base`; January and February belong to the following year.
   */
  function CivilOfYearDay(base: int, doy: int): (int, int, int)
  {
    var mp := (5 * doy + 2) / 153;
    var day := doy - (153 * mp + 2) / 5 + 1;
    var month := if mp < 10 then mp + 3 else mp - 9;
    var year := base + (if month <= 2 then 1 else 0);
    (year, month, day)
  }

  /** A day of year 0..365 is a day 1..31 of a month 1..12. */
  lemma YearDayBounds(base: int, doy: int)
    requires 0 <= doy <= 365
    ensures 1 <= CivilOfYearDay(base, doy).1 <= 12
    ensures 1 <= CivilOfYearDay(base, doy).2 <= 31
  {
  }

  /** `dt.to_period('M')`: the (year, month) a day falls in. */
  function YearMonth(d: int): (ym: (int, int))
    ensures 1 <= ym.1 <= 12
  {
    var ymd := CivilFromDays(d);
    (ymd.0, ymd.1)
  }

  /** The month after `ym`, December rolling over to January of the next year. */
  function NextMonth(ym: (int, int)): (int, int)
  {
    if ym.1 == 12 then (ym.0 + 1, 1) else (ym.0, ym.1 + 1)
  }

  // Division by the calendar's constants, each quotient pinned down by the
  // bounds that determine it.

  lemma QuotientBy4(n: int, q: int)
    requires 4 * q <= n < 4 * q + 4
    ensures n / 4 == q
  {
  }

  lemma QuotientBy100(n: int, q: int)
    requires 100 * q <= n < 100 * q + 100
    ensures n / 100 == q
  {
  }

  lemma QuotientBy365(n: int, q: int)
    requires 365 * q <= n < 365 * q + 365
    ensures n / 365 == q
  {
  }

  lemma QuotientBy1460(n: int, q: int)
    requires 1460 * q <= n < 1460 * q + 1460
    ensures n / 1460 == q
  {
  }

  lemma QuotientBy36524(n: int, q: int)
    requires 36524 * q <= n < 36524 * q + 36524
    ensures n / 36524 == q
  {
  }

  lemma QuotientBy146096(n: int, q: int)
    requires 146096 * q <= n < 146096 * q + 146096
    ensures n / 146096 == q
  {
  }

  lemma QuotientBy146097(n: int, q: int)
    requires 146097 * q <= n < 146097 * q + 146097
    ensures n / 146097 == q
  {
  }

  /** A year of era as centuries `a`, four-year cycles `b` and years `c`. */
  lemma YearDigits(y: int) returns (a: int, b: int, c: int)
    requires 0 <= y < 400
    ensures 0 <= a < 4 && 0 <= b < 25 && 0 <= c < 4
    ensures y == 100 * a + 4 * b + c
  {
    a, b, c := y / 100, (y % 100) / 4, y % 4;
  }

  /** A century has 36524 days, a four-year cycle 1461 and a plain year 365. */
  lemma YearStartOfDigits(a: int, b: int, c: int)
    requires 0 <= a && 0 <= b < 25 && 0 <= c < 4
    ensures YearStart(100 * a + 4 * b + c) == 36524 * a + 1461 * b + 365 * c
  {
    QuotientBy4(100 * a + 4 * b + c, 25 * a + b);
    QuotientBy100(100 * a + 4 * b + c, a);
  }

  /**
   * A year of era is 366 days long when the next year is a multiple of four
   * that does not start a century; the leap day of the 400th year is the
   * era's last day, outside every year of era.
   */
  lemma YearLengthOfDigits(a: int, b: int, c: int)
    requires 0 <= a < 4 && 0 <= b < 25 && 0 <= c < 4
    ensures YearStart(100 * a + 4 * b + c + 1) - YearStart(100 * a + 4 * b + c)
      == (if c == 3 && b < 24 then 366 else 365)
  {
    YearStartOfDigits(a, b, c);
    if c < 3 {
      YearStartOfDigits(a, b, c + 1);
    } else if b < 24 {
      YearStartOfDigits(a, b + 1, 0);
    } else {
      YearStartOfDigits(a + 1, 0, 0);
    }
  }

  /** The year of era of a day given as digits and a day of year. */
  lemma YoeOfDigits(a: int, b: int, c: int, k: int)
    requires 0 <= a < 4 && 0 <= b < 25 && 0 <= c < 4
    requires 0 <= k <= 365 && (k == 365 ==> c == 3 && b < 24)
    ensures Yoe(36524 * a + 1461 * b + 365 * c + k) == 100 * a + 4 * b + c
  {
    var doe := 36524 * a + 1461 * b + 365 * c + k;
    var e := if 24 * a + b + 365 * c + k >= 1460 then 1 else 0;
    QuotientBy146096(doe, 0);
    QuotientBy36524(doe, a);
    QuotientBy1460(doe, 25 * a + b + e);
    QuotientBy365(doe - (25 * a + b + e) + a, 100 * a + 4 * b + c);
  }

  /** A day inside the span of year of era `y` belongs to that year. */
  lemma YoeInverse(y: int, doe: int)
    requires 0 <= y < 400
    requires YearStart(y) <= doe < YearStart(y + 1) + (if y == 399 then 1 else 0)
    ensures Yoe(doe) == y
  {
    var a, b, c := YearDigits(y);
    YearStartOfDigits(a, b, c);
    YearLengthOfDigits(a, b, c);
    if doe == 146096 {
      assert y == 399;
      assert Yoe(146096) == 399;
    } else {
      YoeOfDigits(a, b, c, doe - YearStart(y));
    }
  }

  /** A year has 365 or 366 days; the last year of an era ends on day 146096. */
  lemma YearLength(y: int)
    requires 0 <= y < 400
    ensures 365 <= YearStart(y + 1) - YearStart(y) <= 366
    ensures y == 399 ==> YearStart(y + 1) == 146096 && YearStart(y) == 145731
  {
    var a, b, c := YearDigits(y);
    YearLengthOfDigits(a, b, c);
    YearStartOfDigits(a, b, c);
  }

  /** Every day of an era lies in the span of its year of era, so its day of year is 0..365. */
  lemma {:induction false} InYear(doe: int)
    requires 0 <= doe <= 146096
    ensures 0 <= Yoe(doe) < 400
    ensures YearStart(Yoe(doe)) <= doe < YearStart(Yoe(doe) + 1) + (if Yoe(doe) == 399 then 1 else 0)
  {
    if doe == 0 {
      YoeInverse(0, 0);
    } else {
      InYear(doe - 1);
      var y := Yoe(doe - 1);
      if doe < YearStart(y + 1) + (if y == 399 then 1 else 0) {
        YoeInverse(y, doe);
      } else {
        YoeInverse(y + 1, doe);
      }
    }
  }

  /** Within an era, the next day is the next day of the same year or the first day of the next year. */
  lemma YearDayStep(doe: int)
    requires 0 <= doe < 146096
    ensures 0 <= Yoe(doe) < 400
    ensures Yoe(doe + 1) == Yoe(doe) ==>
      && 0 <= doe - YearStart(Yoe(doe)) < 365
      && doe + 1 - YearStart(Yoe(doe + 1)) == doe - YearStart(Yoe(doe)) + 1
    ensures Yoe(doe + 1) != Yoe(doe) ==>
      && Yoe(doe + 1) == Yoe(doe) + 1
      && doe + 1 == YearStart(Yoe(doe + 1))
      && 364 <= doe - YearStart(Yoe(doe)) <= 365
  {
    InYear(doe);
    var y := Yoe(doe);
    YearLength(y);
    if doe + 1 < YearStart(y + 1) + (if y == 399 then 1 else 0) {
      YoeInverse(y, doe + 1);
    } else {
      YearLength(y + 1);
      YoeInverse(y + 1, doe + 1);
    }
  }

  /** Inside a year, the next day is in the same month or starts the next one. */
  lemma MonthStep(doy: int)
    requires 0 <= doy < 365
    ensures var mp, mp' := (5 * doy + 2) / 153, (5 * (doy + 1) + 2) / 153;
      && 0 <= mp <= mp' <= 11
      && (mp' == mp ==> doy + 1 - (153 * mp' + 2) / 5 == doy - (153 * mp + 2) / 5 + 1)
      && (mp' != mp ==> mp' == mp + 1 && doy + 1 - (153 * mp' + 2) / 5 == 0)
  {
  }

  /** The next day of the same year is the next date. */
  lemma InYearStep(base: int, doy: int)
    requires 0 <= doy < 365
    ensures var a, b := CivilOfYearDay(base, doy), CivilOfYearDay(base, doy + 1);
      || ((b.0, b.1) == (a.0, a.1) && b.2 == a.2 + 1)
      || ((b.0, b.1) == NextMonth((a.0, a.1)) && b.2 == 1)
  {
    MonthStep(doy);
  }

  /** The last day of February is followed by 1 March of the same year. */
  lemma YearEndStep(base: int, doy: int)
    requires 364 <= doy <= 365
    ensures var a, b := CivilOfYearDay(base, doy), CivilOfYearDay(base + 1, 0);
      (b.0, b.1) == NextMonth((a.0, a.1)) && b.2 == 1
  {
  }

  /** Day number `d` as day `doe` of era `era`. */
  lemma EraDay(d: int, era: int, doe: int)
    requires 0 <= doe < 146097 && d + 719468 == era * 146097 + doe
    ensures CivilFromDays(d) == CivilOfYearDay(era * 400 + Yoe(doe), doe - YearStart(Yoe(doe)))
  {
    QuotientBy146097(d + 719468, era);
    assert d + 719468 - era * 146097 == doe;
  }

  /** Two consecutive dates as the next-day relation phrases them. */
  lemma DateStep(d: int, a: (int, int, int), b: (int, int, int))
    requires CivilFromDays(d) == a && CivilFromDays(d + 1) == b
    requires || ((b.0, b.1) == (a.0, a.1) && b.2 == a.2 + 1)
             || ((b.0, b.1) == NextMonth((a.0, a.1)) && b.2 == 1)
    ensures
      || (YearMonth(d + 1) == YearMonth(d) && CivilFromDays(d + 1).2 == CivilFromDays(d).2 + 1)
      || (YearMonth(d + 1) == NextMonth(YearMonth(d)) && CivilFromDays(d + 1).2 == 1)
  {
  }

  /** The last day of an era (29 February of a year divisible by 400) is followed by 1 March. */
  lemma EraEndStep(d: int, era: int)
    requires d + 719468 == era * 146097 + 146096
    ensures YearMonth(d + 1) == NextMonth(YearMonth(d)) && CivilFromDays(d + 1).2 == 1
  {
    YoeInverse(399, 146096);
    YoeInverse(0, 0);
    assert YearStart(399) == 145731 && YearStart(0) == 0;
    EraDay(d, era, 146096);
    EraDay(d + 1, era + 1, 0);
    var a := CivilOfYearDay(era * 400 + 399, 365);
    var b := CivilOfYearDay(era * 400 + 400, 0);
    assert CivilFromDays(d) == a;
    assert CivilFromDays(d + 1) == b;
    YearEndStep(era * 400 + 399, 365);
  }

  /** Consecutive days of one year of era are consecutive dates. */
  lemma SameYearDates(d: int, base: int, doy: int)
    requires 0 <= doy < 365
    requires CivilFromDays(d) == CivilOfYearDay(base, doy)
    requires CivilFromDays(d + 1) == CivilOfYearDay(base, doy + 1)
    ensures
      || (YearMonth(d + 1) == YearMonth(d) && CivilFromDays(d + 1).2 == CivilFromDays(d).2 + 1)
      || (YearMonth(d + 1) == NextMonth(YearMonth(d)) && CivilFromDays(d + 1).2 == 1)
  {
    InYearStep(base, doy);
    DateStep(d, CivilOfYearDay(base, doy), CivilOfYearDay(base, doy + 1));
  }

  lemma SameYearStep(d: int, era: int, doe: int)
    requires 0 <= doe < 146096 && d + 719468 == era * 146097 + doe
    requires Yoe(doe + 1) == Yoe(doe)
    ensures
      || (YearMonth(d + 1) == YearMonth(d) && CivilFromDays(d + 1).2 == CivilFromDays(d).2 + 1)
      || (YearMonth(d + 1) == NextMonth(YearMonth(d)) && CivilFromDays(d + 1).2 == 1)
  {
    YearDayStep(doe);
    EraDay(d, era, doe);
    EraDay(d + 1, era, doe + 1);
    SameYearDates(d, era * 400 + Yoe(doe), doe - YearStart(Yoe(doe)));
  }

  lemma NextYearStep(d: int, era: int, doe: int)
    requires 0 <= doe < 146096 && d + 719468 == era * 146097 + doe
    requires Yoe(doe + 1) != Yoe(doe)
    ensures YearMonth(d + 1) == NextMonth(YearMonth(d)) && CivilFromDays(d + 1).2 == 1
  {
    YearDayStep(doe);
    EraDay(d, era, doe);
    EraDay(d + 1, era, doe + 1);
    NextYearDates(d, era * 400 + Yoe(doe), doe - YearStart(Yoe(doe)));
  }

  /** The last day of a year of era is followed by the first day of the next. */
  lemma NextYearDates(d: int, base: int, doy: int)
    requires 364 <= doy <= 365
    requires CivilFromDays(d) == CivilOfYearDay(base, doy)
    requires CivilFromDays(d + 1) == CivilOfYearDay(base + 1, 0)
    ensures YearMonth(d + 1) == NextMonth(YearMonth(d)) && CivilFromDays(d + 1).2 == 1
  {
    YearEndStep(base, doy);
  }

  /**
   * The calendar advances one day at a time: the day after `d` is the next
   * day of the same month, or the first day of the next month.
   */
  lemma NextDay(d: int)
    ensures
      || (YearMonth(d + 1) == YearMonth(d) && CivilFromDays(d + 1).2 == CivilFromDays(d).2 + 1)
      || (YearMonth(d + 1) == NextMonth(YearMonth(d)) && CivilFromDays(d + 1).2 == 1)
  {
    var era := (d + 719468) / 146097;
    var doe := d + 719468 - era * 146097;
    if doe == 146096 {
      EraEndStep(d, era);
    } else if Yoe(doe + 1) == Yoe(doe) {
      SameYearStep(d, era, doe);
    } else {
      NextYearStep(d, era, doe);
    }
  }

  lemma NotEarlierStep(p: (int, int), q: (int, int), r: (int, int))
    requires p == q || PairLess(p, q)
    requires r == q || r == NextMonth(q)
    ensures p == r || PairLess(p, r)
  {
  }

  /** A later day never falls in an earlier month. */
  lemma {:induction false} YearMonthMonotone(d1: int, d2: int)
    requires d1 <= d2
    ensures YearMonth(d1) == YearMonth(d2) || PairLess(YearMonth(d1), YearMonth(d2))
    decreases d2 - d1
  {
    if d1 < d2 {
      YearMonthMonotone(d1, d2 - 1);
      NextDay(d2 - 1);
      NotEarlierStep(YearMonth(d1), YearMonth(d2 - 1), YearMonth(d2));
    }
  }

  /** So a strictly earlier month holds only strictly earlier days. */
  lemma EarlierMonthEarlierDay(d1: int, d2: int)
    requires PairLess(YearMonth(d1), YearMonth(d2))
    ensures d1 < d2
  {
    if d2 <= d1 {
      YearMonthMonotone(d2, d1);
      assert false;
    }
  }

  /** 2012-01-01, the day the weekday anchor is checked against, is day 15340. */
  lemma CalendarAnchor2012()
    ensures CivilFromDays(Jan1st2012) == (2012, 1, 1)
  {
    YoeInverse(11, 4323);
    EraDay(Jan1st2012, 5, 4323);
    assert YearStart(11) == 4017;
    assert CivilOfYearDay(2011, 306) == (2012, 1, 1);
  }

  /** The leap day of 2012 and the day after it fall in February and March. */
  lemma CalendarLeapDay2012()
    ensures CivilFromDays(Jan1st2012 + 59) == (2012, 2, 29)
    ensures CivilFromDays(Jan1st2012 + 60) == (2012, 3, 1)
  {
    YoeInverse(11, 4382);
    EraDay(Jan1st2012 + 59, 5, 4382);
    assert YearStart(11) == 4017;
    assert CivilOfYearDay(2011, 365) == (2012, 2, 29);
    YoeInverse(12, 4383);
    EraDay(Jan1st2012 + 60, 5, 4383);
    assert YearStart(12) == 4383;
    assert CivilOfYearDay(2012, 0) == (2012, 3, 1);
  }
}
