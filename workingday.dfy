/**
 * The working-day column and its breakdowns over the unfiltered day table:
 * the text-to-flag encoding and the cast to integers, the mean count per
 * flag, and the mean count per (weekday, flag) over the days whose flag
 * agrees with their weekday.
 */
module WorkingDay {
  import opened Wrappers
  import opened Ordering
  import opened Grouping
  import opened Calendar
  import opened Tables

  // ---------------------------------------------------------------- encoding

  /** `workingday_mapping_reverse` applied by `Series.map`: any other entry becomes NaN. */
  function WorkingDayCode(c: Cell): (r: Cell)
    ensures r == Num(0) <==> c == Text("Weekend")
    ensures r == Num(1) <==> c == Text("Weekday")
    ensures r == Num(0) || r == Num(1) || r == Missing
  {
    if c == Text("Weekend") then Num(0)
    else if c == Text("Weekday") then Num(1)
    else Missing
  }

  /** `workingday_mapping` applied by `Series.map`: 0 and 1 get names, anything else NaN. */
  function WorkingDayLabel(n: int): (l: Option<string>)
    ensures l.Some? <==> n == 0 || n == 1
  {
    if n == 0 then Some("Weekend")
    else if n == 1 then Some("Weekday")
    else None
  }

  /** Encoding a label and decoding the flag gives the label back. */
  lemma LabelRoundTrip(s: string)
    requires s == "Weekend" || s == "Weekday"
    ensures WorkingDayCode(Text(s)).Num?
    ensures WorkingDayLabel(WorkingDayCode(Text(s)).n) == Some(s)
  {
  }

  /** Decoding a flag and encoding the label gives the flag back. */
  lemma FlagRoundTrip(n: int)
    requires n == 0 || n == 1
    ensures WorkingDayCode(Text(WorkingDayLabel(n).value)) == Num(n)
  {
  }

  /**
   * The `workingday` column after the guarded `map`: recoded cell by cell
   * when the column holds text, unchanged otherwise; no other column changes.
   */
  function EncodeWorkingDay(rows: seq<DayRow>): (r: seq<DayRow>)
    ensures |r| == |rows|
    ensures WorkingDayIsText(rows) ==>
      forall i :: 0 <= i < |r| ==> r[i] == rows[i].(workingday := WorkingDayCode(rows[i].workingday))
    ensures !WorkingDayIsText(rows) ==> r == rows
  {
    if WorkingDayIsText(rows) then
      seq(|rows|, i requires 0 <= i < |rows| => rows[i].(workingday := WorkingDayCode(rows[i].workingday)))
    else rows
  }

  /** After encoding no text is left, so running the guarded step again changes nothing. */
  lemma EncodeWorkingDayIdempotent(rows: seq<DayRow>)
    ensures !WorkingDayIsText(EncodeWorkingDay(rows))
    ensures EncodeWorkingDay(EncodeWorkingDay(rows)) == EncodeWorkingDay(rows)
  {
  }

  /** `astype(int)` succeeds only when every entry is a number (no NaN, no text). */
  predicate WorkingDayIsInt(rows: seq<DayRow>)
    ensures WorkingDayIsInt(rows) <==> forall x :: x in rows ==> x.workingday.Num?
    ensures WorkingDayIsInt(rows) ==> !WorkingDayIsText(rows)
  {
    forall i :: 0 <= i < |rows| ==> rows[i].workingday.Num?
  }

  /**
   * A text column casts to integers after encoding exactly when every entry
   * is one of the two labels; an unknown label, a number among the text or a
   * NaN makes the cast fail.
   */
  lemma EncodedTextCasts(rows: seq<DayRow>)
    requires WorkingDayIsText(rows)
    ensures WorkingDayIsInt(EncodeWorkingDay(rows)) <==>
      forall i :: 0 <= i < |rows| ==> rows[i].workingday == Text("Weekend") || rows[i].workingday == Text("Weekday")
  {
    var r := EncodeWorkingDay(rows);
    if WorkingDayIsInt(r) {
      forall i | 0 <= i < |rows| ensures rows[i].workingday == Text("Weekend") || rows[i].workingday == Text("Weekday") {
        assert r[i].workingday.Num?;
      }
    }
  }

  /** The flag of a row whose cast succeeded. */
  function Flag(x: DayRow): int
  {
    if x.workingday.Num? then x.workingday.n else 0
  }

  // ---------------------------------------------------------------- mean per flag

  /**
   * `avg_rent_by_workingday`: one row per distinct flag, ascending, labelled
   * by `workingday_mapping`, with the mean of `cnt` over the rows with that flag.
   */
  function AvgByWorkingDay(rows: seq<DayRow>): (r: seq<Agg<Option<string>>>)
    requires WorkingDayIsInt(rows)
    ensures |r| == |Keys(rows, Flag, IntLess)|
    ensures forall i :: 0 <= i < |r| ==>
      var f := Keys(rows, Flag, IntLess)[i];
      && r[i].key == WorkingDayLabel(f)
      && r[i].mean.count == |Group(rows, Flag, f)| > 0
      && r[i].mean.total == SumOf(Group(rows, Flag, f), Cnt)
  {
    RelabelKeys(GroupMean(rows, Flag, IntLess, Cnt), WorkingDayLabel)
  }

  /** Every row falls in one group: the counts add up to the rows and the totals to the column. */
  lemma AvgByWorkingDayConserves(rows: seq<DayRow>)
    requires WorkingDayIsInt(rows)
    ensures SumOf(AvgByWorkingDay(rows), AggCount) == |rows|
    ensures SumOf(AvgByWorkingDay(rows), AggTotal) == SumOf(rows, Cnt)
  {
    IntLessIsStrictTotal();
    GroupMeanConserves(rows, Flag, IntLess, Cnt);
    RelabelKeysSums(GroupMean(rows, Flag, IntLess, Cnt), WorkingDayLabel);
  }

  /** In a strictly ascending list of integers the i-th entry exceeds the first by at least i. */
  lemma {:induction false} AscendingGrowth(ks: seq<int>)
    requires StrictlySorted(ks, IntLess)
    ensures forall i :: 0 <= i < |ks| ==> ks[0] + i <= ks[i]
  {
    if |ks| > 1 {
      assert StrictlySorted(ks[1..], IntLess);
      AscendingGrowth(ks[1..]);
      forall i | 1 <= i < |ks| ensures ks[0] + i <= ks[i] {
        assert ks[1..][i - 1] == ks[i] && ks[1..][0] == ks[1];
        assert IntLess(ks[0], ks[1]);
      }
    }
  }

  /** A strictly ascending list of flags drawn from {0, 1} is [], [0], [1] or [0, 1]. */
  lemma BinaryKeys(ks: seq<int>)
    requires StrictlySorted(ks, IntLess)
    requires forall k :: k in ks ==> k == 0 || k == 1
    ensures |ks| <= 2
    ensures |ks| == 2 ==> ks == [0, 1]
  {
    if ks != [] {
      AscendingGrowth(ks);
      assert ks[0] in ks && ks[|ks| - 1] in ks;
      if |ks| == 2 {
        assert ks[1] in ks;
      }
    }
  }

  /**
   * With flags 0 and 1 only, there are at most two bars, both labelled,
   * "Weekend" before "Weekday" when both occur.
   */
  lemma AvgByWorkingDayBars(rows: seq<DayRow>)
    requires forall x :: x in rows ==> x.workingday == Num(0) || x.workingday == Num(1)
    ensures WorkingDayIsInt(rows)
    ensures |AvgByWorkingDay(rows)| <= 2
    ensures forall i :: 0 <= i < |AvgByWorkingDay(rows)| ==> AvgByWorkingDay(rows)[i].key.Some?
    ensures |AvgByWorkingDay(rows)| == 2 ==>
      AvgByWorkingDay(rows)[0].key == Some("Weekend") && AvgByWorkingDay(rows)[1].key == Some("Weekday")
  {
    assert forall i :: 0 <= i < |rows| ==> rows[i] in rows;
    var ks := Keys(rows, Flag, IntLess);
    IntLessIsStrictTotal();
    KeysSorted(rows, Flag, IntLess);
    forall k | k in ks ensures k == 0 || k == 1 {
      KeyObserved(rows, Flag, IntLess, k);
    }
    BinaryKeys(ks);
    assert forall i :: 0 <= i < |ks| ==> ks[i] in ks;
  }

  // ---------------------------------------------------------------- consistent days

  const WorkDays: seq<string> := ["Monday", "Tuesday", "Wednesday", "Thursday", "Friday"]
  const WeekendDays: seq<string> := ["Saturday", "Sunday"]

  /** The mask of `valid_df`: a weekday flagged 1, or a Saturday or Sunday flagged 0. */
  predicate IsConsistentDay(x: DayRow)
    ensures IsConsistentDay(x) <==> x.weekday in DayNames && x.workingday == Num(ExpectedFlag(DayRank(x.weekday)))
  {
    || (x.weekday in WorkDays && x.workingday == Num(1))
    || (x.weekday in WeekendDays && x.workingday == Num(0))
  }

  /** `valid_df`: the consistent rows, in table order. */
  function ConsistentDays(rows: seq<DayRow>): (r: seq<DayRow>)
    ensures forall x :: x in r <==> x in rows && IsConsistentDay(x)
    ensures IsSubsequence(r, rows)
  {
    WhereIsSubsequence(rows, IsConsistentDay);
    Where(rows, IsConsistentDay)
  }

  /** The flag a consistent row carries for its weekday code. */
  function ExpectedFlag(d: int): int
  {
    if 1 <= d <= 5 then 1 else 0
  }

  /** The group key (weekday category, flag). */
  function DayTypeKey(x: DayRow): (int, int)
  {
    (DayRank(x.weekday), Flag(x))
  }

  /** A consistent row names a day and carries the flag of that day. */
  lemma ConsistentKey(x: DayRow)
    requires IsConsistentDay(x)
    ensures 0 <= DayTypeKey(x).0 < 7
    ensures DayTypeKey(x).1 == ExpectedFlag(DayTypeKey(x).0)
    ensures DayNames[DayTypeKey(x).0] == x.weekday
  {
    assert x.weekday in DayNames;
  }

  /** The labels of an output row: the weekday's name and the flag's name. */
  function DayTypeLabel(k: (int, int)): (string, Option<string>)
  {
    (if 0 <= k.0 < 7 then DayNames[k.0] else "", WorkingDayLabel(k.1))
  }

  /**
   * `avg_by_day_type`: one row per observed (weekday, flag) pair of the
   * consistent days, in category order, with the mean of `cnt` over its rows.
   */
  function AvgByDayType(rows: seq<DayRow>): (r: seq<Agg<(string, Option<string>)>>)
    ensures |r| == |Keys(ConsistentDays(rows), DayTypeKey, PairLess)|
    ensures forall i :: 0 <= i < |r| ==>
      var k := Keys(ConsistentDays(rows), DayTypeKey, PairLess)[i];
      && r[i].key == DayTypeLabel(k)
      && r[i].mean.count == |Group(ConsistentDays(rows), DayTypeKey, k)| > 0
      && r[i].mean.total == SumOf(Group(ConsistentDays(rows), DayTypeKey, k), Cnt)
  {
    RelabelKeys(GroupMean(ConsistentDays(rows), DayTypeKey, PairLess, Cnt), DayTypeLabel)
  }

  /** Every key of the consistent days is a weekday code with the flag that day must have. */
  lemma DayTypeKeysConsistent(rows: seq<DayRow>, k: (int, int))
    requires k in Keys(ConsistentDays(rows), DayTypeKey, PairLess)
    ensures 0 <= k.0 < 7 && k.1 == ExpectedFlag(k.0)
    ensures exists x :: x in rows && IsConsistentDay(x) && DayRank(x.weekday) == k.0
  {
    KeyObserved(ConsistentDays(rows), DayTypeKey, PairLess, k);
    var x :| x in ConsistentDays(rows) && DayTypeKey(x) == k;
    ConsistentKey(x);
  }

  /**
   * A bar of `avg_by_day_type` names a day observed among the consistent
   * rows, labelled "Weekday" for Monday-Friday and "Weekend" for Saturday
   * and Sunday.
   */
  lemma AvgByDayTypeBar(rows: seq<DayRow>, i: nat)
    requires i < |AvgByDayType(rows)|
    ensures
      var day := AvgByDayType(rows)[i].key.0;
      && DayRank(day) < 7
      && AvgByDayType(rows)[i].key.1 == Some(if 1 <= DayRank(day) <= 5 then "Weekday" else "Weekend")
      && exists x :: x in rows && IsConsistentDay(x) && x.weekday == day
  {
    var ks := Keys(ConsistentDays(rows), DayTypeKey, PairLess);
    var k := ks[i];
    assert k in ks;
    DayTypeKeysConsistent(rows, k);
    var x :| x in rows && IsConsistentDay(x) && DayRank(x.weekday) == k.0;
    ConsistentKey(x);
    assert AvgByDayType(rows)[i].key == DayTypeLabel(k);
    assert DayTypeLabel(k).0 == x.weekday;
  }

  /** The bars come strictly in order Sunday..Saturday, so each day has one bar. */
  lemma AvgByDayTypeOrder(rows: seq<DayRow>)
    ensures forall i, j :: 0 <= i < j < |AvgByDayType(rows)| ==>
      DayRank(AvgByDayType(rows)[i].key.0) < DayRank(AvgByDayType(rows)[j].key.0)
  {
    var r := AvgByDayType(rows);
    var ks := Keys(ConsistentDays(rows), DayTypeKey, PairLess);
    PairLessIsStrictTotal();
    KeysSorted(ConsistentDays(rows), DayTypeKey, PairLess);
    forall i | 0 <= i < |r| ensures DayRank(r[i].key.0) == ks[i].0 && ks[i].1 == ExpectedFlag(ks[i].0) {
      assert ks[i] in ks;
      DayTypeKeysConsistent(rows, ks[i]);
      DayCodeOfIndex(ks[i].0);
    }
    forall i, j | 0 <= i < j < |r| ensures DayRank(r[i].key.0) < DayRank(r[j].key.0) {
      assert PairLess(ks[i], ks[j]);
    }
  }

  /** Every consistent row is counted once across the bars. */
  lemma AvgByDayTypeConserves(rows: seq<DayRow>)
    ensures SumOf(AvgByDayType(rows), AggCount) == |ConsistentDays(rows)|
    ensures SumOf(AvgByDayType(rows), AggTotal) == SumOf(ConsistentDays(rows), Cnt)
  {
    PairLessIsStrictTotal();
    GroupMeanConserves(ConsistentDays(rows), DayTypeKey, PairLess, Cnt);
    RelabelKeysSums(GroupMean(ConsistentDays(rows), DayTypeKey, PairLess, Cnt), DayTypeLabel);
  }
}
