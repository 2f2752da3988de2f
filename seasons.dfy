/**
 * The season-by-working-day breakdown over a copy of the unfiltered day
 * table: a text `season` column is converted to an ordered categorical over a
 * fixed category list (any other value becomes NaN), then the mean count is
 * taken per observed (season, flag) pair, NaN seasons dropped.
 */
module Seasons {
  import opened Wrappers
  import opened Ordering
  import opened Grouping
  import opened Calendar
  import opened Tables
  import opened WorkingDay

  /** The category list as the script writes it. */
  const SeasonCategoriesAsWritten: seq<string> := ["Springer", "Summer", "Fall", "Winter"]

  /** The category list the script evidently means (the season names of its commented-out mapping). */
  const SeasonNames: seq<string> := ["Spring", "Summer", "Fall", "Winter"]

  /** The categorical code of `s`: its first position in `cats`, or NaN when it is not a category. */
  function CategoryCode(s: string, cats: seq<string>): (r: Option<int>)
    ensures r.Some? <==> s in cats
    ensures r.Some? ==> 0 <= r.value < |cats| && cats[r.value] == s
    ensures r.Some? ==> forall j :: 0 <= j < r.value ==> cats[j] != s
  {
    if cats == [] then None
    else if cats[0] == s then Some(0)
    else
      match CategoryCode(s, cats[1..])
      case Some(k) => Some(k + 1)
      case None => None
  }

  /**
   * The group key of a season cell: in a text column the categorical code
   * (a number among the text is not a category either), in a numeric column
   * the number itself; NaN otherwise.
   */
  function SeasonCode(isText: bool, cats: seq<string>, c: Cell): (r: Option<int>)
    ensures isText ==> (r.Some? <==> c.Text? && c.s in cats)
    ensures isText && r.Some? ==> 0 <= r.value < |cats| && cats[r.value] == c.s
    ensures !isText ==> (r.Some? <==> c.Num?) && (c.Num? ==> r == Some(c.n))
  {
    if isText then (if c.Text? then CategoryCode(c.s, cats) else None)
    else if c.Num? then Some(c.n) else None
  }

  /** Whether a row's season survives as a group key. */
  function SeasonKnown(isText: bool, cats: seq<string>): DayRow -> bool
  {
    (x: DayRow) => SeasonCode(isText, cats, x.season).Some?
  }

  /** The group key (season code, flag) of a row whose season is known. */
  function SeasonTypeKey(isText: bool, cats: seq<string>): DayRow -> (int, int)
  {
    (x: DayRow) => (match SeasonCode(isText, cats, x.season) case Some(k) => k case None => -1, Flag(x))
  }

  /** The labels of an output row: the season category (or number) and the flag's name. */
  function SeasonLabel(isText: bool, cats: seq<string>): ((int, int)) -> (Cell, Option<string>)
  {
    (k: (int, int)) => (if isText && 0 <= k.0 < |cats| then Text(cats[k.0]) else Num(k.0), WorkingDayLabel(k.1))
  }

  /** The rows `groupby` keeps: those with a known season, in table order. */
  function SeasonRows(rows: seq<DayRow>, cats: seq<string>): (r: seq<DayRow>)
    ensures forall x :: x in r <==> x in rows && SeasonCode(SeasonIsText(rows), cats, x.season).Some?
  {
    Where(rows, SeasonKnown(SeasonIsText(rows), cats))
  }

  /**
   * `grouped`: one row per observed (season, flag) pair among the rows with
   * a known season, ordered by season code then flag, labelled, with the
   * mean of `cnt` over the pair's rows.
   */
  function SeasonBreakdown(rows: seq<DayRow>, cats: seq<string>): (r: seq<Agg<(Cell, Option<string>)>>)
    requires WorkingDayIsInt(rows)
    ensures
      var key := SeasonTypeKey(SeasonIsText(rows), cats);
      var ks := Keys(SeasonRows(rows, cats), key, PairLess);
      && |r| == |ks|
      && forall i :: 0 <= i < |r| ==>
        && r[i].key == SeasonLabel(SeasonIsText(rows), cats)(ks[i])
        && r[i].mean.count == |Group(SeasonRows(rows, cats), key, ks[i])| > 0
        && r[i].mean.total == SumOf(Group(SeasonRows(rows, cats), key, ks[i]), Cnt)
  {
    var isText := SeasonIsText(rows);
    RelabelKeys(GroupMean(SeasonRows(rows, cats), SeasonTypeKey(isText, cats), PairLess, Cnt), SeasonLabel(isText, cats))
  }

  /** Every row with a known season is counted once; the others are not counted. */
  lemma SeasonBreakdownConserves(rows: seq<DayRow>, cats: seq<string>)
    requires WorkingDayIsInt(rows)
    ensures SumOf(SeasonBreakdown(rows, cats), AggCount) == |SeasonRows(rows, cats)|
    ensures SumOf(SeasonBreakdown(rows, cats), AggTotal) == SumOf(SeasonRows(rows, cats), Cnt)
  {
    var isText := SeasonIsText(rows);
    PairLessIsStrictTotal();
    GroupMeanConserves(SeasonRows(rows, cats), SeasonTypeKey(isText, cats), PairLess, Cnt);
    RelabelKeysSums(GroupMean(SeasonRows(rows, cats), SeasonTypeKey(isText, cats), PairLess, Cnt), SeasonLabel(isText, cats));
  }

  /** In a text column every bar is labelled with one of the categories. */
  lemma SeasonBreakdownLabels(rows: seq<DayRow>, cats: seq<string>, i: nat)
    requires WorkingDayIsInt(rows) && SeasonIsText(rows)
    requires i < |SeasonBreakdown(rows, cats)|
    ensures SeasonBreakdown(rows, cats)[i].key.0.Text?
    ensures SeasonBreakdown(rows, cats)[i].key.0.s in cats
  {
    var key := SeasonTypeKey(true, cats);
    var kept := SeasonRows(rows, cats);
    var ks := Keys(kept, key, PairLess);
    assert ks[i] in ks;
    KeyObserved(kept, key, PairLess, ks[i]);
    var x :| x in kept && key(x) == ks[i];
    assert SeasonCode(true, cats, x.season).Some?;
  }

  // ---------------------------------------------------------------- the 'Springer' category

  /** As written, "Spring" is not one of the categories. */
  lemma SpringNotACategoryAsWritten()
    ensures "Spring" !in SeasonCategoriesAsWritten
  {
    assert |"Spring"| != |"Springer"|;
    assert "Spring"[1] != "Summer"[1] && "Spring"[0] != "Fall"[0] && "Spring"[0] != "Winter"[0];
  }

  /** As written: a text season "Spring" is not among the categories, so its row is dropped. */
  lemma SpringDroppedAsWritten(rows: seq<DayRow>, x: DayRow)
    requires SeasonIsText(rows) && x.season == Text("Spring")
    ensures x !in SeasonRows(rows, SeasonCategoriesAsWritten)
  {
    SpringNotACategoryAsWritten();
  }

  /** One spring weekend day: as written the breakdown has no bar at all. */
  lemma SpringDayAsWritten()
    ensures
      var x := DayRow(Jan1st2012, Text("Spring"), 1, Num(0), "Sunday", 100, 80, 20);
      SeasonBreakdown([x], SeasonCategoriesAsWritten) == []
  {
    var x := DayRow(Jan1st2012, Text("Spring"), 1, Num(0), "Sunday", 100, 80, 20);
    assert SeasonIsText([x]) by {
      assert [x][0].season.Text?;
    }
    SpringDroppedAsWritten([x], x);
    assert SeasonRows([x], SeasonCategoriesAsWritten) == [];
  }

  /** Corrected: with the season names as categories, a table of named seasons loses no row. */
  lemma SeasonBreakdownKeepsNamedSeasons(rows: seq<DayRow>)
    requires WorkingDayIsInt(rows)
    requires forall x :: x in rows ==> x.season.Text? && x.season.s in SeasonNames
    ensures SeasonRows(rows, SeasonNames) == rows
    ensures SumOf(SeasonBreakdown(rows, SeasonNames), AggCount) == |rows|
    ensures SumOf(SeasonBreakdown(rows, SeasonNames), AggTotal) == SumOf(rows, Cnt)
  {
    if rows != [] {
      assert rows[0] in rows;
      assert SeasonIsText(rows);
    }
    WhereKeepsAll(rows, SeasonKnown(SeasonIsText(rows), SeasonNames));
    SeasonBreakdownConserves(rows, SeasonNames);
  }

  /** Corrected: the same spring weekend day gives one bar, Spring/Weekend, with its count. */
  lemma SpringDayCorrected()
    ensures
      var x := DayRow(Jan1st2012, Text("Spring"), 1, Num(0), "Sunday", 100, 80, 20);
      SeasonBreakdown([x], SeasonNames) == [Agg((Text("Spring"), Some("Weekend")), Mean(100, 1))]
  {
    var x := DayRow(Jan1st2012, Text("Spring"), 1, Num(0), "Sunday", 100, 80, 20);
    assert SeasonIsText([x]) by {
      assert [x][0].season.Text?;
    }
    assert SeasonCode(true, SeasonNames, x.season) == Some(0);
    assert SeasonRows([x], SeasonNames) == [x];
    var key := SeasonTypeKey(true, SeasonNames);
    assert key(x) == (0, 0);
    assert [x][1..] == [];
    assert Keys([x], key, PairLess) == [(0, 0)];
    assert Group([x], key, (0, 0)) == [x];
    assert SumOf([x], Cnt) == 100;
  }
}
