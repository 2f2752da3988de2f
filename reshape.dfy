/**
 * Wide and long tables: `pivot_table(aggfunc='mean')`, `rename(columns=…)`
 * and `melt`, the reshaping steps between group means and the charts.
 */
module Reshape {
  import opened Wrappers
  import opened Ordering
  import opened Grouping

  /** A wide table: `cells[c][i]` sits in the row labelled `index[i]` and the column labelled `columns[c]`. */
  datatype Wide<I, C, V> = Wide(index: seq<I>, columns: seq<C>, cells: seq<seq<V>>)
  {
    ghost predicate Valid()
    {
      |cells| == |columns| && forall c :: 0 <= c < |cells| ==> |cells[c]| == |index|
    }
  }

  /** One row of a long table: the id column, the variable (former column label) and the value. */
  datatype Long<I, C, V> = Long(id: I, variable: C, value: V)

  /** The rows whose index key is `i` and whose column key is `c`, in input order. */
  function CellRows<R(!new), I(==,!new)>(rows: seq<R>, idxKey: R -> I, colKey: R -> int, i: I, c: int): (g: seq<R>)
    ensures forall x :: x in g <==> x in rows && idxKey(x) == i && colKey(x) == c
  {
    if rows == [] then []
    else (if idxKey(rows[0]) == i && colKey(rows[0]) == c then [rows[0]] else []) + CellRows(rows[1..], idxKey, colKey, i, c)
  }

  /**
   * `pivot_table(index=idxKey, columns=colKey, values=val, aggfunc='mean')`:
   * sorted distinct index and column keys, and in each cell the mean over
   * the rows with that pair of keys, or NaN (`None`) when there is none.
   */
  function PivotMean<R(!new), I(==,!new)>(rows: seq<R>, idxKey: R -> I, ltI: (I, I) -> bool,
                                        colKey: R -> int, val: R -> int): (w: Wide<I, int, Option<Mean>>)
    ensures w.Valid()
    ensures w.index == Keys(rows, idxKey, ltI) && w.columns == Keys(rows, colKey, IntLess)
    ensures forall c, i :: 0 <= c < |w.columns| && 0 <= i < |w.index| ==>
      w.cells[c][i] == MeanOf(CellRows(rows, idxKey, colKey, w.index[i], w.columns[c]), val)
  {
    var idx := Keys(rows, idxKey, ltI);
    var cols := Keys(rows, colKey, IntLess);
    Wide(idx, cols,
         seq(|cols|, c requires 0 <= c < |cols| =>
           seq(|idx|, i requires 0 <= i < |idx| => MeanOf(CellRows(rows, idxKey, colKey, idx[i], cols[c]), val))))
  }

  /** A pivot cell is NaN exactly when no row has its pair of keys; otherwise it is their mean. */
  lemma CellMeaning<R(!new), I(!new)>(rows: seq<R>, idxKey: R -> I, colKey: R -> int, val: R -> int, i: I, c: int)
    ensures var m := MeanOf(CellRows(rows, idxKey, colKey, i, c), val);
      && (m.None? <==> forall x :: x in rows ==> !(idxKey(x) == i && colKey(x) == c))
      && (m.Some? ==> m.value.count == |CellRows(rows, idxKey, colKey, i, c)| &&
                      m.value.total == SumOf(CellRows(rows, idxKey, colKey, i, c), val))
  {
    var g := CellRows(rows, idxKey, colKey, i, c);
    if g != [] {
      assert g[0] in g;
    }
  }

  /** `rename(columns=f)`: relabel the columns, leave the index and the cells alone. */
  function RenameColumns<I, C, D, V>(w: Wide<I, C, V>, f: C -> D): (v: Wide<I, D, V>)
    ensures v.index == w.index && v.cells == w.cells && |v.columns| == |w.columns|
    ensures forall c :: 0 <= c < |w.columns| ==> v.columns[c] == f(w.columns[c])
    ensures w.Valid() ==> v.Valid()
  {
    Wide(w.index, seq(|w.columns|, c requires 0 <= c < |w.columns| => f(w.columns[c])), w.cells)
  }

  /** One column of a wide table as long rows, in index order. */
  function MeltColumn<I, C, V>(index: seq<I>, column: C, cells: seq<V>): (r: seq<Long<I, C, V>>)
    requires |cells| == |index|
    ensures |r| == |index|
    ensures forall i :: 0 <= i < |index| ==> r[i] == Long(index[i], column, cells[i])
  {
    seq(|index|, i requires 0 <= i < |index| => Long(index[i], column, cells[i]))
  }

  /** `melt(id_vars=index)`: column after column, each column's cells in index order. */
  function Melt<I, C, V>(w: Wide<I, C, V>): (r: seq<Long<I, C, V>>)
    requires w.Valid()
    ensures |r| == |w.columns| * |w.index|
    decreases |w.columns|
  {
    if w.columns == [] then []
    else
      MulStep(|w.columns|, |w.index|);
      MeltColumn(w.index, w.columns[0], w.cells[0]) + Melt(Wide(w.index, w.columns[1..], w.cells[1..]))
  }

  lemma {:induction false} MulStep(c: int, n: int)
    ensures c * n == n + (c - 1) * n
  {
  }

  lemma {:induction false} CellBound(c: int, m: int, n: int, i: int)
    requires 0 <= c < m && 0 <= i < n
    ensures 0 <= c * n + i < m * n
  {
    MulStep(m - c, n);
    assert (m - c) * n >= n;
    assert m * n - c * n == (m - c) * n;
  }

  /**
   * The melted table has |columns| * |index| rows, and the cell of column c
   * and index row i is its row c * |index| + i: column-major order.
   */
  lemma {:induction false} MeltAt<I, C, V>(w: Wide<I, C, V>, c: nat, i: nat)
    requires w.Valid() && c < |w.columns| && i < |w.index|
    ensures |Melt(w)| == |w.columns| * |w.index|
    ensures c * |w.index| + i < |Melt(w)|
    ensures Melt(w)[c * |w.index| + i] == Long(w.index[i], w.columns[c], w.cells[c][i])
    ensures Long(w.index[i], w.columns[c], w.cells[c][i]) in Melt(w)
    decreases |w.columns|
  {
    var n := |w.index|;
    var head := MeltColumn(w.index, w.columns[0], w.cells[0]);
    var rest := Wide(w.index, w.columns[1..], w.cells[1..]);
    assert Melt(w) == head + Melt(rest);
    MulStep(|w.columns|, n);
    CellBound(c, |w.columns|, n, i);
    if c == 0 {
      assert c * n == 0;
    } else {
      MeltAt(rest, c - 1, i);
      MulStep(c, n);
    }
  }

  /** Every long row is some cell of the wide table, labelled by that cell's index and column. */
  lemma {:induction false} MeltMember<I, C, V>(w: Wide<I, C, V>, l: Long<I, C, V>)
    requires w.Valid()
    ensures l in Melt(w) <==> exists c, i :: 0 <= c < |w.columns| && 0 <= i < |w.index| &&
                                         l == Long(w.index[i], w.columns[c], w.cells[c][i])
    decreases |w.columns|
  {
    if w.columns != [] {
      var rest := Wide(w.index, w.columns[1..], w.cells[1..]);
      MeltMember(rest, l);
      var head := MeltColumn(w.index, w.columns[0], w.cells[0]);
      assert Melt(w) == head + Melt(rest);
      if l in head {
        var i :| 0 <= i < |w.index| && head[i] == l;
        assert l == Long(w.index[i], w.columns[0], w.cells[0][i]);
      }
      if l in Melt(rest) {
        var c, i :| 0 <= c < |rest.columns| && 0 <= i < |w.index| &&
                    l == Long(w.index[i], rest.columns[c], rest.cells[c][i]);
        assert l == Long(w.index[i], w.columns[c + 1], w.cells[c + 1][i]);
      }
      if exists c, i :: 0 <= c < |w.columns| && 0 <= i < |w.index| &&
                       l == Long(w.index[i], w.columns[c], w.cells[c][i]) {
        var c, i :| 0 <= c < |w.columns| && 0 <= i < |w.index| &&
                    l == Long(w.index[i], w.columns[c], w.cells[c][i]);
        if c == 0 {
          assert head[i] == l;
        } else {
          assert l == Long(w.index[i], rest.columns[c - 1], rest.cells[c - 1][i]);
        }
      }
    }
  }

  /** Every melted row carries an index entry and a column label of the wide table. */
  lemma MeltLabels<I, C, V>(w: Wide<I, C, V>)
    requires w.Valid()
    ensures forall k :: 0 <= k < |Melt(w)| ==> Melt(w)[k].id in w.index && Melt(w)[k].variable in w.columns
  {
    forall k | 0 <= k < |Melt(w)| ensures Melt(w)[k].id in w.index && Melt(w)[k].variable in w.columns {
      MeltMember(w, Melt(w)[k]);
    }
  }

  /** Relabel the variable column of a long table (`map` on that column). */
  function MapVariable<I, C, D, V>(rows: seq<Long<I, C, V>>, f: C -> D): (r: seq<Long<I, D, V>>)
    ensures |r| == |rows|
    ensures forall k :: 0 <= k < |rows| ==> r[k] == Long(rows[k].id, f(rows[k].variable), rows[k].value)
  {
    seq(|rows|, k requires 0 <= k < |rows| => Long(rows[k].id, f(rows[k].variable), rows[k].value))
  }

  /** Every row of the melted pivot is an observed (index key, column key) pair with its pivot cell. */
  lemma PivotMeltSound<R(!new), I(!new)>(rows: seq<R>, idxKey: R -> I, ltI: (I, I) -> bool,
                                        colKey: R -> int, val: R -> int, l: Long<I, int, Option<Mean>>)
    requires l in Melt(PivotMean(rows, idxKey, ltI, colKey, val))
    ensures l.id in Keys(rows, idxKey, ltI)
    ensures l.variable in Keys(rows, colKey, IntLess)
    ensures l.value == MeanOf(CellRows(rows, idxKey, colKey, l.id, l.variable), val)
  {
    var w := PivotMean(rows, idxKey, ltI, colKey, val);
    MeltMember(w, l);
    var c, i :| 0 <= c < |w.columns| && 0 <= i < |w.index| &&
                l == Long(w.index[i], w.columns[c], w.cells[c][i]);
    assert w.index[i] in w.index && w.columns[c] in w.columns;
  }

  /** Every observed (index key, column key) pair, NaN or not, survives the melt with its pivot cell. */
  lemma PivotMeltComplete<R(!new), I(!new)>(rows: seq<R>, idxKey: R -> I, ltI: (I, I) -> bool,
                                           colKey: R -> int, val: R -> int, i: I, c: int)
    requires i in Keys(rows, idxKey, ltI) && c in Keys(rows, colKey, IntLess)
    ensures Long(i, c, MeanOf(CellRows(rows, idxKey, colKey, i, c), val)) in Melt(PivotMean(rows, idxKey, ltI, colKey, val))
  {
    var w := PivotMean(rows, idxKey, ltI, colKey, val);
    var ii :| 0 <= ii < |w.index| && w.index[ii] == i;
    var cc :| 0 <= cc < |w.columns| && w.columns[cc] == c;
    MeltAt(w, cc, ii);
  }
}
