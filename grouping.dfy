/**
 * The pandas building blocks the dashboard chains together, over a table
 * modelled as a sequence of rows: boolean-mask selection, `groupby` with
 * its sorted keys, sums and means per group, and `sort_values`.
 */
module Grouping {
  import opened Wrappers
  import opened Ordering

  // ---------------------------------------------------------------- selection

  /** Boolean-mask selection `df[mask]`: the rows `keep` accepts, in input order. */
  function Where<R(!new)>(rows: seq<R>, keep: R -> bool): (r: seq<R>)
    ensures |r| <= |rows|
    ensures forall x :: x in r <==> x in rows && keep(x)
  {
    if rows == [] then [] else (if keep(rows[0]) then [rows[0]] else []) + Where(rows[1..], keep)
  }

  /** `a` is `b` with some rows deleted: same rows, same relative order. */
  ghost predicate IsSubsequence<R(!new)>(a: seq<R>, b: seq<R>)
    decreases |b|
  {
    if a == [] then true
    else if b == [] then false
    else (a[0] == b[0] && IsSubsequence(a[1..], b[1..])) || IsSubsequence(a, b[1..])
  }

  lemma {:induction false} WhereIsSubsequence<R(!new)>(rows: seq<R>, keep: R -> bool)
    ensures IsSubsequence(Where(rows, keep), rows)
  {
    if rows != [] {
      WhereIsSubsequence(rows[1..], keep);
      var r := Where(rows, keep);
      if keep(rows[0]) {
        assert r[0] == rows[0] && r[1..] == Where(rows[1..], keep);
      } else {
        assert r == Where(rows[1..], keep);
      }
    }
  }

  /** Selection distributes over concatenation: it never reorders rows. */
  lemma {:induction false} WhereAppend<R(!new)>(a: seq<R>, b: seq<R>, keep: R -> bool)
    ensures Where(a + b, keep) == Where(a, keep) + Where(b, keep)
  {
    if a == [] {
      assert a + b == b;
    } else {
      assert (a + b)[0] == a[0] && (a + b)[1..] == a[1..] + b;
      WhereAppend(a[1..], b, keep);
    }
  }

  /** Each accepted row is kept as many times as it occurs; rejected rows never. */
  lemma {:induction false} WhereMultiplicity<R(!new)>(rows: seq<R>, keep: R -> bool, x: R)
    ensures multiset(Where(rows, keep))[x] == if keep(x) then multiset(rows)[x] else 0
  {
    if rows != [] {
      WhereMultiplicity(rows[1..], keep, x);
      assert rows == [rows[0]] + rows[1..];
    }
  }

  /** Applying the same mask twice keeps the same rows as applying it once. */
  lemma {:induction false} WhereIdempotent<R(!new)>(rows: seq<R>, keep: R -> bool)
    ensures Where(Where(rows, keep), keep) == Where(rows, keep)
  {
    if rows != [] {
      WhereIdempotent(rows[1..], keep);
      var w := Where(rows, keep);
      if keep(rows[0]) {
        assert w != [] && w[0] == rows[0] && w[1..] == Where(rows[1..], keep);
        assert Where(w, keep) == [w[0]] + Where(w[1..], keep);
      } else {
        assert w == Where(rows[1..], keep);
      }
    }
  }

  /** A mask that holds on every row selects the whole table. */
  lemma {:induction false} WhereKeepsAll<R(!new)>(rows: seq<R>, keep: R -> bool)
    requires forall x :: x in rows ==> keep(x)
    ensures Where(rows, keep) == rows
  {
    if rows != [] {
      assert forall x :: x in rows[1..] ==> x in rows;
      WhereKeepsAll(rows[1..], keep);
      assert rows == [rows[0]] + rows[1..];
    }
  }

  /** Selecting from rows already sorted by `rank` leaves them sorted. */
  lemma {:induction false} WhereKeepsSorted<R(!new)>(rows: seq<R>, keep: R -> bool, rank: R -> int)
    requires SortedByRank(rows, rank)
    ensures SortedByRank(Where(rows, keep), rank)
  {
    if rows != [] {
      assert SortedByRank(rows[1..], rank);
      WhereKeepsSorted(rows[1..], keep, rank);
      var tail := Where(rows[1..], keep);
      forall y | y in tail ensures rank(rows[0]) <= rank(y) {
        var k :| 0 <= k < |rows[1..]| && rows[1..][k] == y;
        assert rows[k + 1] == y;
      }
    }
  }

  // ---------------------------------------------------------------- sums

  function SumOf<R(!new)>(rows: seq<R>, val: R -> int): (sum: int)
    ensures (forall x :: x in rows ==> val(x) >= 0) ==> sum >= 0
  {
    if rows == [] then 0 else val(rows[0]) + SumOf(rows[1..], val)
  }

  lemma {:induction false} SumOfAppend<R(!new)>(a: seq<R>, b: seq<R>, val: R -> int)
    ensures SumOf(a + b, val) == SumOf(a, val) + SumOf(b, val)
  {
    if a == [] {
      assert a + b == b;
    } else {
      assert (a + b)[0] == a[0] && (a + b)[1..] == a[1..] + b;
      SumOfAppend(a[1..], b, val);
    }
  }

  /** The value 1 for every row: its sum is the row count. */
  function One<R(!new)>(x: R): int
  {
    1
  }

  lemma {:induction false} SumOfOne<R(!new)>(rows: seq<R>)
    ensures SumOf(rows, One) == |rows|
  {
    if rows != [] {
      SumOfOne(rows[1..]);
    }
  }

  /** A column that is the sum of two others sums to the sum of their sums. */
  lemma {:induction false} SumOfAdds<R(!new)>(rows: seq<R>, f: R -> int, g: R -> int, h: R -> int)
    requires forall x :: x in rows ==> f(x) == g(x) + h(x)
    ensures SumOf(rows, f) == SumOf(rows, g) + SumOf(rows, h)
  {
    if rows != [] {
      assert forall x :: x in rows[1..] ==> x in rows;
      SumOfAdds(rows[1..], f, g, h);
    }
  }

  // ---------------------------------------------------------------- groupby keys

  ghost predicate Distinct<K(!new)>(ks: seq<K>)
  {
    forall i, j :: 0 <= i < j < |ks| ==> ks[i] != ks[j]
  }

  /** Insert `k` into the sorted key list `ks`, unless it is already there. */
  function Insert<K(==,!new)>(k: K, ks: seq<K>, lt: (K, K) -> bool): (r: seq<K>)
    ensures forall x :: x in r <==> x == k || x in ks
  {
    if ks == [] then [k]
    else if k == ks[0] then ks
    else if lt(k, ks[0]) then [k] + ks
    else [ks[0]] + Insert(k, ks[1..], lt)
  }

  /** The distinct keys of `rows` under `key`, as `groupby(sort=True)` lists them. */
  function Keys<R(!new), K(==,!new)>(rows: seq<R>, key: R -> K, lt: (K, K) -> bool): (ks: seq<K>)
    ensures forall x :: x in rows ==> key(x) in ks
  {
    if rows == [] then [] else Insert(key(rows[0]), Keys(rows[1..], key, lt), lt)
  }

  /** Nothing but observed keys: every listed key is the key of some row. */
  lemma {:induction false} KeyObserved<R(!new), K(!new)>(rows: seq<R>, key: R -> K, lt: (K, K) -> bool, k: K)
    requires k in Keys(rows, key, lt)
    ensures exists x :: x in rows && key(x) == k
  {
    if key(rows[0]) != k {
      KeyObserved(rows[1..], key, lt, k);
      var x :| x in rows[1..] && key(x) == k;
      assert x in rows;
    }
  }

  lemma {:induction false} InsertSorted<K(!new)>(k: K, ks: seq<K>, lt: (K, K) -> bool)
    requires IsStrictTotal(lt) && StrictlySorted(ks, lt)
    ensures StrictlySorted(Insert(k, ks, lt), lt)
  {
    if ks != [] && k != ks[0] && !lt(k, ks[0]) {
      assert lt(ks[0], k);
      assert StrictlySorted(ks[1..], lt);
      InsertSorted(k, ks[1..], lt);
      var tail := Insert(k, ks[1..], lt);
      forall j | 0 <= j < |tail|
        ensures lt(ks[0], tail[j])
      {
        assert tail[j] in tail;
      }
    }
  }

  /** The group keys come out strictly ascending (so each one exactly once). */
  lemma {:induction false} KeysSorted<R(!new), K(!new)>(rows: seq<R>, key: R -> K, lt: (K, K) -> bool)
    requires IsStrictTotal(lt)
    ensures StrictlySorted(Keys(rows, key, lt), lt)
    ensures Distinct(Keys(rows, key, lt))
  {
    if rows != [] {
      KeysSorted(rows[1..], key, lt);
      InsertSorted(key(rows[0]), Keys(rows[1..], key, lt), lt);
    }
  }

  // ---------------------------------------------------------------- groups

  /** The rows of the group with key `k`, in input order. */
  function Group<R(!new), K(==,!new)>(rows: seq<R>, key: R -> K, k: K): (g: seq<R>)
    ensures forall x :: x in g <==> x in rows && key(x) == k
  {
    if rows == [] then [] else (if key(rows[0]) == k then [rows[0]] else []) + Group(rows[1..], key, k)
  }

  /** The total of `val` over the groups `ks`, added up group by group. */
  function SumOverKeys<R(!new), K(==,!new)>(rows: seq<R>, key: R -> K, ks: seq<K>, val: R -> int): int
  {
    if ks == [] then 0 else SumOf(Group(rows, key, ks[0]), val) + SumOverKeys(rows, key, ks[1..], val)
  }

  /** `v` counted once for each entry of `ks` equal to `k0`. */
  function Hits<K(==)>(ks: seq<K>, k0: K, v: int): int
  {
    if ks == [] then 0 else (if ks[0] == k0 then v else 0) + Hits(ks[1..], k0, v)
  }

  lemma {:induction false} HitsOnce<K(!new)>(ks: seq<K>, k0: K, v: int)
    requires Distinct(ks)
    ensures Hits(ks, k0, v) == if k0 in ks then v else 0
  {
    if ks != [] {
      assert Distinct(ks[1..]);
      HitsOnce(ks[1..], k0, v);
      if ks[0] == k0 {
        assert k0 !in ks[1..] by {
          forall j | 0 <= j < |ks[1..]| ensures ks[1..][j] != k0 {
            assert ks[0] != ks[j + 1];
          }
        }
      }
    }
  }

  lemma {:induction false} SumOverKeysHead<R(!new), K(!new)>(rows: seq<R>, key: R -> K, ks: seq<K>, val: R -> int)
    requires rows != []
    ensures SumOverKeys(rows, key, ks, val)
         == Hits(ks, key(rows[0]), val(rows[0])) + SumOverKeys(rows[1..], key, ks, val)
  {
    if ks != [] {
      SumOverKeysHead(rows, key, ks[1..], val);
      var g := Group(rows, key, ks[0]);
      if key(rows[0]) == ks[0] {
        assert g[0] == rows[0] && g[1..] == Group(rows[1..], key, ks[0]);
      } else {
        assert g == Group(rows[1..], key, ks[0]);
      }
    }
  }

  lemma {:induction false} SumOverKeysNoRows<R(!new), K(!new)>(key: R -> K, ks: seq<K>, val: R -> int)
    ensures SumOverKeys([], key, ks, val) == 0
  {
    if ks != [] {
      SumOverKeysNoRows(key, ks[1..], val);
    }
  }

  /**
   * Conservation: when every row's key is among `ks` and no key repeats,
   * the per-group totals add up to the column total.
   */
  lemma {:induction false} SumOverKeysConserves<R(!new), K(!new)>(rows: seq<R>, key: R -> K, ks: seq<K>, val: R -> int)
    requires Distinct(ks)
    requires forall x :: x in rows ==> key(x) in ks
    ensures SumOverKeys(rows, key, ks, val) == SumOf(rows, val)
  {
    if rows == [] {
      SumOverKeysNoRows(key, ks, val);
    } else {
      SumOverKeysHead(rows, key, ks, val);
      HitsOnce(ks, key(rows[0]), val(rows[0]));
      assert forall x :: x in rows[1..] ==> x in rows;
      SumOverKeysConserves(rows[1..], key, ks, val);
    }
  }

  // ---------------------------------------------------------------- means

  /** A mean kept exactly as its numerator and denominator. */
  datatype Mean = Mean(total: int, count: nat)

  /** `mean` of `val` over `rows`; pandas gives NaN (here `None`) for no rows. */
  function MeanOf<R(!new)>(rows: seq<R>, val: R -> int): (m: Option<Mean>)
    ensures m.None? <==> rows == []
    ensures m.Some? ==> m.value.count == |rows| && m.value.total == SumOf(rows, val)
  {
    if rows == [] then None else Some(Mean(SumOf(rows, val), |rows|))
  }

  /** One row of `groupby(key)[val].mean().reset_index()`. */
  datatype Agg<K> = Agg(key: K, mean: Mean)

  function MeansOver<R(!new), K(==,!new)>(rows: seq<R>, key: R -> K, ks: seq<K>, val: R -> int): (r: seq<Agg<K>>)
    ensures |r| == |ks|
    ensures forall i :: 0 <= i < |ks| ==> r[i].key == ks[i]
    ensures forall i :: 0 <= i < |ks| ==>
      r[i].mean == Mean(SumOf(Group(rows, key, ks[i]), val), |Group(rows, key, ks[i])|)
  {
    if ks == [] then []
    else
      var g := Group(rows, key, ks[0]);
      [Agg(ks[0], Mean(SumOf(g, val), |g|))] + MeansOver(rows, key, ks[1..], val)
  }

  /** Every key that `Keys` lists has a non-empty group. */
  lemma KeysHaveRows<R(!new), K(!new)>(rows: seq<R>, key: R -> K, lt: (K, K) -> bool)
    ensures forall i :: 0 <= i < |Keys(rows, key, lt)| ==> Group(rows, key, Keys(rows, key, lt)[i]) != []
  {
    var ks := Keys(rows, key, lt);
    forall i | 0 <= i < |ks| ensures Group(rows, key, ks[i]) != [] {
      KeyObserved(rows, key, lt, ks[i]);
      var x :| x in rows && key(x) == ks[i];
      assert x in Group(rows, key, ks[i]);
    }
  }

  /** `groupby(key)[val].mean().reset_index()`: one row per observed key, keys ascending. */
  function GroupMean<R(!new), K(==,!new)>(rows: seq<R>, key: R -> K, lt: (K, K) -> bool, val: R -> int): (r: seq<Agg<K>>)
    ensures |r| == |Keys(rows, key, lt)|
    ensures forall i :: 0 <= i < |r| ==> r[i].key == Keys(rows, key, lt)[i]
    ensures forall i :: 0 <= i < |r| ==> r[i].mean.count > 0
    ensures forall i :: 0 <= i < |r| ==>
      r[i].mean.count == |Group(rows, key, r[i].key)| && r[i].mean.total == SumOf(Group(rows, key, r[i].key), val)
  {
    KeysHaveRows(rows, key, lt);
    MeansOver(rows, key, Keys(rows, key, lt), val)
  }

  lemma GroupMeanSorted<R(!new), K(!new)>(rows: seq<R>, key: R -> K, lt: (K, K) -> bool, val: R -> int)
    requires IsStrictTotal(lt)
    ensures forall i, j :: 0 <= i < j < |GroupMean(rows, key, lt, val)| ==>
      lt(GroupMean(rows, key, lt, val)[i].key, GroupMean(rows, key, lt, val)[j].key)
  {
    KeysSorted(rows, key, lt);
  }

  lemma {:induction false} MeansOverSums<R(!new), K(!new)>(rows: seq<R>, key: R -> K, ks: seq<K>, val: R -> int)
    ensures SumOf(MeansOver(rows, key, ks, val), AggTotal) == SumOverKeys(rows, key, ks, val)
    ensures SumOf(MeansOver(rows, key, ks, val), AggCount) == SumOverKeys(rows, key, ks, One)
  {
    if ks != [] {
      MeansOverSums(rows, key, ks[1..], val);
      SumOfOne(Group(rows, key, ks[0]));
      var r := MeansOver(rows, key, ks, val);
      assert r[1..] == MeansOver(rows, key, ks[1..], val);
    }
  }

  function AggTotal<K(!new)>(a: Agg<K>): int
  {
    a.mean.total
  }

  function AggCount<K(!new)>(a: Agg<K>): int
  {
    a.mean.count
  }

  /**
   * Every input row lands in exactly one group: the group counts add up to
   * the row count and the group totals to the column total.
   */
  lemma GroupMeanConserves<R(!new), K(!new)>(rows: seq<R>, key: R -> K, lt: (K, K) -> bool, val: R -> int)
    requires IsStrictTotal(lt)
    ensures SumOf(GroupMean(rows, key, lt, val), AggCount) == |rows|
    ensures SumOf(GroupMean(rows, key, lt, val), AggTotal) == SumOf(rows, val)
  {
    var ks := Keys(rows, key, lt);
    KeysSorted(rows, key, lt);
    MeansOverSums(rows, key, ks, val);
    SumOverKeysConserves(rows, key, ks, val);
    SumOverKeysConserves(rows, key, ks, One);
    SumOfOne(rows);
  }

  /** `.map(mapping)` on the key column of a grouped result; the means are untouched. */
  function RelabelKeys<K(!new), L(!new)>(aggs: seq<Agg<K>>, f: K -> L): (r: seq<Agg<L>>)
    ensures |r| == |aggs|
    ensures forall i :: 0 <= i < |r| ==> r[i].key == f(aggs[i].key) && r[i].mean == aggs[i].mean
  {
    seq(|aggs|, i requires 0 <= i < |aggs| => Agg(f(aggs[i].key), aggs[i].mean))
  }

  /** Relabelling keys keeps the group counts and totals. */
  lemma {:induction false} RelabelKeysSums<K(!new), L(!new)>(aggs: seq<Agg<K>>, f: K -> L)
    ensures SumOf(RelabelKeys(aggs, f), AggCount) == SumOf(aggs, AggCount)
    ensures SumOf(RelabelKeys(aggs, f), AggTotal) == SumOf(aggs, AggTotal)
  {
    if aggs != [] {
      RelabelKeysSums(aggs[1..], f);
      assert RelabelKeys(aggs, f)[1..] == RelabelKeys(aggs[1..], f);
    }
  }

  // ---------------------------------------------------------------- sort_values

  ghost predicate SortedByRank<T(!new)>(xs: seq<T>, rank: T -> int)
  {
    forall i, j :: 0 <= i < j < |xs| ==> rank(xs[i]) <= rank(xs[j])
  }

  function InsertByRank<T(!new)>(x: T, xs: seq<T>, rank: T -> int): (r: seq<T>)
    requires SortedByRank(xs, rank)
    ensures multiset(r) == multiset(xs) + multiset{x}
    ensures SortedByRank(r, rank)
  {
    if xs == [] then [x]
    else if rank(x) <= rank(xs[0]) then [x] + xs
    else
      var tail := InsertByRank(x, xs[1..], rank);
      assert xs == [xs[0]] + xs[1..];
      InsertByRankBound(xs[0], x, xs[1..], tail, rank);
      [xs[0]] + tail
  }

  lemma InsertByRankBound<T(!new)>(h: T, x: T, xs: seq<T>, tail: seq<T>, rank: T -> int)
    requires SortedByRank([h] + xs, rank) && rank(h) < rank(x)
    requires multiset(tail) == multiset(xs) + multiset{x}
    ensures forall j :: 0 <= j < |tail| ==> rank(h) <= rank(tail[j])
  {
    forall j | 0 <= j < |tail| ensures rank(h) <= rank(tail[j]) {
      assert tail[j] in multiset(tail);
      if tail[j] != x {
        assert tail[j] in multiset(xs);
        var k :| 0 <= k < |xs| && xs[k] == tail[j];
        assert ([h] + xs)[0] == h && ([h] + xs)[k + 1] == xs[k];
        assert rank(([h] + xs)[0]) <= rank(([h] + xs)[k + 1]);
      }
    }
  }

  /**
   * `sort_values(by=rank)`: a permutation of `xs` whose ranks never decrease.
   * pandas' default sort is not stable; this one keeps ties in input order,
   * which is one of the orders pandas may produce.
   */
  function SortByRank<T(!new)>(xs: seq<T>, rank: T -> int): (r: seq<T>)
    ensures multiset(r) == multiset(xs)
    ensures SortedByRank(r, rank)
  {
    if xs == [] then []
    else
      assert xs == [xs[0]] + xs[1..];
      InsertByRank(xs[0], SortByRank(xs[1..], rank), rank)
  }
}
