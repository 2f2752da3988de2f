/**
 * The orders pandas sorts group keys by: integers ascending, pairs of
 * integers lexicographically (multi-key groupby), and strings by Python's
 * code-point lexicographic comparison (the weekday pivot index).
 */
module Ordering {

  /** `lt` is irreflexive, transitive and connected: a strict total order. */
  ghost predicate IsStrictTotal<K(!new)>(lt: (K, K) -> bool)
  {
    && (forall a :: !lt(a, a))
    && (forall a, b, c :: lt(a, b) && lt(b, c) ==> lt(a, c))
    && (forall a, b :: a != b ==> lt(a, b) || lt(b, a))
  }

  /** Every earlier element of `ks` is below every later one. */
  ghost predicate StrictlySorted<K>(ks: seq<K>, lt: (K, K) -> bool)
  {
    forall i, j :: 0 <= i < j < |ks| ==> lt(ks[i], ks[j])
  }

  function IntLess(a: int, b: int): bool
  {
    a < b
  }

  /** Lexicographic order on pairs: the order of a two-key groupby. */
  function PairLess(a: (int, int), b: (int, int)): bool
  {
    a.0 < b.0 || (a.0 == b.0 && a.1 < b.1)
  }

  /** Python's `<` on str: code points left to right, a proper prefix first. */
  function StrLess(a: string, b: string): (r: bool)
    ensures r ==> a != b
  {
    if b == [] then false
    else if a == [] then true
    else if a[0] < b[0] then true
    else if a[0] == b[0] then StrLess(a[1..], b[1..])
    else false
  }

  lemma IntLessIsStrictTotal()
    ensures IsStrictTotal(IntLess)
  {
  }

  lemma PairLessIsStrictTotal()
    ensures IsStrictTotal(PairLess)
  {
  }

  lemma {:induction false} StrLessTransitive(a: string, b: string, c: string)
    requires StrLess(a, b) && StrLess(b, c)
    ensures StrLess(a, c)
    decreases |a|
  {
    if a != [] && a[0] == b[0] && b[0] == c[0] {
      StrLessTransitive(a[1..], b[1..], c[1..]);
    }
  }

  lemma {:induction false} StrLessConnected(a: string, b: string)
    requires a != b
    ensures StrLess(a, b) || StrLess(b, a)
    decreases |a|
  {
    if a != [] && b != [] && a[0] == b[0] {
      assert a == [a[0]] + a[1..] && b == [b[0]] + b[1..];
      StrLessConnected(a[1..], b[1..]);
    }
  }

  lemma StrLessIsStrictTotal()
    ensures IsStrictTotal(StrLess)
  {
    forall a, b, c | StrLess(a, b) && StrLess(b, c)
      ensures StrLess(a, c)
    {
      StrLessTransitive(a, b, c);
    }
    forall a, b | a != b
      ensures StrLess(a, b) || StrLess(b, a)
    {
      StrLessConnected(a, b);
    }
  }
}
