/** Finite sums over sequences, and the double counting the clustering proof needs. */
module Counting {
  import opened Collections

  ghost function Total<T>(s: seq<T>, w: T -> int): int {
    if s == [] then 0 else w(s[0]) + Total(s[1..], w)
  }

  lemma {:induction false} TotalLeq<T>(s: seq<T>, v: T -> int, w: T -> int)
    requires forall x | x in s :: v(x) <= w(x)
    ensures Total(s, v) <= Total(s, w)
    ensures Total(s, v) == Total(s, w) ==> forall x | x in s :: v(x) == w(x)
  {
    if s != [] {
      TotalLeq(s[1..], v, w);
    }
  }

  lemma TotalEqual<T>(s: seq<T>, v: T -> int, w: T -> int)
    requires forall x | x in s :: v(x) == w(x)
    ensures Total(s, v) == Total(s, w)
  {
    TotalLeq(s, v, w);
    TotalLeq(s, w, v);
  }

  lemma {:induction false} TotalBound<T>(s: seq<T>, w: T -> int, bound: int)
    requires forall x | x in s :: 0 <= w(x) <= bound
    ensures 0 <= Total(s, w) <= |s| * bound
  {
    if s != [] {
      TotalBound(s[1..], w, bound);
      assert |s| * bound == bound + |s[1..]| * bound;
    }
  }

  lemma {:induction false} TotalAdd<T>(s: seq<T>, v: T -> int, w: T -> int, sum: T -> int)
    requires forall x | x in s :: sum(x) == v(x) + w(x)
    ensures Total(s, sum) == Total(s, v) + Total(s, w)
  {
    if s != [] {
      TotalAdd(s[1..], v, w, sum);
    }
  }

  ghost function Row<T>(t: seq<T>, r: (T, T) -> int): T -> int {
    u => Total(t, Along(r, u))
  }

  ghost function Along<T>(r: (T, T) -> int, u: T): T -> int {
    v => r(u, v)
  }

  ghost function Transposed<T>(r: (T, T) -> int): (T, T) -> int {
    (v, u) => r(u, v)
  }

  /** Summing rows first or columns first gives the same total. */
  lemma {:induction false} DoubleCounting<T>(s: seq<T>, t: seq<T>, r: (T, T) -> int)
    ensures Total(s, Row(t, r)) == Total(t, Row(s, Transposed(r)))
  {
    if s == [] {
      TotalEqual(t, Row(s, Transposed(r)), v => 0);
      TotalBound(t, v => 0, 0);
    } else {
      DoubleCounting(s[1..], t, r);
      TotalAdd(t, Along(r, s[0]), Row(s[1..], Transposed(r)), Row(s, Transposed(r)));
    }
  }

  ghost function Indicator<T>(p: T -> bool): T -> int {
    x => if p(x) then 1 else 0
  }

  ghost function Where<T>(s: seq<T>, p: T -> bool): set<T> {
    set x | x in s && p(x)
  }

  lemma WhereUnfolds<T>(s: seq<T>, p: T -> bool)
    requires NoDuplicates(s) && s != []
    ensures Where(s, p) == Where(s[1..], p) + if p(s[0]) then {s[0]} else {}
    ensures s[0] !in Where(s[1..], p) && NoDuplicates(s[1..])
  {
    assert s == [s[0]] + s[1..];
    assert s[0] !in s[1..];
  }

  /** A cardinality is a sum of indicators. */
  lemma {:induction false} CardinalityIsTotal<T>(s: seq<T>, p: T -> bool)
    requires NoDuplicates(s)
    ensures |Where(s, p)| == Total(s, Indicator(p))
  {
    if s != [] {
      WhereUnfolds(s, p);
      CardinalityIsTotal(s[1..], p);
    }
  }
}
