/** Total orders, their lexicographic lifting, and the sorting that Python's `sorted` performs. */
module Orders {
  import opened Collections

  ghost predicate TotalOrder<T(!new)>(leq: (T, T) -> bool) {
    && (forall a :: leq(a, a))
    && (forall a, b :: leq(a, b) && leq(b, a) ==> a == b)
    && (forall a, b, c :: leq(a, b) && leq(b, c) ==> leq(a, c))
    && (forall a, b :: leq(a, b) || leq(b, a))
  }

  predicate LexLeq<T(==)>(leq: (T, T) -> bool, a: seq<T>, b: seq<T>) {
    a == [] || (b != [] && if a[0] == b[0] then LexLeq(leq, a[1..], b[1..]) else leq(a[0], b[0]))
  }

  lemma {:induction false} LexAntisymmetric<T(!new)>(leq: (T, T) -> bool, a: seq<T>, b: seq<T>)
    requires TotalOrder(leq)
    requires LexLeq(leq, a, b) && LexLeq(leq, b, a)
    ensures a == b
  {
    if a != [] && b != [] {
      LexAntisymmetric(leq, a[1..], b[1..]);
      assert a == [a[0]] + a[1..] && b == [b[0]] + b[1..];
    }
  }

  lemma {:induction false} LexTransitive<T(!new)>(leq: (T, T) -> bool, a: seq<T>, b: seq<T>, c: seq<T>)
    requires TotalOrder(leq)
    requires LexLeq(leq, a, b) && LexLeq(leq, b, c)
    ensures LexLeq(leq, a, c)
  {
    if a != [] && a[0] == b[0] == c[0] {
      LexTransitive(leq, a[1..], b[1..], c[1..]);
    }
  }

  lemma {:induction false} LexConnected<T(!new)>(leq: (T, T) -> bool, a: seq<T>, b: seq<T>)
    requires TotalOrder(leq)
    ensures LexLeq(leq, a, b) || LexLeq(leq, b, a)
  {
    if a != [] && b != [] && a[0] == b[0] {
      LexConnected(leq, a[1..], b[1..]);
    }
  }

  lemma {:induction false} LexReflexive<T(!new)>(leq: (T, T) -> bool, a: seq<T>)
    ensures LexLeq(leq, a, a)
  {
    if a != [] {
      LexReflexive(leq, a[1..]);
    }
  }

  predicate CharLeq(a: char, b: char) {
    a <= b
  }

  /** Python compares `str` values code point by code point. */
  predicate StrLeq(a: string, b: string) {
    LexLeq(CharLeq, a, b)
  }

  /** The first difference is at `i`, where `a` has the smaller character. */
  ghost predicate SmallerAt(a: string, b: string, i: nat) {
    i < |a| && i < |b| && a[..i] == b[..i] && a[i] < b[i]
  }

  lemma SmallerInTails(a: string, b: string, i: nat)
    requires a != [] && b != [] && a[0] == b[0]
    ensures SmallerAt(a[1..], b[1..], i) <==> SmallerAt(a, b, i + 1)
    ensures !SmallerAt(a, b, 0)
  {
    if i < |a| - 1 && i < |b| - 1 {
      assert a[..i + 1] == [a[0]] + a[1..][..i] && b[..i + 1] == [b[0]] + b[1..][..i];
      assert a[..i + 1][1..] == a[1..][..i] && b[..i + 1][1..] == b[1..][..i];
    }
  }

  lemma SmallerInFirst(a: string, b: string, i: nat)
    requires a != [] && b != [] && a[0] != b[0]
    ensures SmallerAt(a, b, i) <==> i == 0 && a[0] < b[0]
    ensures !(a <= b)
  {
    if 0 < i < |a| && i < |b| {
      assert a[..i][0] != b[..i][0];
    }
  }

  lemma TailPrefix(a: string, b: string)
    requires a != [] && b != [] && a[0] == b[0]
    ensures a <= b <==> a[1..] <= b[1..]
  {
    assert a == [a[0]] + a[1..] && b == [b[0]] + b[1..];
  }

  /** One text comes no later than another if it begins it, or if its first different character is smaller. */
  lemma {:induction false} StrLeqMeans(a: string, b: string)
    ensures StrLeq(a, b) <==> a <= b || exists i: nat :: SmallerAt(a, b, i)
  {
    if a != [] && b != [] && a[0] == b[0] {
      StrLeqMeans(a[1..], b[1..]);
      TailPrefix(a, b);
      forall i: nat
        ensures SmallerAt(a[1..], b[1..], i) <==> SmallerAt(a, b, i + 1)
        ensures !SmallerAt(a, b, 0)
      {
        SmallerInTails(a, b, i);
      }
      if i: nat :| SmallerAt(a, b, i) {
        assert SmallerAt(a[1..], b[1..], i - 1);
      }
    } else if a != [] && b != [] {
      SmallerInFirst(a, b, 0);
      forall i: nat
        ensures SmallerAt(a, b, i) <==> i == 0 && a[0] < b[0]
      {
        SmallerInFirst(a, b, i);
      }
    }
  }

  /** Python compares tuples of `str` element by element. */
  predicate TupleLeq(a: seq<string>, b: seq<string>) {
    LexLeq(StrLeq, a, b)
  }

  lemma SingleLeq(b: string, d: string)
    ensures TupleLeq([b], [d]) <==> b == d || StrLeq(b, d)
  {
    assert [b][1..] == [] && [d][1..] == [];
    assert LexLeq(StrLeq, [b], [d]) <==> if b == d then LexLeq(StrLeq, [b][1..], [d][1..]) else StrLeq(b, d);
  }

  /** Of two pairs the first components decide, and the second ones if those are equal. */
  lemma PairLeqMeans(a: string, b: string, c: string, d: string)
    ensures TupleLeq([a, b], [c, d]) <==> if a == c then StrLeq(b, d) else StrLeq(a, c)
  {
    assert [a, b][1..] == [b] && [c, d][1..] == [d];
    LexReflexive(CharLeq, b);
    SingleLeq(b, d);
  }

  lemma StrLeqTotal()
    ensures TotalOrder(StrLeq)
  {
    assert TotalOrder(CharLeq);
    forall a, b, c
      ensures StrLeq(a, a)
      ensures StrLeq(a, b) || StrLeq(b, a)
      ensures StrLeq(a, b) && StrLeq(b, a) ==> a == b
      ensures StrLeq(a, b) && StrLeq(b, c) ==> StrLeq(a, c)
    {
      LexReflexive(CharLeq, a);
      LexConnected(CharLeq, a, b);
      if StrLeq(a, b) && StrLeq(b, a) { LexAntisymmetric(CharLeq, a, b); }
      if StrLeq(a, b) && StrLeq(b, c) { LexTransitive(CharLeq, a, b, c); }
    }
  }

  lemma TupleLeqTotal()
    ensures TotalOrder(TupleLeq)
  {
    StrLeqTotal();
    forall a, b, c
      ensures TupleLeq(a, a)
      ensures TupleLeq(a, b) || TupleLeq(b, a)
      ensures TupleLeq(a, b) && TupleLeq(b, a) ==> a == b
      ensures TupleLeq(a, b) && TupleLeq(b, c) ==> TupleLeq(a, c)
    {
      LexReflexive(StrLeq, a);
      LexConnected(StrLeq, a, b);
      if TupleLeq(a, b) && TupleLeq(b, a) { LexAntisymmetric(StrLeq, a, b); }
      if TupleLeq(a, b) && TupleLeq(b, c) { LexTransitive(StrLeq, a, b, c); }
    }
  }

  ghost predicate SortedBy<T>(leq: (T, T) -> bool, s: seq<T>) {
    forall i, j | 0 <= i < j < |s| :: leq(s[i], s[j])
  }

  lemma {:induction false} LeastExists<T(!new)>(leq: (T, T) -> bool, s: set<T>)
    requires TotalOrder(leq)
    requires s != {}
    ensures exists m :: m in s && forall x | x in s :: leq(m, x)
    decreases |s|
  {
    var y :| y in s;
    if s == {y} {
      assert forall x | x in s :: leq(y, x);
    } else {
      LeastExists(leq, s - {y});
      var m :| m in s - {y} && forall x | x in s - {y} :: leq(m, x);
      var least := if leq(y, m) then y else m;
      assert least in s && forall x | x in s :: leq(least, x);
    }
  }

  function Least<T(!new, ==)>(leq: (T, T) -> bool, s: set<T>): (m: T)
    requires TotalOrder(leq)
    requires s != {}
    ensures m in s && forall x | x in s :: leq(m, x)
  {
    LeastExists(leq, s);
    var m :| m in s && forall x | x in s :: leq(m, x);
    m
  }

  /** `sorted(s)` for a set: every element once, in ascending order. */
  function SortSet<T(!new, ==)>(leq: (T, T) -> bool, s: set<T>): (r: seq<T>)
    requires TotalOrder(leq)
    ensures |r| == |s|
    ensures forall x :: x in r <==> x in s
    decreases |s|
  {
    if s == {} then []
    else
      var m := Least(leq, s);
      [m] + SortSet(leq, s - {m})
  }

  lemma {:induction false} SortSetSorted<T(!new)>(leq: (T, T) -> bool, s: set<T>)
    requires TotalOrder(leq)
    ensures SortedBy(leq, SortSet(leq, s)) && NoDuplicates(SortSet(leq, s))
    decreases |s|
  {
    if s != {} {
      var m := Least(leq, s);
      SortSetSorted(leq, s - {m});
      var rest := SortSet(leq, s - {m});
      assert forall x | x in rest :: x in s - {m};
      assert forall i | 0 <= i < |rest| :: rest[i] in s - {m};
    }
  }

  ghost function Image<A, B>(f: A -> B, s: set<A>): set<B> {
    set a | a in s :: f(a)
  }

  lemma ImageGrows<A, B>(f: A -> B, s: set<A>, more: set<A>, b: B)
    requires more != {} && forall a | a in more :: f(a) == b
    ensures Image(f, s + more) == Image(f, s) + {b}
  {
    var witness' :| witness' in more;
    assert f(witness') == b;
  }
}
