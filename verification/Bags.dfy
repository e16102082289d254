/** The multiset of what a map holds. */
module Bags {

  ghost function AnyKey<T>(edges: map<nat, T>): (k: nat)
    requires edges != map[]
    ensures k in edges
  {
    assert edges.Keys != {};
    var k :| k in edges.Keys;
    k
  }

  ghost function Bag<T(!new)>(edges: map<nat, T>): multiset<T>
    decreases |edges|
  {
    if edges == map[] then multiset{}
    else
      var k := AnyKey(edges);
      assert edges.Keys == (edges - {k}).Keys + {k};
      Bag(edges - {k}) + multiset{edges[k]}
  }

  ghost function Keys<T>(edges: map<nat, T>, x: T): set<nat> {
    set k | k in edges && edges[k] == x
  }

  lemma WithoutKey<T>(edges: map<nat, T>, k: nat, x: T)
    requires k in edges
    ensures |edges| == |edges - {k}| + 1
    ensures |Keys(edges, x)| == |Keys(edges - {k}, x)| + if edges[k] == x then 1 else 0
  {
    var rest := edges - {k};
    assert edges.Keys == rest.Keys + {k};
    assert |edges.Keys| == |rest.Keys| + 1;
    if edges[k] == x {
      assert Keys(edges, x) == Keys(rest, x) + {k};
    } else {
      assert Keys(edges, x) == Keys(rest, x);
    }
  }

  lemma {:induction false} CountOf<T(!new)>(edges: map<nat, T>, x: T)
    ensures |Bag(edges)| == |edges| && Bag(edges)[x] == |Keys(edges, x)|
    decreases |edges|
  {
    if edges == map[] {
      assert Keys(edges, x) == {};
    } else {
      var k := AnyKey(edges);
      WithoutKey(edges, k, x);
      CountOf(edges - {k}, x);
    }
  }

  lemma BagAdd<T(!new)>(edges: map<nat, T>, k: nat, v: T)
    requires k !in edges
    ensures Bag(edges[k := v]) == Bag(edges) + multiset{v}
  {
    forall x
      ensures Bag(edges[k := v])[x] == (Bag(edges) + multiset{v})[x]
    {
      AddedOnce(edges, k, v, x);
    }
  }

  lemma AddedOnce<T(!new)>(edges: map<nat, T>, k: nat, v: T, x: T)
    requires k !in edges
    ensures Bag(edges[k := v])[x] == Bag(edges)[x] + if v == x then 1 else 0
  {
    KeysAdded(edges, k, v, x);
    CountOf(edges, x);
    CountOf(edges[k := v], x);
  }

  lemma KeysAdded<T>(edges: map<nat, T>, k: nat, v: T, x: T)
    requires k !in edges
    ensures |Keys(edges[k := v], x)| == |Keys(edges, x)| + if v == x then 1 else 0
  {
    if v == x {
      assert Keys(edges[k := v], x) == Keys(edges, x) + {k};
    } else {
      assert Keys(edges[k := v], x) == Keys(edges, x);
    }
  }

  lemma BagRemove<T(!new)>(edges: map<nat, T>, k: nat)
    requires k in edges
    ensures Bag(edges) == Bag(edges - {k}) + multiset{edges[k]}
  {
    BagAdd(edges - {k}, k, edges[k]);
    assert (edges - {k})[k := edges[k]] == edges;
  }

  /** A bag inside another of the same size is that bag. */
  lemma SameSizeSameBag<T(!new)>(a: multiset<T>, b: multiset<T>)
    requires a <= b && |a| == |b|
    ensures a == b
  {
    assert b == a + (b - a);
    assert |b - a| == 0;
  }

  lemma AtMostOnce<T(!new)>(rows: seq<T>)
    requires forall r | r in rows :: multiset(rows)[r] <= 1
    ensures forall i, j | 0 <= i < j < |rows| :: rows[i] != rows[j]
  {
    forall i, j | 0 <= i < j < |rows|
      ensures rows[i] != rows[j]
    {
      assert rows == rows[..i] + [rows[i]] + rows[i + 1..j] + [rows[j]] + rows[j + 1..];
      assert rows[i] in rows;
    }
  }

  /** As many values as keys, if the values tell the keys apart. */
  lemma {:induction false} ValuesOfKeys<T(!new)>(edges: map<nat, T>, keys: set<nat>, values: set<T>)
    requires forall k | k in keys :: k in edges && edges[k] in values
    requires forall j, k | j in keys && k in keys && edges[j] == edges[k] :: j == k
    requires forall v | v in values :: exists k :: k in keys && edges[k] == v
    ensures |keys| == |values|
    decreases |keys|
  {
    if k :| k in keys {
      forall v | v in values - {edges[k]}
        ensures exists j :: j in keys - {k} && edges[j] == v
      {
        var j :| j in keys && edges[j] == v;
      }
      ValuesOfKeys(edges, keys - {k}, values - {edges[k]});
    } else {
      assert values == {};
    }
  }

  lemma InBag<T(!new)>(edges: map<nat, T>, x: T)
    ensures x in Bag(edges) <==> x in edges.Values
  {
    CountOf(edges, x);
    if x in edges.Values {
      var k :| k in edges && edges[k] == x;
      assert k in Keys(edges, x);
    } else {
      assert Keys(edges, x) == {};
    }
  }

  lemma BagSize<T(!new)>(edges: map<nat, T>)
    ensures |Bag(edges)| == |edges|
  {
    if edges != map[] {
      CountOf(edges, edges[AnyKey(edges)]);
    }
  }

  lemma SmallerBag<T(!new)>(a: multiset<T>, b: multiset<T>)
    requires a <= b
    ensures |a| <= |b|
  {
    assert b == a + (b - a);
  }

  /** The bag of a map in two parts. */
  lemma BagJoins<T(!new)>(a: map<nat, T>, b: map<nat, T>)
    requires a.Keys !! b.Keys
    ensures Bag(a + b) == Bag(a) + Bag(b) && |a + b| == |a| + |b|
  {
    forall x
      ensures Bag(a + b)[x] == Bag(a)[x] + Bag(b)[x]
    {
      JoinedCount(a, b, x);
    }
    assert (a + b).Keys == a.Keys + b.Keys;
    assert |(a + b).Keys| == |a.Keys| + |b.Keys|;
  }

  lemma JoinedCount<T(!new)>(a: map<nat, T>, b: map<nat, T>, x: T)
    requires a.Keys !! b.Keys
    ensures Bag(a + b)[x] == Bag(a)[x] + Bag(b)[x]
  {
    JoinedKeys(a, b, x);
    CountOf(a, x);
    CountOf(b, x);
    CountOf(a + b, x);
  }

  lemma JoinedKeys<T>(a: map<nat, T>, b: map<nat, T>, x: T)
    requires a.Keys !! b.Keys
    ensures |Keys(a + b, x)| == |Keys(a, x)| + |Keys(b, x)|
  {
    assert Keys(a + b, x) == Keys(a, x) + Keys(b, x);
    assert Keys(a, x) !! Keys(b, x);
  }

  // ---------------------------------------------------------------------------------------------
  // Images

  function MapAll<A, B>(f: A -> B, s: seq<A>): (image: seq<B>)
    ensures |image| == |s| && forall i | 0 <= i < |s| :: image[i] == f(s[i])
  {
    seq(|s|, i requires 0 <= i < |s| => f(s[i]))
  }

  lemma MapAllGrows<A, B>(f: A -> B, s: seq<A>, x: A)
    ensures multiset(MapAll(f, s + [x])) == multiset(MapAll(f, s)) + multiset{f(x)}
  {
    assert MapAll(f, s + [x]) == MapAll(f, s) + [f(x)];
  }

  ghost function MapEdges<A, B>(f: A -> B, edges: map<nat, A>): map<nat, B> {
    map k | k in edges :: f(edges[k])
  }

  lemma CancelOne<T>(a: multiset<T>, b: multiset<T>, x: T)
    requires a + multiset{x} <= b + multiset{x}
    ensures a <= b
  {
    assert a == (a + multiset{x}) - multiset{x};
    assert b == (b + multiset{x}) - multiset{x};
  }

  lemma TakeOne<T(!new)>(init: seq<T>, x: T, edges: map<nat, T>) returns (k: nat)
    requires multiset(init) + multiset{x} <= Bag(edges)
    ensures k in edges && edges[k] == x && multiset(init) <= Bag(edges - {k})
  {
    assert x in multiset(init) + multiset{x};
    InBag(edges, x);
    k :| k in edges && edges[k] == x;
    BagRemove(edges, k);
    CancelOne(multiset(init), Bag(edges - {k}), x);
  }

  lemma ImageOfOne<A(!new), B(!new)>(f: A -> B, edges: map<nat, A>, k: nat)
    requires k in edges
    ensures Bag(MapEdges(f, edges)) == Bag(MapEdges(f, edges - {k})) + multiset{f(edges[k])}
  {
    BagRemove(MapEdges(f, edges), k);
    assert MapEdges(f, edges) - {k} == MapEdges(f, edges - {k});
  }

  /** Values taken from a bag have their images in the bag of images. */
  lemma {:induction false} ImagesBelow<A(!new), B(!new)>(f: A -> B, s: seq<A>, edges: map<nat, A>)
    requires multiset(s) <= Bag(edges)
    ensures multiset(MapAll(f, s)) <= Bag(MapEdges(f, edges))
  {
    if s == [] {
      assert MapAll(f, s) == [];
    } else {
      var init, x := s[..|s| - 1], s[|s| - 1];
      assert s == init + [x];
      var k := TakeOne(init, x, edges);
      ImagesBelow(f, init, edges - {k});
      MapAllGrows(f, init, x);
      ImageOfOne(f, edges, k);
    }
  }

  // ---------------------------------------------------------------------------------------------
  // Sets as lists

  ghost function ListOf<T(!new)>(s: set<T>): (l: seq<T>)
    ensures multiset(l) == multiset(s)
    decreases |s|
  {
    if s == {} then []
    else
      var x :| x in s;
      assert s == (s - {x}) + {x};
      ListOf(s - {x}) + [x]
  }

  lemma ListMembers<T(!new)>(s: set<T>)
    ensures forall x :: x in ListOf(s) <==> x in s
  {
    forall x
      ensures x in ListOf(s) <==> x in s
    {
      assert x in ListOf(s) <==> x in multiset(ListOf(s));
    }
  }
}
