/** `defaultdict(list)` keyed by a property: the items of each key in their order, and the keys in theirs. */
module Grouping {
  import opened Collections

  function Filter<T(!new)>(keep: T -> bool, s: seq<T>): (r: seq<T>)
    ensures |r| <= |s| && forall x :: x in r <==> x in s && keep(x)
    ensures forall x | x in s && !keep(x) :: |r| < |s|
  {
    if s == [] then [] else (if keep(s[0]) then [s[0]] else []) + Filter(keep, s[1..])
  }

  lemma {:induction false} FilterAppend<T(!new)>(keep: T -> bool, s: seq<T>, x: T)
    ensures Filter(keep, s + [x]) == Filter(keep, s) + if keep(x) then [x] else []
  {
    if s != [] {
      FilterAppend(keep, s[1..], x);
      assert (s + [x])[1..] == s[1..] + [x];
    }
  }

  lemma {:induction false} FilterNone<T(!new)>(keep: T -> bool, s: seq<T>)
    requires forall x | x in s :: !keep(x)
    ensures Filter(keep, s) == []
  {
    if s != [] {
      FilterNone(keep, s[1..]);
    }
  }

  lemma {:induction false} FilterDistinct<T(!new), K>(keep: T -> bool, id: T -> K, s: seq<T>)
    requires DistinctBy(id, s)
    ensures DistinctBy(id, Filter(keep, s))
  {
    if s != [] {
      FilterDistinct(keep, id, s[1..]);
      var rest := Filter(keep, s[1..]);
      forall i | 0 <= i < |rest|
        ensures id(rest[i]) != id(s[0])
      {
        assert rest[i] in rest;
      }
    }
  }

  ghost predicate DistinctBy<T, K>(id: T -> K, s: seq<T>) {
    forall i, j | 0 <= i < j < |s| :: id(s[i]) != id(s[j])
  }

  function HasKey<T, K(==)>(key: T -> K, k: K): T -> bool {
    (x: T) => key(x) == k
  }

  function Members<T(!new), K(==)>(key: T -> K, s: seq<T>, k: K): seq<T> {
    Filter(HasKey(key, k), s)
  }

  function KeysMet<T(!new), K(!new, ==)>(key: T -> K, s: seq<T>): (keys: seq<K>)
    ensures forall k :: k in keys <==> exists x :: x in s && key(x) == k
    ensures NoDuplicates(keys)
  {
    if s == [] then []
    else
      var last := s[|s| - 1];
      var met := KeysMet(key, s[..|s| - 1]);
      assert s == s[..|s| - 1] + [last];
      if key(last) in met then met else met + [key(last)]
  }

  lemma MembersHaveKey<T(!new), K>(key: T -> K, s: seq<T>, k: K)
    ensures forall x :: x in Members(key, s, k) <==> x in s && key(x) == k
  {
    forall x
      ensures x in Members(key, s, k) <==> x in s && key(x) == k
    {
      assert HasKey(key, k)(x) <==> key(x) == k;
    }
  }

  ghost predicate Grouped<T(!new), K(!new)>(key: T -> K, s: seq<T>, keys: seq<K>, groups: map<K, seq<T>>) {
    && keys == KeysMet(key, s) && (forall k :: k in groups <==> k in keys)
    && forall k | k in groups :: groups[k] == Members(key, s, k)
  }

  lemma MembersGrow<T(!new), K(!new)>(key: T -> K, s: seq<T>, x: T, k: K)
    ensures Members(key, s + [x], k) == if key(x) == k then Members(key, s, k) + [x] else Members(key, s, k)
    ensures k !in KeysMet(key, s) ==> Members(key, s, k) == []
  {
    FilterAppend(HasKey(key, k), s, x);
    if k !in KeysMet(key, s) {
      FilterNone(HasKey(key, k), s);
    }
  }

  lemma KeysGrow<T(!new), K(!new)>(key: T -> K, s: seq<T>, x: T)
    ensures KeysMet(key, s + [x]) == if key(x) in KeysMet(key, s) then KeysMet(key, s) else KeysMet(key, s) + [key(x)]
  {
    assert (s + [x])[..|s|] == s;
  }

  lemma GroupGrows<T(!new), K(!new)>(key: T -> K, s: seq<T>, x: T, keys: seq<K>, groups: map<K, seq<T>>)
    requires Grouped(key, s, keys, groups)
    ensures key(x) in groups ==> Grouped(key, s + [x], keys, groups[key(x) := groups[key(x)] + [x]])
    ensures key(x) !in groups ==> Grouped(key, s + [x], keys + [key(x)], groups[key(x) := [x]])
  {
    KeysGrow(key, s, x);
    var grown := groups[key(x) := if key(x) in groups then groups[key(x)] + [x] else [x]];
    forall k | k in grown
      ensures grown[k] == Members(key, s + [x], k)
    {
      MembersGrow(key, s, x, k);
    }
  }

  method GroupBy<T(!new), K(!new, ==)>(key: T -> K, s: seq<T>) returns (keys: seq<K>, groups: map<K, seq<T>>)
    ensures Grouped(key, s, keys, groups)
  {
    keys, groups := [], map[];
    for i := 0 to |s|
      invariant Grouped(key, s[..i], keys, groups)
    {
      var x := s[i];
      assert s[..i + 1] == s[..i] + [x];
      GroupGrows(key, s[..i], x, keys, groups);
      if key(x) in groups {
        groups := groups[key(x) := groups[key(x)] + [x]];
      } else {
        keys, groups := keys + [key(x)], groups[key(x) := [x]];
      }
    }
    assert s[..|s|] == s;
  }
}
