/** How the episodic fold sorts the victims' MENTIONS rows before it writes anything. */
module EpisodicPlan {
  import opened GraphStore
  import opened Folding

  /** The (survivor, target) pair a row stands for once victims are read as survivors. */
  function PairOf(root: Redirect, m: Mention): (string, string) {
    (To(root, m.src), m.dst)
  }

  function EndsOf(m: Mention): (string, string) {
    (m.src, m.dst)
  }

  predicate Resolved(m: Mention) {
    m.src != "" && m.dst != ""
  }

  // ---------------------------------------------------------------------------------------------
  // Rows of one victim to one target

  ghost predicate Uniques(rows: seq<Mention>, unique: seq<Mention>, repeats: seq<Mention>) {
    && multiset(unique) + multiset(repeats) == multiset(rows)
    && (forall i, j | 0 <= i < j < |unique| :: EndsOf(unique[i]) != EndsOf(unique[j]))
    && (forall r | r in rows :: exists u :: u in unique && EndsOf(u) == EndsOf(r))
  }

  lemma AddRepeat(rows: seq<Mention>, row: Mention, unique: seq<Mention>, repeats: seq<Mention>)
    requires Uniques(rows, unique, repeats) && EndsOf(row) in Ends(unique)
    ensures Uniques(rows + [row], unique, repeats + [row])
  {
  }

  lemma AddUnique(rows: seq<Mention>, row: Mention, unique: seq<Mention>, repeats: seq<Mention>)
    requires Uniques(rows, unique, repeats) && EndsOf(row) !in Ends(unique)
    ensures Uniques(rows + [row], unique + [row], repeats) && Ends(unique + [row]) == Ends(unique) + {EndsOf(row)}
  {
    ValueAdded(EndsOf, unique, row);
    forall i | 0 <= i < |unique|
      ensures EndsOf(unique[i]) != EndsOf(row)
    {
      assert EndsOf(unique[i]) in Ends(unique);
    }
    forall r | r in rows + [row]
      ensures exists u :: u in unique + [row] && EndsOf(u) == EndsOf(r)
    {
      if r in rows {
        var u :| u in unique && EndsOf(u) == EndsOf(r);
        assert u in unique + [row];
      } else {
        assert row in unique + [row];
      }
    }
  }

  method SplitRepeats(rows: seq<Mention>) returns (unique: seq<Mention>, repeats: seq<Mention>)
    ensures Uniques(rows, unique, repeats)
  {
    unique, repeats := [], [];
    var seen: set<(string, string)> := {};
    for i := 0 to |rows|
      invariant Uniques(rows[..i], unique, repeats) && seen == Ends(unique)
    {
      var row := rows[i];
      assert rows[..i + 1] == rows[..i] + [row];
      if EndsOf(row) in seen {
        AddRepeat(rows[..i], row, unique, repeats);
        repeats := repeats + [row];
      } else {
        AddUnique(rows[..i], row, unique, repeats);
        seen := seen + {EndsOf(row)};
        unique := unique + [row];
      }
    }
    assert rows[..|rows|] == rows;
  }

  // ---------------------------------------------------------------------------------------------
  // Which of them are redundant on the survivor

  /** `held` are the pairs the survivors already have. */
  ghost predicate Sorted(root: Redirect, held: set<(string, string)>, unique: seq<Mention>,
                         drop: seq<Mention>, dedupe: seq<Mention>, create: seq<Mention>) {
    && multiset(drop) + multiset(dedupe) + multiset(create) == multiset(unique)
    && (forall m | m in drop :: PairOf(root, m) in held)
    && (forall m | m in create :: PairOf(root, m) !in held)
    && (forall i, j | 0 <= i < j < |create| :: PairOf(root, create[i]) != PairOf(root, create[j]))
    && (forall m | m in dedupe :: PairOf(root, m) !in held && exists c :: c in create && PairOf(root, c) == PairOf(root, m))
  }

  lemma AddDrop(root: Redirect, held: set<(string, string)>, met: seq<Mention>, row: Mention,
                drop: seq<Mention>, dedupe: seq<Mention>, create: seq<Mention>)
    requires Sorted(root, held, met, drop, dedupe, create) && PairOf(root, row) in held
    ensures Sorted(root, held, met + [row], drop + [row], dedupe, create)
  {
  }

  lemma AddDedupe(root: Redirect, held: set<(string, string)>, met: seq<Mention>, row: Mention,
                  drop: seq<Mention>, dedupe: seq<Mention>, create: seq<Mention>)
    requires Sorted(root, held, met, drop, dedupe, create)
    requires PairOf(root, row) !in held && PairOf(root, row) in Values(PairFn(root), create)
    ensures Sorted(root, held, met + [row], drop, dedupe + [row], create)
  {
  }

  lemma AddCreate(root: Redirect, held: set<(string, string)>, met: seq<Mention>, row: Mention,
                  drop: seq<Mention>, dedupe: seq<Mention>, create: seq<Mention>)
    requires Sorted(root, held, met, drop, dedupe, create)
    requires PairOf(root, row) !in held && PairOf(root, row) !in Values(PairFn(root), create)
    ensures Sorted(root, held, met + [row], drop, dedupe, create + [row])
    ensures Values(PairFn(root), create + [row]) == Values(PairFn(root), create) + {PairOf(root, row)}
  {
    ValueAdded(PairFn(root), create, row);
    forall m | m in dedupe
      ensures exists c :: c in create + [row] && PairOf(root, c) == PairOf(root, m)
    {
      var c :| c in create && PairOf(root, c) == PairOf(root, m);
      assert c in create + [row];
    }
    forall i | 0 <= i < |create|
      ensures PairOf(root, create[i]) != PairOf(root, row)
    {
      assert PairFn(root)(create[i]) in Values(PairFn(root), create);
    }
  }

  method SortRows(root: Redirect, held: set<(string, string)>, unique: seq<Mention>)
    returns (drop: seq<Mention>, dedupe: seq<Mention>, create: seq<Mention>)
    ensures Sorted(root, held, unique, drop, dedupe, create)
  {
    drop, dedupe, create := [], [], [];
    var created: set<(string, string)> := {};
    for i := 0 to |unique|
      invariant Sorted(root, held, unique[..i], drop, dedupe, create)
      invariant created == Values(PairFn(root), create)
    {
      var row := unique[i];
      assert unique[..i + 1] == unique[..i] + [row];
      if PairOf(root, row) in held {
        AddDrop(root, held, unique[..i], row, drop, dedupe, create);
        drop := drop + [row];
      } else if PairOf(root, row) in created {
        AddDedupe(root, held, unique[..i], row, drop, dedupe, create);
        dedupe := dedupe + [row];
      } else {
        AddCreate(root, held, unique[..i], row, drop, dedupe, create);
        created := created + {PairOf(root, row)};
        create := create + [row];
      }
    }
    assert unique[..|unique|] == unique;
  }

  // ---------------------------------------------------------------------------------------------
  // The counts do not depend on the order in which the rows are read

  ghost function Values<A, B>(f: A -> B, s: seq<A>): set<B> {
    set x | x in s :: f(x)
  }

  lemma ValueAdded<A, B>(f: A -> B, s: seq<A>, x: A)
    ensures Values(f, s + [x]) == Values(f, s) + {f(x)}
  {
    assert forall y | y in s + [x] :: y in s || y == x;
    assert x in s + [x] && forall y | y in s :: y in s + [x];
  }

  lemma {:induction false} CountByValue<A, B>(f: A -> B, s: seq<A>)
    requires forall i, j | 0 <= i < j < |s| :: f(s[i]) != f(s[j])
    ensures |Values(f, s)| == |s|
  {
    if s != [] {
      CountByValue(f, s[1..]);
      assert s == [s[0]] + s[1..];
      assert Values(f, s) == {f(s[0])} + Values(f, s[1..]);
      assert f(s[0]) !in Values(f, s[1..]);
    }
  }

  ghost function Ends(rows: seq<Mention>): set<(string, string)> {
    Values(EndsOf, rows)
  }

  ghost function HeldEnds(root: Redirect, held: set<(string, string)>, rows: seq<Mention>): set<(string, string)> {
    set e | e in Ends(rows) && (To(root, e.0), e.1) in held
  }

  ghost function NewPairs(root: Redirect, held: set<(string, string)>, rows: seq<Mention>): set<(string, string)> {
    (set e | e in Ends(rows) :: (To(root, e.0), e.1)) - held
  }

  ghost function PairFn(root: Redirect): Mention -> (string, string) {
    (m: Mention) => PairOf(root, m)
  }

  /**
   Every row is counted once, as a repeat of its victim's, as already held by the survivor, as gained
   from another victim, or as created; and each count is fixed by the set of rows alone.
   */
  lemma RowsAreSplit(root: Redirect, held: set<(string, string)>, rows: seq<Mention>, unique: seq<Mention>, repeats: seq<Mention>,
                     drop: seq<Mention>, dedupe: seq<Mention>, create: seq<Mention>)
    requires Uniques(rows, unique, repeats) && Sorted(root, held, unique, drop, dedupe, create)
    ensures |rows| == |repeats| + |drop| + |dedupe| + |create|
    ensures |repeats| == |rows| - |Ends(rows)|
    ensures |drop| == |HeldEnds(root, held, rows)|
    ensures |create| == |NewPairs(root, held, rows)|
  {
    assert |multiset(rows)| == |multiset(unique)| + |multiset(repeats)|;
    assert |multiset(unique)| == |multiset(drop)| + |multiset(dedupe)| + |multiset(create)|;
    UniqueEnds(rows, unique, repeats);
    CountByValue(EndsOf, unique);
    DropEnds(root, held, unique, drop, dedupe, create);
    CreatePairs(root, held, unique, drop, dedupe, create);
    CountByValue(PairFn(root), create);
  }

  lemma UniqueEnds(rows: seq<Mention>, unique: seq<Mention>, repeats: seq<Mention>)
    requires Uniques(rows, unique, repeats)
    ensures Ends(rows) == Ends(unique)
    ensures forall u | u in unique :: u in rows
  {
    forall u | u in unique
      ensures u in rows
    {
      assert u in multiset(unique);
      assert u in multiset(rows);
    }
  }

  lemma SortedParts(root: Redirect, held: set<(string, string)>, unique: seq<Mention>,
                    drop: seq<Mention>, dedupe: seq<Mention>, create: seq<Mention>, m: Mention)
    requires Sorted(root, held, unique, drop, dedupe, create)
    ensures m in unique <==> m in drop || m in dedupe || m in create
  {
    assert m in multiset(unique) <==> m in multiset(drop) || m in multiset(dedupe) || m in multiset(create);
  }

  lemma DropEnds(root: Redirect, held: set<(string, string)>, unique: seq<Mention>,
                 drop: seq<Mention>, dedupe: seq<Mention>, create: seq<Mention>)
    requires Sorted(root, held, unique, drop, dedupe, create)
    requires forall i, j | 0 <= i < j < |unique| :: EndsOf(unique[i]) != EndsOf(unique[j])
    ensures |drop| == |HeldEnds(root, held, unique)|
  {
    forall m
      ensures m in unique <==> m in drop || m in dedupe || m in create
    {
      SortedParts(root, held, unique, drop, dedupe, create, m);
    }
    assert HeldEnds(root, held, unique) == Ends(drop);
    DropDistinct(unique, drop, multiset(dedupe) + multiset(create));
    CountByValue(EndsOf, drop);
  }

  /** Rows that sit at different ends stay at different ends in any part of the list. */
  lemma DropDistinct(unique: seq<Mention>, part: seq<Mention>, others: multiset<Mention>)
    requires multiset(part) + others == multiset(unique)
    requires forall i, j | 0 <= i < j < |unique| :: EndsOf(unique[i]) != EndsOf(unique[j])
    ensures forall i, j | 0 <= i < j < |part| :: EndsOf(part[i]) != EndsOf(part[j])
  {
    forall i, j | 0 <= i < j < |part|
      ensures EndsOf(part[i]) != EndsOf(part[j])
    {
      assert part[i] in multiset(unique) && part[j] in multiset(unique);
      var a :| 0 <= a < |unique| && unique[a] == part[i];
      var b :| 0 <= b < |unique| && unique[b] == part[j];
      if part[i] == part[j] {
        Twice(part, i, j);
        OnlyOnce(unique, a);
      }
    }
  }

  lemma Twice(s: seq<Mention>, i: nat, j: nat)
    requires i < j < |s| && s[i] == s[j]
    ensures multiset(s)[s[i]] >= 2
  {
    assert s == s[..i] + [s[i]] + s[i + 1..j] + [s[j]] + s[j + 1..];
  }

  lemma OnlyOnce(s: seq<Mention>, a: nat)
    requires a < |s| && forall i, j | 0 <= i < j < |s| :: EndsOf(s[i]) != EndsOf(s[j])
    ensures multiset(s)[s[a]] == 1
  {
    assert s == s[..a] + [s[a]] + s[a + 1..];
    assert s[a] !in s[..a] && s[a] !in s[a + 1..];
  }

  lemma CreatePairs(root: Redirect, held: set<(string, string)>, unique: seq<Mention>,
                    drop: seq<Mention>, dedupe: seq<Mention>, create: seq<Mention>)
    requires Sorted(root, held, unique, drop, dedupe, create)
    ensures NewPairs(root, held, unique) == Values(PairFn(root), create)
  {
    forall p | p in NewPairs(root, held, unique)
      ensures p in Values(PairFn(root), create)
    {
      var m :| m in unique && p == PairOf(root, m);
      SortedParts(root, held, unique, drop, dedupe, create, m);
    }
    forall m | m in create
      ensures PairOf(root, m) in NewPairs(root, held, unique)
    {
      SortedParts(root, held, unique, drop, dedupe, create, m);
      assert EndsOf(m) in Ends(unique);
    }
  }
}
