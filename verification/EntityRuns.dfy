/** What whole runs of the entity fold keep, in every order of the rows, and what a rerun makes of one that stopped. */
module EntityRuns {
  import opened Collections
  import opened Bags
  import opened GraphStore
  import opened Folding
  import opened EntitySafety
  import opened ApplyPlan
  import opened EntityFold

  // ---------------------------------------------------------------------------------------------
  // MENTIONS at the end of an error-free run

  /** The read returned every edge of a victim as a row of its own. */
  ghost predicate Full(root: Redirect, m0: map<nat, Mention>, rows: seq<Mention>) {
    |rows| == |VictimEdges(root, m0)|
  }

  lemma EdgesSplit(root: Redirect, m0: map<nat, Mention>)
    ensures m0 == OtherEdges(root, m0) + VictimEdges(root, m0) && OtherEdges(root, m0).Keys !! VictimEdges(root, m0).Keys
    ensures MapEdges(RedirectFn(root), m0) == OtherEdges(root, m0) + MapEdges(RedirectFn(root), VictimEdges(root, m0))
    ensures MapEdges(RedirectFn(root), VictimEdges(root, m0)).Keys == VictimEdges(root, m0).Keys
  {
  }

  lemma ImageSplits(root: Redirect, m0: map<nat, Mention>)
    ensures ImageBag(root, m0) == Bag(OtherEdges(root, m0)) + Bag(MapEdges(RedirectFn(root), VictimEdges(root, m0)))
    ensures |m0| == |OtherEdges(root, m0)| + |VictimEdges(root, m0)|
  {
    EdgesSplit(root, m0);
    BagJoins(OtherEdges(root, m0), MapEdges(RedirectFn(root), VictimEdges(root, m0)));
    BagJoins(OtherEdges(root, m0), VictimEdges(root, m0));
  }

  lemma FoldedSize(root: Redirect, m0: map<nat, Mention>, rows: seq<Mention>, m: map<nat, Mention>)
    requires MentionsFolded(root, m0, rows, m)
    ensures |m| == |m0| - |VictimEdges(root, m0)| + |rows|
  {
    ImageSplits(root, m0);
    BagSize(m);
    BagSize(OtherEdges(root, m0));
    assert |multiset(MapAll(RedirectFn(root), rows))| == |rows|;
  }

  lemma FoldedBelow(root: Redirect, m0: map<nat, Mention>, rows: seq<Mention>, m: map<nat, Mention>)
    requires MentionsFolded(root, m0, rows, m) && VictimRowsOf(root, m0, rows)
    ensures Bag(m) <= ImageBag(root, m0)
  {
    ImageSplits(root, m0);
    ReadRows(root, m0, rows);
    ImagesBelow(RedirectFn(root), rows, VictimEdges(root, m0));
  }

  /**
   An error-free run never ends with too many MENTIONS; it ends with the number of the start, and then
   with one edge per original of each image, exactly when as many were moved as point at a victim.
   */
  lemma FoldMatchesIff(root: Redirect, g0: Graph, read: Reads, g: Graph, c: Counters)
    requires Quotient(root, g0, read, g) && CountsMatch(root, g0, read, g, c) && ReadFrom(root, g0, read)
    ensures |g.mentions| == |g0.mentions| - |VictimEdges(root, g0.mentions)| + c.mentionsMoved
    ensures Bag(g.mentions) <= ImageBag(root, g0.mentions)
    ensures |g.mentions| == |g0.mentions| <==> c.mentionsMoved == |VictimEdges(root, g0.mentions)|
    ensures Bag(g.mentions) == ImageBag(root, g0.mentions) <==> c.mentionsMoved == |VictimEdges(root, g0.mentions)|
  {
    FoldedSize(root, g0.mentions, read.mentions, g.mentions);
    FoldedBelow(root, g0.mentions, read.mentions, g.mentions);
    ImageBagSize(root, g0.mentions);
    BagSize(g.mentions);
    if |g.mentions| == |g0.mentions| {
      SameSizeSameBag(Bag(g.mentions), ImageBag(root, g0.mentions));
    }
  }

  lemma OnceIsRead(root: Redirect, g: Graph, rows: seq<Mention>, r: Mention)
    requires Once(root, g.entities, g.mentions) && VictimRowsOf(root, g.mentions, rows) && AllMatch(root, g, rows)
    ensures Bag(VictimEdges(root, g.mentions))[r] <= multiset(rows)[r]
  {
    var victims := VictimEdges(root, g.mentions);
    CountOf(victims, r);
    InBag(victims, r);
    if r in victims.Values {
      var k :| k in victims && victims[k] == r;
      assert IntoVictim(root)(g.mentions[k]);
      assert r in rows;
      assert Keys(victims, r) == {k};
    }
  }

  /** If no DELETE takes two edges, every victim edge is a row of its own. */
  lemma OnceIsFull(root: Redirect, g: Graph, rows: seq<Mention>)
    requires Once(root, g.entities, g.mentions) && VictimRowsOf(root, g.mentions, rows) && AllMatch(root, g, rows)
    ensures Full(root, g.mentions, rows)
  {
    ReadRows(root, g.mentions, rows);
    forall r
      ensures Bag(VictimEdges(root, g.mentions))[r] <= multiset(rows)[r]
    {
      OnceIsRead(root, g, rows, r);
    }
    assert Bag(VictimEdges(root, g.mentions)) == multiset(rows);
    BagSize(VictimEdges(root, g.mentions));
  }

  /** Then each image has as many edges as it had originals. */
  lemma EachImageHasItsEdges(root: Redirect, g0: Graph, read: Reads, g: Graph, m: Mention)
    requires Quotient(root, g0, read, g) && ReadFrom(root, g0, read) && AllMatch(root, g0, read.mentions)
    requires Once(root, g0.entities, g0.mentions)
    ensures |Keys(g.mentions, m)| == |set k | k in g0.mentions && Redirected(root, g0.mentions[k]) == m|
  {
    OnceIsFull(root, g0, read.mentions);
    FullIsImage(root, g0.mentions, read.mentions, g.mentions);
    ImageEdges(root, g0.mentions, g.mentions, m);
  }

  lemma FullIsImage(root: Redirect, m0: map<nat, Mention>, rows: seq<Mention>, m: map<nat, Mention>)
    requires MentionsFolded(root, m0, rows, m) && VictimRowsOf(root, m0, rows) && Full(root, m0, rows)
    ensures Bag(m) == ImageBag(root, m0) && |m| == |m0|
  {
    FoldedSize(root, m0, rows, m);
    FoldedBelow(root, m0, rows, m);
    ImageBagSize(root, m0);
    BagSize(m);
    SameSizeSameBag(Bag(m), ImageBag(root, m0));
  }

  lemma ImageEdges(root: Redirect, m0: map<nat, Mention>, edges: map<nat, Mention>, m: Mention)
    requires Bag(edges) == ImageBag(root, m0)
    ensures |Keys(edges, m)| == |set k | k in m0 && Redirected(root, m0[k]) == m|
  {
    CountOf(edges, m);
    ImageCount(root, m0, m);
  }

  lemma ImageCount(root: Redirect, m0: map<nat, Mention>, m: Mention)
    ensures ImageBag(root, m0)[m] == |set k | k in m0 && Redirected(root, m0[k]) == m|
  {
    CountOf(MapEdges(RedirectFn(root), m0), m);
    assert Keys(MapEdges(RedirectFn(root), m0), m) == set k | k in m0 && Redirected(root, m0[k]) == m;
  }

  // ---------------------------------------------------------------------------------------------
  // MENTIONS between the statements

  lemma FewerByTwo(edges: map<nat, Mention>, fewer: map<nat, Mention>, j: nat, k: nat)
    requires j in edges && k in edges && j != k && fewer.Keys <= edges.Keys - {j, k}
    ensures |fewer| <= |edges| - 2
  {
    assert edges.Keys == (edges.Keys - {j, k}) + {j, k};
    assert |edges.Keys| == |edges.Keys - {j, k}| + |{j, k}|;
    assert |{j, k}| == 2;
    SubsetSize(fewer.Keys, edges.Keys - {j, k});
  }

  /**
   The input: two MENTIONS of one uuid and source into one victim. The move of one takes both, the image
   is one edge short, and whatever run follows ends with fewer edges than there were.
   */
  lemma SharedUuidLosesMention(root: Redirect, g: Graph, j: nat, k: nat)
    requires g.Sound() && Flat(root) && j in g.mentions && k in g.mentions && j != k
    requires Matches(root, g, g.mentions[j]) && SameMention(g.mentions[j], g.mentions[k])
    ensures
      var h := MovedMention(root, g, g.mentions[j]);
      && Intact(root, g, h) && |h.mentions| < |g.mentions| && !(ImageBag(root, g.mentions) <= ImageBag(root, h.mentions))
  {
    var row := g.mentions[j];
    var h := MovedMention(root, g, row);
    StartIsIntact(root, g);
    MoveMentionIntact(root, g, g, row);
    FewerByTwo(g.mentions, h.mentions - {g.nextId}, j, k);
    assert h.mentions.Keys <= (h.mentions - {g.nextId}).Keys + {g.nextId};
    SubsetSize(h.mentions.Keys, (h.mentions - {g.nextId}).Keys + {g.nextId});
    ImageBagSize(root, g.mentions);
    ImageBagSize(root, h.mentions);
    if ImageBag(root, g.mentions) <= ImageBag(root, h.mentions) {
      SmallerBag(ImageBag(root, g.mentions), ImageBag(root, h.mentions));
    }
  }

  lemma RerunStaysShort(root: Redirect, g: Graph, j: nat, k: nat, read: Reads, rerun: Graph)
    requires g.Sound() && Flat(root) && j in g.mentions && k in g.mentions && j != k
    requires Matches(root, g, g.mentions[j]) && SameMention(g.mentions[j], g.mentions[k])
    requires
      var h := MovedMention(root, g, g.mentions[j]);
      Quotient(root, h, read, rerun) && ReadFrom(root, h, read)
    ensures |rerun.mentions| < |g.mentions|
  {
    var h := MovedMention(root, g, g.mentions[j]);
    SharedUuidLosesMention(root, g, j, k);
    FoldedBelow(root, h.mentions, read.mentions, rerun.mentions);
    ImageBagSize(root, h.mentions);
    BagSize(rerun.mentions);
    SmallerBag(Bag(rerun.mentions), ImageBag(root, h.mentions));
  }

  lemma {:induction false} AfterMentionsKept(root: Redirect, g: Graph, rows: seq<Mention>)
    requires g.Sound() && Flat(root) && forall r | r in rows :: r in g.mentions.Values
    ensures MentionsKept(root, g.entities, g.mentions, AfterMentions(root, g, rows).mentions)
  {
    if rows != [] {
      var init, row := rows[..|rows| - 1], rows[|rows| - 1];
      AfterMentionsKept(root, g, init);
      AfterMentionsShape(root, g, init);
      var h := AfterMentions(root, g, init);
      assert row in rows;
      if Matches(root, h, row) {
        MoveKeeps(root, g.entities, g.mentions, h, row);
      }
    }
  }

  /** Taken in this order, the rows leave as many edges of each image after every one of them. */
  ghost predicate OrderKeepsMentions(root: Redirect, g: Graph, rows: seq<Mention>) {
    forall i | 0 <= i <= |rows| :: ImageBag(root, g.mentions) <= ImageBag(root, AfterMentions(root, g, rows[..i]).mentions)
  }

  ghost function Wanted<T(!new)>(edges: map<nat, T>, wanted: T -> bool): set<T> {
    set k | k in edges && wanted(edges[k]) :: edges[k]
  }

  lemma ListedOnce<T(!new)>(first: set<T>, rest: set<T>, r: T)
    requires first !! rest
    ensures r in ListOf(first) + ListOf(rest) <==> r in first || r in rest
    ensures multiset(ListOf(first) + ListOf(rest))[r] <= 1
  {
    ListMembers(first);
    ListMembers(rest);
    assert multiset(ListOf(first) + ListOf(rest)) == multiset(first) + multiset(rest);
  }

  lemma OneKey<T(!new)>(edges: map<nat, T>, k: nat)
    requires k in edges
    ensures |Keys(edges, edges[k])| >= 1
  {
    assert k in Keys(edges, edges[k]);
  }

  /** A read may return the rows in any order. */
  lemma AnyOrder<T(!new)>(edges: map<nat, T>, wanted: T -> bool, first: set<T>)
    requires first <= Wanted(edges, wanted)
    ensures Projects(edges, ListOf(first) + ListOf(Wanted(edges, wanted) - first), wanted)
  {
    var rest := Wanted(edges, wanted) - first;
    forall r
      ensures r in ListOf(first) + ListOf(rest) <==> r in Wanted(edges, wanted)
      ensures multiset(ListOf(first) + ListOf(rest))[r] <= |Keys(edges, r)|
    {
      ListedOnce(first, rest, r);
      if r in Wanted(edges, wanted) {
        var k :| k in edges && wanted(edges[k]) && edges[k] == r;
        OneKey(edges, k);
      }
    }
  }

  lemma SingleList<T(!new)>(x: T)
    ensures ListOf({x}) == [x]
  {
    ListMembers({x});
    assert |multiset(ListOf({x}))| == 1;
  }

  /** Every order of the rows keeps the image of the MENTIONS exactly when no DELETE takes two edges. */
  lemma EveryOrderKeepsMentionsIff(root: Redirect, g: Graph)
    requires g.Sound() && Flat(root)
    ensures (forall rows | VictimRowsOf(root, g.mentions, rows) :: OrderKeepsMentions(root, g, rows))
      <==> Once(root, g.entities, g.mentions)
  {
    if Once(root, g.entities, g.mentions) {
      forall rows | VictimRowsOf(root, g.mentions, rows)
        ensures OrderKeepsMentions(root, g, rows)
      {
        ReadRows(root, g.mentions, rows);
        OnceKeepsMentions(root, g, rows);
      }
    } else {
      var j, k :| j in g.mentions && k in g.mentions && Moves(root, g.entities, g.mentions[j])
                  && SameMention(g.mentions[j], g.mentions[k]) && j != k;
      var rows := OrderThatLoses(root, g, j, k);
    }
  }

  lemma OnceKeepsMentions(root: Redirect, g: Graph, rows: seq<Mention>)
    requires g.Sound() && Flat(root) && Once(root, g.entities, g.mentions) && forall r | r in rows :: r in g.mentions.Values
    ensures OrderKeepsMentions(root, g, rows)
  {
    forall i | 0 <= i <= |rows|
      ensures ImageBag(root, g.mentions) <= ImageBag(root, AfterMentions(root, g, rows[..i]).mentions)
    {
      AfterMentionsKept(root, g, rows[..i]);
    }
  }

  lemma OrderThatLoses(root: Redirect, g: Graph, j: nat, k: nat) returns (rows: seq<Mention>)
    requires g.Sound() && Flat(root) && j in g.mentions && k in g.mentions && j != k
    requires Moves(root, g.entities, g.mentions[j]) && SameMention(g.mentions[j], g.mentions[k])
    ensures VictimRowsOf(root, g.mentions, rows) && !OrderKeepsMentions(root, g, rows)
  {
    var row := g.mentions[j];
    assert IntoVictim(root)(row);
    AnyOrder(g.mentions, IntoVictim(root), {row});
    SingleList(row);
    rows := ListOf({row}) + ListOf(Wanted(g.mentions, IntoVictim(root)) - {row});
    assert rows[..1] == [row] && [row][..0] == [];
    SharedUuidLosesMention(root, g, j, k);
    assert AfterMentions(root, g, rows[..1]) == MovedMention(root, g, row);
  }

  // ---------------------------------------------------------------------------------------------
  // Facts

  /** An error-free fold keeps all facts exactly when every moved relation lands or has a stand-in. */
  lemma QuotientKeepsFactsIff(root: Redirect, g0: Graph, read: Reads, g: Graph)
    requires Quotient(root, g0, read, g)
    ensures ActualTriples(g) == Triples(root, g0) <==> EntitySafety.Landing(root, g0)
  {
    LandedIsAllIff(root, g0);
  }

  /** After every statement of every run the secure facts are there, and no fact is new. */
  lemma FactsAreKeptThroughout(root: Redirect, g0: Graph, history: seq<Moment>, from: nat, i: nat)
    requires SafeSince(root, g0, history, from) && from <= i < |history| && Flat(root)
    ensures SecureFacts(root, g0) <= Triples(root, history[i].graph) <= Triples(root, g0)
    ensures AllSecure(root, g0) ==> Triples(root, history[i].graph) == Triples(root, g0)
  {
    assert SafeStep(root, g0, history, i);
    TriplesAreKept(root, g0, history[i].graph);
  }

  lemma HandledGuarded(root: Redirect, g: Graph, h: Graph, row: Relation)
    requires h.Sound() && Flat(root) && Guarded(root, g, h) && TouchedRow(root, g, row) && h.entities == g.entities
    ensures Guarded(root, g, Handled(root, h, row))
  {
    DroppedRelations(h, row);
    if !FoldsAway(root, row) {
      var a := h.AddRelation(Rerouted(root, row));
      if Lands(root, h.entities, row) {
        RerouteKeeps(root, g.entities, g.relations, h.relations, h.nextId, row);
        assert a.relations[h.nextId] == Rerouted(root, row);
      }
      DroppedRelations(a, row);
      DeleteKeeps(root, g.entities, g.relations, a.relations, row);
    } else {
      DeleteKeeps(root, g.entities, g.relations, h.relations, row);
    }
  }

  /** `b` is where phase B starts: the relations and nodes are those of `g`. */
  ghost predicate SameRelations(g: Graph, b: Graph) {
    b.Sound() && b.relations == g.relations && b.entities == g.entities
  }

  lemma {:induction false} AfterRelationsGuarded(root: Redirect, g: Graph, b: Graph, rows: seq<Relation>)
    requires Flat(root) && SameRelations(g, b) && forall r | r in rows :: TouchedRow(root, g, r)
    ensures Guarded(root, g, AfterRelations(root, b, rows))
  {
    if rows == [] {
      StartIsIntact(root, g);
    } else {
      AfterRelationsGuarded(root, g, b, rows[..|rows| - 1]);
      AfterRelationsShape(root, b, rows[..|rows| - 1]);
      assert rows[|rows| - 1] in rows;
      HandledGuarded(root, g, AfterRelations(root, b, rows[..|rows| - 1]), rows[|rows| - 1]);
    }
  }

  /** An edge left after some rows: one no row took, or the copy of a row. */
  ghost predicate Origin(root: Redirect, b: Graph, rows: seq<Relation>, edges: map<nat, Relation>, k: nat)
    requires k in edges
  {
    || (k in b.relations && b.relations[k] == edges[k] && forall r | r in rows :: !SameEdge(edges[k], r))
    || exists r :: r in rows && !FoldsAway(root, r) && edges[k] == Rerouted(root, r)
  }

  lemma HandledEdge(root: Redirect, h: Graph, row: Relation, k: nat)
    requires h.Sound() && k in Handled(root, h, row).relations
    ensures
      var u := Handled(root, h, row).relations;
      || (k in h.relations && h.relations[k] == u[k] && !SameEdge(u[k], row))
      || (!FoldsAway(root, row) && u[k] == Rerouted(root, row))
  {
  }

  lemma OriginGrows(root: Redirect, b: Graph, init: seq<Relation>, row: Relation, edges: map<nat, Relation>, u: map<nat, Relation>, k: nat)
    requires k in u && if k in edges && edges[k] == u[k] && !SameEdge(u[k], row) then Origin(root, b, init, edges, k)
                       else !FoldsAway(root, row) && u[k] == Rerouted(root, row)
    ensures Origin(root, b, init + [row], u, k)
  {
    assert row in init + [row];
    assert forall r :: r in init + [row] <==> r in init || r == row;
  }

  lemma {:induction false} OriginOf(root: Redirect, b: Graph, rows: seq<Relation>, k: nat)
    requires b.Sound() && k in AfterRelations(root, b, rows).relations
    ensures Origin(root, b, rows, AfterRelations(root, b, rows).relations, k)
  {
    if rows != [] {
      var init, row := rows[..|rows| - 1], rows[|rows| - 1];
      var h := AfterRelations(root, b, init);
      assert rows == init + [row];
      AfterRelationsShape(root, b, init);
      HandledEdge(root, h, row, k);
      if k in h.relations {
        OriginOf(root, b, init, k);
      }
      OriginGrows(root, b, init, row, h.relations, AfterRelations(root, b, rows).relations, k);
    }
  }

  /** The rows of other facts, taken first, leave no edge of a fact that is not secure. */
  lemma InsecureIsTaken(root: Redirect, b: Graph, t: (string, string, string), rows: seq<Relation>)
    requires b.Sound() && Flat(root) && t !in SecureFacts(root, b) && t.0 in b.entities && t.1 in b.entities
    requires forall r :: r in rows <==> r in b.relations.Values && Touched(root, r) && Triple(root, r) != t
    ensures t !in Triples(root, AfterRelations(root, b, rows))
  {
    var h := AfterRelations(root, b, rows);
    forall k | k in h.relations && !FoldsAway(root, h.relations[k])
      ensures Triple(root, h.relations[k]) != t
    {
      OriginOf(root, b, rows, k);
      if r :| r in rows && !FoldsAway(root, r) && h.relations[k] == Rerouted(root, r) {
        RerouteLands(root, r);
      } else {
        assert k in b.relations && b.relations[k] == h.relations[k];
        CarrierIsTaken(root, b, t, rows, k);
      }
    }
  }

  lemma CarrierIsTaken(root: Redirect, b: Graph, t: (string, string, string), rows: seq<Relation>, k: nat)
    requires t !in SecureFacts(root, b) && t.0 in b.entities && t.1 in b.entities && k in b.relations
    requires forall r :: r in rows <==> r in b.relations.Values && Touched(root, r) && Triple(root, r) != t
    requires !FoldsAway(root, b.relations[k]) && forall r | r in rows :: !SameEdge(b.relations[k], r)
    ensures Triple(root, b.relations[k]) != t
  {
    if Triple(root, b.relations[k]) == t {
      SomeRowTakes(root, b, t, rows, k);
    }
  }

  lemma SomeRowTakes(root: Redirect, b: Graph, t: (string, string, string), rows: seq<Relation>, k: nat)
    requires t !in SecureFacts(root, b) && t.0 in b.entities && t.1 in b.entities
    requires forall r :: r in rows <==> r in b.relations.Values && Touched(root, r) && Triple(root, r) != t
    requires k in b.relations && !FoldsAway(root, b.relations[k]) && Triple(root, b.relations[k]) == t
    ensures exists r :: r in rows && SameEdge(b.relations[k], r)
  {
    var edge := b.relations[k];
    assert !Safe(root, b.entities, b.relations, edge);
    assert Touched(root, edge) && Counts(root, b.entities, edge);
    var j :| j in b.relations && SameEdge(b.relations[j], edge) && b.relations[j].fact != edge.fact;
    assert b.relations[j] in rows && SameEdge(edge, b.relations[j]);
  }

  lemma {:induction false} RowsProgress(root: Redirect, b: Graph, rows: seq<Relation>, i: nat)
    requires b.Sound() && Flat(root) && i <= |rows| && Projects(b.relations, rows, IsTouched(root))
    ensures Progress(root, b, AfterRelations(root, b, rows[..i]), rows[..i], rows[i..])
  {
    if i == 0 {
      ReadRelationRows(root, b, rows);
      assert rows[0..] == rows && rows[..0] == [];
    } else {
      RowsProgress(root, b, rows, i - 1);
      AfterRelationsShape(root, b, rows[..i - 1]);
      NextRow(rows, i - 1);
      NextHandled(root, b, rows, i - 1);
      assert IsTouched(root)(rows[i - 1]) by {
        assert rows[i - 1] in rows;
      }
      RowHandled(root, b, AfterRelations(root, b, rows[..i - 1]), rows[..i - 1], rows[i - 1], rows[i..]);
    }
  }

  /** Once all rows are handled, only what lands is left. */
  lemma StrandedIsLost(root: Redirect, b: Graph, rows: seq<Relation>)
    requires b.Sound() && Flat(root) && Projects(b.relations, rows, IsTouched(root))
    ensures Triples(root, AfterRelations(root, b, rows)) == Landed(root, b.entities, b.relations)
  {
    RowsProgress(root, b, rows, |rows|);
    assert rows[..|rows|] == rows && rows[|rows|..] == [];
    var h := AfterRelations(root, b, rows);
    AllHandled(root, b, h, rows);
    forall k | k in h.relations
      ensures !Touched(root, h.relations[k]) && !FoldsAway(root, h.relations[k])
    {
    }
  }

  /** A fact that is not secure is missing at some moment of a run in which nothing raises. */
  lemma InsecureIsLost(root: Redirect, b: Graph, t: (string, string, string)) returns (rows: seq<Relation>, i: nat)
    requires b.Sound() && Flat(root) && t in Triples(root, b) && t !in SecureFacts(root, b)
    ensures Projects(b.relations, rows, IsTouched(root)) && i <= |rows|
    ensures t !in Triples(root, AfterRelations(root, b, rows[..i]))
  {
    var first := set r | r in Wanted(b.relations, IsTouched(root)) && Triple(root, r) != t;
    AnyOrder(b.relations, IsTouched(root), first);
    rows := ListOf(first) + ListOf(Wanted(b.relations, IsTouched(root)) - first);
    if t.0 in b.entities && t.1 in b.entities {
      i := |ListOf(first)|;
      assert rows[..i] == ListOf(first);
      ListMembers(first);
      forall r
        ensures r in ListOf(first) <==> r in b.relations.Values && Touched(root, r) && Triple(root, r) != t
      {
        if r in b.relations.Values && Touched(root, r) {
          assert IsTouched(root)(r);
        }
      }
      InsecureIsTaken(root, b, t, ListOf(first));
    } else {
      i := |rows|;
      assert rows[..i] == rows;
      StrandedIsLost(root, b, rows);
      NotSecureNotLanded(root, b, t);
    }
  }

  lemma NotSecureNotLanded(root: Redirect, b: Graph, t: (string, string, string))
    requires t !in SecureFacts(root, b) && !(t.0 in b.entities && t.1 in b.entities)
    ensures t !in Landed(root, b.entities, b.relations)
  {
    forall k | k in b.relations && Counts(root, b.entities, b.relations[k])
      ensures Triple(root, b.relations[k]) != t
    {
      if !Touched(root, b.relations[k]) {
        InSecured(root, b.entities, b.relations, b.relations, k);
      }
    }
  }

  /** The graph after `i` relations of a run in which nothing raises. */
  function RelationMoment(root: Redirect, g: Graph, read: Reads, i: nat): Graph
    requires i <= |read.relations|
  {
    AfterRelations(root, AfterMentions(root, g, read.mentions), read.relations[..i])
  }

  /** Taken in this order, the rows leave the fact after every one of them. */
  ghost predicate OrderKeepsFact(root: Redirect, g: Graph, read: Reads, t: (string, string, string)) {
    forall i: nat | i <= |read.relations| :: t in Triples(root, RelationMoment(root, g, read, i))
  }

  /** Every order of the rows keeps a fact, in every run in which nothing raises, exactly when it is secure. */
  lemma FactIsKeptIff(root: Redirect, g: Graph, t: (string, string, string))
    requires g.Sound() && Flat(root) && t in Triples(root, g)
    ensures (forall read | ReadFrom(root, g, read) :: OrderKeepsFact(root, g, read, t)) <==> t in SecureFacts(root, g)
  {
    if t in SecureFacts(root, g) {
      forall read | ReadFrom(root, g, read)
        ensures OrderKeepsFact(root, g, read, t)
      {
        forall i: nat | i <= |read.relations|
          ensures t in Triples(root, RelationMoment(root, g, read, i))
        {
          MomentKeepsSecure(root, g, read, i);
        }
      }
    } else {
      var read := OrderThatLosesFact(root, g, t);
    }
  }

  /** So all facts are there after every relation of every such run exactly when all are secure. */
  lemma EveryOrderKeepsFactsIff(root: Redirect, g: Graph)
    requires g.Sound() && Flat(root)
    ensures (forall read, i: nat | ReadFrom(root, g, read) && i <= |read.relations| ::
               Triples(root, RelationMoment(root, g, read, i)) == Triples(root, g))
      <==> AllSecure(root, g)
  {
    if AllSecure(root, g) {
      forall read, i: nat | ReadFrom(root, g, read) && i <= |read.relations|
        ensures Triples(root, RelationMoment(root, g, read, i)) == Triples(root, g)
      {
        MomentKeepsSecure(root, g, read, i);
      }
    } else {
      var t :| t in Triples(root, g) && t !in SecureFacts(root, g);
      var read := OrderThatLosesFact(root, g, t);
      var i: nat :| i <= |read.relations| && t !in Triples(root, RelationMoment(root, g, read, i));
      assert Triples(root, RelationMoment(root, g, read, i)) != Triples(root, g);
    }
  }

  lemma MomentKeepsSecure(root: Redirect, g: Graph, read: Reads, i: nat)
    requires g.Sound() && Flat(root) && ReadFrom(root, g, read) && i <= |read.relations|
    ensures SecureFacts(root, g) <= Triples(root, RelationMoment(root, g, read, i)) <= Triples(root, g)
  {
    AfterMentionsShape(root, g, read.mentions);
    ReadRelationRows(root, g, read.relations);
    assert forall r | r in read.relations[..i] :: r in read.relations;
    AfterRelationsGuarded(root, g, AfterMentions(root, g, read.mentions), read.relations[..i]);
    var h := RelationMoment(root, g, read, i);
    GuardedIsKept(root, g.entities, g.relations, h.relations);
    TriplesAreKept(root, g, h);
  }

  lemma OrderThatLosesFact(root: Redirect, g: Graph, t: (string, string, string)) returns (read: Reads)
    requires g.Sound() && Flat(root) && t in Triples(root, g) && t !in SecureFacts(root, g)
    ensures ReadFrom(root, g, read) && !OrderKeepsFact(root, g, read, t)
  {
    var mentions := SomeOrder(root, g);
    var b := AfterMentions(root, g, mentions);
    AfterMentionsShape(root, g, mentions);
    SameFacts(root, g, b);
    var relations, i := InsecureIsLost(root, b, t);
    read := Reads(mentions, relations);
    assert t !in Triples(root, RelationMoment(root, g, read, i));
  }

  lemma SomeOrder(root: Redirect, g: Graph) returns (rows: seq<Mention>)
    ensures VictimRowsOf(root, g.mentions, rows)
  {
    AnyOrder(g.mentions, IntoVictim(root), {});
    rows := ListOf({}) + ListOf(Wanted(g.mentions, IntoVictim(root)) - {});
  }

  lemma SameFacts(root: Redirect, g: Graph, b: Graph)
    requires SameRelations(g, b)
    ensures Triples(root, b) == Triples(root, g) && SecureFacts(root, b) == SecureFacts(root, g)
  {
  }

  // ---------------------------------------------------------------------------------------------
  // Running the same plan again from wherever a run stopped

  /** Survivors stay, so a relation lands at a later moment exactly when it landed at the start. */
  lemma LandsAsBefore(root: Redirect, g0: Graph, g: Graph, edges: map<nat, Relation>)
    requires Flat(root) && g0.entities - root.Keys <= g.entities <= g0.entities
    ensures Landed(root, g.entities, edges) == Landed(root, g0.entities, edges)
    ensures Agreeing(root, g.entities, edges) == Agreeing(root, g0.entities, edges)
  {
    forall r
      ensures Counts(root, g.entities, r) == Counts(root, g0.entities, r)
    {
      assert To(root, r.src) !in root && To(root, r.dst) !in root;
    }
  }

  /** Every moment of a run is again a start from which the theorems about runs apply. */
  lemma EveryMomentIsAStart(root: Redirect, g0: Graph, history: seq<Moment>, from: nat, i: nat)
    requires SafeSince(root, g0, history, from) && from <= i < |history| && Flat(root)
    ensures history[i].graph.Sound()
    ensures Once(root, g0.entities, g0.mentions) ==> Once(root, history[i].graph.entities, history[i].graph.mentions)
    ensures OnceRelations(root, g0.relations) ==> OnceRelations(root, history[i].graph.relations)
    ensures Agreeing(root, g0.entities, g0.relations) ==> Agreeing(root, history[i].graph.entities, history[i].graph.relations)
    ensures Agreeing(root, g0.entities, g0.relations) && EntitySafety.Landing(root, g0) ==> EntitySafety.Landing(root, history[i].graph)
  {
    assert SafeStep(root, g0, history, i);
    var g := history[i].graph;
    if Once(root, g0.entities, g0.mentions) {
      OnceEverywhere(root, g0.entities, g0.mentions, g.entities, g.mentions);
    }
    RelationsAreAStart(root, g0, g);
  }

  lemma RelationsAreAStart(root: Redirect, g0: Graph, g: Graph)
    requires Intact(root, g0, g) && Flat(root)
    ensures OnceRelations(root, g0.relations) ==> OnceRelations(root, g.relations)
    ensures Agreeing(root, g0.entities, g0.relations) ==> Agreeing(root, g.entities, g.relations)
    ensures Agreeing(root, g0.entities, g0.relations) && EntitySafety.Landing(root, g0) ==> EntitySafety.Landing(root, g)
  {
    LandsAsBefore(root, g0, g, g.relations);
    if Agreeing(root, g0.entities, g0.relations) {
      AgreeingStays(root, g0, g);
      if EntitySafety.Landing(root, g0) {
        LandingStays(root, g0, g);
      }
    }
  }

  lemma AgreeingStays(root: Redirect, g0: Graph, g: Graph)
    requires TouchedOf(root, g0.relations, g.relations) && Agreeing(root, g0.entities, g0.relations)
    ensures Agreeing(root, g0.entities, g.relations)
  {
    forall k, j | k in g.relations && Touched(root, g.relations[k]) && Counts(root, g0.entities, g.relations[k])
                  && j in g.relations && SameEdge(g.relations[j], g.relations[k])
      ensures g.relations[j].fact == g.relations[k].fact
    {
      assert Agrees(g0.relations, g0.relations[k]);
      assert Touched(root, g.relations[j]);
    }
  }

  lemma LandingStays(root: Redirect, g0: Graph, g: Graph)
    requires Intact(root, g0, g) && Flat(root) && Agreeing(root, g0.entities, g0.relations) && EntitySafety.Landing(root, g0)
    ensures EntitySafety.Landing(root, g)
  {
    SameFactsLand(root, g0, g);
    TriplesAreKept(root, g0, g);
    LandedIsAllIff(root, g0);
    AgreeingIsSecure(root, g0.entities, g0.relations);
    LandedIsAllIff(root, g);
  }

  /** If what lands is secure, it still lands at every later moment. */
  lemma SameFactsLand(root: Redirect, g0: Graph, g: Graph)
    requires Intact(root, g0, g) && Flat(root)
    ensures Landed(root, g0.entities, g0.relations) == SecureFacts(root, g0) ==>
      Landed(root, g.entities, g.relations) == Landed(root, g0.entities, g0.relations)
    ensures Agreeing(root, g0.entities, g0.relations) ==> Landed(root, g0.entities, g0.relations) == SecureFacts(root, g0)
  {
    LandsAsBefore(root, g0, g, g.relations);
    NoNewFact(root, g0.entities, g0.relations, g.relations);
    if Agreeing(root, g0.entities, g0.relations) {
      AgreeingIsSecure(root, g0.entities, g0.relations);
    }
  }

  /**
   Whatever statement a run stopped after, an error-free rerun of the same plan ends with the pairs and
   nodes an uninterrupted run would have ended with; and with its triples exactly when the facts that
   land were still all there when the first run stopped, as they are if what lands is secure.
   */
  lemma RerunConverges(root: Redirect, g0: Graph, history: seq<Moment>, from: nat, i: nat,
                       read: Reads, uninterrupted: Graph, again: Reads, rerun: Graph)
    requires SafeSince(root, g0, history, from) && from <= i < |history| && Flat(root)
    requires Quotient(root, g0, read, uninterrupted) && Quotient(root, history[i].graph, again, rerun)
    ensures ActualPairs(rerun) == ActualPairs(uninterrupted)
    ensures ActualTriples(rerun) == ActualTriples(uninterrupted) <==>
      Landed(root, g0.entities, history[i].graph.relations) == Landed(root, g0.entities, g0.relations)
    ensures Landed(root, g0.entities, g0.relations) == SecureFacts(root, g0) ==> ActualTriples(rerun) == ActualTriples(uninterrupted)
    ensures rerun.entities == uninterrupted.entities && rerun.entities !! root.Keys && rerun.episodics == uninterrupted.episodics
  {
    assert SafeStep(root, g0, history, i);
    var h := history[i].graph;
    LandsAsBefore(root, g0, h, h.relations);
    SameFactsLand(root, g0, h);
    SameImage(root, g0, h);
    assert ActualPairs(rerun) == Pairs(root, h) && ActualPairs(uninterrupted) == Pairs(root, g0);
    assert ActualTriples(rerun) == Landed(root, h.entities, h.relations);
    assert ActualTriples(uninterrupted) == Landed(root, g0.entities, g0.relations);
  }

  lemma SameImage(root: Redirect, g0: Graph, h: Graph)
    requires Intact(root, g0, h)
    ensures Pairs(root, h) == Pairs(root, g0) && h.entities - root.Keys == g0.entities - root.Keys
  {
  }

  /** The MENTIONS an error-free run ends with: those into no victim, and one per row read. */
  function EndSize(root: Redirect, g: Graph, read: Reads): int {
    |g.mentions| - |VictimEdges(root, g.mentions)| + |read.mentions|
  }

  /**
   The number of MENTIONS edges need not converge. A rerun ends with the number of an uninterrupted run
   exactly when both graphs have as many edges into no victim and rows together. With reads that return
   every edge, it ends with as many as there were when the first run stopped, and so with the number of
   an uninterrupted run exactly when that is still the number of the start.
   */
  lemma RerunMatchesIff(root: Redirect, g0: Graph, h: Graph, read: Reads, uninterrupted: Graph, again: Reads, rerun: Graph)
    requires Quotient(root, g0, read, uninterrupted) && Quotient(root, h, again, rerun)
    ensures |rerun.mentions| == |uninterrupted.mentions| <==> EndSize(root, h, again) == EndSize(root, g0, read)
    ensures Full(root, h.mentions, again.mentions) <==> |rerun.mentions| == |h.mentions|
    ensures Full(root, g0.mentions, read.mentions) && Full(root, h.mentions, again.mentions) ==>
      (|rerun.mentions| == |uninterrupted.mentions| <==> |h.mentions| == |g0.mentions|)
  {
    QuotientSize(root, g0, read, uninterrupted);
    QuotientSize(root, h, again, rerun);
  }

  lemma QuotientSize(root: Redirect, g: Graph, read: Reads, end: Graph)
    requires Quotient(root, g, read, end)
    ensures |end.mentions| == EndSize(root, g, read)
    ensures Full(root, g.mentions, read.mentions) <==> |end.mentions| == |g.mentions|
  {
    FoldedSize(root, g.mentions, read.mentions, end.mentions);
  }

  /**
   If no DELETE takes two edges, reads are full, the rerun never has too few edges, and it has exactly the
   edges of an uninterrupted run if and only if their number was that of the start when the first run stopped.
   */
  lemma OnceRerunMatchesIff(root: Redirect, g0: Graph, history: seq<Moment>, from: nat, i: nat,
                            read: Reads, uninterrupted: Graph, again: Reads, rerun: Graph)
    requires SafeSince(root, g0, history, from) && from <= i < |history| && Once(root, g0.entities, g0.mentions)
    requires Quotient(root, g0, read, uninterrupted) && ReadFrom(root, g0, read) && AllMatch(root, g0, read.mentions)
    requires Quotient(root, history[i].graph, again, rerun) && ReadFrom(root, history[i].graph, again)
    requires AllMatch(root, history[i].graph, again.mentions)
    ensures |rerun.mentions| == |history[i].graph.mentions| && |uninterrupted.mentions| == |g0.mentions|
    ensures Bag(uninterrupted.mentions) <= Bag(rerun.mentions)
    ensures Bag(rerun.mentions) == Bag(uninterrupted.mentions) <==> |history[i].graph.mentions| == |g0.mentions|
  {
    var h := history[i].graph;
    assert SafeStep(root, g0, history, i);
    OnceEverywhere(root, g0.entities, g0.mentions, h.entities, h.mentions);
    OnceIsFull(root, g0, read.mentions);
    OnceIsFull(root, h, again.mentions);
    FullIsImage(root, g0.mentions, read.mentions, uninterrupted.mentions);
    FullIsImage(root, h.mentions, again.mentions, rerun.mentions);
    BagSize(rerun.mentions);
    BagSize(uninterrupted.mentions);
    if |h.mentions| == |g0.mentions| {
      SameSizeSameBag(Bag(uninterrupted.mentions), Bag(rerun.mentions));
    }
  }

  /** The input: a run that stops between a row's CREATE and its DELETE. The rerun has one edge too many. */
  lemma InterruptedMoveDuplicates(root: Redirect, g: Graph, row: Mention, again: Reads, rerun: Graph)
    requires g.Sound() && Flat(root) && row in g.mentions.Values && Matches(root, g, row)
    requires
      var once := g.AddMention(Redirected(root, row));
      Quotient(root, once, again, rerun) && ReadFrom(root, once, again) && Full(root, once.mentions, again.mentions)
    ensures Intact(root, g, g.AddMention(Redirected(root, row)))
    ensures Bag(rerun.mentions) == ImageBag(root, g.mentions) + multiset{Redirected(root, row)}
  {
    var once := g.AddMention(Redirected(root, row));
    StartIsIntact(root, g);
    CreateIntact(root, g, g, row);
    ImageBagAdd(root, g.mentions, g.nextId, Redirected(root, row));
    FullIsImage(root, once.mentions, again.mentions, rerun.mentions);
  }

  /** The copy is a twin of the moved edge: a later plan that folds the survivor finds two edges one DELETE takes. */
  lemma InterruptedMoveLeavesTwins(root: Redirect, g: Graph, row: Mention, again: Reads, rerun: Graph, later: Redirect)
    requires g.Sound() && Flat(root) && row in g.mentions.Values && Matches(root, g, row)
    requires
      var once := g.AddMention(Redirected(root, row));
      Quotient(root, once, again, rerun) && ReadFrom(root, once, again) && Full(root, once.mentions, again.mentions)
    requires Moves(later, rerun.entities, Redirected(root, row))
    ensures !Once(later, rerun.entities, rerun.mentions)
  {
    var twin := Redirected(root, row);
    InterruptedMoveDuplicates(root, g, row, again, rerun);
    var i :| i in g.mentions && g.mentions[i] == row;
    var images := MapEdges(RedirectFn(root), g.mentions);
    assert images[i] == twin;
    InBag(images, twin);
    CountOf(rerun.mentions, twin);
    assert |Keys(rerun.mentions, twin)| >= 2;
    var j, k := TwoOf(Keys(rerun.mentions, twin));
    assert SameMention(rerun.mentions[j], rerun.mentions[k]);
  }

  lemma TwoOf(s: set<nat>) returns (j: nat, k: nat)
    requires |s| >= 2
    ensures j in s && k in s && j != k
  {
    j :| j in s;
    assert s == (s - {j}) + {j};
    assert |s - {j}| >= 1;
    k :| k in s - {j};
  }
}
