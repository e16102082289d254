/** What a plan of the episodic fold loses or keeps, and what an error-free run makes of the graph. */
module EpisodicPairs {
  import opened Collections
  import opened Bags
  import opened GraphStore
  import opened Folding
  import opened EpisodicPlan
  import opened EpisodicFold
  import opened EpisodicApply

  lemma KeyOf(g: Graph, m: Mention) returns (k: nat)
    requires m in g.mentions.Values
    ensures k in g.mentions && g.mentions[k] == m
  {
    k :| k in g.mentions && g.mentions[k] == m;
  }

  // ---------------------------------------------------------------------------------------------
  // What phase B loses

  /** The pairs that are left once the doomed rows have been deleted by uuid. */
  ghost function Floor(root: Redirect, g: Graph, p: Plan): set<(string, string)> {
    SourcePairs(root, g.RemoveMentionsByUuid(p.Redundants()))
  }

  ghost predicate SharesUuid(m: Mention, rows: seq<Mention>) {
    exists r :: r in rows && r.uuid == m.uuid
  }

  lemma SharesIff(p: Plan, m: Mention)
    ensures m.uuid in p.Redundants() <==> SharesUuid(m, p.Doomed())
  {
  }

  /**
   The delete by uuid loses a pair exactly when every edge that carries it, apart from the rows planned
   for deletion, shares its uuid with one of those rows.
   */
  lemma PairIsLostIff(root: Redirect, g: Graph, p: Plan, pair: (string, string))
    requires pair in SourcePairs(root, g)
    ensures pair !in Floor(root, g, p) <==>
      forall k | k in g.mentions && PairOf(root, g.mentions[k]) == pair && g.mentions[k] !in p.Doomed() ::
        SharesUuid(g.mentions[k], p.Doomed())
  {
    LeftPairs(root, g, p.Redundants(), pair);
    forall k | k in g.mentions
      ensures g.mentions[k].uuid in p.Redundants() <==> SharesUuid(g.mentions[k], p.Doomed())
      ensures g.mentions[k] in p.Doomed() ==> SharesUuid(g.mentions[k], p.Doomed())
    {
      SharesIff(p, g.mentions[k]);
    }
  }

  ghost predicate Spared(root: Redirect, g: Graph, p: Plan, pair: (string, string)) {
    exists k :: k in g.mentions && PairOf(root, g.mentions[k]) == pair && !SharesUuid(g.mentions[k], p.Doomed())
  }

  /** It loses nothing exactly when each pair has an edge whose uuid no doomed row has. */
  lemma PlanLosesNothingIff(root: Redirect, g: Graph, p: Plan)
    ensures Floor(root, g, p) == SourcePairs(root, g) <==> forall pair | pair in SourcePairs(root, g) :: Spared(root, g, p, pair)
  {
    RemovalSubset(root, g, p.Redundants());
    forall pair
      ensures pair in Floor(root, g, p) <==> Spared(root, g, p, pair)
    {
      SparedIff(root, g, p, pair);
    }
  }

  lemma SparedIff(root: Redirect, g: Graph, p: Plan, pair: (string, string))
    ensures pair in Floor(root, g, p) <==> Spared(root, g, p, pair)
  {
    LeftPairs(root, g, p.Redundants(), pair);
    forall k | k in g.mentions
      ensures g.mentions[k].uuid in p.Redundants() <==> SharesUuid(g.mentions[k], p.Doomed())
    {
      SharesIff(p, g.mentions[k]);
    }
  }

  lemma RemovalSubset(root: Redirect, g: Graph, uuids: set<string>)
    ensures SourcePairs(root, g.RemoveMentionsByUuid(uuids)) <= SourcePairs(root, g)
  {
  }

  // What the graph has to be like

  lemma EachRowOnce(root: Redirect, g: Graph, rows: seq<Mention>, m: Mention)
    requires RowsFrom(root, g, rows) && Unshared(root, g)
    ensures multiset(rows)[m] <= 1
  {
    if m in multiset(rows) {
      var edges := VictimEdges(root, g.mentions);
      CountOf(edges, m);
      InBag(edges, m);
      var k :| k in edges && edges[k] == m;
      assert Keys(edges, m) == {k};
    }
  }

  lemma InPart(p: Plan, root: Redirect, m: Mention)
    requires p.Sound(root)
    ensures m in p.rows <==> m in p.create || m in p.Doomed()
    ensures m in p.create && m in p.Doomed() ==> multiset(p.rows)[m] >= 2
  {
    var parts := multiset(p.drop) + multiset(p.dedupe) + multiset(p.create) + multiset(p.repeats);
    assert parts == multiset(p.rows);
    assert parts[m] == multiset(p.drop)[m] + multiset(p.dedupe)[m] + multiset(p.create)[m] + multiset(p.repeats)[m];
    assert m in p.rows <==> m in multiset(p.rows);
    assert m in p.create <==> m in multiset(p.create);
    assert m in p.Doomed() <==> m in multiset(p.drop) || m in multiset(p.dedupe) || m in multiset(p.repeats);
  }

  lemma EachRowInOnePart(root: Redirect, g: Graph, p: Plan, m: Mention)
    requires Planned(root, g, p) && Unshared(root, g)
    ensures m in p.rows <==> m in p.create || m in p.Doomed()
    ensures !(m in p.create && m in p.Doomed())
  {
    InPart(p, root, m);
    EachRowOnce(root, g, p.rows, m);
  }

  lemma UuidIsIdentity(root: Redirect, g: Graph, p: Plan, k: nat)
    requires Planned(root, g, p) && Unshared(root, g) && k in g.mentions
    ensures g.mentions[k].uuid in p.Redundants() <==> g.mentions[k] in p.Doomed()
  {
    if g.mentions[k].uuid in p.Redundants() {
      var m :| m in p.Doomed() && m.uuid == g.mentions[k].uuid;
      EachRowInOnePart(root, g, p, m);
      var j := KeyOf(g, m);
    }
  }

  lemma CreatedRowStays(root: Redirect, g: Graph, p: Plan, c: Mention)
    requires Planned(root, g, p) && Unshared(root, g) && c in p.create
    ensures KeepsPairOf(root, g, p.Redundants(), c)
  {
    EachRowInOnePart(root, g, p, c);
    var j := KeyOf(g, c);
    UuidIsIdentity(root, g, p, j);
  }

  lemma HeldPairStays(root: Redirect, g: Graph, p: Plan, m: Mention)
    requires Planned(root, g, p) && Unshared(root, g) && Flat(root) && PairOf(root, m) in p.held
    ensures KeepsPairOf(root, g, p.Redundants(), m)
  {
    var j :| j in g.mentions && g.mentions[j].src in root.Values && EndsOf(g.mentions[j]) == PairOf(root, m);
    UuidIsIdentity(root, g, p, j);
    EachRowInOnePart(root, g, p, g.mentions[j]);
    assert g.mentions[j].src !in root;
    assert g.mentions[j] !in p.rows;
    assert PairOf(root, g.mentions[j]) == EndsOf(g.mentions[j]);
  }

  lemma UniqueRowStays(root: Redirect, g: Graph, p: Plan, u: Mention)
    requires Planned(root, g, p) && Unshared(root, g) && Flat(root) && u in p.unique
    ensures KeepsPairOf(root, g, p.Redundants(), u)
  {
    SortedParts(root, p.held, p.unique, p.drop, p.dedupe, p.create, u);
    if u in p.drop {
      HeldPairStays(root, g, p, u);
    } else {
      var c :| c in p.create && PairOf(root, c) == PairOf(root, u);
      CreatedRowStays(root, g, p, c);
    }
  }

  /** What a plan calls redundant is, if no victim row shares its uuid, and even if survivors could not be read. */
  lemma RedundantsAreRedundant(root: Redirect, g: Graph, p: Plan)
    requires Planned(root, g, p) && Unshared(root, g) && Flat(root)
    ensures Redundant(root, g, p.Redundants()) && Floor(root, g, p) == SourcePairs(root, g)
  {
    forall k | k in g.mentions && g.mentions[k].uuid in p.Redundants()
      ensures KeepsPairOf(root, g, p.Redundants(), g.mentions[k])
    {
      UuidIsIdentity(root, g, p, k);
      EachRowInOnePart(root, g, p, g.mentions[k]);
      var u :| u in p.unique && EndsOf(u) == EndsOf(g.mentions[k]);
      UniqueRowStays(root, g, p, u);
    }
    RedundantIff(root, g, p.Redundants());
  }

  /**
   The input on which it is not: a run stopped between a row's CREATE and its DELETE leaves two edges of
   one uuid, the next plan finds the pair already held, and the delete by uuid takes both.
   */
  lemma InterruptedMoveLosesPair(root: Redirect, g: Graph, row: Mention)
    requires g.Sound() && Flat(root) && row in g.mentions.Values && row.src in root && Resolved(row)
    requires root[row.src] in g.episodics && root[row.src] != ""
    requires forall k | k in g.mentions && PairOf(root, g.mentions[k]) == PairOf(root, row) :: g.mentions[k] == row
    ensures
      var twins := g.AddMention(Rewired(root, row));
      && row in VictimRows(root, twins) && !Unshared(root, twins)
      && PairOf(root, row) in HeldPairs(root, twins)
      && PairOf(root, row) in SourcePairs(root, g)
      && PairOf(root, row) !in SourcePairs(root, twins.RemoveMentionsByUuid({row.uuid}))
  {
    var twins := g.AddMention(Rewired(root, row));
    var k := KeyOf(g, row);
    assert twins.mentions[k] == row;
    assert twins.mentions[g.nextId] == Rewired(root, row);
  }

  // ---------------------------------------------------------------------------------------------
  // From the graph phase B leaves to the one in which every row has been moved

  function RewiredAll(root: Redirect, rows: seq<Mention>): (moved: seq<Mention>)
    ensures |moved| == |rows| && forall i | 0 <= i < |rows| :: moved[i] == Rewired(root, rows[i])
  {
    seq(|rows|, i requires 0 <= i < |rows| => Rewired(root, rows[i]))
  }

  lemma OneMoreRewired(root: Redirect, done: seq<Mention>, row: Mention)
    ensures multiset(RewiredAll(root, done + [row])) == multiset(RewiredAll(root, done)) + multiset{Rewired(root, row)}
  {
    assert RewiredAll(root, done + [row]) == RewiredAll(root, done) + [Rewired(root, row)];
  }

  /** The edges that leave no victim are those of `d` and the rows already moved; the others are still to be. */
  ghost predicate Halfway(root: Redirect, d: Graph, g: Graph, done: seq<Mention>, rest: seq<Mention>) {
    && Bag(OtherEdges(root, g.mentions)) == Bag(OtherEdges(root, d.mentions)) + multiset(RewiredAll(root, done))
    && forall k | k in g.mentions && g.mentions[k].src in root :: g.mentions[k] in rest
  }

  lemma AfterDrop(root: Redirect, g0: Graph, p: Plan)
    requires Planned(root, g0, p) && Complete(root, g0, p)
    ensures Halfway(root, g0.RemoveMentionsByUuid(p.Redundants()), g0.RemoveMentionsByUuid(p.Redundants()), [], p.create)
  {
    var d := g0.RemoveMentionsByUuid(p.Redundants());
    forall k | k in d.mentions && d.mentions[k].src in root
      ensures d.mentions[k] in p.create
    {
      assert d.mentions[k] in VictimRows(root, g0);
      assert d.mentions[k] in Elements(p.rows);
      InPart(p, root, d.mentions[k]);
      SharesIff(p, d.mentions[k]);
    }
    assert RewiredAll(root, []) == [];
  }

  lemma MovedOthers(root: Redirect, g: Graph, row: Mention)
    requires g.Sound() && Flat(root) && row.src in root && To(root, row.src) in g.episodics && row.dst in g.entities
    ensures OtherEdges(root, Moved(root, g, row).mentions) == OtherEdges(root, g.mentions)[g.nextId := Rewired(root, row)]
  {
  }

  lemma MovedVictims(root: Redirect, g: Graph, row: Mention, k: nat)
    requires Flat(root) && row.src in root && k in Moved(root, g, row).mentions && Moved(root, g, row).mentions[k].src in root
    ensures k in g.mentions && g.mentions[k] == Moved(root, g, row).mentions[k] != row
  {
  }

  lemma OtherBagGrows(root: Redirect, g: Graph, row: Mention)
    requires g.Sound() && Flat(root) && row.src in root && To(root, row.src) in g.episodics && row.dst in g.entities
    ensures Bag(OtherEdges(root, Moved(root, g, row).mentions)) == Bag(OtherEdges(root, g.mentions)) + multiset{Rewired(root, row)}
  {
    MovedOthers(root, g, row);
    BagAdd(OtherEdges(root, g.mentions), g.nextId, Rewired(root, row));
  }

  lemma VictimsLeft(root: Redirect, g: Graph, row: Mention, rest: seq<Mention>)
    requires Flat(root) && row.src in root
    requires forall k | k in g.mentions && g.mentions[k].src in root :: g.mentions[k] in [row] + rest
    ensures
      var h := Moved(root, g, row);
      forall k | k in h.mentions && h.mentions[k].src in root :: h.mentions[k] in rest
  {
    var h := Moved(root, g, row);
    forall k | k in h.mentions && h.mentions[k].src in root
      ensures h.mentions[k] in rest
    {
      MovedVictims(root, g, row, k);
    }
  }

  lemma RowMoves(root: Redirect, d: Graph, g: Graph, done: seq<Mention>, row: Mention, rest: seq<Mention>)
    requires g.Sound() && Flat(root) && Halfway(root, d, g, done, [row] + rest) && row.src in root
    requires To(root, row.src) in g.episodics && row.dst in g.entities
    ensures Halfway(root, d, Moved(root, g, row), done + [row], rest)
  {
    OtherBagGrows(root, g, row);
    OneMoreRewired(root, done, row);
    VictimsLeft(root, g, row, rest);
  }

  // ---------------------------------------------------------------------------------------------
  // What the moved graph looks like

  ghost predicate NoVictimEdge(root: Redirect, g: Graph) {
    forall k | k in g.mentions :: g.mentions[k].src !in root
  }

  ghost function GraphEnds(g: Graph): set<(string, string)> {
    set k | k in g.mentions :: EndsOf(g.mentions[k])
  }

  /** Edge by edge: what phase B left outside the victims, and one edge per row of the plan's creations. */
  ghost predicate Folded(root: Redirect, g0: Graph, p: Plan, g: Graph) {
    && NoVictimEdge(root, g)
    && Bag(g.mentions) == Bag(OtherEdges(root, g0.RemoveMentionsByUuid(p.Redundants()).mentions)) + multiset(RewiredAll(root, p.create))
    && g.relations == g0.relations && g.entities == g0.entities
  }

  lemma MovedIsFolded(root: Redirect, g0: Graph, g: Graph, p: Plan)
    requires Halfway(root, g0.RemoveMentionsByUuid(p.Redundants()), g, p.create, [])
    requires g.relations == g0.relations && g.entities == g0.entities
    ensures Folded(root, g0, p, g)
  {
    assert OtherEdges(root, g.mentions) == g.mentions;
  }

  /** An edge of the folded graph is one that was kept or one that was moved. */
  lemma KeptOrMoved(root: Redirect, g0: Graph, g: Graph, p: Plan, m: Mention)
    requires Folded(root, g0, p, g)
    ensures m in g.mentions.Values <==>
      m in OtherEdges(root, g0.RemoveMentionsByUuid(p.Redundants()).mentions).Values || m in RewiredAll(root, p.create)
  {
    var others := OtherEdges(root, g0.RemoveMentionsByUuid(p.Redundants()).mentions);
    InBag(g.mentions, m);
    InBag(others, m);
    assert Bag(g.mentions)[m] == Bag(others)[m] + multiset(RewiredAll(root, p.create))[m];
    assert m in RewiredAll(root, p.create) <==> m in multiset(RewiredAll(root, p.create));
  }

  /** `b` is `a`, or if that leaves a victim its copy on the survivor. */
  ghost predicate EdgeBecomes(root: Redirect, a: Mention, b: Mention) {
    if a.src in root then
      && b.uuid == a.uuid && b.dst == a.dst && b.createdAt == a.createdAt && b.src == root[a.src]
      && b.groupId == if a.groupId == "" then "graphiti_memory" else a.groupId
    else b == a
  }

  /** Property by property: every edge left is one of the start or the copy of a victim's. */
  lemma EdgesBecome(root: Redirect, g0: Graph, g: Graph, p: Plan, k: nat) returns (j: nat)
    requires Planned(root, g0, p) && Folded(root, g0, p, g) && k in g.mentions
    ensures j in g0.mentions && EdgeBecomes(root, g0.mentions[j], g.mentions[k])
  {
    KeptOrMoved(root, g0, g, p, g.mentions[k]);
    var others := OtherEdges(root, g0.RemoveMentionsByUuid(p.Redundants()).mentions);
    if g.mentions[k] in others.Values {
      j :| j in others && others[j] == g.mentions[k];
    } else {
      var i :| 0 <= i < |p.create| && g.mentions[k] == RewiredAll(root, p.create)[i];
      InPart(p, root, p.create[i]);
      j := KeyOf(g0, p.create[i]);
    }
  }

  ghost function CreatedPairs(root: Redirect, p: Plan): set<(string, string)> {
    set m | m in p.create :: PairOf(root, m)
  }

  /** Pairs lost in phase B come back when a row of the pair is moved; nothing else does. */
  lemma FoldedEnds(root: Redirect, g0: Graph, g: Graph, p: Plan)
    requires Flat(root) && Planned(root, g0, p) && Complete(root, g0, p) && Folded(root, g0, p, g)
    ensures GraphEnds(g) == Floor(root, g0, p) + CreatedPairs(root, p)
  {
    forall e | e in GraphEnds(g)
      ensures e in Floor(root, g0, p) + CreatedPairs(root, p)
    {
      EndComesFrom(root, g0, g, p, e);
    }
    forall e | e in Floor(root, g0, p)
      ensures e in GraphEnds(g)
    {
      FloorStays(root, g0, g, p, e);
    }
    forall c | c in p.create
      ensures PairOf(root, c) in GraphEnds(g)
    {
      CreatedStays(root, g0, g, p, c);
    }
  }

  lemma EndComesFrom(root: Redirect, g0: Graph, g: Graph, p: Plan, e: (string, string))
    requires Flat(root) && Folded(root, g0, p, g) && e in GraphEnds(g)
    ensures e in Floor(root, g0, p) || e in CreatedPairs(root, p)
  {
    var d := g0.RemoveMentionsByUuid(p.Redundants());
    var k :| k in g.mentions && e == EndsOf(g.mentions[k]);
    KeptOrMoved(root, g0, g, p, g.mentions[k]);
    if g.mentions[k] in OtherEdges(root, d.mentions).Values {
      var j :| j in d.mentions && d.mentions[j] == g.mentions[k] && d.mentions[j].src !in root;
      assert e == PairOf(root, d.mentions[j]);
    } else {
      var i :| 0 <= i < |p.create| && g.mentions[k] == RewiredAll(root, p.create)[i];
      assert p.create[i] in p.create && e == PairOf(root, p.create[i]);
    }
  }

  lemma FloorStays(root: Redirect, g0: Graph, g: Graph, p: Plan, e: (string, string))
    requires Flat(root) && Planned(root, g0, p) && Complete(root, g0, p) && Folded(root, g0, p, g) && e in Floor(root, g0, p)
    ensures e in GraphEnds(g)
  {
    var d := g0.RemoveMentionsByUuid(p.Redundants());
    AfterDrop(root, g0, p);
    var k :| k in d.mentions && e == PairOf(root, d.mentions[k]);
    if d.mentions[k].src in root {
      CreatedStays(root, g0, g, p, d.mentions[k]);
    } else {
      var others := OtherEdges(root, d.mentions);
      assert others[k] == d.mentions[k];
      KeptOrMoved(root, g0, g, p, d.mentions[k]);
      var j := KeyOf(g, d.mentions[k]);
    }
  }

  lemma CreatedStays(root: Redirect, g0: Graph, g: Graph, p: Plan, c: Mention)
    requires Folded(root, g0, p, g) && c in p.create
    ensures PairOf(root, c) in GraphEnds(g)
  {
    var i :| 0 <= i < |p.create| && p.create[i] == c;
    assert RewiredAll(root, p.create)[i] == Rewired(root, c);
    KeptOrMoved(root, g0, g, p, Rewired(root, c));
    var j := KeyOf(g, Rewired(root, c));
  }

  lemma CreatedAreSources(root: Redirect, g0: Graph, p: Plan)
    requires Planned(root, g0, p)
    ensures CreatedPairs(root, p) <= SourcePairs(root, g0)
  {
    forall c | c in p.create
      ensures PairOf(root, c) in SourcePairs(root, g0)
    {
      InPart(p, root, c);
      var k := KeyOf(g0, c);
    }
  }

  /** An error-free run ends with every pair exactly when each was spared or is brought by a created row. */
  lemma FoldKeepsPairsIff(root: Redirect, g0: Graph, g: Graph, p: Plan)
    requires Flat(root) && Planned(root, g0, p) && Complete(root, g0, p) && Folded(root, g0, p, g)
    ensures GraphEnds(g) == SourcePairs(root, g0) <==>
      forall pair | pair in SourcePairs(root, g0) :: Spared(root, g0, p, pair) || pair in CreatedPairs(root, p)
  {
    FoldedEnds(root, g0, g, p);
    RemovalSubset(root, g0, p.Redundants());
    CreatedAreSources(root, g0, p);
    forall pair
      ensures pair in GraphEnds(g) <==> Spared(root, g0, p, pair) || pair in CreatedPairs(root, p)
    {
      SparedIff(root, g0, p, pair);
    }
  }

  // ---------------------------------------------------------------------------------------------
  // Each gain by one edge

  lemma SurvivorHolds(root: Redirect, g: Graph, m: Mention)
    requires Resolved(m) && m in g.mentions.Values && m.src in root.Values
    ensures EndsOf(m) in HeldPairs(root, g)
  {
    var j := KeyOf(g, m);
    assert EndsOf(g.mentions[j]) == EndsOf(m);
  }

  /** No edge of the start carries a gained pair: a survivor's would make it held. */
  lemma GainIsNotKept(root: Redirect, g0: Graph, p: Plan, m: Mention)
    requires Planned(root, g0, p) && Complete(root, g0, p) && m in g0.mentions.Values && m.src != ""
    ensures EndsOf(m) !in GainedPairs(root, g0)
  {
    if EndsOf(m) in GainedPairs(root, g0) {
      var e :| e in VictimEnds(root, g0) && (To(root, e.0), e.1) == EndsOf(m);
      var v :| v in VictimRows(root, g0) && EndsOf(v) == e;
      assert v in Elements(p.rows);
      SurvivorHolds(root, g0, m);
    }
  }

  lemma GainIsMoved(root: Redirect, g0: Graph, g: Graph, p: Plan, m: Mention) returns (i: nat)
    requires Planned(root, g0, p) && Complete(root, g0, p) && Folded(root, g0, p, g) && m in g.mentions.Values
    requires EndsOf(m) in GainedPairs(root, g0) && m.src != ""
    ensures i < |p.create| && m == Rewired(root, p.create[i]) && Bag(g.mentions)[m] == multiset(RewiredAll(root, p.create))[m]
  {
    var d := g0.RemoveMentionsByUuid(p.Redundants());
    var others := OtherEdges(root, d.mentions);
    KeptOrMoved(root, g0, g, p, m);
    InBag(others, m);
    if m in others.Values {
      var k :| k in others && others[k] == m;
      assert g0.mentions[k] == m;
      GainIsNotKept(root, g0, p, m);
    }
    assert Bag(g.mentions)[m] == Bag(others)[m] + multiset(RewiredAll(root, p.create))[m];
    i :| 0 <= i < |p.create| && m == RewiredAll(root, p.create)[i];
  }

  lemma RewiredOnce(root: Redirect, p: Plan, i: nat)
    requires p.Sound(root) && i < |p.create|
    ensures multiset(RewiredAll(root, p.create))[Rewired(root, p.create[i])] == 1
  {
    var s := RewiredAll(root, p.create);
    assert s == s[..i] + [s[i]] + s[i + 1..];
    forall j | 0 <= j < |s| && j != i
      ensures s[j] != s[i]
    {
      assert PairOf(root, p.create[j]) != PairOf(root, p.create[i]);
    }
    assert s[i] !in s[..i] && s[i] !in s[i + 1..];
  }

  /** Each target a survivor gains is mentioned by one edge. */
  lemma OneEdgePerGain(root: Redirect, g0: Graph, g: Graph, p: Plan, j: nat, k: nat)
    requires Planned(root, g0, p) && Complete(root, g0, p) && Folded(root, g0, p, g)
    requires j in g.mentions && k in g.mentions && EndsOf(g.mentions[j]) == EndsOf(g.mentions[k])
    requires EndsOf(g.mentions[j]) in GainedPairs(root, g0) && g.mentions[j].src != ""
    ensures j == k
  {
    var a := GainIsMoved(root, g0, g, p, g.mentions[j]);
    var b := GainIsMoved(root, g0, g, p, g.mentions[k]);
    assert PairOf(root, p.create[a]) == PairOf(root, p.create[b]);
    assert a == b;
    RewiredOnce(root, p, a);
    CountOf(g.mentions, g.mentions[j]);
    assert {j, k} <= Keys(g.mentions, g.mentions[j]);
    if j != k {
      assert |{j, k}| == 2;
      SubsetSize({j, k}, Keys(g.mentions, g.mentions[j]));
    }
  }

  // ---------------------------------------------------------------------------------------------
  // Counting

  lemma RowEnds(root: Redirect, g: Graph, p: Plan)
    requires Elements(p.rows) == VictimRows(root, g)
    ensures Ends(p.rows) == VictimEnds(root, g)
  {
    forall m
      ensures m in p.rows <==> m in VictimRows(root, g)
    {
      assert m in p.rows <==> m in Elements(p.rows);
    }
  }

  lemma RowsOnce(root: Redirect, g: Graph, rows: seq<Mention>)
    requires RowsFrom(root, g, rows) && Unshared(root, g)
    ensures |rows| == |Elements(rows)|
  {
    forall m | m in rows
      ensures multiset(rows)[m] == 1
    {
      EachRowOnce(root, g, rows, m);
    }
    SingleCount(rows);
  }

  lemma RowSetsAreGraphSets(root: Redirect, g: Graph, p: Plan)
    requires Complete(root, g, p)
    ensures Ends(p.rows) == VictimEnds(root, g)
    ensures HeldEnds(root, p.held, p.rows) == HeldEndsOf(root, g) && NewPairs(root, p.held, p.rows) == GainedPairs(root, g)
  {
    RowEnds(root, g, p);
  }

  /** The counters a complete plan yields are the ones the graph determines. */
  lemma CountsAreTally(root: Redirect, g: Graph, p: Plan)
    requires Planned(root, g, p) && Complete(root, g, p)
    ensures TallyOf(root, g, p.Counts())
  {
    RowsAreSplit(root, p.held, p.rows, p.unique, p.repeats, p.drop, p.dedupe, p.create);
    RowSetsAreGraphSets(root, g, p);
    if Unshared(root, g) {
      RowsOnce(root, g, p.rows);
    }
  }

  /** Edges of others that share their uuid with a doomed row. */
  ghost function Casualties(root: Redirect, g: Graph, p: Plan): set<nat> {
    set k | k in g.mentions && g.mentions[k].src !in root && SharesUuid(g.mentions[k], p.Doomed())
  }

  ghost function SparedEdges(root: Redirect, g: Graph, p: Plan): map<nat, Mention> {
    OtherEdges(root, g.RemoveMentionsByUuid(p.Redundants()).mentions)
  }

  lemma EdgesSplit(root: Redirect, g: Graph, p: Plan)
    ensures |g.mentions| == |VictimEdges(root, g.mentions)| + |Casualties(root, g, p)| + |SparedEdges(root, g, p)|
  {
    var victims, casualties, others := VictimEdges(root, g.mentions).Keys, Casualties(root, g, p), SparedEdges(root, g, p).Keys;
    forall k | k in g.mentions
      ensures k in others <==> k !in victims && k !in casualties
    {
      SharesIff(p, g.mentions[k]);
    }
    assert others <= g.mentions.Keys;
    ThreeParts(g.mentions.Keys, victims, casualties, others);
  }

  lemma ThreeParts(all: set<nat>, a: set<nat>, b: set<nat>, c: set<nat>)
    requires a <= all && b <= all && c <= all && a !! b && forall k | k in all :: k in c <==> k !in a && k !in b
    ensures |all| == |a| + |b| + |c|
  {
    assert all == a + b + c;
    assert |a + b| == |a| + |b|;
  }

  /**
   MENTIONS after = MENTIONS before - rewired + created: exactly when the read returned every edge of a
   victim as a row of its own and the delete by uuid took no other edge along.
   */
  lemma EdgesBalanceIff(root: Redirect, g0: Graph, g: Graph, p: Plan)
    requires Planned(root, g0, p) && Folded(root, g0, p, g)
    ensures |g.mentions| == |g0.mentions| - |p.rows| + |p.create| <==>
      |p.rows| == |VictimEdges(root, g0.mentions)| && Casualties(root, g0, p) == {}
  {
    EdgesSplit(root, g0, p);
    BagSize(g.mentions);
    BagSize(SparedEdges(root, g0, p));
    BagSize(VictimEdges(root, g0.mentions));
    SmallerBag(multiset(p.rows), Bag(VictimEdges(root, g0.mentions)));
    assert |multiset(RewiredAll(root, p.create))| == |p.create|;
  }

  /** It does when no victim row shares its uuid. */
  lemma EdgesBalance(root: Redirect, g0: Graph, g: Graph, p: Plan)
    requires Planned(root, g0, p) && Complete(root, g0, p) && Folded(root, g0, p, g) && Unshared(root, g0)
    ensures |g.mentions| == |g0.mentions| - |p.rows| + |p.create|
  {
    var victims := VictimEdges(root, g0.mentions);
    forall v | v in VictimRows(root, g0)
      ensures exists k :: k in victims.Keys && victims[k] == v
    {
      var k := KeyOf(g0, v);
      assert victims[k] == v;
    }
    ValuesOfKeys(victims, victims.Keys, VictimRows(root, g0));
    RowsOnce(root, g0, p.rows);
    forall k | k in g0.mentions && SharesUuid(g0.mentions[k], p.Doomed())
      ensures g0.mentions[k].src in root
    {
      SharesIff(p, g0.mentions[k]);
      UuidIsIdentity(root, g0, p, k);
      EachRowInOnePart(root, g0, p, g0.mentions[k]);
    }
    assert Casualties(root, g0, p) == {};
    EdgesBalanceIff(root, g0, g, p);
  }
}
