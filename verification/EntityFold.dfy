/** `apply_plan` as a whole: safe after every statement, and the quotient graph when nothing failed. */
module EntityFold {
  import opened Collections
  import opened GraphStore
  import opened Folding
  import opened EntitySafety
  import opened ApplyPlan
  import opened ApplyCleanup

  ghost function ActualPairs(g: Graph): set<(string, string)> {
    set k | k in g.mentions :: (g.mentions[k].src, g.mentions[k].dst)
  }

  ghost function ActualTriples(g: Graph): set<(string, string, string)> {
    set k | k in g.relations :: Key(g.relations[k])
  }

  /** What a run read before it moved anything. */
  datatype Reads = Reads(mentions: seq<Mention>, relations: seq<Relation>)

  /** Both are possible results of the projections of the victims' edges. */
  ghost predicate ReadFrom(root: Redirect, g: Graph, read: Reads) {
    VictimRowsOf(root, g.mentions, read.mentions) && Projects(g.relations, read.relations, IsTouched(root))
  }

  /**
   `g` is `g0` with every victim identified with its survivor, up to relations that had nowhere to go and
   to equal MENTIONS of a victim that the read returned as one row.
   */
  ghost predicate Quotient(root: Redirect, g0: Graph, read: Reads, g: Graph) {
    && g.episodics == g0.episodics
    && g.entities == g0.entities - root.Keys
    && ActualPairs(g) == Pairs(root, g0)
    && MentionsFolded(root, g0.mentions, read.mentions, g.mentions)
    && ActualTriples(g) == Landed(root, g0.entities, g0.relations)
    && NoDuplicateRelations(g)
    && g.relations.Values <= Lineage(root, g0.entities, g0.relations)
  }

  /** The counters of an error-free run, as the graphs before and after determine them. */
  ghost predicate CountsMatch(root: Redirect, g0: Graph, read: Reads, g: Graph, c: Counters) {
    && c.mentionsMoved == |read.mentions|
    && (OnceRelations(root, g0.relations) ==>
          RelationCounts(root, g0, g, c.relationsMoved, c.selfLoopsDropped, c.duplicateEdgesDropped))
    && c.nodesDeleted == |g0.entities| - |g.entities|
  }

  /** RELATES_TO after = RELATES_TO before - self-loops - stranded - duplicates; stranded ones count as moved. */
  ghost predicate RelationCounts(root: Redirect, g0: Graph, g: Graph, moved: nat, selfLoops: nat, duplicates: nat) {
    var stranded := |WithFate(root, g0.entities, g0.relations, Stranded)|;
    && selfLoops == |WithFate(root, g0.entities, g0.relations, FoldedAway)|
    && moved == |WithFate(root, g0.entities, g0.relations, Rehomed)| + stranded
    && |g.relations| == |g0.relations| - selfLoops - stranded - duplicates
  }

  // ---------------------------------------------------------------------------------------------
  // From the phases to the quotient

  lemma FoldedPairs(root: Redirect, g: Graph)
    requires forall k | k in g.mentions :: g.mentions[k].dst !in root
    ensures ActualPairs(g) == Pairs(root, g)
  {
    forall k | k in g.mentions
      ensures (g.mentions[k].src, g.mentions[k].dst) == (g.mentions[k].src, To(root, g.mentions[k].dst))
    {
    }
  }

  lemma FoldedTriples(root: Redirect, g: Graph)
    requires TouchedIn(root, g.relations, [])
    ensures ActualTriples(g) == Untouched(root, g.relations)
  {
    forall k | k in g.relations
      ensures !Touched(root, g.relations[k]) && Key(g.relations[k]) == Triple(root, g.relations[k])
    {
    }
  }

  /** Every edge is where it belongs, and only the victims' nodes are still to go. */
  ghost predicate EdgesFolded(root: Redirect, g0: Graph, read: Reads, g: Graph) {
    && MentionsFolded(root, g0.mentions, read.mentions, g.mentions) && TouchedIn(root, g.relations, []) && NoDuplicateRelations(g)
    && Untouched(root, g.relations) == Landed(root, g0.entities, g0.relations)
  }

  lemma FoldIsQuotient(root: Redirect, g0: Graph, read: Reads, g: Graph)
    requires Intact(root, g0, g) && EdgesFolded(root, g0, read, g) && g.entities == g0.entities - root.Keys
    ensures Quotient(root, g0, read, g)
  {
    FoldedPairs(root, g);
    FoldedTriples(root, g);
  }

  datatype MoveCounts = MoveCounts(mentions: nat, relations: nat, selfLoops: nat, duplicates: nat)

  /** The graph the edge phases leave, and what they count, when nothing fails. */
  ghost predicate EdgesMoved(root: Redirect, g0: Graph, read: Reads, g: Graph, m: MoveCounts) {
    && EdgesFolded(root, g0, read, g) && g.entities == g0.entities && m.mentions == |read.mentions|
    && (OnceRelations(root, g0.relations) ==> RelationCounts(root, g0, g, m.relations, m.selfLoops, m.duplicates))
  }

  /** The run took the rows in this order, and after each of them the graph was the one the order determines. */
  ghost predicate TookOrder(root: Redirect, g0: Graph, read: Reads, history: seq<Moment>, from: nat) {
    && ReadFrom(root, g0, read)
    && MentionsPassed(root, g0, read.mentions, |read.mentions|, history, from)
    && RelationsPassed(root, AfterMentions(root, g0, read.mentions), read.relations, |read.relations|, history, from)
  }

  lemma StillTook(root: Redirect, g0: Graph, read: Reads, history: seq<Moment>, longer: seq<Moment>, from: nat)
    requires TookOrder(root, g0, read, history, from) && history <= longer
    ensures TookOrder(root, g0, read, longer, from)
  {
    StillMentionsPassed(root, g0, read.mentions, history, longer, from);
    var b := AfterMentions(root, g0, read.mentions);
    forall i | 0 <= i <= |read.relations|
      ensures Reached(longer, from, AfterRelations(root, b, read.relations[..i]))
    {
      StillReached(history, longer, from, AfterRelations(root, b, read.relations[..i]));
    }
  }

  lemma StillMentionsPassed(root: Redirect, g0: Graph, rows: seq<Mention>, history: seq<Moment>, longer: seq<Moment>, from: nat)
    requires MentionsPassed(root, g0, rows, |rows|, history, from) && history <= longer
    ensures MentionsPassed(root, g0, rows, |rows|, longer, from)
  {
    forall i | 0 <= i <= |rows|
      ensures Reached(longer, from, AfterMentions(root, g0, rows[..i]))
    {
      StillReached(history, longer, from, AfterMentions(root, g0, rows[..i]));
    }
  }

  lemma DuplicatesGo(root: Redirect, g0: Graph, b: Graph, c: Graph, moved: nat, selfLoops: nat, duplicates: nat)
    requires RelationsFolded(root, g0, b, moved, selfLoops) && Deduplicated(root, b, c, duplicates)
    ensures TouchedIn(root, c.relations, []) && Untouched(root, c.relations) == Landed(root, g0.entities, g0.relations)
    ensures OnceRelations(root, g0.relations) ==> RelationCounts(root, g0, c, moved, selfLoops, duplicates)
  {
    forall k | k in c.relations
      ensures !Touched(root, c.relations[k])
    {
      assert c.relations[k] in c.relations.Values;
      var j :| j in b.relations && b.relations[j] == c.relations[k];
    }
  }

  lemma MentionsAreFolded(root: Redirect, g0: Graph, rows: seq<Mention>, a: Graph)
    requires g0.Sound() && Flat(root) && VictimRowsOf(root, g0.mentions, rows) && a == AfterMentions(root, g0, rows)
    ensures Movable(root, g0) ==> MentionsFolded(root, g0.mentions, rows, a.mentions)
  {
    RowsMatchIff(root, g0, rows);
    if Movable(root, g0) {
      AllMoved(root, g0, rows);
    }
  }

  /** What the edge phases report: only rows that could not be moved, unless something raised. */
  ghost predicate ReportsRows(root: Redirect, g0: Graph, rows: seq<Mention>, errors: seq<Error>, raised: bool) {
    && (errors == [] <==> !raised && Movable(root, g0))
    && (!raised ==> errors == Complaints(root, g0, rows))
  }

  /** What phases A and B have done when nothing raised. */
  ghost predicate BothMoved(root: Redirect, g0: Graph, read: Reads, g: Graph, history: seq<Moment>, from: nat,
                            relations: nat, selfLoops: nat) {
    && RelationsFolded(root, g0, g, relations, selfLoops) && TookOrder(root, g0, read, history, from)
    && (Movable(root, g0) ==> MentionsFolded(root, g0.mentions, read.mentions, g.mentions))
  }

  /** Both edge phases ran without a statement or a read raising; `a` is the graph between them. */
  lemma BothDone(root: Redirect, g0: Graph, read: Reads, a: Graph, history: seq<Moment>, g: Graph, longer: seq<Moment>, from: nat,
                 errors: seq<Error>, relations: nat, selfLoops: nat)
    requires g0.Sound() && Flat(root) && history <= longer && MentionsDone(root, g0, read.mentions, a, history, from, errors)
    requires RelationsDone(root, g0, a, read.relations, longer, from) && RelationsFolded(root, g0, g, relations, selfLoops)
    requires g.mentions == a.mentions
    ensures BothMoved(root, g0, read, g, longer, from, relations, selfLoops)
  {
    MentionsAreFolded(root, g0, read.mentions, a);
    StillMentionsPassed(root, g0, read.mentions, history, longer, from);
  }

  /** The relations and the nodes after a run in which nothing raised, whatever MENTIONS could not be moved. */
  ghost predicate Tidied(root: Redirect, g0: Graph, g: Graph, deleted: nat) {
    && TouchedIn(root, g.relations, []) && NoDuplicateRelations(g)
    && Untouched(root, g.relations) == Landed(root, g0.entities, g0.relations)
    && g.EmptyEntities(root.Keys) == {} && deleted == |g0.entities| - |g.entities|
  }

  lemma ReportsJoin(root: Redirect, g0: Graph, rows: seq<Mention>, first: seq<Error>, second: seq<Error>, r0: nat, r1: nat, r2: nat)
    requires r0 <= r1 <= r2 && ReportsRows(root, g0, rows, first, r1 > r0) && (second == [] <==> r2 == r1)
    ensures ReportsRows(root, g0, rows, first + second, r2 > r0) && (r2 == r0 ==> first + second == first)
  {
  }

  /** Phases A and B: MENTIONS, then RELATES_TO. */
  method MoveBoth(s: Session, root: Redirect, ghost g0: Graph, ghost from: nat)
    returns (mentions: nat, relations: nat, selfLoops: nat, errors: seq<Error>, ghost read: Reads)
    requires Running(root, g0, s, from) && s.g == g0
    modifies s
    ensures Running(root, g0, s, from) && old(s.history) <= s.history && s.g.entities == g0.entities
    ensures old(s.raised) <= s.raised && ReportsRows(root, g0, read.mentions, errors, s.raised > old(s.raised))
    ensures s.raised == old(s.raised) ==>
      BothMoved(root, g0, read, s.g, s.history, from, relations, selfLoops) && mentions + |errors| == |read.mentions|
  {
    ghost var r0 := s.raised;
    var moved, errorsA, readA := MoveMentions(s, root, g0, from);
    mentions := moved;
    ghost var a, history, r1 := s.g, s.history, s.raised;
    var rerouted, loops, errorsB, readB := MoveRelations(s, root, g0, from);
    relations, selfLoops, errors, read := rerouted, loops, errorsA + errorsB, Reads(readA, readB);
    ReportsJoin(root, g0, readA, errorsA, errorsB, r0, r1, s.raised);
    if s.raised == r0 {
      BothDone(root, g0, read, a, history, s.g, s.history, from, errorsA, relations, selfLoops);
    }
  }

  /** Phases A to C: then duplicates. */
  method MoveEdges(s: Session, root: Redirect, ghost g0: Graph, ghost from: nat) returns (m: MoveCounts, errors: seq<Error>, ghost read: Reads)
    requires Running(root, g0, s, from) && s.g == g0
    modifies s
    ensures Running(root, g0, s, from) && old(s.history) <= s.history
    ensures old(s.raised) <= s.raised && ReportsRows(root, g0, read.mentions, errors, s.raised > old(s.raised))
    ensures s.raised == old(s.raised) ==> TookOrder(root, g0, read, s.history, from) && m.mentions + |errors| == |read.mentions|
    ensures s.g.entities == g0.entities
    ensures s.raised == old(s.raised) ==>
      && TouchedIn(root, s.g.relations, []) && NoDuplicateRelations(s.g)
      && Untouched(root, s.g.relations) == Landed(root, g0.entities, g0.relations)
    ensures errors == [] ==> EdgesMoved(root, g0, read, s.g, m)
  {
    ghost var r0 := s.raised;
    var mentions, relations, selfLoops, errorsAB, readAB := MoveBoth(s, root, g0, from);
    read := readAB;
    ghost var b, history, r1 := s.g, s.history, s.raised;
    var duplicates, errorsC := DropDuplicates(s, root, g0, from);
    m, errors := MoveCounts(mentions, relations, selfLoops, duplicates), errorsAB + errorsC;
    ReportsJoin(root, g0, read.mentions, errorsAB, errorsC, r0, r1, s.raised);
    if s.raised == r0 {
      DuplicatesGo(root, g0, b, s.g, relations, selfLoops, duplicates);
      StillTook(root, g0, read, history, s.history, from);
    }
  }

  lemma DeletionConcludes(root: Redirect, g0: Graph, read: Reads, edges: Graph, g: Graph, m: MoveCounts, deleted: nat)
    requires EdgesMoved(root, g0, read, edges, m) && Intact(root, g0, g)
    requires g.mentions == edges.mentions && g.relations == edges.relations && Gone(edges, g, root.Keys, deleted)
    ensures Quotient(root, g0, read, g)
    ensures CountsMatch(root, g0, read, g, Counters(true, deleted, m.mentions, m.relations, m.selfLoops, m.duplicates, []))
  {
    FoldIsQuotient(root, g0, read, g);
  }

  /** The writing part: the edges first, the emptied nodes last. */
  method Execute(s: Session, root: Redirect, victims: seq<string>, batch: nat) returns (c: Counters, ghost read: Reads)
    requires s.Valid() && Flat(root) && batch > 0 && Elements(victims) == root.Keys
    modifies s
    ensures s.Valid() && SafeSince(root, old(s.g), s.history, |old(s.history)|) && old(s.history) <= s.history && c.applied
    ensures old(s.raised) <= s.raised && ReportsRows(root, old(s.g), read.mentions, c.errors, s.raised > old(s.raised))
    ensures s.raised == old(s.raised) ==>
      && TookOrder(root, old(s.g), read, s.history, |old(s.history)|) && c.mentionsMoved + |c.errors| == |read.mentions|
      && Tidied(root, old(s.g), s.g, c.nodesDeleted)
    ensures c.errors == [] ==> Quotient(root, old(s.g), read, s.g) && CountsMatch(root, old(s.g), read, s.g, c)
  {
    ghost var g0, from, r0 := s.g, |s.history|, s.raised;
    var m, errors, took := MoveEdges(s, root, g0, from);
    read := took;
    ghost var edges, history, r1 := s.g, s.history, s.raised;
    var deleted, errorsD := DeleteVictims(s, root, g0, from, victims, batch);
    c := Counters(true, deleted, m.mentions, m.relations, m.selfLoops, m.duplicates, errors + errorsD);
    ReportsJoin(root, g0, read.mentions, errors, errorsD, r0, r1, s.raised);
    if c.errors == [] {
      DeletionConcludes(root, g0, read, edges, s.g, m, deleted);
    }
    if s.raised == r0 {
      StillTook(root, g0, read, history, s.history, from);
    }
  }

  /**
   Folds the merges into the graph, or with `apply` off only reports. Whatever fails on the way, after
   every single statement the graph shows the same MENTIONS pairs once victims are read as survivors and
   every secure fact, no MENTIONS edge is lost if no DELETE takes two, and only edge-free victims have
   gone (see `SafeSince`). No error is reported exactly when nothing raised and every edge of a victim
   could be moved; then the graph is the quotient. If nothing raised, the run took the rows in an order that
   determines the graph after each of them, and relations and nodes are tidied even if some MENTIONS could
   not be moved. `read` are the rows it read.
   */
  method Apply(s: Session, merges: seq<Merge>, apply: bool, batch: nat) returns (c: Counters, ghost read: Reads)
    requires s.Valid() && batch > 0 && Acyclic(RedirectOf(merges))
    modifies s
    ensures s.Valid() && old(s.history) <= s.history && old(s.raised) <= s.raised && c.applied == apply
    ensures !apply || merges == [] ==>
      s.g == old(s.g) && s.history == old(s.history) && s.raised == old(s.raised) && c == Counters(apply, 0, 0, 0, 0, 0, [])
    ensures SafeSince(RootsOf(merges), old(s.g), s.history, |old(s.history)|)
    ensures apply && merges != [] ==>
      (c.errors == [] <==> s.raised == old(s.raised) && Movable(RootsOf(merges), old(s.g)))
    ensures apply && merges != [] && s.raised == old(s.raised) ==>
      && TookOrder(RootsOf(merges), old(s.g), read, s.history, |old(s.history)|)
      && c.errors == Complaints(RootsOf(merges), old(s.g), read.mentions) && c.mentionsMoved + |c.errors| == |read.mentions|
      && Tidied(RootsOf(merges), old(s.g), s.g, c.nodesDeleted)
    ensures apply && merges != [] && c.errors == [] ==>
      Quotient(RootsOf(merges), old(s.g), read, s.g) && CountsMatch(RootsOf(merges), old(s.g), read, s.g, c)
  {
    if merges == [] || !apply {
      return Counters(apply, 0, 0, 0, 0, 0, []), Reads([], []);
    }
    var redirect := CollectRedirect(merges);
    var root := RootMap(redirect);
    assert root == RootsOf(merges);
    var victims := KeysInSomeOrder(redirect);
    var counters, took := Execute(s, root, victims, batch);
    c, read := counters, took;
  }
}
