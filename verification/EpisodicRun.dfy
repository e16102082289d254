/** The writing part of `apply_episodic_plan`, and the phase as a whole. */
module EpisodicRun {
  import opened Collections
  import opened GraphStore
  import opened Folding
  import opened EpisodicPlan
  import opened EpisodicFold
  import opened EpisodicApply
  import opened EpisodicPairs

  // ---------------------------------------------------------------------------------------------
  // Phases B, A and C

  ghost predicate Movable(root: Redirect, g0: Graph, create: seq<Mention>) {
    forall m | m in create :: m.src in root && PairOf(root, m) in SourcePairs(root, g0)
  }

  lemma PlannedIsMovable(root: Redirect, g0: Graph, p: Plan)
    requires Planned(root, g0, p)
    ensures Movable(root, g0, p.create)
  {
    forall m | m in p.create
      ensures m.src in root && PairOf(root, m) in SourcePairs(root, g0)
    {
      InPart(p, root, m);
      var k := KeyOf(g0, m);
    }
  }

  /** The CREATE of the row's move matches both of its end points. */
  predicate Placed(root: Redirect, g: Graph, m: Mention) {
    To(root, m.src) in g.episodics && m.dst in g.entities
  }

  predicate SameNodes(g: Graph, d: Graph) {
    g.episodics == d.episodics && g.entities == d.entities
  }

  ghost predicate PlacedUpTo(root: Redirect, g: Graph, rows: seq<Mention>, n: nat)
    requires n <= |rows|
  {
    forall j | 0 <= j < n :: Placed(root, g, rows[j])
  }

  lemma AllPlaced(root: Redirect, g: Graph, rows: seq<Mention>)
    ensures PlacedUpTo(root, g, rows, |rows|) <==> forall m | m in rows :: Placed(root, g, m)
  {
  }

  /** Moves one row of the list; `d` is the graph the moves started from. */
  method MoveNext(s: Session, root: Redirect, ghost g0: Graph, ghost floor: set<(string, string)>, ghost from: nat, ghost d: Graph,
                  create: seq<Mention>, i: nat)
    returns (created: bool, errors: seq<Error>)
    requires Running(root, g0, floor, s, from) && Movable(root, g0, create) && i < |create| && SameNodes(s.g, d)
    modifies s
    ensures Running(root, g0, floor, s, from) && old(s.history) <= s.history && s.undo == old(s.undo)
    ensures SameNodes(s.g, d) && s.g.relations == old(s.g).relations
    ensures old(s.raised) <= s.raised && |errors| <= 1 && (errors == [] ==> created)
    ensures errors == [] <==> s.raised == old(s.raised) && Placed(root, d, create[i])
    ensures errors == [] && HalfwayFrom(root, d, old(s.g), create, i) ==> HalfwayFrom(root, d, s.g, create, i + 1)
  {
    var row := create[i];
    assert row in create;
    ghost var before := s.g;
    created, errors := MoveRow(s, root, g0, floor, from, row);
    if errors == [] {
      NextMoves(root, d, before, create, i);
    }
  }

  lemma NextMoves(root: Redirect, d: Graph, g: Graph, create: seq<Mention>, i: nat)
    requires g.Sound() && Flat(root) && i < |create| && create[i].src in root
    requires To(root, create[i].src) in g.episodics && create[i].dst in g.entities
    ensures Halfway(root, d, g, create[..i], create[i..]) ==> Halfway(root, d, Moved(root, g, create[i]), create[..i + 1], create[i + 1..])
  {
    assert create[i..] == [create[i]] + create[i + 1..] && create[..i + 1] == create[..i] + [create[i]];
    if Halfway(root, d, g, create[..i], create[i..]) {
      RowMoves(root, d, g, create[..i], create[i], create[i + 1..]);
    }
  }

  /** How the loop stands before row `i`; it started from `d`, when `r0` statements had raised. */
  ghost predicate AtRow(root: Redirect, d: Graph, g: Graph, create: seq<Mention>, i: nat, r0: nat, raised: nat,
                        moved: nat, created: nat, errors: seq<Error>)
    requires i <= |create|
  {
    && SameNodes(g, d) && r0 <= raised && moved + |errors| == i && moved <= created <= i
    && (errors == [] <==> raised == r0 && PlacedUpTo(root, d, create, i))
    && (errors == [] ==> HalfwayFrom(root, d, g, create, i))
  }

  ghost predicate HalfwayFrom(root: Redirect, d: Graph, g: Graph, create: seq<Mention>, i: nat)
    requires i <= |create|
  {
    Halfway(root, d, d, [], create) ==> Halfway(root, d, g, create[..i], create[i..])
  }

  method NextAtRow(s: Session, root: Redirect, ghost g0: Graph, ghost floor: set<(string, string)>, ghost from: nat, ghost d: Graph,
                   create: seq<Mention>, i: nat, ghost r0: nat, moved: nat, created: nat, errors: seq<Error>)
    returns (movedNow: nat, createdNow: nat, errorsNow: seq<Error>)
    requires Running(root, g0, floor, s, from) && Movable(root, g0, create) && i < |create|
    requires AtRow(root, d, s.g, create, i, r0, s.raised, moved, created, errors)
    modifies s
    ensures Running(root, g0, floor, s, from) && old(s.history) <= s.history && s.undo == old(s.undo)
    ensures s.g.relations == old(s.g).relations
    ensures AtRow(root, d, s.g, create, i + 1, r0, s.raised, movedNow, createdNow, errorsNow)
  {
    var made, failed := MoveNext(s, root, g0, floor, from, d, create, i);
    movedNow := if failed == [] then moved + 1 else moved;
    createdNow := if made then created + 1 else created;
    errorsNow := errors + failed;
  }

  lemma NoneYet(root: Redirect, d: Graph, create: seq<Mention>, r0: nat)
    ensures AtRow(root, d, d, create, 0, r0, r0, 0, 0, [])
  {
    assert create[..0] == [] && create[0..] == create;
  }

  lemma AllMet(root: Redirect, d: Graph, g: Graph, create: seq<Mention>, r0: nat, raised: nat, moved: nat, created: nat, errors: seq<Error>)
    requires AtRow(root, d, g, create, |create|, r0, raised, moved, created, errors)
    ensures errors == [] <==> raised == r0 && forall m | m in create :: Placed(root, d, m)
    ensures errors == [] && Halfway(root, d, d, [], create) ==> Halfway(root, d, g, create, [])
  {
    assert create[..|create|] == create && create[|create|..] == [];
    AllPlaced(root, d, create);
  }

  method MoveRows(s: Session, root: Redirect, ghost g0: Graph, ghost floor: set<(string, string)>, ghost from: nat, create: seq<Mention>)
    returns (moved: nat, created: nat, errors: seq<Error>)
    requires Running(root, g0, floor, s, from) && Movable(root, g0, create)
    modifies s
    ensures Running(root, g0, floor, s, from) && old(s.history) <= s.history && s.undo == old(s.undo)
    ensures SameNodes(s.g, old(s.g)) && s.g.relations == old(s.g).relations
    ensures old(s.raised) <= s.raised && moved + |errors| == |create| && moved <= created <= |create|
    ensures errors == [] <==> s.raised == old(s.raised) && forall m | m in create :: Placed(root, old(s.g), m)
    ensures errors == [] && Halfway(root, old(s.g), old(s.g), [], create) ==> Halfway(root, old(s.g), s.g, create, [])
  {
    moved, created, errors := 0, 0, [];
    ghost var d, r0 := s.g, s.raised;
    NoneYet(root, d, create, r0);
    for i := 0 to |create|
      invariant Running(root, g0, floor, s, from) && old(s.history) <= s.history && s.undo == old(s.undo)
      invariant s.g.relations == old(s.g).relations
      invariant AtRow(root, d, s.g, create, i, r0, s.raised, moved, created, errors)
    {
      moved, created, errors := NextAtRow(s, root, g0, floor, from, d, create, i, r0, moved, created, errors);
    }
    AllMet(root, d, s.g, create, r0, s.raised, moved, created, errors);
  }

  /** From the planned graph over the dropped one to the moved one. */
  lemma RewireConcludes(root: Redirect, g0: Graph, p: Plan, g: Graph)
    requires Planned(root, g0, p) && Complete(root, g0, p) && g.relations == g0.relations && g.entities == g0.entities
    requires
      var dropped := g0.RemoveMentionsByUuid(p.Redundants());
      Halfway(root, dropped, dropped, [], p.create) ==> Halfway(root, dropped, g, p.create, [])
    ensures Folded(root, g0, p, g)
  {
    AfterDrop(root, g0, p);
    MovedIsFolded(root, g0, g, p);
  }

  /** Every victim with an edge has a survivor that exists. */
  ghost predicate Rewirable(root: Redirect, g: Graph) {
    forall k | k in g.mentions && g.mentions[k].src in root :: root[g.mentions[k].src] in g.episodics
  }

  /** A survivor that holds a target exists, so what is created finds its ends exactly when the survivors exist. */
  lemma PlacedIff(root: Redirect, g: Graph, p: Plan)
    requires g.Sound() && Planned(root, g, p) && Complete(root, g, p)
    ensures (forall m | m in p.create :: Placed(root, g, m)) <==> Rewirable(root, g)
  {
    if Rewirable(root, g) {
      forall m | m in p.create
        ensures Placed(root, g, m)
      {
        InPart(p, root, m);
        var k := KeyOf(g, m);
      }
    }
    if forall m | m in p.create :: Placed(root, g, m) {
      forall k | k in g.mentions && g.mentions[k].src in root
        ensures root[g.mentions[k].src] in g.episodics
      {
        SurvivorExists(root, g, p, k);
      }
    }
  }

  lemma SurvivorExists(root: Redirect, g: Graph, p: Plan, k: nat)
    requires g.Sound() && Planned(root, g, p) && Complete(root, g, p) && k in g.mentions && g.mentions[k].src in root
    requires forall m | m in p.create :: Placed(root, g, m)
    ensures root[g.mentions[k].src] in g.episodics
  {
    assert g.mentions[k] in VictimRows(root, g);
    assert g.mentions[k] in Elements(p.rows);
    var u :| u in p.unique && EndsOf(u) == EndsOf(g.mentions[k]);
    SortedParts(root, p.held, p.unique, p.drop, p.dedupe, p.create, u);
    if u in p.drop {
      var j :| j in g.mentions && g.mentions[j].src in root.Values && EndsOf(g.mentions[j]) == PairOf(root, u);
    } else {
      var c :| c in p.create && PairOf(root, c) == PairOf(root, u);
    }
  }

  method Rewire(s: Session, root: Redirect, ghost g0: Graph, ghost from: nat, p: Plan, unread: seq<Error>)
    returns (tally: Tally, errors: seq<Error>)
    requires Running(root, g0, Floor(root, g0, p), s, from) && Planned(root, g0, p) && s.g == g0
    requires unread == [] ==> Complete(root, g0, p)
    modifies s
    ensures Running(root, g0, Floor(root, g0, p), s, from) && old(s.history) <= s.history && s.undo == old(s.undo)
    ensures s.g.episodics == g0.episodics && old(s.raised) <= s.raised
    ensures errors == [] <==> unread == [] && s.raised == old(s.raised) && Rewirable(root, g0)
    ensures errors == [] ==> tally == p.Counts() && Complete(root, g0, p) && Folded(root, g0, p, s.g)
  {
    PlannedIsMovable(root, g0, p);
    var errorsB := DropRows(s, root, g0, from, p.Redundants());
    var moved, created, errorsA := MoveRows(s, root, g0, Floor(root, g0, p), from, p.create);
    tally := Tally(|p.rows|, moved, |p.drop|, created, |p.repeats|, |p.dedupe|);
    errors := unread + errorsB + errorsA;
    RunningIntact(s, root, g0, Floor(root, g0, p), from);
    if unread == [] {
      PlacedIff(root, g0, p);
    }
    if errors == [] {
      RewireConcludes(root, g0, p, s.g);
    }
  }

  // ---------------------------------------------------------------------------------------------
  // The undo rows

  function RowsOf(unique: seq<Mention>, victim: string): (own: seq<Mention>)
    ensures forall m :: m in own <==> m in unique && m.src == victim
  {
    if unique == [] then []
    else (if unique[0].src == victim then [unique[0]] else []) + RowsOf(unique[1..], victim)
  }

  lemma OwnRowsRestore(root: Redirect, g0: Graph, p: Plan, row: UndoRow)
    requires Planned(root, g0, p) && AllRead(root, g0, p.rows) && row.victim in root
    requires row.mentions == RowsOf(p.unique, row.victim) && row.snapshot == g0.properties(row.victim)
    ensures Restores(row, row.victim, g0)
  {
    UniqueEnds(p.rows, p.unique, p.repeats);
    forall k | k in g0.mentions && g0.mentions[k].src == row.victim && Resolved(g0.mentions[k])
      ensures exists m :: m in row.mentions && m.dst == g0.mentions[k].dst
    {
      assert g0.mentions[k] in VictimRows(root, g0);
      var u :| u in p.unique && EndsOf(u) == EndsOf(g0.mentions[k]);
      assert u in row.mentions;
    }
  }

  /** The rows name victims that have a node, and their survivors. */
  ghost predicate NameMerges(redirect: Redirect, g0: Graph, rows: seq<UndoRow>) {
    forall row | row in rows :: row.victim in g0.episodics && row.victim in redirect && row.survivor == redirect[row.victim]
  }

  ghost predicate CoversUpTo(g0: Graph, merges: seq<Merge>, rows: seq<UndoRow>, n: nat)
    requires n <= |merges|
  {
    forall j | 0 <= j < n && merges[j].victim in g0.episodics :: Covered(g0, merges[j].victim, rows)
  }

  ghost predicate Covered(g0: Graph, victim: string, rows: seq<UndoRow>) {
    exists row :: row in rows && Restores(row, victim, g0)
  }

  lemma CoversMore(g0: Graph, merges: seq<Merge>, rows: seq<UndoRow>, row: UndoRow, n: nat)
    requires n < |merges| && CoversUpTo(g0, merges, rows, n) && Restores(row, merges[n].victim, g0)
    ensures CoversUpTo(g0, merges, rows + [row], n + 1)
  {
    assert row in rows + [row];
    forall j | 0 <= j < n && merges[j].victim in g0.episodics
      ensures Covered(g0, merges[j].victim, rows + [row])
    {
      assert Covered(g0, merges[j].victim, rows);
      var r :| r in rows && Restores(r, merges[j].victim, g0);
      assert r in rows + [row];
    }
  }

  lemma CoversAll(root: Redirect, g0: Graph, merges: seq<Merge>, rows: seq<UndoRow>)
    requires CoversUpTo(g0, merges, rows, |merges|) && root.Keys == RedirectOf(merges).Keys
    ensures UndoComplete(root, g0, rows)
  {
    forall v | v in root && v in g0.episodics
      ensures exists row :: row in rows && Restores(row, v, g0)
    {
      var j := VictimHasMerge(merges, v);
      assert Covered(g0, merges[j].victim, rows);
    }
  }

  /** Those of the first `n` merges whose victim has a node. */
  ghost function WithNode(merges: seq<Merge>, nodes: set<string>, n: nat): set<nat>
    requires n <= |merges|
  {
    set i: nat | i < n && merges[i].victim in nodes
  }

  lemma OneMoreNode(merges: seq<Merge>, nodes: set<string>, n: nat)
    requires n < |merges|
    ensures |WithNode(merges, nodes, n + 1)| == |WithNode(merges, nodes, n)| + if merges[n].victim in nodes then 1 else 0
  {
    assert WithNode(merges, nodes, n + 1) == WithNode(merges, nodes, n) + if merges[n].victim in nodes then {n} else {};
  }

  /** One row per merge whose victim still has a node. */
  method UndoRows(root: Redirect, redirect: Redirect, ghost g0: Graph, nodes: set<string>, properties: string -> string,
                  p: Plan, merges: seq<Merge>)
    returns (rows: seq<UndoRow>)
    requires redirect == RedirectOf(merges) && root.Keys == redirect.Keys && nodes == g0.episodics && properties == g0.properties
    requires Planned(root, g0, p) && AllRead(root, g0, p.rows)
    ensures CoversUpTo(g0, merges, rows, |merges|) && NameMerges(redirect, g0, rows)
    ensures |rows| == |WithNode(merges, nodes, |merges|)|
  {
    rows := [];
    assert WithNode(merges, nodes, 0) == {};
    for i := 0 to |merges|
      invariant |rows| == |WithNode(merges, nodes, i)| && NameMerges(redirect, g0, rows) && CoversUpTo(g0, merges, rows, i)
    {
      var v := merges[i].victim;
      OneMoreNode(merges, nodes, i);
      VictimHasSurvivor(merges, i);
      if v in nodes {
        var row := UndoRow(v, redirect[v], properties(v), RowsOf(p.unique, v));
        OwnRowsRestore(root, g0, p, row);
        CoversMore(g0, merges, rows, row, i);
        rows := rows + [row];
      }
    }
  }

  /** The read of the properties may raise. */
  method BuildUndo(s: Session, root: Redirect, ghost g0: Graph, p: Plan, merges: seq<Merge>) returns (ok: bool, rows: seq<UndoRow>)
    requires s.Valid() && root.Keys == RedirectOf(merges).Keys && s.g.episodics == g0.episodics && s.g.properties == g0.properties
    requires Planned(root, g0, p) && AllRead(root, g0, p.rows)
    modifies s`raised
    ensures s.Valid() && s.raised == old(s.raised) + if ok then 0 else 1
    ensures !ok ==> rows == []
    ensures ok ==> UndoComplete(root, g0, rows) && |rows| == |WithNode(merges, g0.episodics, |merges|)|
    ensures NameMerges(RedirectOf(merges), g0, rows)
  {
    var redirect := CollectRedirect(merges);
    rows := [];
    ok := s.Ask();
    if ok {
      rows := UndoRows(root, redirect, g0, s.g.episodics, s.g.properties, p, merges);
      CoversAll(root, g0, merges, rows);
    }
  }

  lemma {:induction false} VictimHasSurvivor(merges: seq<Merge>, i: nat)
    requires i < |merges|
    ensures merges[i].victim in RedirectOf(merges)
  {
    if i < |merges| - 1 {
      VictimHasSurvivor(merges[..|merges| - 1], i);
    }
  }

  lemma {:induction false} VictimHasMerge(merges: seq<Merge>, v: string) returns (i: nat)
    requires v in RedirectOf(merges)
    ensures i < |merges| && merges[i].victim == v
  {
    i := |merges| - 1;
    if merges[i].victim != v {
      i := VictimHasMerge(merges[..i], v);
    }
  }

  /** There is an undo row for every victim, and a writer that keeps them. */
  ghost predicate Undoable(merges: seq<Merge>, nodes: set<string>, victims: nat, writer: UndoWriter) {
    writer == Writer(true) && victims <= |WithNode(merges, nodes, |merges|)|
  }

  /** Writes the undo rows, or says why no node may be deleted. */
  method RecordUndo(s: Session, root: Redirect, ghost g0: Graph, ghost from: nat, p: Plan, merges: seq<Merge>, victims: nat, writer: UndoWriter)
    returns (written: nat, errors: seq<Error>)
    requires Running(root, g0, Floor(root, g0, p), s, from) && root.Keys == RedirectOf(merges).Keys && s.g.episodics == g0.episodics
    requires Planned(root, g0, p) && AllRead(root, g0, p.rows) && victims > 0
    modifies s
    ensures Running(root, g0, Floor(root, g0, p), s, from) && old(s.history) <= s.history && s.g == old(s.g)
    ensures errors == [] ==> UndoComplete(root, g0, s.undo)
    ensures old(s.raised) <= s.raised && (errors == [] <==> s.raised == old(s.raised) && Undoable(merges, g0.episodics, victims, writer))
    ensures errors == [] <==> victims <= written
    ensures errors == [] ==> written == |WithNode(merges, g0.episodics, |merges|)|
  {
    RunningIntact(s, root, g0, Floor(root, g0, p), from);
    var built, rows := BuildUndo(s, root, g0, p, merges);
    errors := if built then [] else [UndoBuild];
    if |rows| < victims {
      return 0, errors + [UndoIncomplete];
    }
    if writer == NoWriter {
      return 0, errors + [NoUndoWriter];
    }
    UndoStatementSafe(s, root, g0, Floor(root, g0, p), from, s.undo + rows);
    UndoStatementSafe(s, root, g0, Floor(root, g0, p), from, s.undo);
    var ok, n := s.WriteUndo(rows, writer.persists);
    written := if ok then n else 0;
    if !ok {
      errors := errors + [UndoWrite];
    }
    if written < victims {
      errors := errors + [UndoShort];
    } else if errors == [] {
      UndoGrows(root, g0, rows, s.undo);
    }
  }

  lemma UndoStatementSafe(s: Session, root: Redirect, g0: Graph, floor: set<(string, string)>, from: nat, log: seq<UndoRow>)
    requires Running(root, g0, floor, s, from) && s.undo <= log
    ensures SafeSince(root, g0, floor, s.history + [Moment(s.g, log)], from)
  {
    RunningIntact(s, root, g0, floor, from);
    SafeExtension(root, g0, floor, s.history, from, Moment(s.g, log));
  }

  lemma UndoGrows(root: Redirect, g0: Graph, rows: seq<UndoRow>, log: seq<UndoRow>)
    requires UndoComplete(root, g0, rows) && forall row | row in rows :: row in log
    ensures UndoComplete(root, g0, log)
  {
  }

  // ---------------------------------------------------------------------------------------------
  // Phase D: the silent victims

  lemma RemovalIntact(root: Redirect, g0: Graph, floor: set<(string, string)>, g: Graph, chunk: set<string>)
    requires Intact(root, g0, floor, g) && chunk <= root.Keys
    ensures Intact(root, g0, floor, g.RemoveSilentEpisodics(chunk))
  {
    var h := g.RemoveSilentEpisodics(chunk);
    assert SourcePairs(root, h) == SourcePairs(root, g);
    forall k | k in g.mentions
      ensures g.mentions[k].src in h.episodics
    {
      assert !g.Mentionless(g.mentions[k].src);
    }
  }

  lemma DeletionSafe(s: Session, root: Redirect, g0: Graph, floor: set<(string, string)>, from: nat, chunk: set<string>)
    requires Running(root, g0, floor, s, from) && chunk <= root.Keys && UndoComplete(root, g0, s.undo)
    ensures s.g.RemoveSilentEpisodics(chunk).Sound()
    ensures SafeSince(root, g0, floor, s.history + [Moment(s.g.RemoveSilentEpisodics(chunk), s.undo)], from)
    ensures SafeSince(root, g0, floor, s.history + [Moment(s.g, s.undo)], from)
  {
    RunningIntact(s, root, g0, floor, from);
    RemovalIntact(root, g0, floor, s.g, chunk);
    SafeExtension(root, g0, floor, s.history, from, Moment(s.g, s.undo));
    SafeExtension(root, g0, floor, s.history, from, Moment(s.g.RemoveSilentEpisodics(chunk), s.undo));
  }

  lemma SilentCount(g: Graph, chunk: set<string>)
    ensures |g.SilentEpisodics(chunk)| == |g.episodics| - |g.RemoveSilentEpisodics(chunk).episodics|
  {
    assert g.episodics == g.SilentEpisodics(chunk) + g.RemoveSilentEpisodics(chunk).episodics;
  }

  /** Without victim edges every node of the chunk goes. */
  lemma SilentVictims(root: Redirect, g: Graph, chunk: set<string>)
    requires chunk <= root.Keys && forall k | k in g.mentions :: g.mentions[k].src !in root
    ensures g.RemoveSilentEpisodics(chunk).episodics == g.episodics - chunk
    ensures |g.SilentEpisodics(chunk)| == |g.episodics| - |g.episodics - chunk|
  {
    assert g.SilentEpisodics(chunk) == g.episodics * chunk;
    assert g.episodics == (g.episodics - chunk) + g.episodics * chunk;
  }

  ghost predicate Gone(a: Graph, b: Graph, chunk: set<string>, found: nat) {
    b.episodics == a.episodics - chunk && found == |a.episodics| - |b.episodics|
  }

  lemma GoneTogether(a: Graph, b: Graph, c: Graph, first: set<string>, second: set<string>, m: nat, n: nat)
    requires Gone(a, b, first, m) && Gone(b, c, second, n)
    ensures Gone(a, c, first + second, m + n)
  {
  }

  /** Count, then delete, one chunk of victims. */
  method DeleteChunk(s: Session, root: Redirect, ghost g0: Graph, ghost floor: set<(string, string)>, ghost from: nat, chunk: set<string>)
    returns (ok: bool, found: nat)
    requires Running(root, g0, floor, s, from) && UndoComplete(root, g0, s.undo) && chunk <= root.Keys
    modifies s
    ensures Running(root, g0, floor, s, from) && old(s.history) <= s.history && s.undo == old(s.undo)
    ensures s.g == old(s.g).(episodics := s.g.episodics) && found <= |chunk| && s.g.episodics <= old(s.g).episodics
    ensures ok ==> s.g == old(s.g).RemoveSilentEpisodics(chunk) && found == |old(s.g).episodics| - |s.g.episodics|
    ensures old(s.raised) <= s.raised && (ok <==> s.raised == old(s.raised))
    ensures ok && NoVictimEdge(root, old(s.g)) ==> Gone(old(s.g), s.g, chunk, found)
  {
    found := |s.g.SilentEpisodics(chunk)|;
    FoundBound(s.g, chunk);
    SilentCount(s.g, chunk);
    ok := s.Ask();
    if !ok {
      return;
    }
    DeletionSafe(s, root, g0, floor, from, chunk);
    if NoVictimEdge(root, s.g) {
      SilentVictims(root, s.g, chunk);
    }
    ok := s.Send(s.g.RemoveSilentEpisodics(chunk));
  }

  /** Deleting a chunk leaves none of its silent victims, and a failing one leaves at most them. */
  lemma LeftAfterChunk(a: Graph, b: Graph, done: set<string>, chunk: set<string>, ok: bool)
    requires b.mentions == a.mentions && b.episodics <= a.episodics && (ok ==> b == a.RemoveSilentEpisodics(chunk))
    ensures |b.SilentEpisodics(done + chunk)| <= |a.SilentEpisodics(done)| + if ok then 0 else |chunk|
  {
    var left := b.SilentEpisodics(done + chunk);
    if ok {
      assert left <= a.SilentEpisodics(done);
      SubsetSize(left, a.SilentEpisodics(done));
    } else {
      assert left <= a.SilentEpisodics(done) + chunk;
      SubsetSize(left, a.SilentEpisodics(done) + chunk);
    }
  }

  /** Of the victims met, no more are left silent than one chunk for each error. */
  ghost predicate Cleared(g: Graph, met: set<string>, errors: nat, batch: nat) {
    |g.SilentEpisodics(met)| <= errors * batch
  }

  lemma ClearedMore(a: Graph, b: Graph, done: set<string>, chunk: set<string>, ok: bool, errors: nat, batch: nat)
    requires b.mentions == a.mentions && b.episodics <= a.episodics && (ok ==> b == a.RemoveSilentEpisodics(chunk))
    requires Cleared(a, done, errors, batch) && |chunk| <= batch
    ensures Cleared(b, done + chunk, if ok then errors else errors + 1, batch)
  {
    LeftAfterChunk(a, b, done, chunk, ok);
    assert (errors + 1) * batch == errors * batch + batch;
  }

  /** What the chunks up to `start` have done; `errors` of them have failed. */
  ghost predicate GoneSoFar(root: Redirect, a: Graph, g: Graph, victims: seq<string>, start: nat, deleted: nat, errors: nat, batch: nat)
    requires start <= |victims|
  {
    && Cleared(g, Elements(victims[..start]), errors, batch)
    && (errors == 0 ==> deleted == |a.episodics| - |g.episodics|)
    && (errors == 0 && NoVictimEdge(root, a) ==> Gone(a, g, Elements(victims[..start]), deleted))
  }

  lemma NoneGone(root: Redirect, a: Graph, victims: seq<string>, batch: nat)
    ensures GoneSoFar(root, a, a, victims, 0, 0, 0, batch)
  {
    assert a.SilentEpisodics(Elements(victims[..0])) == {};
  }

  lemma GoneMore(root: Redirect, a: Graph, b: Graph, c: Graph, victims: seq<string>, start: nat, end: nat,
                 deleted: nat, found: nat, ok: bool, errors: nat, batch: nat)
    requires start <= end <= |victims| && end - start <= batch && GoneSoFar(root, a, b, victims, start, deleted, errors, batch)
    requires c == b.(episodics := c.episodics) && c.episodics <= b.episodics
    requires ok ==> c == b.RemoveSilentEpisodics(Elements(victims[start..end])) && found == |b.episodics| - |c.episodics|
    requires ok && NoVictimEdge(root, a) ==> Gone(b, c, Elements(victims[start..end]), found)
    ensures GoneSoFar(root, a, c, victims, end, if ok then deleted + found else deleted, if ok then errors else errors + 1, batch)
  {
    ChunkJoins(victims, start, end);
    ClearedMore(b, c, Elements(victims[..start]), Elements(victims[start..end]), ok, errors, batch);
    if ok && errors == 0 && NoVictimEdge(root, a) {
      GoneTogether(a, b, c, Elements(victims[..start]), Elements(victims[start..end]), deleted, found);
    }
  }

  /** One more chunk of the list. */
  method DeleteNext(s: Session, root: Redirect, ghost g0: Graph, ghost floor: set<(string, string)>, ghost from: nat, ghost a: Graph,
                    victims: seq<string>, start: nat, end: nat, ghost deleted: nat, ghost errors: nat, ghost batch: nat)
    returns (ok: bool, found: nat)
    requires Running(root, g0, floor, s, from) && UndoComplete(root, g0, s.undo) && s.g == a.(episodics := s.g.episodics)
    requires start <= end <= |victims| && end - start <= batch && Elements(victims) == root.Keys
    requires GoneSoFar(root, a, s.g, victims, start, deleted, errors, batch)
    modifies s
    ensures Running(root, g0, floor, s, from) && old(s.history) <= s.history && s.undo == old(s.undo)
    ensures s.g == a.(episodics := s.g.episodics) && found <= end - start
    ensures old(s.raised) <= s.raised && (ok <==> s.raised == old(s.raised))
    ensures GoneSoFar(root, a, s.g, victims, end, if ok then deleted + found else deleted, if ok then errors else errors + 1, batch)
  {
    ChunkJoins(victims, start, end);
    ghost var before := s.g;
    ok, found := DeleteChunk(s, root, g0, floor, from, Elements(victims[start..end]));
    GoneMore(root, a, before, s.g, victims, start, end, deleted, found, ok, errors, batch);
  }

  method DeleteSilent(s: Session, root: Redirect, ghost g0: Graph, ghost floor: set<(string, string)>, ghost from: nat,
                      victims: seq<string>, batch: nat)
    returns (deleted: nat, notEmpty: nat, errors: seq<Error>)
    requires Running(root, g0, floor, s, from) && UndoComplete(root, g0, s.undo)
    requires batch > 0 && Elements(victims) == root.Keys
    modifies s
    ensures Running(root, g0, floor, s, from) && old(s.history) <= s.history && s.undo == old(s.undo)
    ensures s.g == old(s.g).(episodics := s.g.episodics)
    ensures Cleared(s.g, root.Keys, |errors|, batch)
    ensures errors == [] ==> deleted == |old(s.g).episodics| - |s.g.episodics| && deleted + notEmpty == |victims|
    ensures errors == [] && NoVictimEdge(root, old(s.g)) ==> Gone(old(s.g), s.g, root.Keys, deleted)
    ensures old(s.raised) <= s.raised && (errors == [] <==> s.raised == old(s.raised))
  {
    deleted, notEmpty, errors := 0, 0, [];
    ghost var a := s.g;
    var start := 0;
    NoneGone(root, a, victims, batch);
    while start < |victims|
      invariant Running(root, g0, floor, s, from) && old(s.history) <= s.history && s.undo == old(s.undo)
      invariant s.g == a.(episodics := s.g.episodics) && start <= |victims|
      invariant GoneSoFar(root, a, s.g, victims, start, deleted, |errors|, batch)
      invariant errors == [] ==> deleted + notEmpty == start
      invariant old(s.raised) <= s.raised && (errors == [] <==> s.raised == old(s.raised))
    {
      var end := if start + batch <= |victims| then start + batch else |victims|;
      var ok, found := DeleteNext(s, root, g0, floor, from, a, victims, start, end, deleted, |errors|, batch);
      if ok {
        deleted, notEmpty := deleted + found, notEmpty + (end - start) - found;
      } else {
        errors := errors + [NodeDelete];
      }
      start := end;
    }
    assert victims[..start] == victims;
  }

  lemma FoundBound(g: Graph, chunk: set<string>)
    ensures |g.SilentEpisodics(chunk)| <= |chunk|
  {
    assert chunk == g.SilentEpisodics(chunk) + (chunk - g.SilentEpisodics(chunk));
  }

  // ---------------------------------------------------------------------------------------------
  // The phase

  lemma NothingPlanned(root: Redirect, g: Graph)
    ensures Planned(root, g, NO_PLAN)
  {
  }

  method FormPlan(s: Session, root: Redirect) returns (p: Plan, stop: bool, errors: seq<Error>)
    requires s.Valid()
    modifies s`raised
    ensures s.Valid() && old(s.raised) <= s.raised && Planned(root, s.g, p)
    ensures !stop ==> AllRead(root, s.g, p.rows)
    ensures stop <==> MentionsRead in errors || NothingRead in errors
    ensures s.raised == old(s.raised) ==> (stop <==> VictimRows(root, s.g) == {})
    ensures errors == [] <==> s.raised == old(s.raised) && Readable(root, s.g)
    ensures errors == [] ==> Complete(root, s.g, p)
  {
    NothingPlanned(root, s.g);
    var rows, unread := ReadRows(s, root);
    if MentionsRead in unread || NothingRead in unread {
      return NO_PLAN, true, unread;
    }
    var held, unheld := ReadHeld(s, root);
    var unique, repeats := SplitRepeats(rows);
    var drop, dedupe, create := SortRows(root, held, unique);
    p := Plan(rows, unique, repeats, drop, dedupe, create, held);
    return p, false, unread + unheld;
  }

  /** The whole graph after an error-free run. */
  ghost predicate Done(root: Redirect, g0: Graph, p: Plan, g: Graph, log: seq<UndoRow>, c: Counters) {
    && Complete(root, g0, p) && Folded(root, g0, p, g)
    && g.episodics == g0.episodics - root.Keys
    && UndoComplete(root, g0, log)
    && c.nodesDeleted == |g0.episodics| - |g.episodics|
    && c.nodesDeleted + c.victimsNotEmpty == c.victims == |root|
  }

  lemma DeletionConcludes(root: Redirect, g0: Graph, p: Plan, a: Graph, g: Graph)
    requires Folded(root, g0, p, a) && g == a.(episodics := g.episodics)
    ensures Folded(root, g0, p, g)
  {
  }

  /** No victim is left that mentions nothing, and as many nodes are reported deleted as have gone. */
  ghost predicate Emptied(root: Redirect, g0: Graph, g: Graph, deleted: nat) {
    g.SilentEpisodics(root.Keys) == {} && deleted == |g0.episodics| - |g.episodics|
  }

  method Execute(s: Session, root: Redirect, p: Plan, merges: seq<Merge>, victims: seq<string>, batch: nat, writer: UndoWriter,
                 unread: seq<Error>)
    returns (c: Counters)
    requires s.Valid() && Flat(root) && Planned(root, s.g, p) && AllRead(root, s.g, p.rows)
    requires unread == [] ==> Complete(root, s.g, p)
    requires batch > 0 && Elements(victims) == root.Keys == RedirectOf(merges).Keys && |victims| == |root| > 0
    modifies s
    ensures s.Valid() && old(s.history) <= s.history && old(s.raised) <= s.raised && c.applied
    ensures SafeSince(root, old(s.g), Floor(root, old(s.g), p), s.history, |old(s.history)|)
    ensures c.errors == [] <==>
      unread == [] && s.raised == old(s.raised) && Rewirable(root, old(s.g)) && Undoable(merges, old(s.g).episodics, |root|, writer)
    ensures c.errors == [] ==> c.tally == p.Counts() && Done(root, old(s.g), p, s.g, s.undo, c)
    ensures c.merges == |merges| && c.victims == |root|
    ensures c.errors == [] ==> c.undoWritten == |WithNode(merges, old(s.g).episodics, |merges|)|
    ensures s.raised == old(s.raised) && Undoable(merges, old(s.g).episodics, |root|, writer) ==> Emptied(root, old(s.g), s.g, c.nodesDeleted)
  {
    ghost var g0, from := s.g, |s.history|;
    ghost var floor := Floor(root, g0, p);
    RemovalSubset(root, g0, p.Redundants());
    var tally, errors := Rewire(s, root, g0, from, p, unread);
    ghost var rewired := s.g;
    var written, errorsU := RecordUndo(s, root, g0, from, p, merges, |victims|, writer);
    if written < |victims| {
      return Counters(true, |merges|, |victims|, tally, 0, |victims|, written, errors + errorsU);
    }
    var deleted, notEmpty, errorsD := DeleteSilent(s, root, g0, floor, from, victims, batch);
    c := Counters(true, |merges|, |victims|, tally, deleted, notEmpty, written, errors + errorsU + errorsD);
    if c.errors == [] {
      DeletionConcludes(root, g0, p, rewired, s.g);
    }
  }

  /** Nothing in the graph or the caller's arguments keeps a run from ending without an error. */
  ghost predicate Smooth(root: Redirect, g: Graph, merges: seq<Merge>, apply: bool, writer: UndoWriter) {
    Readable(root, g) && (apply ==> Rewirable(root, g) && Undoable(merges, g.episodics, |root|, writer))
  }

  /** The phase once the merges are collapsed. */
  method Fold(s: Session, root: Redirect, merges: seq<Merge>, victims: seq<string>, apply: bool, batch: nat, writer: UndoWriter)
    returns (c: Counters, ghost p: Plan)
    requires s.Valid() && Flat(root) && batch > 0 && Elements(victims) == root.Keys == RedirectOf(merges).Keys && |victims| == |root| > 0
    modifies s
    ensures s.Valid() && old(s.history) <= s.history && old(s.raised) <= s.raised && Planned(root, old(s.g), p)
    ensures !apply ==> s.g == old(s.g) && s.undo == old(s.undo) && s.history == old(s.history)
    ensures SafeSince(root, old(s.g), Floor(root, old(s.g), p), s.history, |old(s.history)|)
    ensures c.errors == [] <==> s.raised == old(s.raised) && Smooth(root, old(s.g), merges, apply, writer)
    ensures c.errors == [] ==> TallyOf(root, old(s.g), c.tally) && (apply ==> Done(root, old(s.g), p, s.g, s.undo, c))
    ensures c.applied == apply && c.merges == |merges| && c.victims == |root|
    ensures apply && s.raised == old(s.raised) && VictimRows(root, old(s.g)) != {} && Undoable(merges, old(s.g).episodics, |root|, writer) ==>
      Emptied(root, old(s.g), s.g, c.nodesDeleted)
    ensures if !apply then c.nodesDeleted == c.victimsNotEmpty == c.undoWritten == 0
            else c.errors == [] ==> c.undoWritten == |WithNode(merges, old(s.g).episodics, |merges|)|
  {
    var formed, stop, errors := FormPlan(s, root);
    p := formed;
    if errors == [] {
      CountsAreTally(root, s.g, formed);
    }
    if stop {
      c := Counters(apply, |merges|, |victims|, Tally(0, 0, 0, 0, 0, 0), 0, 0, 0, errors);
    } else if !apply {
      c := Counters(false, |merges|, |victims|, formed.Counts(), 0, 0, 0, errors);
    } else {
      c := Execute(s, root, formed, merges, victims, batch, writer, errors);
    }
  }

  /**
   Folds the merges, or with `apply` off only counts. After every single statement every (survivor,
   target) pair that the plan's delete by uuid spares is there and none is new, and no node has gone
   whose undo row was not written and whose MENTIONS were not gone before. No error is reported exactly
   when nothing raised, the victims have edges and these their ends, and, for an applied run, their survivors
   exist and every victim gets an undo row that is kept; then the counters are those the graph
   determines, and an applied run leaves the graph folded. If nothing raised and undo rows are kept, the
   victims that mention nothing are deleted even if some row was skipped or not moved. `p` is the plan it formed.
   */
  method Apply(s: Session, merges: seq<Merge>, apply: bool, batch: nat, writer: UndoWriter) returns (c: Counters, ghost p: Plan)
    requires s.Valid() && batch > 0 && Acyclic(RedirectOf(merges))
    modifies s
    ensures s.Valid() && old(s.history) <= s.history && old(s.raised) <= s.raised && Planned(RootsOf(merges), old(s.g), p)
    ensures !apply || merges == [] ==> s.g == old(s.g) && s.undo == old(s.undo) && s.history == old(s.history)
    ensures SafeSince(RootsOf(merges), old(s.g), Floor(RootsOf(merges), old(s.g), p), s.history, |old(s.history)|)
    ensures merges == [] ==> c.errors == [] && c.tally == Tally(0, 0, 0, 0, 0, 0) && s.raised == old(s.raised)
    ensures c.applied == apply && c.merges == |merges| && c.victims == |RootsOf(merges)|
    ensures apply && merges != [] && s.raised == old(s.raised) && VictimRows(RootsOf(merges), old(s.g)) != {} &&
            Undoable(merges, old(s.g).episodics, |RootsOf(merges)|, writer) ==>
      Emptied(RootsOf(merges), old(s.g), s.g, c.nodesDeleted)
    ensures if !apply || merges == [] then c.nodesDeleted == c.victimsNotEmpty == c.undoWritten == 0
            else c.errors == [] ==> c.undoWritten == |WithNode(merges, old(s.g).episodics, |merges|)|
    ensures merges != [] ==>
      (c.errors == [] <==> s.raised == old(s.raised) && Smooth(RootsOf(merges), old(s.g), merges, apply, writer))
    ensures merges != [] && c.errors == [] ==> TallyOf(RootsOf(merges), old(s.g), c.tally)
    ensures apply && merges != [] && c.errors == [] ==> Done(RootsOf(merges), old(s.g), p, s.g, s.undo, c)
  {
    if merges == [] {
      return Counters(apply, 0, 0, Tally(0, 0, 0, 0, 0, 0), 0, 0, 0, []), NO_PLAN;
    }
    var redirect := CollectRedirect(merges);
    var root := RootMap(redirect);
    assert root == RootsOf(merges);
    var victims := KeysInSomeOrder(redirect);
    assert |root.Keys| == |redirect.Keys|;
    VictimHasSurvivor(merges, 0);
    var counters, formed := Fold(s, root, merges, victims, apply, batch, writer);
    c, p := counters, formed;
  }

  /** From a graph in which no victim row shares its uuid, no statement of a run loses a pair. */
  lemma UnsharedRunKeepsPairs(root: Redirect, g0: Graph, p: Plan, history: seq<Moment>, from: nat, i: nat)
    requires Flat(root) && Planned(root, g0, p) && Unshared(root, g0)
    requires SafeSince(root, g0, Floor(root, g0, p), history, from) && from <= i < |history|
    ensures SourcePairs(root, history[i].graph) == SourcePairs(root, g0)
  {
    RedundantsAreRedundant(root, g0, p);
    assert SafeStep(root, g0, Floor(root, g0, p), history, i);
  }
}
