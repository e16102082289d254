/** The entity fold: edges are moved statement by statement, emptied victims are deleted last. */
module ApplyPlan {
  import opened Collections
  import opened Bags
  import opened GraphStore
  import opened Folding
  import opened EntitySafety

  datatype Error = MentionsRead | MentionsSkip(uuid: string) | MentionsCreate(uuid: string) | MentionsMove(uuid: string)
                 | RelationsRead | SelfLoopDrop(uuid: string) | RelationsMove(uuid: string) | DedupeEdges | NodeDelete

  datatype Counters = Counters(
    applied: bool,
    nodesDeleted: nat,
    mentionsMoved: nat,
    relationsMoved: nat,
    selfLoopsDropped: nat,
    duplicateEdgesDropped: nat,
    errors: seq<Error>)

  /** What holds between any two statements of a run. */
  ghost predicate Running(root: Redirect, g0: Graph, s: Session, from: nat)
    reads s
  {
    s.Valid() && Flat(root) && g0.Sound() && SafeSince(root, g0, s.history, from)
  }

  // ---------------------------------------------------------------------------------------------
  // Phase A: MENTIONS

  method CreateMention(s: Session, m: Mention) returns (ok: bool, matched: nat)
    requires s.Valid()
    modifies s
    ensures s.Valid() && s.undo == old(s.undo) && s.history == old(s.history) + [Moment(s.g, s.undo)]
    ensures s.g == old(s.g).AddMention(m) || (!ok && s.g == old(s.g))
    ensures ok ==> matched == if m.src in s.g.episodics && m.dst in s.g.entities then 1 else 0
    ensures s.raised == old(s.raised) + if ok then 0 else 1
  {
    matched := if m.src in s.g.episodics && m.dst in s.g.entities then 1 else 0;
    ok := s.Send(s.g.AddMention(m));
  }

  lemma CreateIntact(root: Redirect, g0: Graph, g: Graph, row: Mention)
    requires g.Sound() && Flat(root) && Intact(root, g0, g) && row in g0.mentions.Values && row.dst in root
    ensures
      var a := g.AddMention(Redirected(root, row));
      a.Sound() && Intact(root, g0, a)
  {
    var i :| i in g0.mentions && g0.mentions[i] == row;
    assert (row.src, To(root, row.dst)) in Pairs(root, g0);
    AddMentionKeepsPairs(root, g, Redirected(root, row));
    if row.src in g.episodics && To(root, row.dst) in g.entities {
      CreateKeeps(root, g0.entities, g0.mentions, g, row);
    }
  }

  /** The CREATE of the row's move matches, and the row is not skipped. */
  predicate Matches(root: Redirect, g: Graph, row: Mention) {
    row.src in g.episodics && Moves(root, g.entities, row)
  }

  lemma MoveMentionIntact(root: Redirect, g0: Graph, g: Graph, row: Mention)
    requires g.Sound() && Flat(root) && Intact(root, g0, g) && row in g0.mentions.Values && Matches(root, g, row)
    ensures MovedMention(root, g, row).Sound() && Intact(root, g0, MovedMention(root, g, row))
  {
    CreateIntact(root, g0, g, row);
    MoveKeeps(root, g0.entities, g0.mentions, g, row);
    RemoveMentionKeepsPairs(root, g.AddMention(Redirected(root, row)), row.src, row.dst, row.uuid, g.nextId);
  }

  /** What a row is reported for when no statement raises. */
  function Complaint(root: Redirect, g: Graph, row: Mention): seq<Error> {
    if row.src == "" || row.dst == "" then [MentionsSkip(row.uuid)]
    else if !Matches(root, g, row) then [MentionsCreate(row.uuid)]
    else []
  }

  /** Moves one row: CREATE first, DELETE only when the CREATE matched both end points. */
  method MoveMention(s: Session, root: Redirect, ghost g0: Graph, ghost from: nat, row: Mention) returns (errors: seq<Error>)
    requires Running(root, g0, s, from) && row in g0.mentions.Values && row.dst in root && row.src != "" && row.dst != ""
    modifies s
    ensures Running(root, g0, s, from) && old(s.history) <= s.history
    ensures s.g.entities == old(s.g).entities && s.g.relations == old(s.g).relations
    ensures old(s.raised) <= s.raised
    ensures errors == if s.raised > old(s.raised) then [MentionsMove(row.uuid)] else Complaint(root, old(s.g), row)
    ensures s.raised == old(s.raised) ==> s.g == if Matches(root, old(s.g), row) then MovedMention(root, old(s.g), row) else old(s.g)
  {
    NowIntact(root, g0, s.history, from);
    CreateIntact(root, g0, s.g, row);
    ghost var before := s.g;
    EdgeStatementSafe(root, g0, s.history, from, Moment(s.g, s.undo));
    EdgeStatementSafe(root, g0, s.history, from, Moment(s.g.AddMention(Redirected(root, row)), s.undo));
    var ok, matched := CreateMention(s, Redirected(root, row));
    if !ok {
      return [MentionsMove(row.uuid)];
    }
    if matched == 0 {
      return [MentionsCreate(row.uuid)];
    }
    MoveMentionIntact(root, g0, before, row);
    NowIntact(root, g0, s.history, from);
    EdgeStatementSafe(root, g0, s.history, from, Moment(s.g, s.undo));
    EdgeStatementSafe(root, g0, s.history, from, Moment(MovedMention(root, before, row), s.undo));
    ok := s.Send(s.g.RemoveMention(row.src, row.dst, row.uuid));
    if !ok {
      return [MentionsMove(row.uuid)];
    }
    return [];
  }

  function IntoVictim(root: Redirect): Mention -> bool {
    (m: Mention) => m.dst in root
  }

  /** What handling the rows in turn makes of the graph when nothing raises. */
  function AfterMentions(root: Redirect, g: Graph, rows: seq<Mention>): Graph {
    if rows == [] then g
    else
      var h, row := AfterMentions(root, g, rows[..|rows| - 1]), rows[|rows| - 1];
      if Matches(root, h, row) then MovedMention(root, h, row) else h
  }

  lemma {:induction false} AfterMentionsShape(root: Redirect, g: Graph, rows: seq<Mention>)
    requires g.Sound() && Flat(root)
    ensures
      var h := AfterMentions(root, g, rows);
      h.Sound() && h.episodics == g.episodics && h.entities == g.entities && h.relations == g.relations
  {
    if rows != [] {
      AfterMentionsShape(root, g, rows[..|rows| - 1]);
    }
  }

  ghost predicate AllMatch(root: Redirect, g: Graph, rows: seq<Mention>) {
    forall r | r in rows :: Matches(root, g, r)
  }

  lemma NextMention(root: Redirect, g: Graph, rows: seq<Mention>, i: nat)
    requires g.Sound() && Flat(root) && i < |rows|
    ensures
      var h := AfterMentions(root, g, rows[..i]);
      && Matches(root, h, rows[i]) == Matches(root, g, rows[i]) && Complaint(root, h, rows[i]) == Complaint(root, g, rows[i])
      && AfterMentions(root, g, rows[..i + 1]) == if Matches(root, g, rows[i]) then MovedMention(root, h, rows[i]) else h
  {
    assert rows[..i + 1][..i] == rows[..i];
    AfterMentionsShape(root, g, rows[..i]);
  }

  // What is left when every row was moved

  function VictimEdges(root: Redirect, edges: map<nat, Mention>): map<nat, Mention> {
    map k | k in edges && edges[k].dst in root :: edges[k]
  }

  function OtherEdges(root: Redirect, edges: map<nat, Mention>): map<nat, Mention> {
    map k | k in edges && edges[k].dst !in root :: edges[k]
  }

  /** Edge by edge, whatever the graph: the edges into no victim, and one redirected copy per row. */
  ghost predicate MentionsFolded(root: Redirect, m0: map<nat, Mention>, rows: seq<Mention>, m: map<nat, Mention>) {
    && (forall k | k in m :: m[k].dst !in root)
    && Bag(m) == Bag(OtherEdges(root, m0)) + multiset(MapAll(RedirectFn(root), rows))
  }

  /** The same while the rows of `rest` are still to be moved. */
  ghost predicate Pending(root: Redirect, m0: map<nat, Mention>, m: map<nat, Mention>, done: seq<Mention>, rest: seq<Mention>) {
    && (forall k | k in m && m[k].dst in root :: m[k] in rest)
    && Bag(OtherEdges(root, m)) == Bag(OtherEdges(root, m0)) + multiset(MapAll(RedirectFn(root), done))
  }

  lemma MovedOthers(root: Redirect, g: Graph, row: Mention)
    requires g.Sound() && Flat(root) && Matches(root, g, row)
    ensures OtherEdges(root, MovedMention(root, g, row).mentions) == OtherEdges(root, g.mentions)[g.nextId := Redirected(root, row)]
  {
  }

  lemma MovedVictims(root: Redirect, g: Graph, row: Mention, k: nat)
    requires Flat(root) && row.dst in root
    requires k in MovedMention(root, g, row).mentions && MovedMention(root, g, row).mentions[k].dst in root
    ensures k in g.mentions && g.mentions[k] == MovedMention(root, g, row).mentions[k] != row
  {
  }

  lemma OtherBagGrows(root: Redirect, g: Graph, row: Mention)
    requires g.Sound() && Flat(root) && Matches(root, g, row)
    ensures Bag(OtherEdges(root, MovedMention(root, g, row).mentions)) == Bag(OtherEdges(root, g.mentions)) + multiset{Redirected(root, row)}
  {
    MovedOthers(root, g, row);
    BagAdd(OtherEdges(root, g.mentions), g.nextId, Redirected(root, row));
  }

  lemma VictimsLeft(root: Redirect, g: Graph, row: Mention, rest: seq<Mention>)
    requires Flat(root) && row.dst in root
    requires forall k | k in g.mentions && g.mentions[k].dst in root :: g.mentions[k] in [row] + rest
    ensures
      var m := MovedMention(root, g, row).mentions;
      forall k | k in m && m[k].dst in root :: m[k] in rest
  {
    var m := MovedMention(root, g, row).mentions;
    forall k | k in m && m[k].dst in root
      ensures m[k] in rest
    {
      MovedVictims(root, g, row, k);
    }
  }

  lemma RowMoved(root: Redirect, m0: map<nat, Mention>, g: Graph, done: seq<Mention>, row: Mention, rest: seq<Mention>)
    requires g.Sound() && Flat(root) && Matches(root, g, row) && Pending(root, m0, g.mentions, done, [row] + rest)
    ensures Pending(root, m0, MovedMention(root, g, row).mentions, done + [row], rest)
  {
    OtherBagGrows(root, g, row);
    MapAllGrows(RedirectFn(root), done, row);
    VictimsLeft(root, g, row, rest);
  }

  lemma NothingPending(root: Redirect, m0: map<nat, Mention>, rows: seq<Mention>)
    requires VictimEdges(root, m0).Values <= Elements(rows)
    ensures Pending(root, m0, m0, [], rows)
  {
    assert MapAll(RedirectFn(root), []) == [];
    forall k | k in m0 && m0[k].dst in root
      ensures m0[k] in rows
    {
      assert VictimEdges(root, m0)[k] in VictimEdges(root, m0).Values;
    }
  }

  lemma NextPending(root: Redirect, g: Graph, rows: seq<Mention>, i: nat)
    requires g.Sound() && Flat(root) && i < |rows| && AllMatch(root, g, rows)
    requires Pending(root, g.mentions, AfterMentions(root, g, rows[..i]).mentions, rows[..i], rows[i..])
    ensures Pending(root, g.mentions, AfterMentions(root, g, rows[..i + 1]).mentions, rows[..i + 1], rows[i + 1..])
  {
    assert rows[i..] == [rows[i]] + rows[i + 1..] && rows[..i + 1] == rows[..i] + [rows[i]] && rows[i] in rows;
    AfterMentionsShape(root, g, rows[..i]);
    NextMention(root, g, rows, i);
    RowMoved(root, g.mentions, AfterMentions(root, g, rows[..i]), rows[..i], rows[i], rows[i + 1..]);
  }

  lemma {:induction false} RowsMoved(root: Redirect, g: Graph, rows: seq<Mention>, i: nat)
    requires g.Sound() && Flat(root) && i <= |rows| && AllMatch(root, g, rows) && VictimEdges(root, g.mentions).Values <= Elements(rows)
    ensures Pending(root, g.mentions, AfterMentions(root, g, rows[..i]).mentions, rows[..i], rows[i..])
  {
    if i == 0 {
      assert rows[..0] == [] && rows[0..] == rows;
      NothingPending(root, g.mentions, rows);
    } else {
      RowsMoved(root, g, rows, i - 1);
      NextPending(root, g, rows, i - 1);
    }
  }

  /** The rows of a read of the victims' edges. */
  ghost predicate VictimRowsOf(root: Redirect, m0: map<nat, Mention>, rows: seq<Mention>) {
    Projects(m0, rows, IntoVictim(root))
  }

  lemma ReadRows(root: Redirect, m0: map<nat, Mention>, rows: seq<Mention>)
    requires VictimRowsOf(root, m0, rows)
    ensures forall r | r in rows :: r in m0.Values && r.dst in root
    ensures VictimEdges(root, m0).Values <= Elements(rows) && multiset(rows) <= Bag(VictimEdges(root, m0))
  {
    forall r | r in rows
      ensures r in m0.Values && r.dst in root
    {
      assert IntoVictim(root)(r);
    }
    forall k | k in VictimEdges(root, m0)
      ensures VictimEdges(root, m0)[k] in rows
    {
      assert IntoVictim(root)(m0[k]);
    }
    forall r
      ensures multiset(rows)[r] <= Bag(VictimEdges(root, m0))[r]
    {
      if r in rows {
        assert Keys(VictimEdges(root, m0), r) == Keys(m0, r);
        CountOf(VictimEdges(root, m0), r);
      }
    }
  }

  lemma NonePending(root: Redirect, m0: map<nat, Mention>, rows: seq<Mention>, m: map<nat, Mention>)
    requires Pending(root, m0, m, rows, [])
    ensures MentionsFolded(root, m0, rows, m)
  {
    assert OtherEdges(root, m) == m;
  }

  lemma AllMoved(root: Redirect, g: Graph, rows: seq<Mention>)
    requires g.Sound() && Flat(root) && VictimRowsOf(root, g.mentions, rows) && AllMatch(root, g, rows)
    ensures MentionsFolded(root, g.mentions, rows, AfterMentions(root, g, rows).mentions)
  {
    ReadRows(root, g.mentions, rows);
    assert rows[..|rows|] == rows && rows[|rows|..] == [];
    RowsMoved(root, g, rows, |rows|);
    NonePending(root, g.mentions, rows, AfterMentions(root, g, rows).mentions);
  }

  // ---------------------------------------------------------------------------------------------
  // The phase itself

  /** The run passed through the graph. */
  ghost predicate Reached(history: seq<Moment>, from: nat, g: Graph) {
    exists k :: 0 < from <= k + 1 <= |history| && history[k].graph == g
  }

  lemma NowReached(history: seq<Moment>, from: nat)
    requires 0 < from <= |history|
    ensures Reached(history, from, history[|history| - 1].graph)
  {
    assert history[|history| - 1].graph == history[|history| - 1].graph;
  }

  lemma StillReached(history: seq<Moment>, longer: seq<Moment>, from: nat, g: Graph)
    requires Reached(history, from, g) && history <= longer
    ensures Reached(longer, from, g)
  {
    var k :| 0 < from <= k + 1 <= |history| && history[k].graph == g;
    assert longer[k].graph == g;
  }

  ghost predicate MentionsPassed(root: Redirect, g: Graph, rows: seq<Mention>, n: nat, history: seq<Moment>, from: nat) {
    forall i | 0 <= i <= n <= |rows| :: Reached(history, from, AfterMentions(root, g, rows[..i]))
  }

  lemma PassedOne(root: Redirect, g: Graph, rows: seq<Mention>, n: nat, history: seq<Moment>, longer: seq<Moment>, from: nat)
    requires MentionsPassed(root, g, rows, n, history, from) && n < |rows| && history <= longer && 0 < from <= |longer|
    requires longer[|longer| - 1].graph == AfterMentions(root, g, rows[..n + 1])
    ensures MentionsPassed(root, g, rows, n + 1, longer, from)
  {
    NowReached(longer, from);
    forall i | 0 <= i <= n
      ensures Reached(longer, from, AfterMentions(root, g, rows[..i]))
    {
      StillReached(history, longer, from, AfterMentions(root, g, rows[..i]));
    }
  }

  /** The state of the loop before row `i`, as long as nothing raised. */
  ghost predicate MovedSoFar(s: Session, root: Redirect, g0: Graph, from: nat, rows: seq<Mention>, i: nat)
    requires i <= |rows|
    reads s
  {
    s.g == AfterMentions(root, g0, rows[..i]) && MentionsPassed(root, g0, rows, i, s.history, from)
  }

  lemma NothingMoved(s: Session, root: Redirect, g0: Graph, from: nat, rows: seq<Mention>)
    requires Running(root, g0, s, from) && s.g == g0
    ensures MovedSoFar(s, root, g0, from, rows, 0)
  {
    NowReached(s.history, from);
    assert rows[..0] == [];
  }

  /** One row of the loop: skipped if it lacks an end, else moved. */
  method HandleMention(s: Session, root: Redirect, ghost g0: Graph, ghost from: nat, rows: seq<Mention>, i: nat) returns (errors: seq<Error>)
    requires Running(root, g0, s, from) && i < |rows| && rows[i] in g0.mentions.Values && rows[i].dst in root
    modifies s
    ensures Running(root, g0, s, from) && old(s.history) <= s.history
    ensures s.g.entities == old(s.g).entities && s.g.relations == old(s.g).relations
    ensures old(s.raised) <= s.raised && |errors| <= 1 && (s.raised > old(s.raised) ==> errors != [])
    ensures s.raised == old(s.raised) && old(MovedSoFar(s, root, g0, from, rows, i)) ==>
      MovedSoFar(s, root, g0, from, rows, i + 1) && errors == Complaint(root, g0, rows[i])
  {
    var row := rows[i];
    ghost var history := s.history;
    if old(MovedSoFar(s, root, g0, from, rows, i)) {
      NextMention(root, g0, rows, i);
    }
    if row.src == "" || row.dst == "" {
      errors := [MentionsSkip(row.uuid)];
    } else {
      errors := MoveMention(s, root, g0, from, row);
    }
    if s.raised == old(s.raised) && old(MovedSoFar(s, root, g0, from, rows, i)) {
      PassedOne(root, g0, rows, i, history, s.history, from);
    }
  }

  /** What the rows are reported for when no statement raises. */
  function Complaints(root: Redirect, g: Graph, rows: seq<Mention>): seq<Error> {
    if rows == [] then [] else Complaints(root, g, rows[..|rows| - 1]) + Complaint(root, g, rows[|rows| - 1])
  }

  lemma NextComplaint(root: Redirect, g: Graph, rows: seq<Mention>, i: nat)
    requires i < |rows|
    ensures Complaints(root, g, rows[..i + 1]) == Complaints(root, g, rows[..i]) + Complaint(root, g, rows[i])
  {
    assert rows[..i + 1][..i] == rows[..i];
  }

  lemma OneMoreMatch(root: Redirect, g: Graph, init: seq<Mention>, row: Mention)
    ensures AllMatch(root, g, init + [row]) <==> AllMatch(root, g, init) && Matches(root, g, row)
  {
    assert forall r :: r in init + [row] <==> r in init || r == row;
  }

  lemma BothEmpty(a: seq<Error>, b: seq<Error>)
    ensures a + b == [] <==> a == [] && b == []
  {
    assert |a + b| == |a| + |b|;
  }

  lemma {:induction false} NoComplaints(root: Redirect, g: Graph, rows: seq<Mention>)
    ensures Complaints(root, g, rows) == [] <==> AllMatch(root, g, rows)
  {
    if rows != [] {
      var init, row := rows[..|rows| - 1], rows[|rows| - 1];
      NoComplaints(root, g, init);
      BothEmpty(Complaints(root, g, init), Complaint(root, g, row));
      OneMoreMatch(root, g, init, row);
      assert rows == init + [row];
    }
  }

  /** Every edge of a victim has both ends, and its new end is there. */
  ghost predicate Movable(root: Redirect, g: Graph) {
    forall k | k in g.mentions && g.mentions[k].dst in root ::
      g.mentions[k].src != "" && g.mentions[k].dst != "" && root[g.mentions[k].dst] in g.entities
  }

  /** So the rows of a read all match exactly when every edge of a victim is movable. */
  lemma RowsMatchIff(root: Redirect, g: Graph, rows: seq<Mention>)
    requires g.Sound() && VictimRowsOf(root, g.mentions, rows)
    ensures AllMatch(root, g, rows) <==> Movable(root, g)
  {
    forall r | r in rows
      ensures exists k :: k in g.mentions && g.mentions[k] == r && r.dst in root
    {
      assert IntoVictim(root)(r);
    }
    forall k | k in g.mentions && g.mentions[k].dst in root
      ensures g.mentions[k] in rows
    {
      assert IntoVictim(root)(g.mentions[k]);
    }
  }

  /** How the loop stands before row `i`, whether or not something raised since `r0` was counted. */
  ghost predicate AtRow(s: Session, root: Redirect, g0: Graph, from: nat, rows: seq<Mention>, i: nat, r0: nat, errors: seq<Error>)
    requires i <= |rows|
    reads s
  {
    && r0 <= s.raised && (s.raised > r0 ==> errors != [])
    && (s.raised == r0 ==> MovedSoFar(s, root, g0, from, rows, i) && errors == Complaints(root, g0, rows[..i]))
  }

  method NextAtRow(s: Session, root: Redirect, ghost g0: Graph, ghost from: nat, rows: seq<Mention>, i: nat,
                   ghost r0: nat, ghost before: seq<Error>)
    returns (failed: seq<Error>)
    requires Running(root, g0, s, from) && i < |rows| && rows[i] in g0.mentions.Values && rows[i].dst in root
    requires AtRow(s, root, g0, from, rows, i, r0, before)
    modifies s
    ensures Running(root, g0, s, from) && old(s.history) <= s.history && |failed| <= 1
    ensures s.g.entities == old(s.g).entities && s.g.relations == old(s.g).relations
    ensures AtRow(s, root, g0, from, rows, i + 1, r0, before + failed)
  {
    NextComplaint(root, g0, rows, i);
    failed := HandleMention(s, root, g0, from, rows, i);
  }

  /** The read rows in turn. */
  method MoveRead(s: Session, root: Redirect, ghost g0: Graph, ghost from: nat, rows: seq<Mention>)
    returns (moved: nat, errors: seq<Error>)
    requires Running(root, g0, s, from) && s.g == g0 && forall r | r in rows :: r in g0.mentions.Values && r.dst in root
    modifies s
    ensures Running(root, g0, s, from) && old(s.history) <= s.history
    ensures s.g.entities == g0.entities && s.g.relations == g0.relations && moved + |errors| == |rows|
    ensures AtRow(s, root, g0, from, rows, |rows|, old(s.raised), errors)
  {
    moved, errors := 0, [];
    ghost var r0 := s.raised;
    NothingMoved(s, root, g0, from, rows);
    for i := 0 to |rows|
      invariant Running(root, g0, s, from) && old(s.history) <= s.history
      invariant s.g.entities == g0.entities && s.g.relations == g0.relations && moved + |errors| == i
      invariant AtRow(s, root, g0, from, rows, i, r0, errors)
    {
      assert rows[i] in rows;
      var failed := NextAtRow(s, root, g0, from, rows, i, r0, errors);
      moved := if failed == [] then moved + 1 else moved;
      errors := errors + failed;
    }
  }

  /** What a phase in which nothing raised has read, reported and left. */
  ghost predicate MentionsDone(root: Redirect, g0: Graph, rows: seq<Mention>, g: Graph, history: seq<Moment>, from: nat, errors: seq<Error>) {
    && VictimRowsOf(root, g0.mentions, rows) && g == AfterMentions(root, g0, rows)
    && MentionsPassed(root, g0, rows, |rows|, history, from) && errors == Complaints(root, g0, rows)
  }

  lemma EveryRowMet(s: Session, root: Redirect, g0: Graph, from: nat, rows: seq<Mention>, r0: nat, errors: seq<Error>)
    requires g0.Sound() && VictimRowsOf(root, g0.mentions, rows) && AtRow(s, root, g0, from, rows, |rows|, r0, errors)
    ensures s.raised == r0 ==> MentionsDone(root, g0, rows, s.g, s.history, from, errors)
    ensures errors == [] <==> s.raised == r0 && Movable(root, g0)
  {
    assert rows[..|rows|] == rows;
    NoComplaints(root, g0, rows);
    RowsMatchIff(root, g0, rows);
  }

  method MoveMentions(s: Session, root: Redirect, ghost g0: Graph, ghost from: nat)
    returns (moved: nat, errors: seq<Error>, ghost read: seq<Mention>)
    requires Running(root, g0, s, from) && s.g == g0
    modifies s
    ensures Running(root, g0, s, from) && old(s.history) <= s.history
    ensures s.g.entities == g0.entities && s.g.relations == g0.relations
    ensures old(s.raised) <= s.raised && (errors == [] <==> s.raised == old(s.raised) && Movable(root, g0))
    ensures s.raised == old(s.raised) ==> MentionsDone(root, g0, read, s.g, s.history, from, errors)
    ensures moved + |errors| == |read| || (errors == [MentionsRead] && s.raised > old(s.raised))
  {
    var ok, rows := s.ReadMentions(IntoVictim(root));
    if !ok {
      return 0, [MentionsRead], [];
    }
    read := rows;
    ReadRows(root, g0.mentions, rows);
    moved, errors := MoveRead(s, root, g0, from, rows);
    EveryRowMet(s, root, g0, from, rows, old(s.raised), errors);
  }

  // ---------------------------------------------------------------------------------------------
  // Phase B: RELATES_TO

  function IsTouched(root: Redirect): Relation -> bool {
    (r: Relation) => Touched(root, r)
  }

  /** A row of the relations read at the start, which `g0` holds and which touches a victim. */
  ghost predicate TouchedRow(root: Redirect, g0: Graph, row: Relation) {
    row in g0.relations.Values && Touched(root, row)
  }

  function Dropped(g: Graph, row: Relation): Graph {
    g.RemoveRelation(row.src, row.dst, row.uuid)
  }

  function Moved(root: Redirect, g: Graph, row: Relation): Graph {
    Dropped(g.AddRelation(Rerouted(root, row)), row)
  }

  function Handled(root: Redirect, g: Graph, row: Relation): Graph {
    if FoldsAway(root, row) then Dropped(g, row) else Moved(root, g, row)
  }

  lemma DroppedRelations(g: Graph, row: Relation)
    ensures Dropped(g, row) == g.(relations := WithoutEdge(g.relations, row))
  {
  }

  ghost predicate Guarded(root: Redirect, g0: Graph, g: Graph) {
    RelationsGuarded(root, g0.entities, g0.relations, g.relations)
  }

  lemma DropIntact(root: Redirect, g0: Graph, g: Graph, row: Relation)
    requires g.Sound() && Flat(root) && Intact(root, g0, g) && Guarded(root, g0, g) && TouchedRow(root, g0, row)
    requires Counts(root, g0.entities, row) ==> Rerouted(root, row) in g.relations.Values
    ensures Dropped(g, row).Sound() && Intact(root, g0, Dropped(g, row)) && Guarded(root, g0, Dropped(g, row))
  {
    DroppedRelations(g, row);
    DeleteKeeps(root, g0.entities, g0.relations, g.relations, row);
    GuardedIsKept(root, g0.entities, g0.relations, WithoutEdge(g.relations, row));
    assert Pairs(root, Dropped(g, row)) == Pairs(root, g);
  }

  lemma CreateRelationIntact(root: Redirect, g0: Graph, g: Graph, row: Relation)
    requires g.Sound() && Flat(root) && Intact(root, g0, g) && Guarded(root, g0, g) && TouchedRow(root, g0, row)
    requires !FoldsAway(root, row) && g.entities == g0.entities
    ensures
      var a := g.AddRelation(Rerouted(root, row));
      && a.Sound() && Intact(root, g0, a) && Guarded(root, g0, a)
      && (Counts(root, g0.entities, row) ==> Rerouted(root, row) in a.relations.Values)
  {
    var a := g.AddRelation(Rerouted(root, row));
    if Lands(root, g.entities, row) {
      RerouteKeeps(root, g0.entities, g0.relations, g.relations, g.nextId, row);
      GuardedIsKept(root, g0.entities, g0.relations, a.relations);
      assert a.relations[g.nextId] == Rerouted(root, row);
    }
    assert Pairs(root, a) == Pairs(root, g);
  }

  /** Sends a statement that only changes relations and leaves the image of the edges intact. */
  method SendRelations(s: Session, root: Redirect, ghost g0: Graph, ghost from: nat, next: Graph) returns (ok: bool)
    requires Running(root, g0, s, from) && next.Sound() && Intact(root, g0, next)
    requires next.entities == s.g.entities && next.episodics == s.g.episodics && next.mentions == s.g.mentions
    modifies s
    ensures Running(root, g0, s, from) && old(s.history) <= s.history
    ensures s.g == next || (!ok && s.g == old(s.g))
    ensures s.raised == old(s.raised) + if ok then 0 else 1
  {
    NowIntact(root, g0, s.history, from);
    EdgeStatementSafe(root, g0, s.history, from, Moment(s.g, s.undo));
    EdgeStatementSafe(root, g0, s.history, from, Moment(next, s.undo));
    ok := s.Send(next);
  }

  /** Moves or drops one row. The move's CREATE is not checked for having matched. */
  method HandleRow(s: Session, root: Redirect, ghost g0: Graph, ghost from: nat, row: Relation) returns (errors: seq<Error>)
    requires Running(root, g0, s, from) && Guarded(root, g0, s.g) && TouchedRow(root, g0, row) && s.g.entities == g0.entities
    modifies s
    ensures Running(root, g0, s, from) && Guarded(root, g0, s.g) && old(s.history) <= s.history
    ensures s.g.mentions == old(s.g).mentions && s.g.entities == old(s.g).entities
    ensures old(s.raised) <= s.raised && |errors| <= 1 && (errors == [] <==> s.raised == old(s.raised))
    ensures errors == [] ==> s.g == Handled(root, old(s.g), row)
  {
    NowIntact(root, g0, s.history, from);
    if FoldsAway(root, row) {
      DropIntact(root, g0, s.g, row);
      var ok := SendRelations(s, root, g0, from, Dropped(s.g, row));
      return if ok then [] else [SelfLoopDrop(row.uuid)];
    }
    CreateRelationIntact(root, g0, s.g, row);
    var ok := SendRelations(s, root, g0, from, s.g.AddRelation(Rerouted(root, row)));
    if !ok {
      return [RelationsMove(row.uuid)];
    }
    DropIntact(root, g0, s.g, row);
    ok := SendRelations(s, root, g0, from, Dropped(s.g, row));
    return if ok then [] else [RelationsMove(row.uuid)];
  }

  /** What handling the rows in turn makes of the graph when nothing raises. */
  function AfterRelations(root: Redirect, g: Graph, rows: seq<Relation>): Graph {
    if rows == [] then g else Handled(root, AfterRelations(root, g, rows[..|rows| - 1]), rows[|rows| - 1])
  }

  lemma NextHandled(root: Redirect, g: Graph, rows: seq<Relation>, i: nat)
    requires i < |rows|
    ensures AfterRelations(root, g, rows[..i + 1]) == Handled(root, AfterRelations(root, g, rows[..i]), rows[i])
  {
    assert rows[..i + 1][..i] == rows[..i];
  }

  lemma HandledShape(root: Redirect, g: Graph, row: Relation)
    requires g.Sound()
    ensures
      var h := Handled(root, g, row);
      h.Sound() && h.episodics == g.episodics && h.entities == g.entities && h.mentions == g.mentions
  {
  }

  lemma {:induction false} AfterRelationsShape(root: Redirect, g: Graph, rows: seq<Relation>)
    requires g.Sound()
    ensures
      var h := AfterRelations(root, g, rows);
      h.Sound() && h.episodics == g.episodics && h.entities == g.entities && h.mentions == g.mentions
  {
    if rows != [] {
      AfterRelationsShape(root, g, rows[..|rows| - 1]);
      HandledShape(root, AfterRelations(root, g, rows[..|rows| - 1]), rows[|rows| - 1]);
    }
  }

  ghost predicate RelationsPassed(root: Redirect, g: Graph, rows: seq<Relation>, n: nat, history: seq<Moment>, from: nat) {
    forall i | 0 <= i <= n <= |rows| :: Reached(history, from, AfterRelations(root, g, rows[..i]))
  }

  lemma PassedOneRelation(root: Redirect, g: Graph, rows: seq<Relation>, n: nat, history: seq<Moment>, longer: seq<Moment>, from: nat)
    requires RelationsPassed(root, g, rows, n, history, from) && n < |rows| && history <= longer && 0 < from <= |longer|
    requires longer[|longer| - 1].graph == AfterRelations(root, g, rows[..n + 1])
    ensures RelationsPassed(root, g, rows, n + 1, longer, from)
  {
    NowReached(longer, from);
    forall i | 0 <= i <= n
      ensures Reached(longer, from, AfterRelations(root, g, rows[..i]))
    {
      StillReached(history, longer, from, AfterRelations(root, g, rows[..i]));
    }
  }

  // What an error-free phase has done after some of its rows

  ghost function Untouched(root: Redirect, edges: map<nat, Relation>): set<(string, string, string)> {
    set k | k in edges && !Touched(root, edges[k]) :: Triple(root, edges[k])
  }

  ghost function LandedRows(root: Redirect, nodes: set<string>, rows: seq<Relation>): set<(string, string, string)> {
    set r | r in rows && !FoldsAway(root, r) && Lands(root, nodes, r) :: Triple(root, r)
  }

  ghost predicate TouchedIn(root: Redirect, edges: map<nat, Relation>, rows: seq<Relation>) {
    forall k | k in edges && Touched(root, edges[k]) :: edges[k] in rows
  }

  ghost predicate Progress(root: Redirect, g0: Graph, g: Graph, done: seq<Relation>, rest: seq<Relation>) {
    && TouchedIn(root, g.relations, rest)
    && Untouched(root, g.relations) == Untouched(root, g0.relations) + LandedRows(root, g0.entities, done)
  }

  lemma HandledTouched(root: Redirect, g: Graph, row: Relation, rest: seq<Relation>)
    requires g.Sound() && Flat(root) && Touched(root, row) && TouchedIn(root, g.relations, [row] + rest)
    ensures TouchedIn(root, Handled(root, g, row).relations, rest)
  {
    var h := Handled(root, g, row);
    if !FoldsAway(root, row) {
      RerouteLands(root, row);
    }
    forall k | k in h.relations && Touched(root, h.relations[k])
      ensures h.relations[k] in rest
    {
      assert k in g.relations && g.relations[k] == h.relations[k] && h.relations[k] in [row] + rest;
    }
  }

  lemma LandedRowsGrow(root: Redirect, nodes: set<string>, done: seq<Relation>, row: Relation)
    ensures LandedRows(root, nodes, done + [row]) ==
      LandedRows(root, nodes, done) + if !FoldsAway(root, row) && Lands(root, nodes, row) then {Triple(root, row)} else {}
  {
    assert forall r :: r in done + [row] <==> r in done || r == row;
  }

  lemma RowHandled(root: Redirect, g0: Graph, g: Graph, done: seq<Relation>, row: Relation, rest: seq<Relation>)
    requires g.Sound() && Flat(root) && Touched(root, row) && g.entities == g0.entities
    requires Progress(root, g0, g, done, [row] + rest)
    ensures Progress(root, g0, Handled(root, g, row), done + [row], rest)
  {
    HandledTouched(root, g, row, rest);
    HandledUntouched(root, g, row);
    LandedRowsGrow(root, g0.entities, done, row);
  }

  lemma HandledUntouched(root: Redirect, g: Graph, row: Relation)
    requires g.Sound() && Flat(root) && Touched(root, row)
    ensures Untouched(root, Handled(root, g, row).relations) ==
      Untouched(root, g.relations) + if !FoldsAway(root, row) && Lands(root, g.entities, row) then {Triple(root, row)} else {}
  {
    var h := Handled(root, g, row);
    if !FoldsAway(root, row) {
      RerouteLands(root, row);
    }
    forall t | t in Untouched(root, g.relations)
      ensures t in Untouched(root, h.relations)
    {
      var k :| k in g.relations && !Touched(root, g.relations[k]) && Triple(root, g.relations[k]) == t;
      assert h.relations[k] == g.relations[k];
    }
    if !FoldsAway(root, row) && Lands(root, g.entities, row) {
      assert h.relations[g.nextId] == Rerouted(root, row);
    }
  }

  lemma AllHandled(root: Redirect, g0: Graph, g: Graph, rows: seq<Relation>)
    requires Progress(root, g0, g, rows, []) && Projects(g0.relations, rows, IsTouched(root))
    ensures TouchedIn(root, g.relations, []) && Untouched(root, g.relations) == Landed(root, g0.entities, g0.relations)
  {
    forall t
      ensures t in Landed(root, g0.entities, g0.relations) <==> t in Untouched(root, g0.relations) + LandedRows(root, g0.entities, rows)
    {
      if t in Landed(root, g0.entities, g0.relations) {
        var k :| k in g0.relations && Counts(root, g0.entities, g0.relations[k]) && t == Triple(root, g0.relations[k]);
        assert Touched(root, g0.relations[k]) ==> IsTouched(root)(g0.relations[k]);
      }
      if t in LandedRows(root, g0.entities, rows) {
        var r :| r in rows && !FoldsAway(root, r) && Lands(root, g0.entities, r) && t == Triple(root, r);
        var k :| k in g0.relations && g0.relations[k] == r;
        InLanded(root, g0.entities, g0.relations, k);
      }
    }
  }

  // Counting, when no DELETE takes two edges

  ghost predicate OnceRelations(root: Redirect, edges: map<nat, Relation>) {
    forall j, k | j in edges && k in edges && Touched(root, edges[j]) && SameEdge(edges[j], edges[k]) :: j == k
  }

  datatype Fate = FoldedAway | Rehomed | Stranded

  /** What becomes of a touched relation; a stranded one is deleted although its CREATE matched nothing. */
  function FateOf(root: Redirect, nodes: set<string>, r: Relation): Fate {
    if FoldsAway(root, r) then FoldedAway else if Lands(root, nodes, r) then Rehomed else Stranded
  }

  ghost function WithFate(root: Redirect, nodes: set<string>, edges: map<nat, Relation>, f: Fate): set<nat> {
    set k | k in edges && Touched(root, edges[k]) && FateOf(root, nodes, edges[k]) == f
  }

  ghost function RowsWithFate(root: Redirect, nodes: set<string>, rows: set<Relation>, f: Fate): set<Relation> {
    set r | r in rows && FateOf(root, nodes, r) == f
  }

  ghost function Tally(root: Redirect, nodes: set<string>, rows: set<Relation>, f: Fate): nat {
    |RowsWithFate(root, nodes, rows, f)|
  }

  /** Edge by edge: the rows still to be handled are there, and only what folds away or strands is gone. */
  ghost predicate Counted(root: Redirect, g0: Graph, g: Graph, done: set<Relation>, rest: seq<Relation>, moved: nat, selfLoops: nat) {
    && OnceRelations(root, g.relations) && (forall r | r in rest :: r in g.relations.Values)
    && selfLoops == Tally(root, g0.entities, done, FoldedAway)
    && moved == Tally(root, g0.entities, done, Rehomed) + Tally(root, g0.entities, done, Stranded)
    && |g.relations| == |g0.relations| - selfLoops - Tally(root, g0.entities, done, Stranded)
  }

  lemma TallyGrows(root: Redirect, nodes: set<string>, rows: set<Relation>, r: Relation, f: Fate)
    requires r !in rows
    ensures Tally(root, nodes, rows + {r}, f) == Tally(root, nodes, rows, f) + if FateOf(root, nodes, r) == f then 1 else 0
  {
    assert RowsWithFate(root, nodes, rows + {r}, f) ==
      RowsWithFate(root, nodes, rows, f) + if FateOf(root, nodes, r) == f then {r} else {};
  }

  lemma TakesOne(edges: map<nat, Relation>, k: nat)
    requires k in edges && forall j | j in edges && SameEdge(edges[j], edges[k]) :: j == k
    ensures WithoutEdge(edges, edges[k]) == edges - {k} && |edges - {k}| == |edges| - 1
  {
    assert edges.Keys == (edges - {k}).Keys + {k};
  }

  lemma MovedEdges(root: Redirect, g: Graph, k: nat)
    requires g.Sound() && Flat(root) && k in g.relations && Touched(root, g.relations[k])
    requires FateOf(root, g.entities, g.relations[k]) == Rehomed
    requires WithoutEdge(g.relations, g.relations[k]) == g.relations - {k}
    ensures Handled(root, g, g.relations[k]).relations == (g.relations - {k})[g.nextId := Rerouted(root, g.relations[k])]
  {
    RerouteLands(root, g.relations[k]);
  }

  /** The edges after one row: the row's own edge is gone, and its copy is there if it landed. */
  lemma HandledEdges(root: Redirect, g: Graph, k: nat)
    requires g.Sound() && Flat(root) && OnceRelations(root, g.relations) && k in g.relations && Touched(root, g.relations[k])
    ensures
      var row := g.relations[k];
      var h := Handled(root, g, row).relations;
      if FateOf(root, g.entities, row) == Rehomed then h == (g.relations - {k})[g.nextId := Rerouted(root, row)] && |h| == |g.relations|
      else h == g.relations - {k} && |h| == |g.relations| - 1
  {
    var row := g.relations[k];
    TakesOne(g.relations, k);
    if FateOf(root, g.entities, row) == Rehomed {
      MovedEdges(root, g, k);
      SwapKey(g.relations, k, g.nextId, Rerouted(root, row));
    } else {
      assert Handled(root, g, row).relations == WithoutEdge(g.relations, row);
    }
  }

  lemma SwapKey(edges: map<nat, Relation>, k: nat, id: nat, r: Relation)
    requires k in edges && id !in edges
    ensures |(edges - {k})[id := r]| == |edges|
  {
    var rest := edges - {k};
    assert edges.Keys == rest.Keys + {k} && rest[id := r].Keys == rest.Keys + {id};
    assert |edges.Keys| == |rest.Keys| + 1 && |rest[id := r].Keys| == |rest.Keys| + 1;
  }

  lemma OthersStay(root: Redirect, g: Graph, k: nat, r: Relation)
    requires g.Sound() && Flat(root) && OnceRelations(root, g.relations) && k in g.relations && Touched(root, g.relations[k])
    requires r in g.relations.Values && r != g.relations[k]
    ensures r in Handled(root, g, g.relations[k]).relations.Values
  {
    HandledEdges(root, g, k);
    var j :| j in g.relations && g.relations[j] == r;
    assert Handled(root, g, g.relations[k]).relations[j] == r;
  }

  lemma StaysOnce(root: Redirect, g: Graph, k: nat)
    requires g.Sound() && Flat(root) && OnceRelations(root, g.relations) && k in g.relations && Touched(root, g.relations[k])
    ensures OnceRelations(root, Handled(root, g, g.relations[k]).relations)
  {
    HandledEdges(root, g, k);
    if FateOf(root, g.entities, g.relations[k]) == Rehomed {
      RerouteLands(root, g.relations[k]);
    }
  }

  lemma RowCounted(root: Redirect, g0: Graph, g: Graph, done: set<Relation>, row: Relation, rest: seq<Relation>, moved: nat, selfLoops: nat)
    requires g.Sound() && Flat(root) && Touched(root, row) && g.entities == g0.entities && row !in done && row !in rest
    requires Counted(root, g0, g, done, [row] + rest, moved, selfLoops)
    ensures Counted(root, g0, Handled(root, g, row), done + {row}, rest,
                    if FoldsAway(root, row) then moved else moved + 1, if FoldsAway(root, row) then selfLoops + 1 else selfLoops)
  {
    assert row in [row] + rest;
    var k :| k in g.relations && g.relations[k] == row;
    HandledEdges(root, g, k);
    StaysOnce(root, g, k);
    TallyGrows(root, g0.entities, done, row, FoldedAway);
    TallyGrows(root, g0.entities, done, row, Rehomed);
    TallyGrows(root, g0.entities, done, row, Stranded);
    forall r | r in rest
      ensures r in Handled(root, g, row).relations.Values
    {
      assert r in [row] + rest;
      OthersStay(root, g, k, r);
    }
  }

  /** The rows of the read, and the counting before the first of them. */
  lemma ReadRelationRows(root: Redirect, g: Graph, rows: seq<Relation>)
    requires Projects(g.relations, rows, IsTouched(root))
    ensures forall r | r in rows :: TouchedRow(root, g, r)
    ensures Progress(root, g, g, [], rows)
    ensures OnceRelations(root, g.relations) ==>
      Counted(root, g, g, {}, rows, 0, 0) && forall i, j | 0 <= i < j < |rows| :: rows[i] != rows[j]
  {
    forall r | r in rows
      ensures TouchedRow(root, g, r)
    {
      assert IsTouched(root)(r);
    }
    forall k | k in g.relations && Touched(root, g.relations[k])
      ensures g.relations[k] in rows
    {
      assert IsTouched(root)(g.relations[k]);
    }
    var none: seq<Relation> := [];
    assert LandedRows(root, g.entities, none) == {};
    if OnceRelations(root, g.relations) {
      forall f
        ensures Tally(root, g.entities, {}, f) == 0
      {
        assert RowsWithFate(root, g.entities, {}, f) == {};
      }
      forall r | r in rows
        ensures multiset(rows)[r] <= 1
      {
        var k :| k in g.relations && g.relations[k] == r;
        assert Keys(g.relations, r) == {k};
      }
      AtMostOnce(rows);
    }
  }

  /** RELATES_TO after = RELATES_TO before - self-loops - stranded. */
  ghost predicate RelationsBalance(root: Redirect, g0: Graph, g: Graph, moved: nat, selfLoops: nat) {
    && selfLoops == |WithFate(root, g0.entities, g0.relations, FoldedAway)|
    && moved == |WithFate(root, g0.entities, g0.relations, Rehomed)| + |WithFate(root, g0.entities, g0.relations, Stranded)|
    && |g.relations| == |g0.relations| - selfLoops - |WithFate(root, g0.entities, g0.relations, Stranded)|
  }

  lemma FateOfRows(root: Redirect, g: Graph, rows: seq<Relation>, f: Fate)
    requires Projects(g.relations, rows, IsTouched(root)) && OnceRelations(root, g.relations)
    ensures Tally(root, g.entities, Elements(rows), f) == |WithFate(root, g.entities, g.relations, f)|
  {
    var keys, values := WithFate(root, g.entities, g.relations, f), RowsWithFate(root, g.entities, Elements(rows), f);
    forall k | k in keys
      ensures g.relations[k] in values
    {
      assert IsTouched(root)(g.relations[k]);
    }
    forall v | v in values
      ensures exists k :: k in keys && g.relations[k] == v
    {
      assert IsTouched(root)(v);
      var k :| k in g.relations && g.relations[k] == v;
    }
    ValuesOfKeys(g.relations, keys, values);
  }

  lemma AllCounted(root: Redirect, g0: Graph, g: Graph, rows: seq<Relation>, moved: nat, selfLoops: nat)
    requires Projects(g0.relations, rows, IsTouched(root)) && OnceRelations(root, g0.relations)
    requires Counted(root, g0, g, Elements(rows), [], moved, selfLoops)
    ensures RelationsBalance(root, g0, g, moved, selfLoops)
  {
    FateOfRows(root, g0, rows, FoldedAway);
    FateOfRows(root, g0, rows, Rehomed);
    FateOfRows(root, g0, rows, Stranded);
  }

  /** What an error-free phase leaves. */
  ghost predicate RelationsFolded(root: Redirect, g0: Graph, g: Graph, moved: nat, selfLoops: nat) {
    && TouchedIn(root, g.relations, [])
    && Untouched(root, g.relations) == Landed(root, g0.entities, g0.relations)
    && (OnceRelations(root, g0.relations) ==> RelationsBalance(root, g0, g, moved, selfLoops))
  }

  lemma NextRow(rows: seq<Relation>, i: nat)
    requires i < |rows|
    ensures rows[i..] == [rows[i]] + rows[i + 1..] && rows[..i + 1] == rows[..i] + [rows[i]]
    ensures Elements(rows[..i + 1]) == Elements(rows[..i]) + {rows[i]}
    ensures (forall j, k | 0 <= j < k < |rows| :: rows[j] != rows[k]) ==> rows[i] !in rows[..i] && rows[i] !in rows[i + 1..]
  {
    assert forall r :: r in rows[..i] + [rows[i]] <==> r in rows[..i] || r == rows[i];
  }

  /** What the rows before `i` have done, if none failed. */
  ghost predicate Halfway(root: Redirect, g0: Graph, g: Graph, rows: seq<Relation>, i: nat, moved: nat, selfLoops: nat)
    requires i <= |rows|
  {
    && Progress(root, g0, g, rows[..i], rows[i..])
    && (OnceRelations(root, g0.relations) ==> Counted(root, g0, g, Elements(rows[..i]), rows[i..], moved, selfLoops))
  }

  ghost predicate TouchedRowsOf(root: Redirect, g: Graph, rows: seq<Relation>) {
    && (forall r | r in rows :: TouchedRow(root, g, r))
    && (OnceRelations(root, g.relations) ==> forall i, j | 0 <= i < j < |rows| :: rows[i] != rows[j])
  }

  lemma OneMoreRow(root: Redirect, g0: Graph, g: Graph, rows: seq<Relation>, i: nat, moved: nat, selfLoops: nat)
    requires g.Sound() && Flat(root) && g.entities == g0.entities && i < |rows| && TouchedRowsOf(root, g0, rows)
    requires Halfway(root, g0, g, rows, i, moved, selfLoops)
    ensures Halfway(root, g0, Handled(root, g, rows[i]), rows, i + 1,
                    if FoldsAway(root, rows[i]) then moved else moved + 1, if FoldsAway(root, rows[i]) then selfLoops + 1 else selfLoops)
  {
    assert rows[i] in rows;
    NextRow(rows, i);
    RowHandled(root, g0, g, rows[..i], rows[i], rows[i + 1..]);
    if OnceRelations(root, g0.relations) {
      RowCounted(root, g0, g, Elements(rows[..i]), rows[i], rows[i + 1..], moved, selfLoops);
    }
  }

  lemma NoRowYet(root: Redirect, g: Graph, rows: seq<Relation>)
    requires Projects(g.relations, rows, IsTouched(root))
    ensures TouchedRowsOf(root, g, rows) && Halfway(root, g, g, rows, 0, 0, 0)
  {
    ReadRelationRows(root, g, rows);
    assert rows[0..] == rows && rows[..0] == [];
    assert Elements(rows[..0]) == {};
  }

  lemma EveryRow(root: Redirect, g0: Graph, g: Graph, rows: seq<Relation>, moved: nat, selfLoops: nat)
    requires Projects(g0.relations, rows, IsTouched(root)) && Halfway(root, g0, g, rows, |rows|, moved, selfLoops)
    ensures RelationsFolded(root, g0, g, moved, selfLoops)
  {
    assert rows[|rows|..] == [] && rows[..|rows|] == rows;
    AllHandled(root, g0, g, rows);
    if OnceRelations(root, g0.relations) {
      AllCounted(root, g0, g, rows, moved, selfLoops);
    }
  }

  /** The state of the loop before row `i`, as long as nothing failed; the phase started from `b`. */
  ghost predicate HandledSoFar(s: Session, root: Redirect, b: Graph, from: nat, rows: seq<Relation>, i: nat)
    requires i <= |rows|
    reads s
  {
    s.g == AfterRelations(root, b, rows[..i]) && RelationsPassed(root, b, rows, i, s.history, from)
  }

  lemma NothingHandled(s: Session, root: Redirect, g0: Graph, from: nat, rows: seq<Relation>)
    requires Running(root, g0, s, from)
    ensures HandledSoFar(s, root, s.g, from, rows, 0)
  {
    NowReached(s.history, from);
    assert rows[..0] == [];
  }

  method HandleNext(s: Session, root: Redirect, ghost g0: Graph, ghost b: Graph, ghost from: nat, rows: seq<Relation>, i: nat)
    returns (errors: seq<Error>)
    requires Running(root, g0, s, from) && Guarded(root, g0, s.g) && s.g.entities == g0.entities
    requires i < |rows| && TouchedRow(root, g0, rows[i])
    modifies s
    ensures Running(root, g0, s, from) && Guarded(root, g0, s.g) && old(s.history) <= s.history
    ensures s.g.mentions == old(s.g).mentions && s.g.entities == old(s.g).entities
    ensures old(s.raised) <= s.raised && |errors| <= 1 && (errors == [] <==> s.raised == old(s.raised))
    ensures errors == [] ==> s.g == Handled(root, old(s.g), rows[i])
    ensures errors == [] && old(HandledSoFar(s, root, b, from, rows, i)) ==> HandledSoFar(s, root, b, from, rows, i + 1)
  {
    ghost var history := s.history;
    errors := HandleRow(s, root, g0, from, rows[i]);
    if errors == [] && old(HandledSoFar(s, root, b, from, rows, i)) {
      NextHandled(root, b, rows, i);
      PassedOneRelation(root, b, rows, i, history, s.history, from);
    }
  }

  /** How the loop stands before row `i`, whether or not something raised since `r0` was counted. */
  ghost predicate AtRelation(s: Session, root: Redirect, g0: Graph, b: Graph, from: nat, rows: seq<Relation>, i: nat, r0: nat,
                             moved: nat, selfLoops: nat, errors: seq<Error>)
    requires i <= |rows|
    reads s
  {
    && r0 <= s.raised && (errors == [] <==> s.raised == r0)
    && moved + selfLoops <= i <= moved + selfLoops + |errors|
    && (errors == [] ==> Halfway(root, g0, s.g, rows, i, moved, selfLoops) && HandledSoFar(s, root, b, from, rows, i))
  }

  /** The rows after one more, if it was handled; the counters move as the code moves them. */
  lemma HalfwayNext(root: Redirect, g0: Graph, g: Graph, h: Graph, rows: seq<Relation>, i: nat, moved: nat, selfLoops: nat,
                    movedNow: nat, selfLoopsNow: nat)
    requires g.Sound() && Flat(root) && g.entities == g0.entities && i < |rows| && TouchedRowsOf(root, g0, rows)
    requires Halfway(root, g0, g, rows, i, moved, selfLoops) && h == Handled(root, g, rows[i])
    requires movedNow == (if FoldsAway(root, rows[i]) then moved else moved + 1)
    requires selfLoopsNow == (if FoldsAway(root, rows[i]) then selfLoops + 1 else selfLoops)
    ensures Halfway(root, g0, h, rows, i + 1, movedNow, selfLoopsNow)
  {
    OneMoreRow(root, g0, g, rows, i, moved, selfLoops);
  }

  method NextAtRelation(s: Session, root: Redirect, ghost g0: Graph, ghost b: Graph, ghost from: nat, rows: seq<Relation>, i: nat,
                        ghost r0: nat, moved: nat, selfLoops: nat, errors: seq<Error>)
    returns (movedNow: nat, selfLoopsNow: nat, errorsNow: seq<Error>)
    requires Running(root, g0, s, from) && Guarded(root, g0, s.g) && s.g.entities == g0.entities
    requires i < |rows| && TouchedRowsOf(root, g0, rows) && AtRelation(s, root, g0, b, from, rows, i, r0, moved, selfLoops, errors)
    modifies s
    ensures Running(root, g0, s, from) && Guarded(root, g0, s.g) && old(s.history) <= s.history
    ensures s.g.mentions == old(s.g).mentions && s.g.entities == old(s.g).entities
    ensures AtRelation(s, root, g0, b, from, rows, i + 1, r0, movedNow, selfLoopsNow, errorsNow)
  {
    var row := rows[i];
    assert row in rows;
    ghost var before := s.g;
    var failed := HandleNext(s, root, g0, b, from, rows, i);
    movedNow, selfLoopsNow, errorsNow := moved, selfLoops, errors + failed;
    if FoldsAway(root, row) {
      selfLoopsNow := selfLoops + 1;
    } else if failed == [] {
      movedNow := moved + 1;
    }
    if errorsNow == [] {
      HalfwayNext(root, g0, before, s.g, rows, i, moved, selfLoops, movedNow, selfLoopsNow);
    }
  }

  method HandleRead(s: Session, root: Redirect, ghost g0: Graph, ghost from: nat, rows: seq<Relation>)
    returns (moved: nat, selfLoops: nat, errors: seq<Error>)
    requires Running(root, g0, s, from) && s.g.relations == g0.relations && s.g.entities == g0.entities
    requires Projects(g0.relations, rows, IsTouched(root))
    modifies s
    ensures Running(root, g0, s, from) && old(s.history) <= s.history
    ensures s.g.mentions == old(s.g).mentions && s.g.entities == g0.entities
    ensures AtRelation(s, root, g0, old(s.g), from, rows, |rows|, old(s.raised), moved, selfLoops, errors)
  {
    moved, selfLoops, errors := 0, 0, [];
    ghost var b, r0 := s.g, s.raised;
    StartIsIntact(root, g0);
    NoRowYet(root, g0, rows);
    NoRowYetHere(root, g0, s.g, rows);
    NothingHandled(s, root, g0, from, rows);
    for i := 0 to |rows|
      invariant Running(root, g0, s, from) && Guarded(root, g0, s.g) && old(s.history) <= s.history
      invariant s.g.mentions == old(s.g).mentions && s.g.entities == g0.entities
      invariant AtRelation(s, root, g0, b, from, rows, i, r0, moved, selfLoops, errors)
    {
      moved, selfLoops, errors := NextAtRelation(s, root, g0, b, from, rows, i, r0, moved, selfLoops, errors);
    }
  }

  /** What a phase in which nothing raised has read, and the graphs it passed through, starting from `b`. */
  ghost predicate RelationsDone(root: Redirect, g0: Graph, b: Graph, rows: seq<Relation>, history: seq<Moment>, from: nat) {
    Projects(g0.relations, rows, IsTouched(root)) && RelationsPassed(root, b, rows, |rows|, history, from)
  }

  method MoveRelations(s: Session, root: Redirect, ghost g0: Graph, ghost from: nat)
    returns (moved: nat, selfLoops: nat, errors: seq<Error>, ghost read: seq<Relation>)
    requires Running(root, g0, s, from) && s.g.relations == g0.relations && s.g.entities == g0.entities
    modifies s
    ensures Running(root, g0, s, from) && old(s.history) <= s.history
    ensures s.g.mentions == old(s.g).mentions && s.g.entities == g0.entities
    ensures old(s.raised) <= s.raised && (errors == [] <==> s.raised == old(s.raised))
    ensures moved + selfLoops <= |read| <= moved + selfLoops + |errors| || errors == [RelationsRead]
    ensures errors == [] ==> RelationsFolded(root, g0, s.g, moved, selfLoops)
    ensures errors == [] ==> RelationsDone(root, g0, old(s.g), read, s.history, from)
  {
    var ok, rows := s.ReadRelations(IsTouched(root));
    if !ok {
      return 0, 0, [RelationsRead], [];
    }
    read := rows;
    moved, selfLoops, errors := HandleRead(s, root, g0, from, rows);
    assert rows[..|rows|] == rows;
    if errors == [] {
      EveryRow(root, g0, s.g, rows, moved, selfLoops);
    }
  }

  /** Only the relations matter for where the rows stand. */
  lemma NoRowYetHere(root: Redirect, g0: Graph, g: Graph, rows: seq<Relation>)
    requires g.relations == g0.relations && Halfway(root, g0, g0, rows, 0, 0, 0)
    ensures Halfway(root, g0, g, rows, 0, 0, 0)
  {
  }
}
