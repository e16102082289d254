/** The episodic fold: victims sit on the source side of their MENTIONS, and leave only with an undo row. */
module EpisodicFold {
  import opened GraphStore
  import opened Folding
  import opened EpisodicPlan
  import EntitySafety

  datatype Error = MentionsRead | NothingRead | SurvivorRead | MentionsSkip(uuid: string) | MentionsDrop
                 | MentionsCreate(uuid: string) | MentionsMove(uuid: string)
                 | UndoBuild | UndoIncomplete | NoUndoWriter | UndoWrite | UndoShort | NodeDelete

  // ---------------------------------------------------------------------------------------------
  // What every statement of a run keeps

  ghost function SourcePairs(root: Redirect, g: Graph): set<(string, string)> {
    set k | k in g.mentions :: PairOf(root, g.mentions[k])
  }

  /** `row` allows `victim` to be put back: its properties, and an edge for every target it had in `g0`. */
  ghost predicate Restores(row: UndoRow, victim: string, g0: Graph) {
    && row.victim == victim && row.snapshot == g0.properties(victim)
    && (forall m | m in row.mentions :: m.src == victim && m in g0.mentions.Values)
    && (forall k | k in g0.mentions && g0.mentions[k].src == victim && Resolved(g0.mentions[k]) ::
          exists m :: m in row.mentions && m.dst == g0.mentions[k].dst)
  }

  /** Every victim that existed at the start has its row in the log. */
  ghost predicate UndoComplete(root: Redirect, g0: Graph, log: seq<UndoRow>) {
    forall v | v in root && v in g0.episodics :: exists row :: row in log && Restores(row, v, g0)
  }

  /** From one statement to the next, a node disappears only when it is a victim, silent, and restorable. */
  ghost predicate OnlyRestorable(root: Redirect, g0: Graph, a: Moment, b: Moment) {
    && b.graph.entities == a.graph.entities && b.graph.relations == a.graph.relations
    && b.graph.episodics <= a.graph.episodics && a.undo <= b.undo
    && forall v | v in a.graph.episodics - b.graph.episodics ::
         v in root && a.graph.Mentionless(v) && UndoComplete(root, g0, a.undo)
  }

  /** The pairs of `floor` are there, none is new, and all nodes but victims are as they were. */
  ghost predicate Intact(root: Redirect, g0: Graph, floor: set<(string, string)>, g: Graph) {
    && g.Sound() && floor <= SourcePairs(root, g) <= SourcePairs(root, g0)
    && g0.episodics - root.Keys <= g.episodics <= g0.episodics && g.entities == g0.entities && g.properties == g0.properties
  }

  ghost predicate SafeStep(root: Redirect, g0: Graph, floor: set<(string, string)>, history: seq<Moment>, i: nat)
    requires 0 < i < |history|
  {
    Intact(root, g0, floor, history[i].graph) && OnlyRestorable(root, g0, history[i - 1], history[i])
  }

  /** Every moment recorded from position `from` on is safe; the fold started from `g0`. */
  ghost predicate SafeSince(root: Redirect, g0: Graph, floor: set<(string, string)>, history: seq<Moment>, from: nat) {
    && 0 < from <= |history| && history[from - 1].graph == g0
    && forall i | from <= i < |history| :: SafeStep(root, g0, floor, history, i)
  }

  lemma NowIntact(root: Redirect, g0: Graph, floor: set<(string, string)>, history: seq<Moment>, from: nat)
    requires SafeSince(root, g0, floor, history, from) && g0.Sound() && floor <= SourcePairs(root, g0)
    ensures Intact(root, g0, floor, history[|history| - 1].graph)
  {
    if |history| > from {
      assert SafeStep(root, g0, floor, history, |history| - 1);
    }
  }

  lemma SafeExtension(root: Redirect, g0: Graph, floor: set<(string, string)>, history: seq<Moment>, from: nat, m: Moment)
    requires SafeSince(root, g0, floor, history, from) && Intact(root, g0, floor, m.graph)
    requires OnlyRestorable(root, g0, history[|history| - 1], m)
    ensures SafeSince(root, g0, floor, history + [m], from)
  {
    forall i | from <= i < |history + [m]|
      ensures SafeStep(root, g0, floor, history + [m], i)
    {
      assert i < |history| ==> SafeStep(root, g0, floor, history, i);
    }
  }

  /** What holds between any two statements of a run. */
  ghost predicate Running(root: Redirect, g0: Graph, floor: set<(string, string)>, s: Session, from: nat)
    reads s
  {
    && s.Valid() && Flat(root) && g0.Sound() && floor <= SourcePairs(root, g0)
    && SafeSince(root, g0, floor, s.history, from)
  }

  lemma RunningIntact(s: Session, root: Redirect, g0: Graph, floor: set<(string, string)>, from: nat)
    requires Running(root, g0, floor, s, from)
    ensures Intact(root, g0, floor, s.g)
  {
    NowIntact(root, g0, floor, s.history, from);
  }

  lemma MentionStatementSafe(s: Session, root: Redirect, g0: Graph, floor: set<(string, string)>, from: nat, next: Graph)
    requires Running(root, g0, floor, s, from) && Intact(root, g0, floor, next)
    requires next.episodics == s.g.episodics && next.relations == s.g.relations
    ensures SafeSince(root, g0, floor, s.history + [Moment(next, s.undo)], from)
  {
    RunningIntact(s, root, g0, floor, from);
    SafeExtension(root, g0, floor, s.history, from, Moment(next, s.undo));
  }

  /** Sends a statement that only changes MENTIONS and keeps what has to be kept. */
  method SendMentions(s: Session, root: Redirect, ghost g0: Graph, ghost floor: set<(string, string)>, ghost from: nat, next: Graph)
    returns (ok: bool)
    requires Running(root, g0, floor, s, from) && Intact(root, g0, floor, next)
    requires next.episodics == s.g.episodics && next.relations == s.g.relations
    modifies s
    ensures Running(root, g0, floor, s, from) && old(s.history) <= s.history && s.undo == old(s.undo)
    ensures s.g == next || (!ok && s.g == old(s.g))
    ensures s.raised == old(s.raised) + if ok then 0 else 1
  {
    RunningIntact(s, root, g0, floor, from);
    MentionStatementSafe(s, root, g0, floor, from, s.g);
    MentionStatementSafe(s, root, g0, floor, from, next);
    ok := s.Send(next);
  }

  // ---------------------------------------------------------------------------------------------
  // Phase B: redundant rows

  /** Each edge of these uuids has its pair on an edge of another uuid. */
  ghost predicate Redundant(root: Redirect, g: Graph, uuids: set<string>) {
    forall k | k in g.mentions && g.mentions[k].uuid in uuids :: KeepsPairOf(root, g, uuids, g.mentions[k])
  }

  ghost predicate KeepsPairOf(root: Redirect, g: Graph, uuids: set<string>, m: Mention) {
    exists j :: j in g.mentions && g.mentions[j].uuid !in uuids && PairOf(root, g.mentions[j]) == PairOf(root, m)
  }

  lemma LeftPairs(root: Redirect, g: Graph, uuids: set<string>, p: (string, string))
    ensures p in SourcePairs(root, g.RemoveMentionsByUuid(uuids)) <==>
      exists j :: j in g.mentions && g.mentions[j].uuid !in uuids && PairOf(root, g.mentions[j]) == p
  {
    var h := g.RemoveMentionsByUuid(uuids);
    if j :| j in g.mentions && g.mentions[j].uuid !in uuids && PairOf(root, g.mentions[j]) == p {
      assert h.mentions[j] == g.mentions[j];
    }
  }

  /** Deleting by uuid loses no pair exactly when the uuids are redundant. */
  lemma RedundantIff(root: Redirect, g: Graph, uuids: set<string>)
    ensures SourcePairs(root, g.RemoveMentionsByUuid(uuids)) == SourcePairs(root, g) <==> Redundant(root, g, uuids)
  {
    var h := g.RemoveMentionsByUuid(uuids);
    if Redundant(root, g, uuids) {
      forall k | k in g.mentions
        ensures PairOf(root, g.mentions[k]) in SourcePairs(root, h)
      {
        LeftPairs(root, g, uuids, PairOf(root, g.mentions[k]));
        assert g.mentions[k].uuid in uuids ==> KeepsPairOf(root, g, uuids, g.mentions[k]);
      }
      assert SourcePairs(root, h) <= SourcePairs(root, g);
    } else {
      var k :| k in g.mentions && g.mentions[k].uuid in uuids && !KeepsPairOf(root, g, uuids, g.mentions[k]);
      LeftPairs(root, g, uuids, PairOf(root, g.mentions[k]));
      assert PairOf(root, g.mentions[k]) in SourcePairs(root, g);
    }
  }

  lemma RemovalBelow(root: Redirect, g: Graph, uuids: set<string>)
    requires g.Sound()
    ensures g.RemoveMentionsByUuid(uuids).Sound()
    ensures SourcePairs(root, g.RemoveMentionsByUuid(uuids)) <= SourcePairs(root, g)
  {
  }

  /** Count, delete by uuid, count again: any of the three may raise. */
  method DropRows(s: Session, root: Redirect, ghost g0: Graph, ghost from: nat, uuids: set<string>) returns (errors: seq<Error>)
    requires Running(root, g0, SourcePairs(root, g0.RemoveMentionsByUuid(uuids)), s, from) && s.g == g0
    modifies s
    ensures Running(root, g0, SourcePairs(root, g0.RemoveMentionsByUuid(uuids)), s, from)
    ensures old(s.history) <= s.history && s.undo == old(s.undo)
    ensures s.g == g0 || s.g == g0.RemoveMentionsByUuid(uuids)
    ensures old(s.raised) <= s.raised && (errors == [] <==> s.raised == old(s.raised))
    ensures errors == [] ==> s.g == g0.RemoveMentionsByUuid(uuids)
  {
    if uuids == {} {
      assert s.g.RemoveMentionsByUuid({}).mentions == s.g.mentions;
      return [];
    }
    var counted := s.Ask();
    if !counted {
      return [MentionsDrop];
    }
    RemovalBelow(root, s.g, uuids);
    var ok := SendMentions(s, root, g0, SourcePairs(root, g0.RemoveMentionsByUuid(uuids)), from, s.g.RemoveMentionsByUuid(uuids));
    if !ok {
      return [MentionsDrop];
    }
    counted := s.Ask();
    return if counted then [] else [MentionsDrop];
  }

  // ---------------------------------------------------------------------------------------------
  // Phases A and C: move the rest

  function Rewired(root: Redirect, m: Mention): Mention {
    m.(src := To(root, m.src), groupId := EntitySafety.OrDefault(m.groupId))
  }

  function Moved(root: Redirect, g: Graph, row: Mention): Graph {
    g.AddMention(Rewired(root, row)).RemoveMention(row.src, row.dst, row.uuid)
  }

  lemma CreateAddsPair(root: Redirect, g: Graph, row: Mention)
    requires g.Sound() && Flat(root)
    ensures g.AddMention(Rewired(root, row)).Sound()
    ensures SourcePairs(root, g) <= SourcePairs(root, g.AddMention(Rewired(root, row))) <= SourcePairs(root, g) + {PairOf(root, row)}
  {
    var h := g.AddMention(Rewired(root, row));
    assert PairOf(root, Rewired(root, row)) == PairOf(root, row);
    forall k | k in g.mentions
      ensures k in h.mentions && h.mentions[k] == g.mentions[k]
    {
    }
  }

  lemma DeleteKeepsPairs(root: Redirect, g: Graph, row: Mention, twin: nat)
    requires g.Sound() && Flat(root) && row.src in root && twin in g.mentions && g.mentions[twin] == Rewired(root, row)
    ensures g.RemoveMention(row.src, row.dst, row.uuid).Sound()
    ensures SourcePairs(root, g.RemoveMention(row.src, row.dst, row.uuid)) == SourcePairs(root, g)
  {
    var h := g.RemoveMention(row.src, row.dst, row.uuid);
    assert twin in h.mentions && h.mentions[twin] == g.mentions[twin];
    forall p | p in SourcePairs(root, g)
      ensures p in SourcePairs(root, h)
    {
      var k :| k in g.mentions && p == PairOf(root, g.mentions[k]);
      if k in h.mentions {
        assert h.mentions[k] == g.mentions[k];
      } else {
        assert p == PairOf(root, h.mentions[twin]);
      }
    }
  }

  lemma CreateIntact(root: Redirect, g0: Graph, floor: set<(string, string)>, g: Graph, row: Mention)
    requires Intact(root, g0, floor, g) && Flat(root) && PairOf(root, row) in SourcePairs(root, g0)
    ensures Intact(root, g0, floor, g.AddMention(Rewired(root, row)))
  {
    CreateAddsPair(root, g, row);
  }

  lemma MoveIntact(root: Redirect, g0: Graph, floor: set<(string, string)>, g: Graph, row: Mention)
    requires Intact(root, g0, floor, g) && Flat(root) && PairOf(root, row) in SourcePairs(root, g0) && row.src in root
    requires To(root, row.src) in g.episodics && row.dst in g.entities
    ensures Intact(root, g0, floor, Moved(root, g, row))
  {
    CreateIntact(root, g0, floor, g, row);
    DeleteKeepsPairs(root, g.AddMention(Rewired(root, row)), row, g.nextId);
  }

  /** Moves one row: CREATE on the survivor first, DELETE on the victim only when the CREATE matched. */
  method MoveRow(s: Session, root: Redirect, ghost g0: Graph, ghost floor: set<(string, string)>, ghost from: nat, row: Mention)
    returns (created: bool, errors: seq<Error>)
    requires Running(root, g0, floor, s, from) && row.src in root && PairOf(root, row) in SourcePairs(root, g0)
    modifies s
    ensures Running(root, g0, floor, s, from) && old(s.history) <= s.history && s.undo == old(s.undo)
    ensures s.g.episodics == old(s.g).episodics && s.g.relations == old(s.g).relations
    ensures s.g.entities == old(s.g).entities && old(s.raised) <= s.raised
    ensures
      var matched := To(root, row.src) in old(s.g).episodics && row.dst in old(s.g).entities;
      && errors == (if s.raised > old(s.raised) then [MentionsMove(row.uuid)] else if matched then [] else [MentionsCreate(row.uuid)])
      && (s.raised == old(s.raised) ==> created == matched && s.g == if matched then Moved(root, old(s.g), row) else old(s.g))
      && (created ==> matched)
  {
    RunningIntact(s, root, g0, floor, from);
    ghost var before := s.g;
    CreateIntact(root, g0, floor, s.g, row);
    var matched := To(root, row.src) in s.g.episodics && row.dst in s.g.entities;
    var ok := SendMentions(s, root, g0, floor, from, s.g.AddMention(Rewired(root, row)));
    if !ok {
      return false, [MentionsMove(row.uuid)];
    }
    if !matched {
      return false, [MentionsCreate(row.uuid)];
    }
    MoveIntact(root, g0, floor, before, row);
    ok := SendMentions(s, root, g0, floor, from, s.g.RemoveMention(row.src, row.dst, row.uuid));
    return true, if ok then [] else [MentionsMove(row.uuid)];
  }
}
