/** `apply_episodic_plan` before it writes: the plan it forms, and what its counters must be. */
module EpisodicApply {
  import opened Collections
  import opened Bags
  import opened GraphStore
  import opened Folding
  import opened EpisodicPlan
  import opened EpisodicFold

  datatype Counters = Counters(
    applied: bool,
    merges: nat,
    victims: nat,
    tally: Tally,
    nodesDeleted: nat,
    victimsNotEmpty: nat,
    undoWritten: nat,
    errors: seq<Error>)

  /** What the caller supplies for writing undo rows. */
  datatype UndoWriter = NoWriter | Writer(persists: bool)

  /** The MENTIONS counters; `rewired` and `accounted` are the same number in the report. */
  datatype Tally = Tally(rewired: nat, moved: nat, dropped: nat, created: nat, repeats: nat, dedupe: nat)

  // ---------------------------------------------------------------------------------------------
  // What the counters must be

  ghost function VictimEdges(root: Redirect, edges: map<nat, Mention>): map<nat, Mention> {
    map k | k in edges && edges[k].src in root :: edges[k]
  }

  ghost function OtherEdges(root: Redirect, edges: map<nat, Mention>): map<nat, Mention> {
    map k | k in edges && edges[k].src !in root :: edges[k]
  }

  ghost function VictimRows(root: Redirect, g: Graph): set<Mention> {
    set m | m in g.mentions.Values && m.src in root
  }

  /** What the survivors mention already. */
  ghost function HeldPairs(root: Redirect, g: Graph): set<(string, string)> {
    set k | k in g.mentions && g.mentions[k].src in root.Values && Resolved(g.mentions[k]) :: EndsOf(g.mentions[k])
  }

  ghost function VictimEnds(root: Redirect, g: Graph): set<(string, string)> {
    set m | m in VictimRows(root, g) :: EndsOf(m)
  }

  /** The targets the survivors gain. */
  ghost function GainedPairs(root: Redirect, g: Graph): set<(string, string)> {
    (set e | e in VictimEnds(root, g) :: (To(root, e.0), e.1)) - HeldPairs(root, g)
  }

  ghost function HeldEndsOf(root: Redirect, g: Graph): set<(string, string)> {
    set e | e in VictimEnds(root, g) && (To(root, e.0), e.1) in HeldPairs(root, g)
  }

  /** No MENTIONS of a victim shares its uuid with another edge, as in a graph no fold was interrupted in. */
  ghost predicate Unshared(root: Redirect, g: Graph) {
    forall j, k | j in g.mentions && k in g.mentions && g.mentions[j].src in root && g.mentions[j].uuid == g.mentions[k].uuid :: j == k
  }

  /** The counters as the graph alone determines them, for a dry run as for a real one. */
  ghost predicate TallyOf(root: Redirect, g: Graph, t: Tally) {
    && t.moved == t.created == |GainedPairs(root, g)|
    && t.dropped == |HeldEndsOf(root, g)|
    && t.rewired == t.repeats + t.dropped + t.dedupe + t.created
    && t.rewired - t.repeats == |VictimEnds(root, g)|
    && (Unshared(root, g) ==> t.rewired == |VictimRows(root, g)|)
  }

  // ---------------------------------------------------------------------------------------------
  // The plan

  function FromVictim(root: Redirect): Mention -> bool {
    (m: Mention) => m.src in root
  }

  function FromSurvivor(root: Redirect): Mention -> bool {
    (m: Mention) => m.src in root.Values
  }

  datatype Plan = Plan(rows: seq<Mention>, unique: seq<Mention>, repeats: seq<Mention>,
                       drop: seq<Mention>, dedupe: seq<Mention>, create: seq<Mention>, held: set<(string, string)>)
  {
    ghost predicate Sound(root: Redirect) {
      Uniques(rows, unique, repeats) && Sorted(root, held, unique, drop, dedupe, create)
    }

    function Counts(): Tally {
      Tally(|rows|, |create|, |drop|, |create|, |repeats|, |dedupe|)
    }

    /** The rows planned for deletion. */
    function Doomed(): seq<Mention> {
      drop + dedupe + repeats
    }

    /** Their uuids, by which they are deleted before anything is moved. */
    function Redundants(): set<string> {
      set m | m in Doomed() :: m.uuid
    }
  }

  const NO_PLAN := Plan([], [], [], [], [], [], {})

  /** `rows` are edges of `g` that leave a victim, no edge twice. */
  ghost predicate RowsFrom(root: Redirect, g: Graph, rows: seq<Mention>) {
    (forall m | m in rows :: m in VictimRows(root, g) && Resolved(m)) && multiset(rows) <= Bag(VictimEdges(root, g.mentions))
  }

  ghost predicate Planned(root: Redirect, g: Graph, p: Plan) {
    p.Sound(root) && RowsFrom(root, g, p.rows) && p.held <= HeldPairs(root, g)
  }

  /** Nothing was skipped or could not be read. */
  ghost predicate Complete(root: Redirect, g: Graph, p: Plan) {
    Elements(p.rows) == VictimRows(root, g) && p.held == HeldPairs(root, g)
  }

  /** Every row that could be read is in the plan. */
  ghost predicate AllRead(root: Redirect, g: Graph, rows: seq<Mention>) {
    forall m | m in VictimRows(root, g) && Resolved(m) :: m in rows
  }

  /** There is something to read, and every edge of a victim has both ends. */
  ghost predicate Readable(root: Redirect, g: Graph) {
    && (exists k :: k in g.mentions && g.mentions[k].src in root)
    && (forall k | k in g.mentions && g.mentions[k].src in root :: g.mentions[k].src != "" && g.mentions[k].dst != "")
  }

  lemma ReadableIff(root: Redirect, g: Graph, read: seq<Mention>)
    requires Elements(read) == VictimRows(root, g)
    ensures Readable(root, g) <==> read != [] && forall m | m in read :: Resolved(m)
  {
    if read != [] {
      assert read[0] in Elements(read);
    }
    forall k | k in g.mentions && g.mentions[k].src in root
      ensures g.mentions[k] in read
    {
      assert g.mentions[k] in VictimRows(root, g);
      assert g.mentions[k] in Elements(read);
    }
    forall m | m in read
      ensures m in VictimRows(root, g)
    {
      assert m in Elements(read);
    }
  }

  method ReadRows(s: Session, root: Redirect) returns (rows: seq<Mention>, errors: seq<Error>)
    requires s.Valid()
    modifies s`raised
    ensures s.Valid() && old(s.raised) <= s.raised && RowsFrom(root, s.g, rows)
    ensures errors == [] <==> s.raised == old(s.raised) && Readable(root, s.g)
    ensures errors == [] ==> Elements(rows) == VictimRows(root, s.g)
    ensures MentionsRead !in errors && NothingRead !in errors ==> AllRead(root, s.g, rows)
    ensures s.raised > old(s.raised) ==> MentionsRead in errors
    ensures s.raised == old(s.raised) ==> MentionsRead !in errors && (NothingRead in errors <==> VictimRows(root, s.g) == {})
  {
    var ok, read := s.ReadMentions(FromVictim(root));
    if !ok {
      return [], [MentionsRead];
    }
    ReadIsVictimRows(root, s.g, read);
    ReadableIff(root, s.g, read);
    if read == [] {
      return [], [NothingRead];
    }
    assert read[0] in Elements(read);
    rows, errors := KeepResolved(read);
    RowsAreFrom(root, s.g, read, rows);
  }

  lemma RowsAreFrom(root: Redirect, g: Graph, read: seq<Mention>, rows: seq<Mention>)
    requires Elements(read) == VictimRows(root, g) && multiset(read) <= Bag(VictimEdges(root, g.mentions))
    requires (forall m | m in rows :: m in read && Resolved(m)) && multiset(rows) <= multiset(read)
    requires forall m | m in read && Resolved(m) :: m in rows
    ensures RowsFrom(root, g, rows) && AllRead(root, g, rows)
    ensures (forall m | m in read :: Resolved(m)) ==> Elements(rows) == VictimRows(root, g)
  {
    forall m
      ensures m in read <==> m in VictimRows(root, g)
    {
      assert m in read <==> m in Elements(read);
    }
  }

  /** Rows that lack an end are reported and left out. */
  method KeepResolved(read: seq<Mention>) returns (rows: seq<Mention>, errors: seq<Error>)
    ensures (forall m | m in rows :: m in read && Resolved(m)) && multiset(rows) <= multiset(read)
    ensures forall m | m in read && Resolved(m) :: m in rows
    ensures MentionsRead !in errors && NothingRead !in errors && |rows| + |errors| == |read|
    ensures errors == [] <==> forall m | m in read :: Resolved(m)
  {
    rows, errors := [], [];
    for i := 0 to |read|
      invariant forall m | m in rows :: m in read[..i] && Resolved(m)
      invariant multiset(rows) <= multiset(read[..i]) && |rows| + |errors| == i
      invariant forall m | m in read[..i] && Resolved(m) :: m in rows
      invariant errors == [] <==> forall m | m in read[..i] :: Resolved(m)
      invariant MentionsRead !in errors && NothingRead !in errors
    {
      assert read[..i + 1] == read[..i] + [read[i]];
      if Resolved(read[i]) {
        rows := rows + [read[i]];
      } else {
        errors := errors + [MentionsSkip(read[i].uuid)];
      }
    }
    assert read[..|read|] == read;
  }

  lemma ReadIsVictimRows(root: Redirect, g: Graph, read: seq<Mention>)
    requires Projects(g.mentions, read, FromVictim(root))
    ensures Elements(read) == VictimRows(root, g) && multiset(read) <= Bag(VictimEdges(root, g.mentions))
  {
    forall m
      ensures multiset(read)[m] <= Bag(VictimEdges(root, g.mentions))[m]
    {
      ReadAtMostEdges(root, g, read, m);
    }
    forall m | m in read
      ensures m in VictimRows(root, g)
    {
      assert FromVictim(root)(m);
    }
    forall m | m in VictimRows(root, g)
      ensures m in read
    {
      var k :| k in g.mentions && g.mentions[k] == m;
      assert FromVictim(root)(g.mentions[k]);
    }
  }

  lemma ReadAtMostEdges(root: Redirect, g: Graph, read: seq<Mention>, m: Mention)
    requires Projects(g.mentions, read, FromVictim(root))
    ensures multiset(read)[m] <= Bag(VictimEdges(root, g.mentions))[m]
  {
    if m in read {
      assert FromVictim(root)(m);
      assert Keys(VictimEdges(root, g.mentions), m) == Keys(g.mentions, m);
      CountOf(VictimEdges(root, g.mentions), m);
    }
  }

  method ReadHeld(s: Session, root: Redirect) returns (held: set<(string, string)>, errors: seq<Error>)
    requires s.Valid()
    modifies s`raised
    ensures s.Valid() && old(s.raised) <= s.raised && held <= HeldPairs(root, s.g)
    ensures errors == [] <==> s.raised == old(s.raised)
    ensures errors == [] ==> held == HeldPairs(root, s.g)
    ensures errors == [] || errors == [SurvivorRead]
  {
    var ok, rows := s.ReadMentions(FromSurvivor(root));
    if !ok {
      return {}, [SurvivorRead];
    }
    held := set m | m in rows && Resolved(m) :: EndsOf(m);
    forall m | m in rows && Resolved(m)
      ensures EndsOf(m) in HeldPairs(root, s.g)
    {
      assert FromSurvivor(root)(m);
      var k :| k in s.g.mentions && s.g.mentions[k] == m;
    }
    forall e | e in HeldPairs(root, s.g)
      ensures e in held
    {
      var k :| k in s.g.mentions && s.g.mentions[k].src in root.Values && Resolved(s.g.mentions[k]) && e == EndsOf(s.g.mentions[k]);
      assert FromSurvivor(root)(s.g.mentions[k]);
      assert s.g.mentions[k] in rows;
    }
    errors := [];
  }
}
