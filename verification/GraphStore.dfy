/**
 The part of the graph database the folding phases touch: nodes by uuid, and edges that have an
 internal identity of their own besides a `uuid` property that need not be unique.
 */
module GraphStore {
  import opened Bags

  datatype Mention = Mention(uuid: string, src: string, dst: string, createdAt: string, groupId: string)

  /** `attributes` stands for the properties that are only copied: name, episodes and the time stamps. */
  datatype Relation = Relation(uuid: string, src: string, dst: string, fact: string, groupId: string, attributes: string)

  /** `properties` is the text of an episode's property map, which no statement here writes. */
  datatype Graph = Graph(
    episodics: set<string>,
    properties: string -> string,
    entities: set<string>,
    mentions: map<nat, Mention>,
    relations: map<nat, Relation>,
    nextId: nat)
  {
    /** Edges hang between existing nodes, and no internal identity is ever reused. */
    ghost predicate Sound() {
      && (forall k | k in mentions :: k < nextId && mentions[k].src in episodics && mentions[k].dst in entities)
      && (forall k | k in relations :: k < nextId && relations[k].src in entities && relations[k].dst in entities)
    }

    predicate EdgeFree(v: string) {
      && (forall k | k in mentions :: mentions[k].dst != v)
      && (forall k | k in relations :: relations[k].src != v && relations[k].dst != v)
    }

    /** Creates an edge between the two named nodes; if either is missing, nothing happens. */
    function AddMention(m: Mention): Graph {
      if m.src in episodics && m.dst in entities then this.(mentions := mentions[nextId := m], nextId := nextId + 1)
      else this
    }

    /** Deletes every edge of that uuid between exactly these two nodes. */
    function RemoveMention(src: string, dst: string, uuid: string): Graph {
      this.(mentions := map k | k in mentions && !(mentions[k].src == src && mentions[k].dst == dst && mentions[k].uuid == uuid)
                          :: mentions[k])
    }

    /** Deletes every edge with one of the uuids, wherever it is. */
    function RemoveMentionsByUuid(uuids: set<string>): Graph {
      this.(mentions := map k | k in mentions && mentions[k].uuid !in uuids :: mentions[k])
    }

    function AddRelation(r: Relation): Graph {
      if r.src in entities && r.dst in entities then this.(relations := relations[nextId := r], nextId := nextId + 1)
      else this
    }

    function RemoveRelation(src: string, dst: string, uuid: string): Graph {
      this.(relations := map k | k in relations && !(relations[k].src == src && relations[k].dst == dst && relations[k].uuid == uuid)
                           :: relations[k])
    }

    function KeepRelations(keep: set<nat>): Graph {
      this.(relations := map k | k in relations && k in keep :: relations[k])
    }

    /** Deletes those of the entities that have no edge left. */
    function RemoveEmptyEntities(victims: set<string>): Graph {
      this.(entities := entities - EmptyEntities(victims))
    }

    function EmptyEntities(victims: set<string>): set<string> {
      set v | v in victims && v in entities && EdgeFree(v)
    }

    predicate Mentionless(v: string) {
      forall k | k in mentions :: mentions[k].src != v
    }

    function SilentEpisodics(victims: set<string>): set<string> {
      set v | v in victims && v in episodics && Mentionless(v)
    }

    /** Deletes those of the episodes that mention nothing any more. */
    function RemoveSilentEpisodics(victims: set<string>): Graph {
      this.(episodics := episodics - SilentEpisodics(victims))
    }
  }

  /**
   What a projection of edges returns: every matching edge is represented, nothing else is, and edges
   that agree on all columns may or may not be returned once each.
   */
  ghost predicate Projects<T(!new)>(edges: map<nat, T>, rows: seq<T>, wanted: T -> bool) {
    && (forall k | k in edges && wanted(edges[k]) :: edges[k] in rows)
    && (forall r | r in rows :: wanted(r) && r in edges.Values)
    && (forall r :: multiset(rows)[r] <= |Keys(edges, r)|)
  }

  ghost predicate ReadAtMost<T(!new)>(edges: map<nat, T>, rows: seq<T>, todo: set<nat>) {
    forall r :: multiset(rows)[r] <= |Keys(edges, r) - todo|
  }

  lemma ReadOne<T(!new)>(edges: map<nat, T>, rows: seq<T>, todo: set<nat>, k: nat)
    requires ReadAtMost(edges, rows, todo) && k in todo && k in edges
    ensures ReadAtMost(edges, rows, todo - {k}) && ReadAtMost(edges, rows + [edges[k]], todo - {k})
  {
    forall r
      ensures multiset(rows)[r] <= |Keys(edges, r) - (todo - {k})|
      ensures multiset(rows + [edges[k]])[r] <= |Keys(edges, r) - (todo - {k})|
    {
      assert Keys(edges, r) - (todo - {k}) == (Keys(edges, r) - todo) + if edges[k] == r then {k} else {};
    }
  }

  /** Collects the wanted edges in whatever order the database lists them. */
  method Collect<T(!new, ==)>(edges: map<nat, T>, wanted: T -> bool) returns (rows: seq<T>)
    ensures Projects(edges, rows, wanted)
  {
    rows := [];
    var todo := edges.Keys;
    while todo != {}
      invariant todo <= edges.Keys
      invariant forall k | k in edges && k !in todo && wanted(edges[k]) :: edges[k] in rows
      invariant forall r | r in rows :: wanted(r) && r in edges.Values
      invariant ReadAtMost(edges, rows, todo)
      decreases todo
    {
      var k :| k in todo;
      ReadOne(edges, rows, todo, k);
      todo := todo - {k};
      if wanted(edges[k]) {
        rows := rows + [edges[k]];
      }
    }
    forall r
      ensures multiset(rows)[r] <= |Keys(edges, r)|
    {
      assert Keys(edges, r) - {} == Keys(edges, r);
    }
  }

  /** What is kept of a folded episode so that its deletion can be undone. */
  datatype UndoRow = UndoRow(victim: string, survivor: string, snapshot: string, mentions: seq<Mention>)

  /** Both stores at one moment: the graph, and the undo log kept outside it. */
  datatype Moment = Moment(graph: Graph, undo: seq<UndoRow>)

  /**
   The handles a folding phase works through. Every statement either succeeds or raises; one that
   raises may have taken effect on the server all the same. `history` records both stores after
   every statement, `raised` how many statements and reads have raised.
   */
  class Session {
    var g: Graph
    var undo: seq<UndoRow>
    ghost var history: seq<Moment>
    ghost var raised: nat

    ghost predicate Valid()
      reads this
    {
      g.Sound() && history != [] && history[|history| - 1] == Moment(g, undo)
    }

    constructor (initial: Graph, log: seq<UndoRow>)
      requires initial.Sound()
      ensures Valid() && g == initial && undo == log && history == [Moment(initial, log)] && raised == 0
    {
      g, undo := initial, log;
      history, raised := [Moment(initial, log)], 0;
    }

    /** Sends one writing statement with the effect `next` to the graph. */
    method Send(next: Graph) returns (ok: bool)
      requires Valid() && next.Sound()
      modifies this
      ensures Valid() && history == old(history) + [Moment(g, undo)] && undo == old(undo)
      ensures g == next || (!ok && g == old(g))
      ensures raised == old(raised) + if ok then 0 else 1
    {
      ok := *;
      var takesEffect: bool := *;
      if ok || takesEffect {
        g := next;
      }
      history, raised := history + [Moment(g, undo)], raised + if ok then 0 else 1;
    }

    /**
     Appends rows to the undo log in one transaction, or, if the writer does not persist, reports that
     nothing was written. It may raise, with the rows there or not.
     */
    method WriteUndo(rows: seq<UndoRow>, persists: bool) returns (ok: bool, written: nat)
      requires Valid()
      modifies this
      ensures Valid() && history == old(history) + [Moment(g, undo)] && g == old(g)
      ensures undo == old(undo) || undo == old(undo) + rows
      ensures ok ==> undo == (if persists then old(undo) + rows else old(undo)) && written == if persists then |rows| else 0
      ensures raised == old(raised) + if ok then 0 else 1
    {
      ok := *;
      var takesEffect: bool := *;
      written := 0;
      if persists && (ok || takesEffect) {
        undo := undo + rows;
        written := |rows|;
      }
      history, raised := history + [Moment(g, undo)], raised + if ok then 0 else 1;
    }

    /** A read whose rows are taken from the graph as it is, a count for one. */
    method Ask() returns (ok: bool)
      requires Valid()
      modifies this`raised
      ensures Valid() && raised == old(raised) + if ok then 0 else 1
    {
      ok := *;
      raised := raised + if ok then 0 else 1;
    }

    /** Reads the MENTIONS edges with the wanted end points. */
    method ReadMentions(wanted: Mention -> bool) returns (ok: bool, rows: seq<Mention>)
      requires Valid()
      modifies this`raised
      ensures Valid() && raised == old(raised) + if ok then 0 else 1
      ensures ok ==> Projects(g.mentions, rows, wanted)
    {
      ok := Ask();
      rows := Collect(g.mentions, wanted);
    }

    method ReadRelations(wanted: Relation -> bool) returns (ok: bool, rows: seq<Relation>)
      requires Valid()
      modifies this`raised
      ensures Valid() && raised == old(raised) + if ok then 0 else 1
      ensures ok ==> Projects(g.relations, rows, wanted)
    {
      ok := Ask();
      rows := Collect(g.relations, wanted);
    }
  }
}
