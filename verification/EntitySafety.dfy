/** What every statement of an entity fold keeps, whatever the graph it starts from. */
module EntitySafety {
  import opened Bags
  import opened GraphStore
  import opened Folding

  const DEFAULT_GROUP := "graphiti_memory"

  function OrDefault(groupId: string): string {
    if groupId == "" then DEFAULT_GROUP else groupId
  }

  // ---------------------------------------------------------------------------------------------
  // MENTIONS as a multiset

  function Redirected(root: Redirect, m: Mention): Mention {
    if To(root, m.dst) == m.dst then m else m.(dst := To(root, m.dst), groupId := OrDefault(m.groupId))
  }

  /** The fold moves the row: it has both ends, and the CREATE matches. */
  predicate Moves(root: Redirect, nodes: set<string>, m: Mention) {
    m.dst in root && m.src != "" && m.dst != "" && To(root, m.dst) in nodes
  }

  /** What the DELETE of a row matches. */
  predicate SameMention(a: Mention, b: Mention) {
    a.src == b.src && a.dst == b.dst && a.uuid == b.uuid
  }

  /** The DELETE of a row that is moved takes no other edge. */
  ghost predicate Once(root: Redirect, nodes: set<string>, edges: map<nat, Mention>) {
    forall j, k | j in edges && k in edges && Moves(root, nodes, edges[j]) && SameMention(edges[j], edges[k]) :: j == k
  }

  ghost function RedirectFn(root: Redirect): Mention -> Mention {
    (m: Mention) => Redirected(root, m)
  }

  /** The root-image of the MENTIONS, with the number of edges that have each image. */
  ghost function ImageBag(root: Redirect, edges: map<nat, Mention>): multiset<Mention> {
    Bag(MapEdges(RedirectFn(root), edges))
  }

  /** Edges into victims are those of the start. */
  ghost predicate VictimEdgesOf(root: Redirect, m0: map<nat, Mention>, m: map<nat, Mention>) {
    forall k | k in m && m[k].dst in root :: k in m0 && m0[k] == m[k]
  }

  /** If no DELETE takes two edges, none is lost, counted by its image. */
  ghost predicate MentionsKept(root: Redirect, nodes: set<string>, m0: map<nat, Mention>, m: map<nat, Mention>) {
    VictimEdgesOf(root, m0, m) && (Once(root, nodes, m0) ==> ImageBag(root, m0) <= ImageBag(root, m))
  }

  lemma ImageBagAdd(root: Redirect, m: map<nat, Mention>, id: nat, v: Mention)
    requires id !in m
    ensures ImageBag(root, m[id := v]) == ImageBag(root, m) + multiset{Redirected(root, v)}
  {
    assert MapEdges(RedirectFn(root), m[id := v]) == MapEdges(RedirectFn(root), m)[id := Redirected(root, v)];
    BagAdd(MapEdges(RedirectFn(root), m), id, Redirected(root, v));
  }

  lemma ImageBagSize(root: Redirect, m: map<nat, Mention>)
    ensures |ImageBag(root, m)| == |m|
  {
    BagSize(MapEdges(RedirectFn(root), m));
    assert MapEdges(RedirectFn(root), m).Keys == m.Keys;
  }

  lemma OnceEverywhere(root: Redirect, nodes: set<string>, m0: map<nat, Mention>, fewer: set<string>, m: map<nat, Mention>)
    requires VictimEdgesOf(root, m0, m) && Once(root, nodes, m0) && fewer <= nodes
    ensures Once(root, fewer, m)
  {
  }

  /** What the DELETE of a moved row takes: the row's own edge, if it is still there, and no other. */
  lemma DeleteTakesRow(root: Redirect, nodes: set<string>, m0: map<nat, Mention>, a: Graph, row: Mention, j: nat)
    requires VictimEdgesOf(root, m0, a.mentions) && Once(root, nodes, m0) && Moves(root, nodes, row) && j in m0 && m0[j] == row
    ensures
      a.RemoveMention(row.src, row.dst, row.uuid).mentions == (if j in a.mentions && a.mentions[j] == row then a.mentions - {j} else a.mentions)
  {
  }

  lemma CreateKeeps(root: Redirect, nodes: set<string>, m0: map<nat, Mention>, g: Graph, row: Mention)
    requires g.Sound() && Flat(root) && row.dst in root && MentionsKept(root, nodes, m0, g.mentions)
    requires row.src in g.episodics && To(root, row.dst) in g.entities
    ensures
      var a := g.AddMention(Redirected(root, row));
      && MentionsKept(root, nodes, m0, a.mentions)
      && ImageBag(root, a.mentions) == ImageBag(root, g.mentions) + multiset{Redirected(root, row)}
  {
    var v := Redirected(root, row);
    assert v.dst !in root && g.AddMention(v).mentions == g.mentions[g.nextId := v];
    ImageBagAdd(root, g.mentions, g.nextId, v);
  }

  /** The DELETE takes one edge of the row's image if the row is there, and none otherwise. */
  lemma DeleteTakesImage(root: Redirect, nodes: set<string>, m0: map<nat, Mention>, a: Graph, row: Mention)
    requires VictimEdgesOf(root, m0, a.mentions) && Once(root, nodes, m0) && row in m0.Values && Moves(root, nodes, row)
    ensures
      var h := a.RemoveMention(row.src, row.dst, row.uuid).mentions;
      if row in a.mentions.Values then ImageBag(root, a.mentions) == ImageBag(root, h) + multiset{Redirected(root, row)}
      else ImageBag(root, h) == ImageBag(root, a.mentions)
  {
    var j :| j in m0 && m0[j] == row;
    DeleteTakesRow(root, nodes, m0, a, row, j);
    if row in a.mentions.Values {
      var k :| k in a.mentions && a.mentions[k] == row;
      assert k == j;
      ImageOfOne(RedirectFn(root), a.mentions, j);
    }
  }

  /** Unless a DELETE takes two edges, CREATE and DELETE of one row never leave fewer edges of an image. */
  lemma MoveKeeps(root: Redirect, nodes: set<string>, m0: map<nat, Mention>, g: Graph, row: Mention)
    requires g.Sound() && Flat(root) && row in m0.Values && Moves(root, nodes, row) && MentionsKept(root, nodes, m0, g.mentions)
    requires row.src in g.episodics && To(root, row.dst) in g.entities
    ensures MentionsKept(root, nodes, m0, MovedMention(root, g, row).mentions)
  {
    var a := g.AddMention(Redirected(root, row));
    CreateKeeps(root, nodes, m0, g, row);
    if Once(root, nodes, m0) {
      DeleteTakesImage(root, nodes, m0, a, row);
    }
    FewerVictimEdges(root, m0, a, row);
  }

  function MovedMention(root: Redirect, g: Graph, row: Mention): Graph {
    g.AddMention(Redirected(root, row)).RemoveMention(row.src, row.dst, row.uuid)
  }

  lemma FewerVictimEdges(root: Redirect, m0: map<nat, Mention>, a: Graph, row: Mention)
    requires VictimEdgesOf(root, m0, a.mentions)
    ensures VictimEdgesOf(root, m0, a.RemoveMention(row.src, row.dst, row.uuid).mentions)
  {
  }

  // ---------------------------------------------------------------------------------------------
  // RELATES_TO as triples

  function Rerouted(root: Redirect, r: Relation): Relation {
    if Touched(root, r) then MovedTo(root, r, DEFAULT_GROUP) else r
  }

  /** The fold leaves the relation alone, or moves it to nodes that exist. */
  ghost predicate Counts(root: Redirect, nodes: set<string>, r: Relation) {
    !Touched(root, r) || (!FoldsAway(root, r) && Lands(root, nodes, r))
  }

  /** The relations of the start, as they were or, where they land, rerouted. */
  ghost function Lineage(root: Redirect, nodes: set<string>, e0: map<nat, Relation>): set<Relation> {
    e0.Values + set r | r in e0.Values && Counts(root, nodes, r) :: Rerouted(root, r)
  }

  ghost function Landed(root: Redirect, nodes: set<string>, edges: map<nat, Relation>): set<(string, string, string)> {
    set k | k in edges && Counts(root, nodes, edges[k]) :: Triple(root, edges[k])
  }

  /** Whatever the DELETE of the relation takes has its fact. */
  ghost predicate Agrees(edges: map<nat, Relation>, r: Relation) {
    forall j | j in edges && SameEdge(edges[j], r) :: edges[j].fact == r.fact
  }

  /** The edge is untouched, or lands and no DELETE of a row of the start takes it for another fact. */
  ghost predicate Safe(root: Redirect, nodes: set<string>, e0: map<nat, Relation>, r: Relation) {
    Counts(root, nodes, r) && (Touched(root, r) ==> Agrees(e0, r))
  }

  /** The facts some safe edge carries. */
  ghost function Secured(root: Redirect, nodes: set<string>, e0: map<nat, Relation>, edges: map<nat, Relation>): set<(string, string, string)> {
    set k | k in edges && Safe(root, nodes, e0, edges[k]) :: Triple(root, edges[k])
  }

  ghost predicate TouchedOf(root: Redirect, e0: map<nat, Relation>, e: map<nat, Relation>) {
    forall k | k in e && Touched(root, e[k]) :: k in e0 && e0[k] == e[k]
  }

  /** Every secure fact of the start still lands; no relation is new. */
  ghost predicate RelationsKept(root: Redirect, nodes: set<string>, e0: map<nat, Relation>, e: map<nat, Relation>) {
    && TouchedOf(root, e0, e) && e.Values <= Lineage(root, nodes, e0)
    && Secured(root, nodes, e0, e0) <= Landed(root, nodes, e)
  }

  /** While relations are being moved each is even on a safe edge. */
  ghost predicate RelationsGuarded(root: Redirect, nodes: set<string>, e0: map<nat, Relation>, e: map<nat, Relation>) {
    && TouchedOf(root, e0, e) && e.Values <= Lineage(root, nodes, e0)
    && Secured(root, nodes, e0, e0) <= Secured(root, nodes, e0, e)
  }

  lemma GuardedIsKept(root: Redirect, nodes: set<string>, e0: map<nat, Relation>, e: map<nat, Relation>)
    requires RelationsGuarded(root, nodes, e0, e)
    ensures RelationsKept(root, nodes, e0, e)
  {
  }

  lemma InSecured(root: Redirect, nodes: set<string>, e0: map<nat, Relation>, edges: map<nat, Relation>, k: nat)
    requires k in edges && Safe(root, nodes, e0, edges[k])
    ensures Triple(root, edges[k]) in Secured(root, nodes, e0, edges)
  {
  }

  /** No fact lands that did not at the start. */
  lemma NoNewFact(root: Redirect, nodes: set<string>, e0: map<nat, Relation>, e: map<nat, Relation>)
    requires Flat(root) && e.Values <= Lineage(root, nodes, e0)
    ensures Landed(root, nodes, e) <= Landed(root, nodes, e0)
  {
    forall k | k in e && Counts(root, nodes, e[k])
      ensures Triple(root, e[k]) in Landed(root, nodes, e0)
    {
      assert e[k] in Lineage(root, nodes, e0);
      if e[k] in e0.Values {
        var i :| i in e0 && e0[i] == e[k];
        InLanded(root, nodes, e0, i);
      } else {
        var r :| r in e0.Values && Counts(root, nodes, r) && e[k] == Rerouted(root, r);
        var i :| i in e0 && e0[i] == r;
        if Touched(root, r) {
          RerouteLands(root, r);
        }
        InLanded(root, nodes, e0, i);
      }
    }
  }

  lemma InLanded(root: Redirect, nodes: set<string>, edges: map<nat, Relation>, k: nat)
    requires k in edges && Counts(root, nodes, edges[k])
    ensures Triple(root, edges[k]) in Landed(root, nodes, edges)
  {
  }

  lemma RerouteLands(root: Redirect, r: Relation)
    requires Flat(root) && Touched(root, r) && !FoldsAway(root, r)
    ensures !Touched(root, Rerouted(root, r)) && Triple(root, Rerouted(root, r)) == Triple(root, r) && !SameEdge(Rerouted(root, r), r)
  {
  }

  /** The CREATE of a row of the start keeps every secure fact. */
  lemma RerouteKeeps(root: Redirect, nodes: set<string>, e0: map<nat, Relation>, e: map<nat, Relation>, id: nat, row: Relation)
    requires Flat(root) && RelationsGuarded(root, nodes, e0, e) && id !in e
    requires row in e0.Values && Touched(root, row) && Counts(root, nodes, row)
    ensures RelationsGuarded(root, nodes, e0, e[id := Rerouted(root, row)])
  {
    var a := e[id := Rerouted(root, row)];
    RerouteLands(root, row);
    forall t | t in Secured(root, nodes, e0, e0)
      ensures t in Secured(root, nodes, e0, a)
    {
      assert t in Secured(root, nodes, e0, e);
      var k :| k in e && Safe(root, nodes, e0, e[k]) && t == Triple(root, e[k]);
      assert a[k] == e[k];
      InSecured(root, nodes, e0, a, k);
    }
    assert a.Values <= e.Values + {Rerouted(root, row)};
  }

  function WithoutEdge(e: map<nat, Relation>, row: Relation): map<nat, Relation> {
    map k | k in e && !SameEdge(e[k], row) :: e[k]
  }

  /** The DELETE keeps every secure fact, if the row folds away, does not land, or has been rerouted. */
  lemma DeleteKeeps(root: Redirect, nodes: set<string>, e0: map<nat, Relation>, e: map<nat, Relation>, row: Relation)
    requires Flat(root) && RelationsGuarded(root, nodes, e0, e) && row in e0.Values && Touched(root, row)
    requires Counts(root, nodes, row) ==> Rerouted(root, row) in e.Values
    ensures RelationsGuarded(root, nodes, e0, WithoutEdge(e, row))
  {
    var h := WithoutEdge(e, row);
    forall t | t in Secured(root, nodes, e0, e0)
      ensures t in Secured(root, nodes, e0, h)
    {
      assert t in Secured(root, nodes, e0, e);
      var k :| k in e && Safe(root, nodes, e0, e[k]) && t == Triple(root, e[k]);
      if SameEdge(e[k], row) {
        TakenIsRerouted(root, nodes, e0, e, row, k);
        var c :| c in e && e[c] == Rerouted(root, row);
        RerouteLands(root, row);
        assert h[c] == e[c];
        InSecured(root, nodes, e0, h, c);
      } else {
        assert h[k] == e[k];
        InSecured(root, nodes, e0, h, k);
      }
    }
    assert h.Values <= e.Values;
  }

  /** A safe edge that the DELETE of a row takes has the fact of the row, and lands where it does. */
  lemma TakenIsRerouted(root: Redirect, nodes: set<string>, e0: map<nat, Relation>, e: map<nat, Relation>, row: Relation, k: nat)
    requires row in e0.Values && Touched(root, row) && k in e && SameEdge(e[k], row) && Safe(root, nodes, e0, e[k])
    ensures Counts(root, nodes, row) && Triple(root, e[k]) == Triple(root, row)
  {
    var i :| i in e0 && e0[i] == row;
    assert SameEdge(e0[i], e[k]);
  }

  // ---------------------------------------------------------------------------------------------
  // What every statement of a run keeps

  /** From one statement to the next only emptied victims disappear. */
  ghost predicate OnlyEmptied(victims: set<string>, a: Graph, b: Graph) {
    && b.episodics == a.episodics && b.entities <= a.entities
    && forall v | v in a.entities - b.entities :: v in victims && a.EdgeFree(v)
  }

  ghost predicate Intact(root: Redirect, g0: Graph, g: Graph) {
    && Pairs(root, g) == Pairs(root, g0)
    && MentionsKept(root, g0.entities, g0.mentions, g.mentions)
    && RelationsKept(root, g0.entities, g0.relations, g.relations)
    && g.episodics == g0.episodics && g0.entities - root.Keys <= g.entities <= g0.entities
  }

  ghost predicate SafeMoment(root: Redirect, g0: Graph, a: Moment, b: Moment) {
    b.graph.Sound() && Intact(root, g0, b.graph) && OnlyEmptied(root.Keys, a.graph, b.graph) && b.undo == a.undo
  }

  ghost predicate SafeStep(root: Redirect, g0: Graph, history: seq<Moment>, i: nat)
    requires 0 < i < |history|
  {
    SafeMoment(root, g0, history[i - 1], history[i])
  }

  /** Every moment recorded from position `from` on is safe; the fold started from `g0`. */
  ghost predicate SafeSince(root: Redirect, g0: Graph, history: seq<Moment>, from: nat) {
    && 0 < from <= |history| && history[from - 1].graph == g0
    && forall i | from <= i < |history| :: SafeStep(root, g0, history, i)
  }

  lemma StartIsIntact(root: Redirect, g: Graph)
    ensures Intact(root, g, g) && RelationsGuarded(root, g.entities, g.relations, g.relations)
  {
    GuardedIsKept(root, g.entities, g.relations, g.relations);
  }

  lemma NowIntact(root: Redirect, g0: Graph, history: seq<Moment>, from: nat)
    requires SafeSince(root, g0, history, from)
    ensures Intact(root, g0, history[|history| - 1].graph)
  {
    if |history| > from {
      assert SafeStep(root, g0, history, |history| - 1);
    } else {
      StartIsIntact(root, g0);
    }
  }

  lemma SafeExtension(root: Redirect, g0: Graph, history: seq<Moment>, from: nat, m: Moment)
    requires SafeSince(root, g0, history, from) && SafeMoment(root, g0, history[|history| - 1], m)
    ensures SafeSince(root, g0, history + [m], from)
  {
    forall i | from <= i < |history + [m]|
      ensures SafeStep(root, g0, history + [m], i)
    {
      assert i < |history| ==> SafeStep(root, g0, history, i);
    }
  }

  /** A statement that only touches edges and leaves their image intact extends a safe history. */
  lemma EdgeStatementSafe(root: Redirect, g0: Graph, history: seq<Moment>, from: nat, m: Moment)
    requires SafeSince(root, g0, history, from) && Intact(root, g0, m.graph) && m.graph.Sound()
    requires
      var last := history[|history| - 1];
      m.undo == last.undo && m.graph.episodics == last.graph.episodics && m.graph.entities == last.graph.entities
    ensures SafeSince(root, g0, history + [m], from)
  {
    SafeExtension(root, g0, history, from, m);
  }

  // ---------------------------------------------------------------------------------------------
  // When the triples themselves are kept

  /** Every relation the fold moves finds its new end points, or leaves its fact to a relation it does not touch. */
  ghost predicate Landing(root: Redirect, g: Graph) {
    forall k | k in g.relations && Touched(root, g.relations[k]) && !FoldsAway(root, g.relations[k]) ::
      Lands(root, g.entities, g.relations[k]) || StandIn(root, g, g.relations[k])
  }

  ghost predicate StandIn(root: Redirect, g: Graph, r: Relation) {
    exists j :: j in g.relations && !Touched(root, g.relations[j]) && Triple(root, g.relations[j]) == Triple(root, r)
  }

  /** What a fold keeps is all there is exactly when every moved relation lands or has a stand-in. */
  lemma LandedIsAllIff(root: Redirect, g: Graph)
    ensures Landed(root, g.entities, g.relations) == Triples(root, g) <==> Landing(root, g)
  {
    if Landing(root, g) {
      forall t | t in Triples(root, g)
        ensures t in Landed(root, g.entities, g.relations)
      {
        var k :| k in g.relations && !FoldsAway(root, g.relations[k]) && t == Triple(root, g.relations[k]);
        if !Counts(root, g.entities, g.relations[k]) {
          var j :| j in g.relations && !Touched(root, g.relations[j]) && Triple(root, g.relations[j]) == t;
          InLanded(root, g.entities, g.relations, j);
        } else {
          InLanded(root, g.entities, g.relations, k);
        }
      }
    } else {
      var k :| k in g.relations && Touched(root, g.relations[k]) && !FoldsAway(root, g.relations[k])
               && !Lands(root, g.entities, g.relations[k]) && !StandIn(root, g, g.relations[k]);
      assert Triple(root, g.relations[k]) in Triples(root, g);
      NotLanded(root, g, k);
    }
  }

  lemma NotLanded(root: Redirect, g: Graph, k: nat)
    requires k in g.relations && !Lands(root, g.entities, g.relations[k]) && !StandIn(root, g, g.relations[k])
    ensures Triple(root, g.relations[k]) !in Landed(root, g.entities, g.relations)
  {
    forall j | j in g.relations && Counts(root, g.entities, g.relations[j])
      ensures Triple(root, g.relations[j]) != Triple(root, g.relations[k])
    {
    }
  }

  /** The facts no order of the statements can lose. */
  ghost function SecureFacts(root: Redirect, g: Graph): set<(string, string, string)> {
    Secured(root, g.entities, g.relations, g.relations)
  }

  ghost predicate AllSecure(root: Redirect, g: Graph) {
    Triples(root, g) <= SecureFacts(root, g)
  }

  /** Wherever a run stands, every secure fact is there and none is new. */
  lemma TriplesAreKept(root: Redirect, g0: Graph, g: Graph)
    requires Flat(root) && RelationsKept(root, g0.entities, g0.relations, g.relations)
    ensures SecureFacts(root, g0) <= Triples(root, g) <= Triples(root, g0)
  {
    forall t | t in Triples(root, g)
      ensures t in Triples(root, g0)
    {
      var k :| k in g.relations && !FoldsAway(root, g.relations[k]) && t == Triple(root, g.relations[k]);
      if Touched(root, g.relations[k]) {
        assert g0.relations[k] == g.relations[k];
      } else {
        NoNewFact(root, g0.entities, g0.relations, g.relations);
        InLanded(root, g0.entities, g.relations, k);
        LandedIsThere(root, g0.entities, g0, t);
      }
    }
    forall t | t in SecureFacts(root, g0)
      ensures t in Triples(root, g)
    {
      assert t in Landed(root, g0.entities, g.relations);
      LandedIsThere(root, g0.entities, g, t);
    }
  }

  lemma LandedIsThere(root: Redirect, nodes: set<string>, g: Graph, t: (string, string, string))
    requires t in Landed(root, nodes, g.relations)
    ensures t in Triples(root, g)
  {
    var k :| k in g.relations && Counts(root, nodes, g.relations[k]) && t == Triple(root, g.relations[k]);
    assert !FoldsAway(root, g.relations[k]);
  }

  /** Landing relations one DELETE takes together have one fact. */
  ghost predicate Agreeing(root: Redirect, nodes: set<string>, edges: map<nat, Relation>) {
    forall k | k in edges && Touched(root, edges[k]) && Counts(root, nodes, edges[k]) :: Agrees(edges, edges[k])
  }

  /** Then whatever lands is secure. */
  lemma AgreeingIsSecure(root: Redirect, nodes: set<string>, edges: map<nat, Relation>)
    requires Agreeing(root, nodes, edges)
    ensures Secured(root, nodes, edges, edges) == Landed(root, nodes, edges)
  {
    forall k | k in edges && Counts(root, nodes, edges[k])
      ensures Triple(root, edges[k]) in Secured(root, nodes, edges, edges)
    {
      InSecured(root, nodes, edges, edges, k);
    }
  }
}
