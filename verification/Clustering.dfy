/** The deterministic clustering of the entity graph: normalise, propagate, resolve the final cycle. */
module Clustering {
  import opened Orders
  import opened Propagation
  import opened Options

  // ---------------------------------------------------------------------------------------------
  // Normalisation

  predicate Lists(raw: Adjacency, u: string, v: string) {
    u in raw && v in raw[u]
  }

  function AllNodes(raw: Adjacency): set<string> {
    raw.Keys + set u, v | u in raw && v in raw[u] :: v
  }

  /** The undirected graph a caller describes, whichever endpoint it lists an edge under. */
  function Symmetrised(raw: Adjacency): Adjacency {
    map u | u in AllNodes(raw) ::
      set v | v in AllNodes(raw) && v != u && (Lists(raw, u, v) || Lists(raw, v, u))
  }

  lemma SymmetrisedIsUndirected(raw: Adjacency)
    ensures Undirected(Symmetrised(raw))
  {
  }

  /** Two descriptions normalise alike exactly when they name the same nodes and undirected edges. */
  lemma SymmetrisedEqualIff(a: Adjacency, b: Adjacency)
    ensures Symmetrised(a) == Symmetrised(b) <==>
      AllNodes(a) == AllNodes(b)
      && forall u, v | u != v :: (Lists(a, u, v) || Lists(a, v, u)) <==> (Lists(b, u, v) || Lists(b, v, u))
  {
    forall u, v | u != v
      ensures (Lists(a, u, v) || Lists(a, v, u)) <==> u in Symmetrised(a) && v in Symmetrised(a)[u]
      ensures (Lists(b, u, v) || Lists(b, v, u)) <==> u in Symmetrised(b) && v in Symmetrised(b)[u]
    {
      ListedIffNeighbour(a, u, v);
      ListedIffNeighbour(b, u, v);
    }
    if Symmetrised(a) == Symmetrised(b) {
      assert AllNodes(a) == Symmetrised(a).Keys == Symmetrised(b).Keys == AllNodes(b);
    } else if AllNodes(a) == AllNodes(b) {
      SameGraph(Symmetrised(a), Symmetrised(b));
    }
  }

  lemma SameGraph(g: Adjacency, h: Adjacency)
    ensures g == h <==> g.Keys == h.Keys && forall u, v | u in g && u in h :: v in g[u] <==> v in h[u]
  {
    if g.Keys == h.Keys && forall u, v | u in g && u in h :: v in g[u] <==> v in h[u] {
      forall u | u in g
        ensures g[u] == h[u]
      {
        assert forall v :: v in g[u] <==> v in h[u];
      }
    }
  }

  lemma ListedIffNeighbour(raw: Adjacency, u: string, v: string)
    requires u != v
    ensures (Lists(raw, u, v) || Lists(raw, v, u)) <==> u in Symmetrised(raw) && v in Symmetrised(raw)[u]
  {
  }

  /** Normalising what is already normal changes nothing. */
  lemma SymmetrisedIsIdempotent(g: Adjacency)
    requires Undirected(g)
    ensures Symmetrised(g) == g
  {
    assert AllNodes(g) == g.Keys;
    SameGraph(Symmetrised(g), g);
  }

  ghost predicate Covers(g: Adjacency, raw: Adjacency, done: set<string>, u: string, seen: set<string>) {
    && g.Keys == AllNodes(raw)
    && forall a, b | a in g :: b in g[a] <==>
         a != b && (Entered(raw, done, u, seen, a, b) || Entered(raw, done, u, seen, b, a))
  }

  ghost predicate Entered(raw: Adjacency, done: set<string>, u: string, seen: set<string>, a: string, b: string) {
    Lists(raw, a, b) && (a in done || (a == u && b in seen))
  }

  /** The normalising loops: every listed edge is entered under both endpoints. */
  method Normalise(raw: Adjacency) returns (g: Adjacency)
    ensures g == Symmetrised(raw)
  {
    g := map u | u in AllNodes(raw) :: {};
    var done, todo := {}, raw.Keys;
    while todo != {}
      invariant done == raw.Keys - todo
      invariant Covers(g, raw, done, "", {})
      decreases todo
    {
      var u :| u in todo;
      g := EnterEdges(raw, g, done, u);
      done, todo := done + {u}, todo - {u};
    }
    AllEntered(g, raw);
  }

  lemma AllEntered(g: Adjacency, raw: Adjacency)
    requires Covers(g, raw, raw.Keys, "", {})
    ensures g == Symmetrised(raw)
  {
    forall a, b | a in g
      ensures b in g[a] <==> b in Symmetrised(raw)[a]
    {
      if a != b {
        ListedIffNeighbour(raw, a, b);
      }
    }
    SameGraph(g, Symmetrised(raw));
  }

  method EnterEdges(raw: Adjacency, before: Adjacency, done: set<string>, u: string) returns (g: Adjacency)
    requires u in raw && Covers(before, raw, done, "", {})
    ensures Covers(g, raw, done + {u}, "", {})
  {
    g := before;
    var todo := raw[u];
    while todo != {}
      invariant todo <= raw[u]
      invariant Covers(g, raw, done, u, raw[u] - todo)
      decreases todo
    {
      var v :| v in todo;
      todo := todo - {v};
      if u != v {
        g := g[u := g[u] + {v}];
        g := g[v := g[v] + {u}];
      }
    }
  }

  // ---------------------------------------------------------------------------------------------
  // Cycle resolution

  function KeyOf(compOf: Option<map<string, nat>>, u: string): nat {
    if compOf.Some? && u in compOf.value then compOf.value[u] else 0
  }

  function Group(oscillating: set<string>, compOf: Option<map<string, nat>>, key: nat): set<string> {
    set v | v in oscillating && KeyOf(compOf, v) == key
  }

  function Keeper(group: set<string>): (u: string)
    requires group != {}
    ensures u in group && forall v | v in group :: StrLeq(u, v)
  {
    StrLeqTotal();
    Least(StrLeq, group)
  }

  function KeeperOf(oscillating: set<string>, compOf: Option<map<string, nat>>, u: string): (k: string)
    requires u in oscillating
    ensures k in oscillating && KeyOf(compOf, k) == KeyOf(compOf, u)
    ensures forall v | v in oscillating && KeyOf(compOf, v) == KeyOf(compOf, u) :: StrLeq(k, v)
  {
    assert u in Group(oscillating, compOf, KeyOf(compOf, u));
    Keeper(Group(oscillating, compOf, KeyOf(compOf, u)))
  }

  /** Every oscillating node takes the label of the smallest oscillating node of its group. */
  function Resolved(x: Labels, oscillating: set<string>, compOf: Option<map<string, nat>>): Labels
    requires oscillating <= x.Keys
  {
    map u | u in x :: if u in oscillating then x[KeeperOf(oscillating, compOf, u)] else x[u]
  }

  method ResolveCycle(labels: Labels, oscillating: set<string>, compOf: Option<map<string, nat>>) returns (out: Labels)
    requires oscillating <= labels.Keys
    ensures out == Resolved(labels, oscillating, compOf)
  {
    out := labels;
    var keys := set u | u in oscillating :: KeyOf(compOf, u);
    ghost var all := keys;
    while keys != {}
      invariant keys <= all
      invariant out.Keys == labels.Keys
      invariant forall u | u in labels && u !in oscillating :: out[u] == labels[u]
      invariant forall u | u in oscillating ::
        out[u] == labels[if KeyOf(compOf, u) in keys then u else KeeperOf(oscillating, compOf, u)]
      decreases keys
    {
      var key :| key in keys;
      keys := keys - {key};
      var group := Group(oscillating, compOf, key);
      ghost var member :| member in oscillating && KeyOf(compOf, member) == key;
      assert member in group;
      var keeper := Keeper(group);
      var keeperLabel := out[keeper];
      out := out + map node | node in group :: keeperLabel;
    }
  }

  // ---------------------------------------------------------------------------------------------
  // One round

  ghost function Ballots(net: Net, x: Labels, done: set<string>, lab: nat): set<string> {
    set v | v in done && v !in net.pinned && v in x && x[v] == lab
  }

  ghost predicate TalliedFor(ballots: set<string>, tally: map<nat, nat>, lab: nat) {
    (lab in tally <==> ballots != {}) && (lab in tally ==> tally[lab] == |ballots|)
  }

  ghost predicate Tallied(net: Net, x: Labels, done: set<string>, tally: map<nat, nat>) {
    forall l: nat :: TalliedFor(Ballots(net, x, done, l), tally, l)
  }

  function AddVote(tally: map<nat, nat>, lab: nat): map<nat, nat> {
    tally[lab := (if lab in tally then tally[lab] else 0) + 1]
  }

  lemma VoteTallied(net: Net, x: Labels, done: set<string>, v: string, tally: map<nat, nat>)
    requires v !in done && v in x && Tallied(net, x, done, tally)
    ensures Tallied(net, x, done + {v}, if v in net.pinned then tally else AddVote(tally, x[v]))
  {
    var after := if v in net.pinned then tally else AddVote(tally, x[v]);
    forall l: nat
      ensures TalliedFor(Ballots(net, x, done + {v}, l), after, l)
    {
      var before := Ballots(net, x, done, l);
      assert TalliedFor(before, tally, l);
      assert Ballots(net, x, done + {v}, l) == before + if v !in net.pinned && x[v] == l then {v} else {};
      assert v !in before;
    }
  }

  method Count(net: Net, x: Labels, u: string) returns (tally: map<nat, nat>)
    requires net.Valid() && x.Keys == net.adj.Keys && u in net.adj
    ensures Tallied(net, x, net.adj[u], tally)
  {
    tally := map[];
    var done, todo := {}, net.adj[u];
    while todo != {}
      invariant done == net.adj[u] - todo
      invariant Tallied(net, x, done, tally)
      decreases todo
    {
      var nb :| nb in todo;
      VoteTallied(net, x, done, nb, tally);
      if nb !in net.pinned {
        tally := AddVote(tally, x[nb]);
      }
      done, todo := done + {nb}, todo - {nb};
    }
    assert done == net.adj[u];
  }

  predicate Beats(tally: map<nat, nat>, a: nat, b: nat)
    requires a in tally && b in tally
  {
    tally[b] < tally[a] || (tally[b] == tally[a] && a <= b)
  }

  method Elect(tally: map<nat, nat>) returns (winner: nat)
    requires tally != map[]
    ensures winner in tally && forall l | l in tally :: Beats(tally, winner, l)
  {
    var todo := tally.Keys;
    winner :| winner in todo;
    while todo != {}
      invariant todo <= tally.Keys && winner in tally
      invariant forall l | l in tally && l !in todo :: Beats(tally, winner, l)
      decreases todo
    {
      var l :| l in todo;
      todo := todo - {l};
      if Beats(tally, l, winner) {
        winner := l;
      }
    }
  }

  method NewLabel(net: Net, x: Labels, u: string) returns (lab: nat)
    requires net.Valid() && net.Labelling(x) && u in net.adj
    ensures lab == net.NextLabel(x, u)
  {
    if u in net.pinned {
      return x[u];
    }
    var tally := Count(net, x, u);
    forall l: nat
      ensures TalliedFor(net.VotersFor(x, u, l), tally, l)
    {
      assert TalliedFor(Ballots(net, x, net.adj[u], l), tally, l);
      assert Ballots(net, x, net.adj[u], l) == net.VotersFor(x, u, l);
    }
    if tally == map[] {
      lab := x[u];
      VotersBackSomeLabel(net, x, u);
    } else {
      lab := Elect(tally);
      WinnerIsElected(net, x, u, tally, lab);
    }
  }

  lemma VotersBackSomeLabel(net: Net, x: Labels, u: string)
    requires net.Valid() && net.Labelling(x) && u in net.adj
    ensures net.Voters(u) != {} ==> exists l: nat :: net.VotersFor(x, u, l) != {}
  {
    if v :| v in net.Voters(u) {
      assert v in net.VotersFor(x, u, x[v]);
    }
  }

  lemma WinnerIsElected(net: Net, x: Labels, u: string, tally: map<nat, nat>, lab: nat)
    requires net.Valid() && net.Labelling(x) && u in net.adj
    requires forall l: nat :: TalliedFor(net.VotersFor(x, u, l), tally, l)
    requires lab in tally && forall l | l in tally :: Beats(tally, lab, l)
    ensures lab == net.NextLabel(x, u)
  {
    assert TalliedFor(net.VotersFor(x, u, lab), tally, lab);
    var voter: string :| voter in net.VotersFor(x, u, lab);
    forall other: nat | other < |net.adj|
      ensures net.Votes(x, u, other) < net.Votes(x, u, lab)
              || (net.Votes(x, u, other) == net.Votes(x, u, lab) && lab <= other)
    {
      assert TalliedFor(net.VotersFor(x, u, other), tally, other);
    }
    ElectionIsUnique(net, x, u, lab);
  }

  method Propagate(net: Net, x: Labels) returns (new': Labels)
    requires net.Valid() && net.Labelling(x)
    ensures new' == net.Step(x)
  {
    new' := map[];
    for i := 0 to |net.nodes|
      invariant forall j | 0 <= j < i :: net.nodes[j] in new'
      invariant forall u | u in new' :: u in x && new'[u] == net.NextLabel(x, u)
    {
      var lab := NewLabel(net, x, net.nodes[i]);
      new' := new'[net.nodes[i] := lab];
    }
    NewLabelsAreStep(net, x, new');
  }

  lemma NewLabelsAreStep(net: Net, x: Labels, new': Labels)
    requires net.Valid() && x.Keys == net.adj.Keys
    requires forall j | 0 <= j < |net.nodes| :: net.nodes[j] in new'
    requires forall u | u in new' :: u in x && new'[u] == net.NextLabel(x, u)
    ensures new' == net.Step(x)
  {
    forall u | u in x
      ensures u in new'
    {
      assert u in net.nodes;
    }
  }
}
