/** `cluster_graph` as a whole: its loop, its result, and what the result means. */
module EntityClusters {
  import opened Options
  import opened Orders
  import opened Propagation
  import opened Cycles
  import opened GraphComponents
  import opened Clustering
  import PartitionBlob

  /** How the label loop ended. */
  datatype Outcome = Outcome(rounds: nat, labels: Labels, converged: bool, cycle: bool, oscillating: set<string>)

  /** The report. `blob` is the text whose truncated digest is reported as the partition hash. */
  datatype ClusterResult = ClusterResult(
    nodes: nat,
    communities: nat,
    rounds: nat,
    converged: bool,
    cycleDetected: bool,
    oscillatingNodes: nat,
    pinnedNodes: nat,
    components: nat,
    largestComponent: nat,
    largestCommunity: nat,
    minDegree: int,
    blob: string,
    oversized: bool)

  // ---------------------------------------------------------------------------------------------
  // Specification

  function Pinned(g: Adjacency, minDegree: int): set<string> {
    set u | u in g && |g[u]| < minDegree
  }

  function NetOf(g: Adjacency, minDegree: int): Net {
    Net(Listing(g.Keys), g, Pinned(g, minDegree))
  }

  ghost function Rank(nodes: seq<string>, u: string): (i: nat)
    requires u in nodes
    ensures i < |nodes| && nodes[i] == u
  {
    var i: nat :| i < |nodes| && nodes[i] == u; i
  }

  /** Every node starts with its rank in the sorted node list. */
  ghost function Seeds(net: Net): Labels {
    map u | u in net.nodes :: Rank(net.nodes, u)
  }

  /** The round at which the loop stops: the first that repeats a labelling, or the cap. */
  ghost function StopRound(r: nat -> Labels, cap: int, t: nat): nat
    decreases cap - t
  {
    if t >= cap || Revisits(r, t) then t else StopRound(r, cap, t + 1)
  }

  ghost function Alternating(r: nat -> Labels, t: nat): set<string> {
    set u | u in r(t) && u in r(t + 1) && r(t)[u] != r(t + 1)[u]
  }

  ghost function ClassKeeper(g: Adjacency, oscillating: set<string>, u: string): (k: string)
    requires u in oscillating && oscillating <= g.Keys
    ensures k in oscillating && k in Class(g, u)
    ensures forall v | v in oscillating && v in Class(g, u) :: StrLeq(k, v)
  {
    assert u in oscillating * Class(g, u);
    Keeper(oscillating * Class(g, u))
  }

  /** Every alternating node takes the label of the smallest alternating node of its component. */
  ghost function ResolvedByClass(g: Adjacency, x: Labels, oscillating: set<string>): (y: Labels)
    requires oscillating <= x.Keys && oscillating <= g.Keys
    ensures y.Keys == x.Keys
  {
    map u | u in x :: if u in oscillating then x[ClassKeeper(g, oscillating, u)] else x[u]
  }

  ghost predicate AllOver(g: Adjacency, r: nat -> Labels) {
    forall t: nat :: r(t).Keys == g.Keys
  }

  lemma RoundsAreOver(net: Net, x: Labels)
    requires x.Keys == net.adj.Keys
    ensures AllOver(net.adj, Rounds(net, x))
  {
  }

  /** How the loop over at most `cap` rounds ends when the labellings are those of `r`. */
  ghost function SettledFrom(g: Adjacency, r: nat -> Labels, cap: int): Outcome
    requires AllOver(g, r)
  {
    var n := StopRound(r, cap, 0);
    if n > 0 && r(n) == r(n - 1) then Outcome(n, r(n), true, false, {})
    else if n > 0 && Revisits(r, n) then
      var oscillating := Alternating(r, n - 1);
      Outcome(n, ResolvedByClass(g, r(n), oscillating), false, true, oscillating)
    else Outcome(n, r(n), false, false, {})
  }

  /** The same when it starts from the labelling `x`. */
  ghost function Settled(net: Net, x: Labels, cap: int): Outcome
    requires net.Valid() && x.Keys == net.adj.Keys
  {
    RoundsAreOver(net, x);
    SettledFrom(net.adj, Rounds(net, x), cap)
  }

  predicate NatGeq(a: nat, b: nat) {
    a >= b
  }

  function Largest(sizes: set<nat>): (m: nat)
    ensures forall n | n in sizes :: n <= m
    ensures if sizes == {} then m == 0 else m in sizes
  {
    if sizes == {} then 0 else Least(NatGeq, sizes)
  }

  function SizeOf(x: Labels, lab: nat): nat {
    |PartitionBlob.Members(x, lab)|
  }

  function CommunitySizes(x: Labels): set<nat> {
    set l | l in x.Values :: SizeOf(x, l)
  }

  ghost function ComponentSizes(g: Adjacency): set<nat> {
    set u | u in g :: |Class(g, u)|
  }

  /** The report on the undirected graph `g`; an empty graph is reported as converged in no rounds. */
  ghost function Report(g: Adjacency, minDegree: int, cap: int): ClusterResult
    requires Undirected(g)
  {
    if g == map[] then ClusterResult(0, 0, 0, true, false, 0, 0, 0, 0, 0, minDegree, PartitionBlob.Blob(map[]), false)
    else
      var o := Final(g, minDegree, cap);
      var component, community := Largest(ComponentSizes(g)), Largest(CommunitySizes(o.labels));
      ClusterResult(|g|, |o.labels.Values|, o.rounds, o.converged, o.cycle, |o.oscillating|, |Pinned(g, minDegree)|,
                    |Components(g)|, component, community, minDegree, PartitionBlob.Blob(o.labels), community > component)
  }

  ghost function Final(g: Adjacency, minDegree: int, cap: int): Outcome
    requires Undirected(g)
  {
    var net := NetOf(g, minDegree);
    NetIsValid(g, minDegree);
    SeedsLabel(net);
    Settled(net, Seeds(net), cap)
  }

  // ---------------------------------------------------------------------------------------------
  // The loop

  lemma NetIsValid(g: Adjacency, minDegree: int)
    requires Undirected(g)
    ensures NetOf(g, minDegree).Valid()
  {
    ListingHolds(g.Keys);
  }

  lemma SeedsLabel(net: Net)
    requires net.Valid()
    ensures net.Labelling(Seeds(net))
  {
  }

  lemma StopRoundIs(r: nat -> Labels, cap: int, t: nat, n: nat)
    requires t <= n && (t < n ==> n <= cap) && (forall j: nat | t <= j < n :: !Revisits(r, j))
    requires n >= cap || Revisits(r, n)
    ensures StopRound(r, cap, t) == n
    decreases n - t
  {
    if t < n {
      StopRoundIs(r, cap, t + 1, n);
    }
  }

  ghost predicate Seen(r: nat -> Labels, seen: set<Labels>, t: nat) {
    (forall x | x in seen :: exists s: nat :: s <= t && r(s) == x) && (forall s: nat | s <= t :: r(s) in seen)
  }

  method Seed(net: Net) returns (x: Labels)
    requires net.Valid()
    ensures x == Seeds(net)
  {
    x := map[];
    for i := 0 to |net.nodes|
      invariant forall u :: u in x <==> exists j: nat :: j < i && net.nodes[j] == u
      invariant forall u | u in x :: u in net.nodes && x[u] == Rank(net.nodes, u)
    {
      assert Rank(net.nodes, net.nodes[i]) == i;
      x := x[net.nodes[i] := i];
    }
  }

  ghost predicate Fresh(r: nat -> Labels, t: nat) {
    forall j: nat | j <= t :: !Revisits(r, j)
  }

  /** `seen` holds the labellings of the rounds up to `t`, all of them different. */
  ghost predicate Explored(r: nat -> Labels, seen: set<Labels>, t: nat) {
    Seen(r, seen, t) && Fresh(r, t)
  }

  lemma SeenIffRevisits(r: nat -> Labels, seen: set<Labels>, t: nat)
    requires Seen(r, seen, t)
    ensures r(t + 1) in seen <==> Revisits(r, t + 1)
  {
    if r(t + 1) in seen {
      var s: nat :| s <= t && r(s) == r(t + 1);
    }
  }

  lemma ExploreOne(r: nat -> Labels, seen: set<Labels>, t: nat)
    requires Explored(r, seen, t)
    ensures r(t + 1) in seen <==> Revisits(r, t + 1)
    ensures r(t + 1) !in seen ==> Explored(r, seen + {r(t + 1)}, t + 1)
  {
    SeenIffRevisits(r, seen, t);
    forall y: Labels | y in seen
      ensures exists s: nat :: s <= t + 1 && r(s) == y
    {
      var s: nat :| s <= t && r(s) == y;
    }
  }

  lemma StartExplored(net: Net, x: Labels)
    requires x.Keys == net.adj.Keys
    ensures LoopAt(Rounds(net, x), {x}, x, 0)
  {
  }

  /** The loop holds the labelling of round `t`, and has met all labellings up to it, each once. */
  ghost predicate LoopAt(r: nat -> Labels, seen: set<Labels>, labels: Labels, t: nat) {
    labels == r(t) && Explored(r, seen, t)
  }

  /** How the loop over at most `cap` rounds stopped; `before` is what its last round started from. */
  ghost predicate Stopped(r: nat -> Labels, cap: int, labels: Labels, before: Labels, t: nat, converged: bool, cycle: bool) {
    && t == StopRound(r, cap, 0)
    && labels == r(t)
    && converged == (t > 0 && r(t) == r(t - 1))
    && cycle == (!converged && Revisits(r, t))
    && (cycle ==> t > 0 && before == r(t - 1))
  }

  lemma StopsAtCap(r: nat -> Labels, seen: set<Labels>, cap: int, t: nat, labels: Labels)
    requires LoopAt(r, seen, labels, t) && t >= cap && (t <= cap || t == 0)
    ensures Stopped(r, cap, labels, labels, t, false, false)
  {
    StopRoundIs(r, cap, 0, t);
    assert !Revisits(r, t);
  }

  datatype LoopState = LoopState(seen: set<Labels>, labels: Labels, before: Labels, rounds: nat, converged: bool, cycle: bool) {
    ghost predicate Sound(r: nat -> Labels, cap: int) {
      if converged || cycle then Stopped(r, cap, labels, before, rounds, converged, cycle)
      else LoopAt(r, seen, labels, rounds) && before == labels && (rounds <= cap || rounds == 0)
    }

    ghost predicate Final(r: nat -> Labels, cap: int) {
      Stopped(r, cap, labels, before, rounds, converged, cycle)
    }
  }

  /** The body of the round loop. It leaves `before` behind when it stops on a repeated labelling. */
  function Pass(s: LoopState, labels: Labels): (s': LoopState)
    ensures s'.rounds == s.rounds + 1 && s'.labels == labels
  {
    if labels == s.before then LoopState(s.seen, labels, s.before, s.rounds + 1, true, false)
    else if labels in s.seen then LoopState(s.seen, labels, s.before, s.rounds + 1, false, true)
    else LoopState(s.seen + {labels}, labels, labels, s.rounds + 1, false, false)
  }

  lemma PassIsSound(r: nat -> Labels, cap: int, s: LoopState, labels: Labels)
    requires s.Sound(r, cap) && !s.converged && !s.cycle && s.rounds < cap && labels == r(s.rounds + 1)
    ensures Pass(s, labels).Sound(r, cap)
  {
    ExploreOne(r, s.seen, s.rounds);
    if labels in s.seen {
      StopRoundIs(r, cap, 0, s.rounds + 1);
    }
  }

  lemma SoundState(r: nat -> Labels, cap: int, s: LoopState)
    requires s.Sound(r, cap) && !s.converged && !s.cycle
    ensures s.labels == r(s.rounds)
  {
  }

  /** One round on the labellings of `r`, of which the next is known to follow by the rule. */
  method OneRound(net: Net, ghost r: nat -> Labels, ghost cap: int, s: LoopState) returns (s': LoopState)
    requires net.Valid() && net.Labelling(s.labels) && net.Step(s.labels) == r(s.rounds + 1)
    requires s.Sound(r, cap) && s.rounds < cap && !s.converged && !s.cycle
    ensures s'.Sound(r, cap) && s'.rounds == s.rounds + 1
  {
    var labels := Propagate(net, s.labels);
    PassIsSound(r, cap, s, labels);
    s' := Pass(s, labels);
  }

  lemma NextIsKnown(net: Net, x: Labels, cap: int, s: LoopState)
    requires net.Valid() && net.Labelling(x) && s.Sound(Rounds(net, x), cap) && !s.converged && !s.cycle
    ensures net.Labelling(s.labels) && net.Step(s.labels) == Rounds(net, x)(s.rounds + 1)
  {
    SoundState(Rounds(net, x), cap, s);
    RunIsLabelling(net, x, s.rounds);
    RunNext(net, x, s.rounds);
  }

  /** The round loop. */
  method Settle(net: Net, x: Labels, cap: int) returns (s: LoopState)
    requires net.Valid() && net.Labelling(x)
    ensures s.Final(Rounds(net, x), cap)
  {
    StartExplored(net, x);
    s := LoopState({x}, x, x, 0, false, false);
    while s.rounds < cap && !s.converged && !s.cycle
      invariant s.Sound(Rounds(net, x), cap)
      decreases cap - s.rounds
    {
      NextIsKnown(net, x, cap, s);
      s := OneRound(net, Rounds(net, x), cap, s);
    }
    if !s.converged && !s.cycle {
      StopsAtCap(Rounds(net, x), s.seen, cap, s.rounds, s.labels);
    }
  }

  // ---------------------------------------------------------------------------------------------
  // The whole computation

  ghost function Holders(x: Labels, done: set<string>, lab: nat): set<string> {
    set u | u in done && u in x && x[u] == lab
  }

  ghost predicate SizedAt(holders: set<string>, sizes: map<nat, nat>, lab: nat) {
    if lab in sizes then sizes[lab] == |holders| > 0 else holders == {}
  }

  ghost predicate Sized(x: Labels, done: set<string>, sizes: map<nat, nat>) {
    forall l: nat :: SizedAt(Holders(x, done, l), sizes, l)
  }

  lemma SizedGrows(x: Labels, done: set<string>, sizes: map<nat, nat>, node: string)
    requires Sized(x, done, sizes) && node in x && node !in done
    ensures Sized(x, done + {node}, sizes[x[node] := (if x[node] in sizes then sizes[x[node]] else 0) + 1])
  {
    var after := sizes[x[node] := (if x[node] in sizes then sizes[x[node]] else 0) + 1];
    forall l: nat
      ensures SizedAt(Holders(x, done + {node}, l), after, l)
    {
      assert SizedAt(Holders(x, done, l), sizes, l);
      assert Holders(x, done + {node}, l) == Holders(x, done, l) + if x[node] == l then {node} else {};
    }
  }

  lemma SizedIsCommunitySizes(x: Labels, sizes: map<nat, nat>)
    requires Sized(x, x.Keys, sizes)
    ensures sizes.Keys == x.Values && sizes.Values == CommunitySizes(x)
    ensures forall l | l in sizes :: sizes[l] == SizeOf(x, l)
  {
    forall l: nat
      ensures l in sizes <==> l in x.Values
      ensures l in sizes ==> sizes[l] == SizeOf(x, l)
    {
      assert SizedAt(Holders(x, x.Keys, l), sizes, l);
      assert Holders(x, x.Keys, l) == PartitionBlob.Members(x, l);
      if u :| u in x && x[u] == l {
        assert u in Holders(x, x.Keys, l);
      }
    }
    forall l | l in x.Values
      ensures SizeOf(x, l) in sizes.Values
    {
      assert sizes[l] == SizeOf(x, l);
    }
  }

  method Sizes(labels: Labels) returns (sizes: map<nat, nat>)
    ensures sizes.Keys == labels.Values && sizes.Values == CommunitySizes(labels)
    ensures forall l | l in sizes :: sizes[l] == SizeOf(labels, l)
  {
    sizes := map[];
    var done, todo := {}, labels.Keys;
    while todo != {}
      invariant done == labels.Keys - todo
      invariant Sized(labels, done, sizes)
      decreases todo
    {
      var node :| node in todo;
      var lab := labels[node];
      SizedGrows(labels, done, sizes, node);
      sizes := sizes[lab := (if lab in sizes then sizes[lab] else 0) + 1];
      done, todo := done + {node}, todo - {node};
    }
    assert done == labels.Keys;
    SizedIsCommunitySizes(labels, sizes);
  }

  lemma FirstComponentIsLargest(g: Adjacency)
    requires Undirected(g)
    ensures Largest(ComponentSizes(g)) == if Components(g) == [] then 0 else |Components(g)[0]|
  {
    ComponentsInOrder(g);
    var comps := Components(g);
    forall u | u in g
      ensures comps != [] && |Class(g, u)| <= |comps[0]|
    {
      EveryClassListed(g, u);
      ListingHolds(Class(g, u));
      assert Listing(Class(g, u)) in comps;
    }
    if comps != [] {
      SomeComponentMember(g, comps[0]);
    }
  }

  lemma ListedClass(g: Adjacency, c: seq<string>) returns (a: string)
    requires Undirected(g) && c in Components(g)
    ensures a in g && a in Class(g, a) && c == Listing(Class(g, a))
  {
    ListAllHolds(Classes(g));
    var class' :| class' in Classes(g) && c == Listing(class');
    a :| a in g.Keys && ClassOf(g)(a) == class';
  }

  lemma SomeComponentMember(g: Adjacency, c: seq<string>)
    requires Undirected(g) && c in Components(g)
    ensures |c| in ComponentSizes(g)
  {
    var a := ListedClass(g, c);
    ListingHolds(Class(g, a));
    assert |c| == |Class(g, a)|;
  }

  lemma KeeperByComponent(g: Adjacency, oscillating: set<string>, compOf: map<string, nat>, u: string)
    requires Undirected(g) && u in oscillating && oscillating <= g.Keys && Indexes(g, compOf)
    ensures KeeperOf(oscillating, Some(compOf), u) == ClassKeeper(g, oscillating, u)
  {
    forall v | v in oscillating
      ensures compOf[u] == compOf[v] <==> v in Class(g, u)
    {
      IndexSeparatesClasses(g, compOf, u, v);
    }
    assert Group(oscillating, Some(compOf), compOf[u]) == oscillating * Class(g, u);
  }

  ghost predicate Indexes(g: Adjacency, compOf: map<string, nat>) {
    forall u | u in g :: u in compOf && compOf[u] < |Components(g)| && u in Components(g)[compOf[u]]
  }

  lemma ResolutionsAgree(g: Adjacency, x: Labels, oscillating: set<string>, compOf: map<string, nat>)
    requires Undirected(g) && oscillating <= g.Keys && oscillating <= x.Keys && Indexes(g, compOf)
    ensures Resolved(x, oscillating, Some(compOf)) == ResolvedByClass(g, x, oscillating)
  {
    forall u | u in oscillating
      ensures KeeperOf(oscillating, Some(compOf), u) == ClassKeeper(g, oscillating, u)
    {
      KeeperByComponent(g, oscillating, compOf, u);
    }
  }

  lemma EveryNodeIndexed(g: Adjacency, compOf: map<string, nat>)
    requires Undirected(g)
    requires forall v :: v in compOf <==> exists k :: 0 <= k < |Components(g)| && v in Components(g)[k]
    requires forall v | v in compOf :: compOf[v] < |Components(g)| && v in Components(g)[compOf[v]]
    ensures Indexes(g, compOf)
  {
    forall u | u in g
      ensures u in compOf
    {
      EveryClassListed(g, u);
      assert Listing(Class(g, u)) in Components(g);
    }
  }

  method Resolve(g: Adjacency, x: Labels, oscillating: set<string>, comps: seq<seq<string>>) returns (out: Labels)
    requires Undirected(g) && comps == Components(g) && oscillating <= x.Keys && oscillating <= g.Keys
    ensures out == ResolvedByClass(g, x, oscillating)
  {
    var compOf := ComponentIndex(comps);
    EveryNodeIndexed(g, compOf);
    ResolutionsAgree(g, x, oscillating, compOf);
    out := ResolveCycle(x, oscillating, Some(compOf));
  }

  /** The label loop and the resolution of its final cycle. */
  method ClusterLabels(g: Adjacency, net: Net, comps: seq<seq<string>>, cap: int) returns (o: Outcome)
    requires Undirected(g) && net.Valid() && net.adj == g && comps == Components(g)
    ensures o == Settled(net, Seeds(net), cap)
  {
    var seeds := Seed(net);
    SeedsLabel(net);
    var s := Settle(net, seeds, cap);
    var labels, before, rounds, converged := s.labels, s.before, s.rounds, s.converged;
    if s.cycle {
      var oscillating := set u | u in labels && u in before && labels[u] != before[u];
      AlternatingIs(Rounds(net, seeds), rounds, before, labels, oscillating);
      SettledInCycle(net, seeds, cap, rounds, labels);
      var resolved := Resolve(g, labels, oscillating, comps);
      return Outcome(rounds, resolved, false, true, oscillating);
    }
    SettledWithoutCycle(net, seeds, cap, rounds, labels, converged);
    return Outcome(rounds, labels, converged, false, {});
  }

  lemma InCycle(g: Adjacency, r: nat -> Labels, cap: int, n: nat, labels: Labels)
    requires AllOver(g, r) && n > 0 && n == StopRound(r, cap, 0) && labels == r(n) && Revisits(r, n) && labels != r(n - 1)
    ensures
      var oscillating := Alternating(r, n - 1);
      && oscillating <= labels.Keys && oscillating <= g.Keys
      && SettledFrom(g, r, cap) == Outcome(n, ResolvedByClass(g, labels, oscillating), false, true, oscillating)
  {
    assert r(n).Keys == g.Keys;
  }

  lemma SettledInCycle(net: Net, x: Labels, cap: int, n: nat, labels: Labels)
    requires net.Valid() && x.Keys == net.adj.Keys
    requires n > 0 && n == StopRound(Rounds(net, x), cap, 0) && labels == Rounds(net, x)(n)
    requires Revisits(Rounds(net, x), n) && labels != Rounds(net, x)(n - 1)
    ensures
      var oscillating := Alternating(Rounds(net, x), n - 1);
      && oscillating <= labels.Keys && oscillating <= net.adj.Keys
      && Settled(net, x, cap) == Outcome(n, ResolvedByClass(net.adj, labels, oscillating), false, true, oscillating)
  {
    RoundsAreOver(net, x);
    InCycle(net.adj, Rounds(net, x), cap, n, labels);
  }

  lemma WithoutCycle(g: Adjacency, r: nat -> Labels, cap: int, n: nat, labels: Labels, converged: bool)
    requires AllOver(g, r) && n == StopRound(r, cap, 0) && labels == r(n)
    requires converged == (n > 0 && labels == r(n - 1)) && (converged || !Revisits(r, n))
    ensures SettledFrom(g, r, cap) == Outcome(n, labels, converged, false, {})
  {
  }

  lemma SettledWithoutCycle(net: Net, x: Labels, cap: int, n: nat, labels: Labels, converged: bool)
    requires net.Valid() && x.Keys == net.adj.Keys
    requires n == StopRound(Rounds(net, x), cap, 0) && labels == Rounds(net, x)(n)
    requires converged == (n > 0 && labels == Rounds(net, x)(n - 1))
    requires converged || !Revisits(Rounds(net, x), n)
    ensures Settled(net, x, cap) == Outcome(n, labels, converged, false, {})
  {
    RoundsAreOver(net, x);
    WithoutCycle(net.adj, Rounds(net, x), cap, n, labels, converged);
  }

  lemma AlternatingIs(r: nat -> Labels, n: nat, before: Labels, labels: Labels, oscillating: set<string>)
    requires n > 0 && before == r(n - 1) && labels == r(n)
    requires oscillating == set u | u in labels && u in before && labels[u] != before[u]
    ensures oscillating == Alternating(r, n - 1)
  {
  }

  method ClusterGraph(raw: Adjacency, minDegree: int, maxRounds: int) returns (r: ClusterResult)
    ensures Undirected(Symmetrised(raw)) && r == Report(Symmetrised(raw), minDegree, maxRounds)
  {
    var g := Normalise(raw);
    SymmetrisedIsUndirected(raw);
    if g == map[] {
      var blob := PartitionBlob.PartitionText(map[]);
      return ClusterResult(0, 0, 0, true, false, 0, 0, 0, 0, 0, minDegree, blob, false);
    }
    var nodes := SortedNodes(g);
    var net := NetOf(g, minDegree);
    NetIsValid(g, minDegree);
    var comps := ConnectedComponents(g);
    var o := ClusterLabels(g, net, comps, maxRounds);
    var sizes := Sizes(o.labels);
    var largestCommunity := Largest(sizes.Values);
    FirstComponentIsLargest(g);
    var largestComponent := if comps == [] then 0 else |comps[0]|;
    var blob := PartitionBlob.PartitionText(o.labels);
    r := ClusterResult(|nodes|, |sizes|, o.rounds, o.converged, o.cycle, |o.oscillating|, |net.pinned|,
                       |comps|, largestComponent, largestCommunity, minDegree, blob, largestCommunity > largestComponent);
  }
}
