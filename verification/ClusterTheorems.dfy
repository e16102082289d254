/** What the clustering report means, for every graph, threshold and cap on the rounds. */
module ClusterTheorems {
  import opened Collections
  import opened Propagation
  import opened Cycles
  import opened GraphComponents
  import opened Clustering
  import opened EntityClusters
  import PartitionBlob

  lemma {:induction false} StopRoundHolds(r: nat -> Labels, cap: int, t: nat)
    ensures
      var n := StopRound(r, cap, t);
      && t <= n && (n == t || n <= cap)
      && (n >= cap || Revisits(r, n))
      && forall j: nat | t <= j < n :: !Revisits(r, j)
    decreases cap - t
  {
    if t < cap && !Revisits(r, t) {
      StopRoundHolds(r, cap, t + 1);
    }
  }

  /** `o` is what the loop reports about the labellings `r`. */
  ghost predicate Observes(r: nat -> Labels, cap: int, o: Outcome) {
    && o.rounds == StopRound(r, cap, 0)
    && o.converged == (o.rounds > 0 && r(o.rounds) == r(o.rounds - 1))
    && o.cycle == (!o.converged && o.rounds > 0 && Revisits(r, o.rounds))
    && o.oscillating == if o.cycle then Alternating(r, o.rounds - 1) else {}
  }

  lemma SettledFromObserves(g: Adjacency, r: nat -> Labels, cap: int)
    requires AllOver(g, r)
    ensures Observes(r, cap, SettledFrom(g, r, cap))
  {
  }

  lemma SettledObserves(net: Net, x: Labels, cap: int)
    requires net.Valid() && net.Labelling(x)
    ensures Observes(Rounds(net, x), cap, Settled(net, x, cap))
  {
    RoundsAreOver(net, x);
    SettledFromObserves(net.adj, Rounds(net, x), cap);
  }

  // ---------------------------------------------------------------------------------------------
  // Only cycles of length two

  lemma AlternatesFrom(r: nat -> Labels, w: nat -> int, s: nat, k: nat)
    requires Deterministic(r, w) && r(s + 2) == r(s)
    ensures Alternating(r, s + k) == Alternating(r, s)
  {
    Alternates(r, w, s, k);
    Alternates(r, w, s, k + 1);
  }

  /**
   The repeated labelling is the one of exactly two rounds earlier, and the nodes counted as
   oscillating are those that change in round `rounds - 1 + k`, for every `k`.
   */
  ghost predicate EndsInTwoCycle(r: nat -> Labels, o: Outcome, k: nat) {
    && o.rounds >= 2 && r(o.rounds) == r(o.rounds - 2)
    && o.oscillating == Alternating(r, o.rounds - 2 + k)
  }

  lemma ObservedCycle(r: nat -> Labels, w: nat -> int, cap: int, o: Outcome, k: nat)
    requires Deterministic(r, w) && Driven(r, w) && Observes(r, cap, o) && o.cycle
    ensures EndsInTwoCycle(r, o, k)
  {
    StopRoundHolds(r, cap, 0);
    FirstRevisitIsRecent(r, w, o.rounds);
    AlternatesFrom(r, w, o.rounds - 2, k);
    AlternatesFrom(r, w, o.rounds - 2, 1);
  }

  /** Whenever the loop stops on a repeated labelling it has found a cycle of length two. */
  lemma CycleHasLengthTwo(net: Net, x: Labels, cap: int, k: nat)
    requires net.Valid() && net.Labelling(x) && Settled(net, x, cap).cycle
    ensures EndsInTwoCycle(Rounds(net, x), Settled(net, x, cap), k)
  {
    SettledObserves(net, x, cap);
    RoundsAreDriven(net, x);
    ObservedCycle(Rounds(net, x), Potentials(net, x), cap, Settled(net, x, cap), k);
  }

  lemma ObservedEnd(r: nat -> Labels, cap: int, o: Outcome, bound: nat)
    requires Observes(r, cap, o)
    requires exists t: nat :: t <= bound && Revisits(r, t)
    ensures cap > bound ==> o.converged || o.cycle
    ensures !o.converged && !o.cycle ==> o.rounds == if cap > 0 then cap else 0
  {
    StopRoundHolds(r, cap, 0);
    assert !Revisits(r, 0);
  }

  /**
   With a cap above the bound the loop always ends by itself, at a fixed point or in a cycle; when it
   does not, it has used up its cap.
   */
  lemma LoopEndsByItself(net: Net, x: Labels, cap: int)
    requires net.Valid() && net.Labelling(x)
    ensures cap > RoundBound(net) + 1 ==> Settled(net, x, cap).converged || Settled(net, x, cap).cycle
    ensures !Settled(net, x, cap).converged && !Settled(net, x, cap).cycle ==>
      Settled(net, x, cap).rounds == if cap > 0 then cap else 0
  {
    SettledObserves(net, x, cap);
    SomeRoundRepeats(net, x);
    ObservedEnd(Rounds(net, x), cap, Settled(net, x, cap), RoundBound(net) + 1);
  }

  /** The report depends only on the nodes and the undirected edges a caller describes. */
  lemma ReportIgnoresPresentation(a: Adjacency, b: Adjacency, minDegree: int, cap: int)
    requires AllNodes(a) == AllNodes(b)
    requires forall u, v | u != v :: (Lists(a, u, v) || Lists(a, v, u)) <==> (Lists(b, u, v) || Lists(b, v, u))
    ensures Undirected(Symmetrised(a)) && Undirected(Symmetrised(b))
    ensures Report(Symmetrised(a), minDegree, cap) == Report(Symmetrised(b), minDegree, cap)
  {
    SymmetrisedEqualIff(a, b);
    SymmetrisedIsUndirected(a);
    SymmetrisedIsUndirected(b);
  }

  // ---------------------------------------------------------------------------------------------
  // Every label is the rank of a node it can have travelled from

  /** The label `lab` may sit on `u`: the node it started from is connected to `u` and as free as `u` is. */
  ghost predicate MayCarry(net: Net, u: string, lab: nat) {
    && lab < |net.nodes|
    && Connected(net.adj, u, net.nodes[lab])
    && (u in net.pinned ==> net.nodes[lab] == u)
    && (u !in net.pinned ==> net.nodes[lab] !in net.pinned)
  }

  ghost predicate Traceable(net: Net, x: Labels) {
    forall u | u in x :: MayCarry(net, u, x[u])
  }

  lemma PassedOn(net: Net, u: string, v: string, lab: nat)
    requires MayCarry(net, v, lab) && Connected(net.adj, u, v)
    requires u !in net.pinned && v !in net.pinned
    ensures MayCarry(net, u, lab)
  {
    ConnectedTransitive(net.adj, u, v, net.nodes[lab]);
  }

  lemma SeedsTraceable(net: Net)
    requires net.Valid()
    ensures Traceable(net, Seeds(net))
  {
  }

  lemma NextLabelTraceable(net: Net, x: Labels, u: string)
    requires net.Valid() && net.Labelling(x) && Traceable(net, x) && u in net.adj
    ensures MayCarry(net, u, net.NextLabel(x, u))
  {
    if net.Voters(u) == {} {
      SilentNodesStay(net, x, u);
    } else {
      var v := ElectedByAVoter(net, x, u);
      NeighboursConnected(net.adj, u, v);
      PassedOn(net, u, v, x[v]);
    }
  }

  lemma StepTraceable(net: Net, x: Labels)
    requires net.Valid() && net.Labelling(x) && Traceable(net, x)
    ensures Traceable(net, net.Step(x))
  {
    forall u | u in x
      ensures MayCarry(net, u, net.NextLabel(x, u))
    {
      NextLabelTraceable(net, x, u);
    }
  }

  ghost function IsTraceable(net: Net): Labels -> bool {
    x => net.Labelling(x) && Traceable(net, x)
  }

  lemma StepKeepsTraceable(net: Net, x: Labels, i: nat)
    requires net.Valid() && net.Labelling(x)
    ensures KeptAt(Rounds(net, x), IsTraceable(net), i)
  {
    var y := Run(net, x, i);
    if net.Labelling(y) && Traceable(net, y) {
      StepTraceable(net, y);
      StepIsLabelling(net, y);
    }
    RunNext(net, x, i);
  }

  /** After any number of rounds every label is still among nodes connected to where it started. */
  lemma RunTraceable(net: Net, x: Labels, t: nat)
    requires net.Valid() && net.Labelling(x) && Traceable(net, x)
    ensures IsTraceable(net)(Rounds(net, x)(t))
  {
    forall i: nat
      ensures KeptAt(Rounds(net, x), IsTraceable(net), i)
    {
      StepKeepsTraceable(net, x, i);
    }
    RoundsKeep(Rounds(net, x), IsTraceable(net), t);
  }

  ghost function LabelAt(net: Net, u: string, lab: nat): Labels -> bool {
    x => net.Labelling(x) && u in x && x[u] == lab
  }

  lemma StepKeepsPinned(net: Net, x: Labels, u: string, lab: nat, i: nat)
    requires net.Valid() && net.Labelling(x) && u in net.pinned
    ensures KeptAt(Rounds(net, x), LabelAt(net, u, lab), i)
  {
    var y := Run(net, x, i);
    if net.Labelling(y) {
      StepIsLabelling(net, y);
      SilentNodesStay(net, y, u);
    }
    RunNext(net, x, i);
  }

  /** A pinned node keeps its label in every round. */
  lemma PinnedNeverMove(net: Net, x: Labels, t: nat, u: string)
    requires net.Valid() && net.Labelling(x) && u in net.pinned
    ensures LabelAt(net, u, x[u])(Rounds(net, x)(t))
  {
    forall i: nat
      ensures KeptAt(Rounds(net, x), LabelAt(net, u, x[u]), i)
    {
      StepKeepsPinned(net, x, u, x[u], i);
    }
    RoundsKeep(Rounds(net, x), LabelAt(net, u, x[u]), t);
  }

  lemma ResolvedTraceable(net: Net, x: Labels, oscillating: set<string>)
    requires net.Valid() && net.Labelling(x) && Traceable(net, x)
    requires oscillating <= net.adj.Keys && oscillating !! net.pinned
    ensures Traceable(net, ResolvedByClass(net.adj, x, oscillating))
  {
    forall u | u in oscillating
      ensures MayCarry(net, u, x[ClassKeeper(net.adj, oscillating, u)])
    {
      var k := ClassKeeper(net.adj, oscillating, u);
      PassedOn(net, u, k, x[k]);
    }
  }

  lemma FixedNotAlternating(net: Net, r: nat -> Labels, t: nat, u: string, lab: nat)
    requires LabelAt(net, u, lab)(r(t)) && LabelAt(net, u, lab)(r(t + 1))
    ensures u !in Alternating(r, t) && Alternating(r, t) <= net.adj.Keys
  {
  }

  lemma AlternatingAreNodes(net: Net, r: nat -> Labels, t: nat)
    requires r(t).Keys == net.adj.Keys
    ensures Alternating(r, t) <= net.adj.Keys
  {
  }

  lemma PinnedNeverAlternate(net: Net, x: Labels, t: nat)
    requires net.Valid() && net.Labelling(x)
    ensures Alternating(Rounds(net, x), t) !! net.pinned
    ensures Alternating(Rounds(net, x), t) <= net.adj.Keys
  {
    AlternatingAreNodes(net, Rounds(net, x), t);
    forall u | u in net.pinned
      ensures u !in Alternating(Rounds(net, x), t)
    {
      PinnedNeverMove(net, x, t, u);
      PinnedNeverMove(net, x, t + 1, u);
      FixedNotAlternating(net, Rounds(net, x), t, u, x[u]);
    }
  }

  /** A labelling that is traceable, after which no pinned node changes. */
  ghost predicate TraceableAt(net: Net, r: nat -> Labels, n: nat) {
    && net.Labelling(r(n)) && Traceable(net, r(n))
    && Alternating(r, n) !! net.pinned && Alternating(r, n) <= net.adj.Keys
  }

  lemma SettledFromTraceable(net: Net, r: nat -> Labels, cap: int, n: nat)
    requires net.Valid() && AllOver(net.adj, r) && n == StopRound(r, cap, 0)
    requires TraceableAt(net, r, n) && (n > 0 ==> TraceableAt(net, r, n - 1))
    ensures Traceable(net, SettledFrom(net.adj, r, cap).labels)
    ensures SettledFrom(net.adj, r, cap).labels.Keys == net.adj.Keys
  {
    if n > 0 && r(n) != r(n - 1) && Revisits(r, n) {
      InCycle(net.adj, r, cap, n, r(n));
      ResolvedTraceable(net, r(n), Alternating(r, n - 1));
    } else {
      WithoutCycle(net.adj, r, cap, n, r(n), n > 0 && r(n) == r(n - 1));
    }
  }

  lemma AllTraceable(net: Net, r: nat -> Labels, cap: int)
    requires net.Valid() && AllOver(net.adj, r) && forall n: nat :: TraceableAt(net, r, n)
    ensures Traceable(net, SettledFrom(net.adj, r, cap).labels)
    ensures SettledFrom(net.adj, r, cap).labels.Keys == net.adj.Keys
  {
    var n := StopRound(r, cap, 0);
    assert TraceableAt(net, r, n);
    assert n > 0 ==> TraceableAt(net, r, n - 1);
    SettledFromTraceable(net, r, cap, n);
  }

  lemma RoundTraceable(net: Net, x: Labels, n: nat)
    requires net.Valid() && net.Labelling(x) && Traceable(net, x)
    ensures TraceableAt(net, Rounds(net, x), n)
  {
    RunTraceable(net, x, n);
    PinnedNeverAlternate(net, x, n);
  }

  /** The final labels are traceable however the loop ended. */
  lemma SettledTraceable(net: Net, x: Labels, cap: int)
    requires net.Valid() && net.Labelling(x) && Traceable(net, x)
    ensures Traceable(net, Settled(net, x, cap).labels)
    ensures Settled(net, x, cap).labels.Keys == net.adj.Keys
  {
    RoundsAreOver(net, x);
    forall n: nat
      ensures TraceableAt(net, Rounds(net, x), n)
    {
      RoundTraceable(net, x, n);
    }
    AllTraceable(net, Rounds(net, x), cap);
  }

  // ---------------------------------------------------------------------------------------------
  // Communities lie inside components

  lemma SameLabelConnected(net: Net, x: Labels, u: string, v: string)
    requires net.Valid() && Traceable(net, x) && u in x && v in x && x[u] == x[v] && u in net.adj && v in net.adj
    ensures Connected(net.adj, u, v)
    ensures u in net.pinned ==> v == u
  {
    var w := net.nodes[x[u]];
    ConnectedSymmetric(net.adj, v, w);
    ConnectedTransitive(net.adj, u, w, v);
  }

  lemma CommunityFitsClass(net: Net, x: Labels, u: string)
    requires net.Valid() && Traceable(net, x) && x.Keys == net.adj.Keys && u in x
    ensures PartitionBlob.Members(x, x[u]) <= Class(net.adj, u)
    ensures SizeOf(x, x[u]) <= |Class(net.adj, u)|
    ensures u in net.pinned ==> PartitionBlob.Members(x, x[u]) == {u}
  {
    forall v | v in PartitionBlob.Members(x, x[u])
      ensures v in Class(net.adj, u) && (u in net.pinned ==> v == u)
    {
      SameLabelConnected(net, x, u, v);
    }
    SubsetSize(PartitionBlob.Members(x, x[u]), Class(net.adj, u));
  }

  lemma LargestCommunityFits(net: Net, x: Labels)
    requires net.Valid() && Traceable(net, x) && x.Keys == net.adj.Keys
    ensures Largest(CommunitySizes(x)) <= Largest(ComponentSizes(net.adj))
  {
    if CommunitySizes(x) != {} {
      var l :| l in x.Values && SizeOf(x, l) == Largest(CommunitySizes(x));
      var u :| u in x && x[u] == l;
      CommunityFitsClass(net, x, u);
      assert |Class(net.adj, u)| in ComponentSizes(net.adj);
    }
  }

  lemma {:induction false} InjectiveImage<A, B>(s: seq<A>, f: A -> B, into: set<B>)
    requires NoDuplicates(s)
    requires forall a | a in s :: f(a) in into
    requires forall a, b | a in s && b in s && f(a) == f(b) :: a == b
    ensures |s| <= |into|
  {
    if s != [] {
      assert s[0] !in s[1..];
      InjectiveImage(s[1..], f, into - {f(s[0])});
    }
  }

  ghost function LabelOfFirst(x: Labels): seq<string> -> nat {
    c => if c != [] && c[0] in x then x[c[0]] else 0
  }

  lemma ListedComponent(g: Adjacency, x: Labels, c: seq<string>)
    requires Undirected(g) && c in Components(g) && x.Keys == g.Keys
    ensures c != [] && c[0] in x && c == Listing(Class(g, c[0])) && LabelOfFirst(x)(c) in x.Values
  {
    var a := ListedClass(g, c);
    ListingHolds(Class(g, a));
    assert a in c && c[0] in c;
    assert c[0] in Class(g, a);
    OnlyClassesListed(g, c, c[0]);
    ListingHolds(Class(g, c[0]));
  }

  lemma AtLeastOneCommunityPerComponent(net: Net, x: Labels)
    requires net.Valid() && Traceable(net, x) && x.Keys == net.adj.Keys
    ensures |x.Values| >= |Components(net.adj)|
  {
    var g, f := net.adj, LabelOfFirst(x);
    forall c | c in Components(g)
      ensures f(c) in x.Values
    {
      ListedComponent(g, x, c);
    }
    forall c, d | c in Components(g) && d in Components(g) && f(c) == f(d)
      ensures c == d
    {
      ListedComponent(g, x, c);
      ListedComponent(g, x, d);
      SameLabelConnected(net, x, c[0], d[0]);
      SameClass(g, c[0], d[0]);
    }
    ComponentsInOrder(g);
    InjectiveImage(Components(g), f, x.Values);
  }

  /**
   Each community lies inside one connected component and each pinned node is a community of its
   own; so the `oversized` caveat never fires, and there are at least as many communities as
   components.
   */
  lemma CommunitiesRefineComponents(g: Adjacency, minDegree: int, cap: int)
    requires Undirected(g)
    ensures
      var r, x := Report(g, minDegree, cap), Final(g, minDegree, cap).labels;
      && x.Keys == g.Keys
      && (forall u, v | u in g && v in g && x[u] == x[v] :: v in Class(g, u))
      && (forall u | u in Pinned(g, minDegree) :: PartitionBlob.Members(x, x[u]) == {u})
      && !r.oversized && r.communities >= r.components && r.largestCommunity <= r.largestComponent
  {
    var net, x := NetOf(g, minDegree), Final(g, minDegree, cap).labels;
    NetIsValid(g, minDegree);
    SeedsLabel(net);
    SeedsTraceable(net);
    SettledTraceable(net, Seeds(net), cap);
    forall u, v | u in g && v in g && x[u] == x[v]
      ensures v in Class(g, u)
    {
      SameLabelConnected(net, x, u, v);
    }
    forall u | u in Pinned(g, minDegree)
      ensures PartitionBlob.Members(x, x[u]) == {u}
    {
      CommunityFitsClass(net, x, u);
    }
    LargestCommunityFits(net, x);
    AtLeastOneCommunityPerComponent(net, x);
    if g == map[] {
      EmptyHasNoComponents(g);
    }
  }

  lemma EmptyHasNoComponents(g: Adjacency)
    requires g == map[]
    ensures Components(g) == []
  {
    assert Classes(g) == {};
    ListAllHolds(Classes(g));
  }
}
