/** The rounds and the report of `cluster_graph` in terms of the graph, the degree threshold and the labels alone. */
module ClusterMeaning {
  import opened Collections
  import opened Orders
  import opened Propagation
  import opened Cycles
  import opened GraphComponents
  import opened Clustering
  import opened EntityClusters
  import opened ClusterTheorems
  import PartitionBlob

  // ---------------------------------------------------------------------------------------------
  // One round

  /** The neighbours of sufficient degree that carry the label. */
  ghost function Backers(g: Adjacency, minDegree: int, x: Labels, u: string, lab: nat): set<string>
    requires u in g
  {
    set v | v in g[u] && v in g && v in x && |g[v]| >= minDegree && x[v] == lab
  }

  /** The label is carried by more of them than any other, or by as many and it is smaller. */
  ghost predicate MostBacked(g: Adjacency, minDegree: int, x: Labels, u: string, lab: nat)
    requires u in g
  {
    && Backers(g, minDegree, x, u, lab) != {}
    && forall other: nat | other != lab ::
         var mine, others := |Backers(g, minDegree, x, u, lab)|, |Backers(g, minDegree, x, u, other)|;
         others < mine || (others == mine && lab < other)
  }

  /** A node of sufficient degree with such a neighbour takes the label; every other keeps its own. */
  ghost predicate Elects(g: Adjacency, minDegree: int, x: Labels, u: string, lab: nat)
    requires u in g && u in x
  {
    if |g[u]| >= minDegree && exists v :: v in g[u] && v in g && |g[v]| >= minDegree then MostBacked(g, minDegree, x, u, lab)
    else lab == x[u]
  }

  lemma BackersVote(g: Adjacency, minDegree: int, x: Labels, u: string, lab: nat)
    requires Undirected(g) && u in g && |g[u]| >= minDegree
    ensures NetOf(g, minDegree).VotersFor(x, u, lab) == Backers(g, minDegree, x, u, lab)
  {
  }

  lemma VotersAre(g: Adjacency, minDegree: int, u: string)
    requires Undirected(g) && u in g
    ensures NetOf(g, minDegree).Voters(u) != {} <==> |g[u]| >= minDegree && exists v :: v in g[u] && v in g && |g[v]| >= minDegree
  {
    if v :| v in g[u] && v in g && |g[v]| >= minDegree && |g[u]| >= minDegree {
      assert v in NetOf(g, minDegree).Voters(u);
    }
  }

  lemma BestIsMostBacked(g: Adjacency, minDegree: int, x: Labels, u: string)
    requires Undirected(g) && u in g && NetOf(g, minDegree).Labelling(x) && NetOf(g, minDegree).Voters(u) != {}
    ensures MostBacked(g, minDegree, x, u, NetOf(g, minDegree).NextLabel(x, u))
  {
    var net := NetOf(g, minDegree);
    NetIsValid(g, minDegree);
    var lab := net.NextLabel(x, u);
    VotersAre(g, minDegree, u);
    BackersVote(g, minDegree, x, u, lab);
    var voter := ElectedByAVoter(net, x, u);
    assert voter in net.VotersFor(x, u, lab);
    forall other: nat | other != lab
      ensures
        var mine, others := |Backers(g, minDegree, x, u, lab)|, |Backers(g, minDegree, x, u, other)|;
        others < mine || (others == mine && lab < other)
    {
      BackersVote(g, minDegree, x, u, other);
      if other < |g| {
        BestWins(net, x, u, |g|, other);
      } else {
        assert net.VotersFor(x, u, other) == {};
      }
    }
  }

  /** The next label of every node, by its neighbours' degrees and labels. */
  lemma RoundMeans(g: Adjacency, minDegree: int, x: Labels, u: string)
    requires Undirected(g) && u in g && NetOf(g, minDegree).Labelling(x)
    ensures u in NetOf(g, minDegree).Step(x) && Elects(g, minDegree, x, u, NetOf(g, minDegree).Step(x)[u])
  {
    VotersAre(g, minDegree, u);
    if NetOf(g, minDegree).Voters(u) != {} {
      BestIsMostBacked(g, minDegree, x, u);
    }
  }

  /** No two labels are elected. */
  lemma OneIsElected(g: Adjacency, minDegree: int, x: Labels, u: string, a: nat, b: nat)
    requires u in g && u in x && Elects(g, minDegree, x, u, a) && Elects(g, minDegree, x, u, b)
    ensures a == b
  {
  }

  // ---------------------------------------------------------------------------------------------
  // The rounds

  /** The nodes that come before `u`. */
  ghost function Before(g: Adjacency, u: string): set<string> {
    set v | v in g && v != u && StrLeq(v, u)
  }

  ghost predicate StartsAsRanked(g: Adjacency, x: Labels) {
    x.Keys == g.Keys && forall u | u in g :: x[u] == |Before(g, u)|
  }

  ghost predicate Follows(g: Adjacency, minDegree: int, x: Labels, y: Labels) {
    x.Keys == g.Keys == y.Keys && forall u | u in g :: Elects(g, minDegree, x, u, y[u])
  }

  /** The labels of round 0 count the nodes before each; those of every later round are elected. */
  ghost predicate IsRun(g: Adjacency, minDegree: int, r: nat -> Labels) {
    StartsAsRanked(g, r(0)) && forall t: nat :: Follows(g, minDegree, r(t), r(t + 1))
  }

  /** The labellings the loop goes through. */
  ghost function TheRun(g: Adjacency, minDegree: int): nat -> Labels
    requires Undirected(g)
  {
    NetIsValid(g, minDegree);
    SeedsLabel(NetOf(g, minDegree));
    Rounds(NetOf(g, minDegree), Seeds(NetOf(g, minDegree)))
  }

  lemma RankCounts(s: seq<string>, i: nat)
    requires SortedBy(StrLeq, s) && NoDuplicates(s) && i < |s|
    ensures |set v | v in s && v != s[i] && StrLeq(v, s[i])| == i
  {
    StrLeqTotal();
    CountElements(s[..i]);
    var smaller := set v | v in s && v != s[i] && StrLeq(v, s[i]);
    forall v
      ensures v in smaller <==> v in Elements(s[..i])
    {
      if v in smaller {
        var j :| 0 <= j < |s| && s[j] == v;
        assert j < i;
        assert s[..i][j] == v;
      }
      if v in s[..i] {
        var j :| 0 <= j < i && s[..i][j] == v;
        assert s[j] == v;
      }
    }
    assert smaller == Elements(s[..i]);
  }

  lemma RankIsBefore(g: Adjacency, nodes: seq<string>, u: string)
    requires SortedBy(StrLeq, nodes) && NoDuplicates(nodes) && (forall v :: v in nodes <==> v in g) && u in g
    ensures Rank(nodes, u) == |Before(g, u)|
  {
    RankCounts(nodes, Rank(nodes, u));
    assert Before(g, u) == set v | v in nodes && v != u && StrLeq(v, u);
  }

  lemma SeedsStart(net: Net)
    requires net.Valid() && SortedBy(StrLeq, net.nodes)
    ensures StartsAsRanked(net.adj, Seeds(net))
  {
    forall u | u in net.adj
      ensures Seeds(net)[u] == |Before(net.adj, u)|
    {
      RankIsBefore(net.adj, net.nodes, u);
    }
  }

  lemma SeedsAreRanks(g: Adjacency, minDegree: int)
    requires Undirected(g)
    ensures StartsAsRanked(g, Seeds(NetOf(g, minDegree)))
  {
    NetIsValid(g, minDegree);
    ListingHolds(g.Keys);
    SeedsStart(NetOf(g, minDegree));
  }

  lemma RoundFollows(g: Adjacency, minDegree: int, t: nat)
    requires Undirected(g)
    ensures Follows(g, minDegree, TheRun(g, minDegree)(t), TheRun(g, minDegree)(t + 1))
  {
    var net := NetOf(g, minDegree);
    NetIsValid(g, minDegree);
    SeedsLabel(net);
    RunIsLabelling(net, Seeds(net), t);
    RunNext(net, Seeds(net), t);
    var x := Run(net, Seeds(net), t);
    forall u | u in g
      ensures Elects(g, minDegree, x, u, net.Step(x)[u])
    {
      RoundMeans(g, minDegree, x, u);
    }
  }

  lemma TheRunIsRun(g: Adjacency, minDegree: int)
    requires Undirected(g)
    ensures IsRun(g, minDegree, TheRun(g, minDegree))
  {
    SeedsAreRanks(g, minDegree);
    forall t: nat
      ensures Follows(g, minDegree, TheRun(g, minDegree)(t), TheRun(g, minDegree)(t + 1))
    {
      RoundFollows(g, minDegree, t);
    }
  }

  lemma NextIsUnique(g: Adjacency, minDegree: int, x: Labels, y: Labels, z: Labels)
    requires Follows(g, minDegree, x, y) && Follows(g, minDegree, x, z)
    ensures y == z
  {
    forall u | u in g
      ensures y[u] == z[u]
    {
      OneIsElected(g, minDegree, x, u, y[u], z[u]);
    }
  }

  /** The rule determines the labels of every round. */
  lemma {:induction false} RunIsUnique(g: Adjacency, minDegree: int, r: nat -> Labels, q: nat -> Labels, t: nat)
    requires IsRun(g, minDegree, r) && IsRun(g, minDegree, q)
    ensures r(t) == q(t)
  {
    if t > 0 {
      RunIsUnique(g, minDegree, r, q, t - 1);
      NextIsUnique(g, minDegree, r(t - 1), r(t - 1 + 1), q(t - 1 + 1));
    } else {
      assert r(0) == q(0);
    }
  }

  // ---------------------------------------------------------------------------------------------
  // The report

  /** Round `n` is the first that repeats an earlier one, or the cap is reached. */
  ghost predicate StopsAt(r: nat -> Labels, cap: int, n: nat) {
    && (n == 0 || n <= cap)
    && (forall s: nat, t: nat | s < t < n :: r(s) != r(t))
    && (n >= cap || exists s: nat :: s < n && r(s) == r(n))
  }

  ghost predicate Oscillates(r: nat -> Labels, n: nat, u: string) {
    n > 0 && u in r(n) && u in r(n - 1) && r(n)[u] != r(n - 1)[u]
  }

  /** `k` is the smallest node that still changes and is connected to `u`. */
  ghost predicate LeadsFor(g: Adjacency, r: nat -> Labels, n: nat, u: string, k: string) {
    && k in g && Oscillates(r, n, k) && Connected(g, u, k)
    && forall v | v in g && Oscillates(r, n, v) && Connected(g, u, v) :: StrLeq(k, v)
  }

  /** In a cycle a node that still changes takes the label of its leader; every other label stays. */
  ghost predicate Resolves(g: Adjacency, r: nat -> Labels, n: nat, cycle: bool, x: Labels) {
    && x.Keys == g.Keys == r(n).Keys
    && (forall u | u in g && !(cycle && Oscillates(r, n, u)) :: x[u] == r(n)[u])
    && (cycle ==> forall u | u in g && Oscillates(r, n, u) :: exists k :: LeadsFor(g, r, n, u, k) && x[u] == r(n)[k])
  }

  /** How the loop ended, told by the labellings it went through. */
  ghost predicate Tells(g: Adjacency, minDegree: int, cap: int, r: nat -> Labels, c: ClusterResult, x: Labels) {
    && StopsAt(r, cap, c.rounds)
    && c.converged == (c.rounds > 0 && r(c.rounds) == r(c.rounds - 1))
    && c.cycleDetected == (!c.converged && exists s: nat :: s < c.rounds && r(s) == r(c.rounds))
    && c.oscillatingNodes == (if c.cycleDetected then |set u | u in g && Oscillates(r, c.rounds, u)| else 0)
    && Resolves(g, r, c.rounds, c.cycleDetected, x)
    && c.nodes == |g| && c.pinnedNodes == |set u | u in g && |g[u]| < minDegree| && c.minDegree == minDegree
  }

  ghost predicate IsLargest(sizes: set<nat>, n: nat) {
    n in sizes && forall m | m in sizes :: m <= n
  }

  /** The communities are the sets of nodes that share a label; the components those of connected nodes. */
  ghost predicate Measures(g: Adjacency, c: ClusterResult, x: Labels) {
    && c.communities == |set u | u in x :: x[u]| && c.components == |set u | u in g :: set v | v in g && Connected(g, u, v)|
    && IsLargest(set u | u in x :: |set v | v in x && x[v] == x[u]|, c.largestCommunity)
    && IsLargest(set u | u in g :: |set v | v in g && Connected(g, u, v)|, c.largestComponent)
    && c.blob == PartitionBlob.Blob(x)
  }

  // The loop

  lemma StopsAtStopRound(r: nat -> Labels, cap: int)
    ensures StopsAt(r, cap, StopRound(r, cap, 0))
  {
    var n := StopRound(r, cap, 0);
    StopRoundHolds(r, cap, 0);
    forall s: nat, t: nat | s < t < n
      ensures r(s) != r(t)
    {
      assert !Revisits(r, t);
    }
  }

  lemma AlternatingOscillates(g: Adjacency, r: nat -> Labels, n: nat)
    requires AllOver(g, r) && n > 0
    ensures Alternating(r, n - 1) == set u | u in g && Oscillates(r, n, u)
  {
    assert r(n).Keys == g.Keys && r(n - 1).Keys == g.Keys;
  }

  lemma KeeperLeads(g: Adjacency, r: nat -> Labels, n: nat, u: string)
    requires AllOver(g, r) && n > 0 && u in g && Oscillates(r, n, u) && Alternating(r, n - 1) <= g.Keys
    ensures u in Alternating(r, n - 1) && LeadsFor(g, r, n, u, ClassKeeper(g, Alternating(r, n - 1), u))
  {
    AlternatingOscillates(g, r, n);
    var k := ClassKeeper(g, Alternating(r, n - 1), u);
    forall v | v in g && Oscillates(r, n, v) && Connected(g, u, v)
      ensures StrLeq(k, v)
    {
      assert v in Alternating(r, n - 1) && v in Class(g, u);
    }
  }

  lemma ResolvesInCycle(g: Adjacency, r: nat -> Labels, n: nat)
    requires AllOver(g, r) && n > 0 && Alternating(r, n - 1) <= r(n).Keys && Alternating(r, n - 1) <= g.Keys
    ensures Resolves(g, r, n, true, ResolvedByClass(g, r(n), Alternating(r, n - 1)))
  {
    var x := ResolvedByClass(g, r(n), Alternating(r, n - 1));
    assert r(n).Keys == g.Keys;
    AlternatingOscillates(g, r, n);
    forall u | u in g && Oscillates(r, n, u)
      ensures exists k :: LeadsFor(g, r, n, u, k) && x[u] == r(n)[k]
    {
      KeeperLeads(g, r, n, u);
      var k := ClassKeeper(g, Alternating(r, n - 1), u);
      assert x[u] == r(n)[k];
    }
  }

  ghost predicate OutcomeTells(g: Adjacency, cap: int, r: nat -> Labels, o: Outcome) {
    && StopsAt(r, cap, o.rounds)
    && o.converged == (o.rounds > 0 && r(o.rounds) == r(o.rounds - 1))
    && o.cycle == (!o.converged && exists s: nat :: s < o.rounds && r(s) == r(o.rounds))
    && o.oscillating == (if o.cycle then set u | u in g && Oscillates(r, o.rounds, u) else {})
    && Resolves(g, r, o.rounds, o.cycle, o.labels)
  }

  lemma SettledFromTells(g: Adjacency, r: nat -> Labels, cap: int)
    requires AllOver(g, r)
    ensures OutcomeTells(g, cap, r, SettledFrom(g, r, cap))
  {
    var n := StopRound(r, cap, 0);
    StopsAtStopRound(r, cap);
    SettledFromObserves(g, r, cap);
    assert r(n).Keys == g.Keys;
    if n > 0 && r(n) != r(n - 1) && Revisits(r, n) {
      InCycle(g, r, cap, n, r(n));
      AlternatingOscillates(g, r, n);
      ResolvesInCycle(g, r, n);
    } else {
      WithoutCycle(g, r, cap, n, r(n), n > 0 && r(n) == r(n - 1));
    }
  }

  // The numbers

  lemma {:induction false} CountImage<A(!new), B(!new)>(f: A -> B, s: set<A>)
    requires forall a, b | a in s && b in s && f(a) == f(b) :: a == b
    ensures |Image(f, s)| == |s|
    decreases |s|
  {
    if a :| a in s {
      CountImage(f, s - {a});
      assert Image(f, s) == Image(f, s - {a}) + {f(a)};
      assert f(a) !in Image(f, s - {a});
    } else {
      assert Image(f, s) == {};
    }
  }

  ghost function ListingFn(): set<string> -> seq<string> {
    c => Listing(c)
  }

  lemma ComponentsCount(g: Adjacency)
    ensures |Components(g)| == |set u | u in g :: set v | v in g && Connected(g, u, v)|
  {
    forall c: set<string>, d: set<string> | Listing(c) == Listing(d)
      ensures c == d
    {
      PartitionBlob.ListingInjective(c, d);
    }
    CountImage(ListingFn(), Classes(g));
    assert Image(ListingFn(), Classes(g)) == set c | c in Classes(g) :: Listing(c);
    SameClasses(g);
  }

  lemma SameClasses(g: Adjacency)
    ensures Classes(g) == set u | u in g :: set v | v in g && Connected(g, u, v)
  {
    forall u | u in g
      ensures ClassOf(g)(u) == set v | v in g && Connected(g, u, v)
    {
    }
  }

  lemma LargestIsLargest(sizes: set<nat>)
    requires sizes != {}
    ensures IsLargest(sizes, Largest(sizes))
  {
  }

  lemma ComponentSizesAre(g: Adjacency)
    ensures ComponentSizes(g) == set u | u in g :: |set v | v in g && Connected(g, u, v)|
  {
    forall u | u in g
      ensures |Class(g, u)| == |set v | v in g && Connected(g, u, v)|
    {
      assert Class(g, u) == set v | v in g && Connected(g, u, v);
    }
  }

  lemma CommunitySizesAre(x: Labels)
    ensures CommunitySizes(x) == set u | u in x :: |set v | v in x && x[v] == x[u]|
  {
    forall u | u in x
      ensures SizeOf(x, x[u]) == |set v | v in x && x[v] == x[u]|
    {
      assert PartitionBlob.Members(x, x[u]) == set v | v in x && x[v] == x[u];
    }
    var sizes := set u | u in x :: |set v | v in x && x[v] == x[u]|;
    forall n | n in CommunitySizes(x)
      ensures n in sizes
    {
      var l :| l in x.Values && n == SizeOf(x, l);
      var u :| u in x && x[u] == l;
    }
    forall n | n in sizes
      ensures n in CommunitySizes(x)
    {
      var u :| u in x && n == |set v | v in x && x[v] == x[u]|;
      assert x[u] in x.Values;
    }
  }

  lemma ReportMeasures(g: Adjacency, x: Labels)
    requires g != map[] && x.Keys == g.Keys
    ensures |x.Values| == |set u | u in x :: x[u]|
    ensures IsLargest(set u | u in x :: |set v | v in x && x[v] == x[u]|, Largest(CommunitySizes(x)))
    ensures IsLargest(set u | u in g :: |set v | v in g && Connected(g, u, v)|, Largest(ComponentSizes(g)))
  {
    var u :| u in g;
    assert x.Values == set v | v in x :: x[v];
    assert SizeOf(x, x[u]) in CommunitySizes(x) && |Class(g, u)| in ComponentSizes(g);
    ComponentSizesAre(g);
    CommunitySizesAre(x);
    LargestIsLargest(CommunitySizes(x));
    LargestIsLargest(ComponentSizes(g));
  }

  lemma FinalTells(g: Adjacency, minDegree: int, cap: int)
    requires Undirected(g)
    ensures OutcomeTells(g, cap, TheRun(g, minDegree), Final(g, minDegree, cap))
  {
    NetIsValid(g, minDegree);
    SeedsLabel(NetOf(g, minDegree));
    RoundsAreOver(NetOf(g, minDegree), Seeds(NetOf(g, minDegree)));
    SettledFromTells(g, TheRun(g, minDegree), cap);
  }

  /** The report copies how the loop ended. */
  ghost predicate Copies(g: Adjacency, minDegree: int, o: Outcome, c: ClusterResult) {
    && c.rounds == o.rounds && c.converged == o.converged && c.cycleDetected == o.cycle && c.oscillatingNodes == |o.oscillating|
    && c.nodes == |g| && c.pinnedNodes == |Pinned(g, minDegree)| && c.minDegree == minDegree
    && c.communities == |o.labels.Values| && c.components == |Components(g)|
    && c.largestCommunity == Largest(CommunitySizes(o.labels)) && c.largestComponent == Largest(ComponentSizes(g))
    && c.blob == PartitionBlob.Blob(o.labels)
  }

  lemma ReportCopies(g: Adjacency, minDegree: int, cap: int)
    requires Undirected(g) && g != map[]
    ensures Copies(g, minDegree, Final(g, minDegree, cap), Report(g, minDegree, cap))
  {
  }

  lemma CopyTells(g: Adjacency, minDegree: int, cap: int, r: nat -> Labels, o: Outcome, c: ClusterResult)
    requires g != map[] && OutcomeTells(g, cap, r, o) && Copies(g, minDegree, o, c)
    ensures Tells(g, minDegree, cap, r, c, o.labels) && Measures(g, c, o.labels)
  {
    assert Pinned(g, minDegree) == set u | u in g && |g[u]| < minDegree;
    ReportMeasures(g, o.labels);
    ComponentsCount(g);
  }

  /**
   The report on a graph with nodes: its rounds and flags are those of a run under the rule, its labels
   those of the last round with a final cycle resolved, its numbers those of the graph and these labels.
   */
  lemma ReportMeans(g: Adjacency, minDegree: int, cap: int)
    requires Undirected(g) && g != map[]
    ensures IsRun(g, minDegree, TheRun(g, minDegree))
    ensures Tells(g, minDegree, cap, TheRun(g, minDegree), Report(g, minDegree, cap), Final(g, minDegree, cap).labels)
    ensures Measures(g, Report(g, minDegree, cap), Final(g, minDegree, cap).labels)
  {
    TheRunIsRun(g, minDegree);
    FinalTells(g, minDegree, cap);
    ReportCopies(g, minDegree, cap);
    CopyTells(g, minDegree, cap, TheRun(g, minDegree), Final(g, minDegree, cap), Report(g, minDegree, cap));
  }
}
