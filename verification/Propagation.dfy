/**
 Synchronous smallest-label plurality propagation on an undirected graph: the update rule of one
 round, and the proof that its runs can only end in a fixed point or in a cycle of length two.
 */
module Propagation {
  import opened Collections
  import opened Counting

  type Adjacency = map<string, set<string>>
  type Labels = map<string, nat>

  /** A graph without self-loops in which every edge is listed under both endpoints. */
  ghost predicate Undirected(g: Adjacency) {
    forall u, v | u in g && v in g[u] :: v in g && v != u && u in g[v]
  }

  /** A graph, its nodes in a fixed order, and those of them that keep their own label. */
  datatype Net = Net(nodes: seq<string>, adj: Adjacency, pinned: set<string>) {
    ghost predicate Valid() {
      && Undirected(adj)
      && pinned <= adj.Keys
      && |nodes| == |adj| && NoDuplicates(nodes)
      && forall u :: u in nodes <==> u in adj
    }

    ghost predicate Labelling(x: Labels) {
      x.Keys == adj.Keys && forall u | u in x :: x[u] < |adj|
    }

    /** The neighbours whose labels count as votes for `u`; a pinned node listens to nobody. */
    function Voters(u: string): set<string>
      requires u in adj
    {
      if u in pinned then {} else adj[u] - pinned
    }

    function VotersFor(x: Labels, u: string, lab: nat): set<string>
      requires u in adj
    {
      set v | v in Voters(u) && v in x && x[v] == lab
    }

    function Votes(x: Labels, u: string, lab: nat): nat
      requires u in adj
    {
      |VotersFor(x, u, lab)|
    }

    /** The label below `bound` with most votes; the smallest one among equals. */
    function Best(x: Labels, u: string, bound: nat): (r: nat)
      requires u in adj
      ensures bound > 0 ==> r < bound
    {
      if bound <= 1 then 0
      else
        var before := Best(x, u, bound - 1);
        if Votes(x, u, bound - 1) > Votes(x, u, before) then bound - 1 else before
    }

    function NextLabel(x: Labels, u: string): nat
      requires u in adj && u in x
    {
      if Voters(u) == {} then x[u] else Best(x, u, |adj|)
    }

    /** One synchronous round. */
    function Step(x: Labels): Labels
      requires x.Keys == adj.Keys
    {
      map u | u in x :: NextLabel(x, u)
    }
  }

  /** The labelling after `t` rounds. */
  function Run(net: Net, x: Labels, t: nat): (r: Labels)
    requires x.Keys == net.adj.Keys
    ensures r.Keys == net.adj.Keys
  {
    if t == 0 then x else net.Step(Run(net, x, t - 1))
  }

  // ---------------------------------------------------------------------------------------------
  // The update rule elects the smallest label of plurality.

  lemma {:induction false} BestWins(net: Net, x: Labels, u: string, bound: nat, lab: nat)
    requires u in net.adj && lab < bound
    ensures
      var best := net.Best(x, u, bound);
      net.Votes(x, u, lab) < net.Votes(x, u, best)
      || (net.Votes(x, u, lab) == net.Votes(x, u, best) && best <= lab)
  {
    if lab < bound - 1 {
      BestWins(net, x, u, bound - 1, lab);
    }
  }

  /** Whatever label is preferred to all others by (votes, then smallness) is the one elected. */
  lemma ElectionIsUnique(net: Net, x: Labels, u: string, lab: nat)
    requires net.Labelling(x) && u in net.adj && lab < |net.adj|
    requires forall other: nat | other < |net.adj| ::
      net.Votes(x, u, other) < net.Votes(x, u, lab)
      || (net.Votes(x, u, other) == net.Votes(x, u, lab) && lab <= other)
    ensures lab == net.Best(x, u, |net.adj|)
  {
    BestWins(net, x, u, |net.adj|, lab);
  }

  /** The elected label is carried by some voter. */
  lemma ElectedByAVoter(net: Net, x: Labels, u: string) returns (voter: string)
    requires net.Valid() && net.Labelling(x) && u in net.adj && net.Voters(u) != {}
    ensures voter in net.Voters(u) && voter in x && net.NextLabel(x, u) == x[voter]
  {
    var v :| v in net.Voters(u);
    BestWins(net, x, u, |net.adj|, x[v]);
    assert v in net.VotersFor(x, u, x[v]);
    assert net.VotersFor(x, u, net.NextLabel(x, u)) != {};
    voter :| voter in net.VotersFor(x, u, net.NextLabel(x, u));
  }

  lemma StepIsLabelling(net: Net, x: Labels)
    requires net.Valid() && net.Labelling(x)
    ensures net.Labelling(net.Step(x))
  {
    forall u | u in x
      ensures net.NextLabel(x, u) < |net.adj|
    {
      if net.Voters(u) != {} {
        var _ := ElectedByAVoter(net, x, u);
      }
    }
  }

  ghost function Rounds(net: Net, x: Labels): nat -> Labels
    requires x.Keys == net.adj.Keys
  {
    (t: nat) => Run(net, x, t)
  }

  ghost predicate KeptAt(r: nat -> Labels, inv: Labels -> bool, i: nat) {
    inv(r(i)) ==> inv(r(i + 1))
  }

  /** What every round keeps, every number of rounds keeps. */
  lemma {:induction false} RoundsKeep(r: nat -> Labels, inv: Labels -> bool, t: nat)
    requires inv(r(0)) && forall i: nat :: KeptAt(r, inv, i)
    ensures inv(r(t))
  {
    if t > 0 {
      RoundsKeep(r, inv, t - 1);
      assert KeptAt(r, inv, t - 1);
    }
  }

  lemma RunNext(net: Net, x: Labels, t: nat)
    requires x.Keys == net.adj.Keys
    ensures Run(net, x, t + 1) == net.Step(Run(net, x, t))
  {
  }

  ghost function IsLabelling(net: Net): Labels -> bool {
    x => net.Labelling(x)
  }

  lemma StepKeepsLabelling(net: Net, x: Labels, i: nat)
    requires net.Valid() && net.Labelling(x)
    ensures KeptAt(Rounds(net, x), IsLabelling(net), i)
  {
    var y := Run(net, x, i);
    if net.Labelling(y) {
      StepIsLabelling(net, y);
    }
    RunNext(net, x, i);
  }

  lemma RunIsLabelling(net: Net, x: Labels, t: nat)
    requires net.Valid() && net.Labelling(x)
    ensures net.Labelling(Run(net, x, t))
  {
    forall i: nat
      ensures KeptAt(Rounds(net, x), IsLabelling(net), i)
    {
      StepKeepsLabelling(net, x, i);
    }
    RoundsKeep(Rounds(net, x), IsLabelling(net), t);
  }

  // ---------------------------------------------------------------------------------------------
  // Agreement energy: how many directed voting edges (u, v) have u now holding what v held before.

  ghost function Backers(net: Net, x: Labels, u: string, lab: nat): string -> bool
    requires u in net.adj
  {
    v => v in net.VotersFor(x, u, lab)
  }

  ghost function Agreement(net: Net, before: Labels, now: Labels): (string, string) -> int {
    (u, v) => if u in net.adj && u in now && v in net.VotersFor(before, u, now[u]) then 1 else 0
  }

  ghost function Energy(net: Net, before: Labels, now: Labels): int {
    Total(net.nodes, Row(net.nodes, Agreement(net, before, now)))
  }

  /** How many votes, cast by the labels `x`, each node's label in `choice` gets. */
  ghost function Support(net: Net, x: Labels, choice: Labels): string -> int {
    u => if u in net.adj && u in choice then net.Votes(x, u, choice[u]) else 0
  }

  lemma VotesAreTotal(net: Net, x: Labels, u: string, lab: nat)
    requires net.Valid() && u in net.adj
    ensures net.Votes(x, u, lab) == Total(net.nodes, Indicator(Backers(net, x, u, lab)))
  {
    var p := Backers(net, x, u, lab);
    CardinalityIsTotal(net.nodes, p);
    assert Where(net.nodes, p) == net.VotersFor(x, u, lab);
  }

  lemma RowIsSupport(net: Net, before: Labels, now: Labels, u: string)
    requires net.Valid() && u in net.adj && u in now
    ensures Row(net.nodes, Agreement(net, before, now))(u) == Support(net, before, now)(u)
  {
    VotesAreTotal(net, before, u, now[u]);
    var votes, along := Indicator(Backers(net, before, u, now[u])), Along(Agreement(net, before, now), u);
    TotalEqual(net.nodes, votes, along);
  }

  /** The energy of a round is the number of votes its new labels received. */
  lemma EnergyIsSupport(net: Net, before: Labels, now: Labels)
    requires net.Valid() && now.Keys == net.adj.Keys
    ensures Energy(net, before, now) == Total(net.nodes, Support(net, before, now))
  {
    var row := Row(net.nodes, Agreement(net, before, now));
    forall u | u in net.nodes
      ensures row(u) == Support(net, before, now)(u)
    {
      RowIsSupport(net, before, now, u);
    }
    TotalEqual(net.nodes, row, Support(net, before, now));
  }

  lemma MutualVoters(net: Net, u: string, v: string)
    requires net.Valid() && u in net.adj
    ensures v in net.Voters(u) ==> v in net.adj && u in net.Voters(v)
  {
  }

  lemma AgreementAt(net: Net, a: Labels, b: Labels, u: string, v: string)
    requires net.Valid() && a.Keys == b.Keys == net.adj.Keys
    ensures Agreement(net, a, b)(u, v) == if u in net.adj && v in net.Voters(u) && a[v] == b[u] then 1 else 0
  {
    if u in net.adj { MutualVoters(net, u, v); }
  }

  lemma MutualAgreement(net: Net, a: Labels, b: Labels, u: string, v: string)
    requires net.Valid() && a.Keys == b.Keys == net.adj.Keys
    ensures Agreement(net, a, b)(u, v) == Agreement(net, b, a)(v, u)
  {
    AgreementAt(net, a, b, u, v);
    AgreementAt(net, b, a, v, u);
    if u in net.adj { MutualVoters(net, u, v); }
    if v in net.adj { MutualVoters(net, v, u); }
  }

  /** Because voting is mutual, the energy does not depend on the direction of time. */
  lemma EnergySymmetric(net: Net, a: Labels, b: Labels)
    requires net.Valid() && a.Keys == b.Keys == net.adj.Keys
    ensures Energy(net, a, b) == Energy(net, b, a)
  {
    var nodes, r, back := net.nodes, Agreement(net, a, b), Agreement(net, b, a);
    DoubleCounting(nodes, nodes, r);
    forall v | v in nodes
      ensures Row(nodes, Transposed(r))(v) == Row(nodes, back)(v)
    {
      forall u | u in nodes
        ensures Along(Transposed(r), v)(u) == Along(back, v)(u)
      {
        MutualAgreement(net, a, b, u, v);
      }
      TotalEqual(nodes, Along(Transposed(r), v), Along(back, v));
    }
    TotalEqual(nodes, Row(nodes, Transposed(r)), Row(nodes, back));
  }

  // ---------------------------------------------------------------------------------------------
  // The potential: energy first, then the sum of the labels of two consecutive rounds.

  ghost function LabelOf(x: Labels): string -> int {
    u => if u in x then x[u] else 0
  }

  ghost function LabelSum(net: Net, x: Labels): int {
    Total(net.nodes, LabelOf(x))
  }

  /** More than any sum of two labellings' labels. */
  ghost function Scale(net: Net): nat {
    2 * |net.adj| * |net.adj| + 1
  }

  ghost function Potential(net: Net, x: Labels): int
    requires x.Keys == net.adj.Keys
  {
    var y := net.Step(x);
    Energy(net, x, y) * Scale(net) - (LabelSum(net, x) + LabelSum(net, y))
  }

  /** No node can find more votes for a label than for the one it elects. */
  lemma StepMaximisesSupport(net: Net, x: Labels, a: Labels, u: string)
    requires net.Valid() && net.Labelling(x) && net.Labelling(a) && u in net.adj
    ensures Support(net, x, a)(u) <= Support(net, x, net.Step(x))(u)
    ensures net.Voters(u) != {} && Support(net, x, a)(u) == Support(net, x, net.Step(x))(u) ==> net.Step(x)[u] <= a[u]
  {
    if net.Voters(u) == {} {
      assert net.VotersFor(x, u, a[u]) == {};
    } else {
      BestWins(net, x, u, |net.adj|, a[u]);
    }
  }

  /** A node nobody votes for never changes its label. */
  lemma SilentNodesStay(net: Net, x: Labels, u: string)
    requires u in net.adj && x.Keys == net.adj.Keys && net.Voters(u) == {}
    ensures net.Step(x)[u] == x[u]
  {
  }

  lemma EqualSumsEqualLabels(net: Net, x: Labels, y: Labels)
    requires net.Valid() && x.Keys == y.Keys == net.adj.Keys
    requires forall u | u in net.nodes :: x[u] <= y[u]
    ensures LabelSum(net, x) <= LabelSum(net, y)
    ensures LabelSum(net, x) == LabelSum(net, y) ==> x == y
  {
    TotalLeq(net.nodes, LabelOf(x), LabelOf(y));
    if LabelSum(net, x) == LabelSum(net, y) {
      forall u | u in x
        ensures x[u] == y[u]
      {
        assert u in net.nodes;
        assert LabelOf(x)(u) == LabelOf(y)(u);
      }
    }
  }

  /**
   From one round to the next the energy never falls; when it stands still, the labels two rounds
   apart can only shrink.
   */
  lemma RoundImproves(net: Net, a: Labels)
    requires net.Valid() && net.Labelling(a)
    ensures
      var b := net.Step(a); var c := net.Step(b);
      Energy(net, a, b) < Energy(net, b, c)
      || (Energy(net, a, b) == Energy(net, b, c)
          && LabelSum(net, c) <= LabelSum(net, a) && (LabelSum(net, c) == LabelSum(net, a) ==> c == a))
  {
    StepIsLabelling(net, a);
    var b := net.Step(a);
    StepIsLabelling(net, b);
    var c := net.Step(b);
    EnergySymmetric(net, a, b);
    EnergyIsSupport(net, b, a);
    EnergyIsSupport(net, b, c);
    forall u | u in net.nodes
      ensures Support(net, b, a)(u) <= Support(net, b, c)(u)
    {
      StepMaximisesSupport(net, b, a, u);
    }
    TotalLeq(net.nodes, Support(net, b, a), Support(net, b, c));
    if Energy(net, a, b) == Energy(net, b, c) {
      forall u | u in net.nodes
        ensures c[u] <= a[u]
      {
        StepMaximisesSupport(net, b, a, u);
        if net.Voters(u) == {} {
          SilentNodesStay(net, a, u);
          SilentNodesStay(net, b, u);
        }
      }
      EqualSumsEqualLabels(net, c, a);
    }
  }

  lemma LabelSumBound(net: Net, x: Labels)
    requires net.Valid() && net.Labelling(x)
    ensures 0 <= LabelSum(net, x) <= |net.adj| * |net.adj|
  {
    forall u | u in net.nodes
      ensures 0 <= LabelOf(x)(u) <= |net.adj|
    {
    }
    TotalBound(net.nodes, LabelOf(x), |net.adj|);
  }

  lemma Lexicographic(e: int, f: int, scale: int, s: int, t: int)
    requires e < f && 0 <= s && 0 <= t < scale
    ensures e * scale - s < f * scale - t
  {
    var d: nat := f - e - 1;
    assert d * scale >= 0;
    assert (e + 1 + d) * scale == e * scale + scale + d * scale;
  }

  /** The potential grows in every round that is not the start of a cycle of length at most two. */
  lemma PotentialGrows(net: Net, a: Labels)
    requires net.Valid() && net.Labelling(a)
    ensures Potential(net, a) <= Potential(net, net.Step(a))
    ensures net.Step(net.Step(a)) != a ==> Potential(net, a) < Potential(net, net.Step(a))
  {
    var b := net.Step(a);
    StepIsLabelling(net, a);
    var c := net.Step(b);
    StepIsLabelling(net, b);
    RoundImproves(net, a);
    var e, f := Energy(net, a, b), Energy(net, b, c);
    if e < f {
      LabelSumBound(net, a);
      LabelSumBound(net, b);
      LabelSumBound(net, c);
      SquareScale(net);
      Lexicographic(e, f, Scale(net), LabelSum(net, a) + LabelSum(net, b), LabelSum(net, b) + LabelSum(net, c));
    }
  }

  lemma SquareScale(net: Net)
    ensures Scale(net) == |net.adj| * |net.adj| + |net.adj| * |net.adj| + 1
  {
  }

  lemma AgreementRange(net: Net, a: Labels, b: Labels, u: string, v: string)
    ensures 0 <= Along(Agreement(net, a, b), u)(v) <= 1
  {
  }

  lemma EnergyBound(net: Net, a: Labels, b: Labels)
    requires net.Valid()
    ensures 0 <= Energy(net, a, b) <= |net.adj| * |net.adj|
  {
    var r := Agreement(net, a, b);
    forall u | u in net.nodes
      ensures 0 <= Row(net.nodes, r)(u) <= |net.adj|
    {
      forall v | v in net.nodes
        ensures 0 <= Along(r, u)(v) <= 1
      {
        AgreementRange(net, a, b, u, v);
      }
      TotalBound(net.nodes, Along(r, u), 1);
    }
    TotalBound(net.nodes, Row(net.nodes, r), |net.adj|);
  }
}
