/** What a run of the propagation can do: it stops at a fixed point or enters a cycle of length two. */
module Cycles {
  import opened Propagation

  // ---------------------------------------------------------------------------------------------
  // Deterministic sequences with a potential that grows unless the state two steps on is the same.

  ghost predicate DeterministicAt<S(!new)>(r: nat -> S, w: nat -> int, i: nat, j: nat) {
    r(i) == r(j) ==> w(i) == w(j) && r(i + 1) == r(j + 1)
  }

  ghost predicate DrivenAt<S(!new)>(r: nat -> S, w: nat -> int, i: nat) {
    w(i) <= w(i + 1) && (r(i + 2) != r(i) ==> w(i) < w(i + 1))
  }

  ghost predicate Deterministic<S(!new)>(r: nat -> S, w: nat -> int) {
    forall i: nat, j: nat :: DeterministicAt(r, w, i, j)
  }

  ghost predicate Driven<S(!new)>(r: nat -> S, w: nat -> int) {
    forall i: nat :: DrivenAt(r, w, i)
  }

  ghost predicate Revisits<S(!new)>(r: nat -> S, t: nat) {
    exists s: nat :: s < t && r(s) == r(t)
  }

  lemma {:induction false} Monotone<S(!new)>(r: nat -> S, w: nat -> int, s: nat, t: nat)
    requires Driven(r, w) && s <= t
    ensures w(s) <= w(t)
    decreases t
  {
    if s < t {
      Monotone(r, w, s, t - 1);
      assert DrivenAt(r, w, t - 1);
    }
  }

  lemma RecurrentIsTwoPeriodic<S(!new)>(r: nat -> S, w: nat -> int, s: nat, t: nat)
    requires Deterministic(r, w) && Driven(r, w)
    requires s < t && r(s) == r(t)
    ensures r(s + 2) == r(s)
  {
    Monotone(r, w, s + 1, t);
    assert DeterministicAt(r, w, s, t) && DrivenAt(r, w, s);
  }

  lemma FirstRevisitIsRecent<S(!new)>(r: nat -> S, w: nat -> int, t: nat)
    requires Deterministic(r, w) && Driven(r, w)
    requires Revisits(r, t)
    requires forall j: nat | j < t :: !Revisits(r, j)
    ensures t >= 1
    ensures r(t) == r(t - 1) || (t >= 2 && r(t) == r(t - 2))
  {
    var s: nat :| s < t && r(s) == r(t);
    RecurrentIsTwoPeriodic(r, w, s, t);
    if s + 2 < t {
      assert Revisits(r, s + 2);
    }
  }

  lemma {:induction false} Alternates<S(!new)>(r: nat -> S, w: nat -> int, s: nat, k: nat)
    requires Deterministic(r, w)
    requires r(s + 2) == r(s)
    ensures r(s + k) == r(if k % 2 == 0 then s else s + 1)
  {
    if k > 0 {
      Alternates(r, w, s, k - 1);
      assert DeterministicAt(r, w, s + (k - 1), if (k - 1) % 2 == 0 then s else s + 1);
    }
  }

  lemma {:induction false} FreshStepsRaise<S(!new)>(r: nat -> S, w: nat -> int, t: nat)
    requires Driven(r, w)
    requires forall j: nat | j <= t + 1 :: !Revisits(r, j)
    ensures w(t) >= w(0) + t
  {
    if t > 0 {
      FreshStepsRaise(r, w, t - 1);
      assert DrivenAt(r, w, t - 1);
      if r(t + 1) == r(t - 1) {
        assert Revisits(r, t + 1);
      }
    }
  }

  // ---------------------------------------------------------------------------------------------
  // The propagation is such a sequence.

  ghost function Potentials(net: Net, x: Labels): nat -> int
    requires x.Keys == net.adj.Keys
  {
    (t: nat) => Potential(net, Run(net, x, t))
  }

  lemma RoundsAreDriven(net: Net, x: Labels)
    requires net.Valid() && net.Labelling(x)
    ensures Deterministic(Rounds(net, x), Potentials(net, x))
    ensures Driven(Rounds(net, x), Potentials(net, x))
  {
    var r, w := Rounds(net, x), Potentials(net, x);
    forall i: nat
      ensures DrivenAt(r, w, i)
    {
      RoundIsDriven(net, x, i);
    }
    forall i: nat, j: nat
      ensures DeterministicAt(r, w, i, j)
    {
      EqualRoundsAdvanceEqually(net, x, i, j);
    }
  }

  lemma EqualRoundsAdvanceEqually(net: Net, x: Labels, i: nat, j: nat)
    requires x.Keys == net.adj.Keys
    ensures DeterministicAt(Rounds(net, x), Potentials(net, x), i, j)
  {
    RunNext(net, x, i);
    RunNext(net, x, j);
  }

  lemma RoundIsDriven(net: Net, x: Labels, t: nat)
    requires net.Valid() && net.Labelling(x)
    ensures DrivenAt(Rounds(net, x), Potentials(net, x), t)
  {
    RunIsLabelling(net, x, t);
    PotentialGrows(net, Run(net, x, t));
    RunNext(net, x, t);
    RunNext(net, x, t + 1);
  }

  /** The first repeated labelling is the one just before or the one exactly two rounds before. */
  lemma FirstRepeatIsRecent(net: Net, x: Labels, t: nat)
    requires net.Valid() && net.Labelling(x)
    requires Revisits(Rounds(net, x), t)
    requires forall j: nat | j < t :: !Revisits(Rounds(net, x), j)
    ensures t >= 1
    ensures
      var r := Rounds(net, x);
      r(t) == r(t - 1) || (t >= 2 && r(t) == r(t - 2))
  {
    RoundsAreDriven(net, x);
    FirstRevisitIsRecent(Rounds(net, x), Potentials(net, x), t);
  }

  /** Any labelling a run visits twice comes back after two rounds, and from then on for ever. */
  lemma RecurrentAlternatesForEver(net: Net, x: Labels, s: nat, t: nat, k: nat)
    requires net.Valid() && net.Labelling(x)
    requires s < t && Rounds(net, x)(s) == Rounds(net, x)(t)
    ensures Rounds(net, x)(s + k) == Rounds(net, x)(if k % 2 == 0 then s else s + 1)
  {
    RoundsAreDriven(net, x);
    RecurrentIsTwoPeriodic(Rounds(net, x), Potentials(net, x), s, t);
    Alternates(Rounds(net, x), Potentials(net, x), s, k);
  }

  /** A number of rounds within which every run has repeated a labelling. */
  ghost function RoundBound(net: Net): nat {
    MaxPotential(net) + Scale(net) + 1
  }

  ghost function MaxPotential(net: Net): nat {
    |net.adj| * |net.adj| * Scale(net)
  }

  lemma ScaledRange(e: int, top: int, scale: nat)
    requires 0 <= e <= top
    ensures 0 <= e * scale <= top * scale
  {
    assert (top - e) * scale >= 0;
    assert top * scale == e * scale + (top - e) * scale;
  }

  lemma PotentialRange(net: Net, a: Labels)
    requires net.Valid() && net.Labelling(a)
    ensures 0 - Scale(net) < Potential(net, a) <= MaxPotential(net)
  {
    StepIsLabelling(net, a);
    LabelSumBound(net, a);
    LabelSumBound(net, net.Step(a));
    EnergyBound(net, a, net.Step(a));
    SquareScale(net);
    ScaledRange(Energy(net, a, net.Step(a)), |net.adj| * |net.adj|, Scale(net));
  }

  lemma PotentialAtRound(net: Net, x: Labels, t: nat)
    requires net.Valid() && net.Labelling(x)
    ensures 0 - Scale(net) < Potentials(net, x)(t) <= MaxPotential(net)
  {
    RunIsLabelling(net, x, t);
    PotentialRange(net, Run(net, x, t));
  }

  lemma PotentialSpread(net: Net, x: Labels, n: nat)
    requires net.Valid() && net.Labelling(x) && n == RoundBound(net)
    ensures Potentials(net, x)(n) < Potentials(net, x)(0) + n
  {
    PotentialAtRound(net, x, 0);
    PotentialAtRound(net, x, n);
  }

  /** With no cap on the rounds the loop still ends: some round up to the bound repeats a labelling. */
  lemma SomeRoundRepeats(net: Net, x: Labels)
    requires net.Valid() && net.Labelling(x)
    ensures exists t: nat :: t <= RoundBound(net) + 1 && Revisits(Rounds(net, x), t)
  {
    var n := RoundBound(net);
    if forall j: nat | j <= n + 1 :: !Revisits(Rounds(net, x), j) {
      RoundsAreDriven(net, x);
      FreshStepsRaise(Rounds(net, x), Potentials(net, x), n);
      PotentialSpread(net, x, n);
      assert false;
    }
  }
}
