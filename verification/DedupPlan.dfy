/** Which duplicate entities to fold: the greedy planner and what its plans are worth. */
module DedupPlan {
  import opened Orders
  import opened Similarity
  import opened Folding
  import opened Grouping

  datatype Entity = Entity(uuid: string, name: string, summary: string, createdAt: string)

  function Score(a: Entity, b: Entity): real {
    Jaccard(Tokenize(a.summary), Tokenize(b.summary))
  }

  // ---------------------------------------------------------------------------------------------
  // The survivor of a pair

  /** `a` sorts no later than `b`: longest summary, then earliest creation, then lowest uuid. */
  predicate Outranks(a: Entity, b: Entity) {
    |a.summary| > |b.summary|
    || (|a.summary| == |b.summary| && TupleLeq([a.createdAt, a.uuid], [b.createdAt, b.uuid]))
  }

  lemma OutranksIsPreorder(a: Entity, b: Entity, c: Entity)
    ensures Outranks(a, a) && (Outranks(a, b) || Outranks(b, a))
    ensures Outranks(a, b) && Outranks(b, c) ==> Outranks(a, c)
    ensures Outranks(a, b) && Outranks(b, a) ==> a.uuid == b.uuid
  {
    TupleLeqTotal();
    assert TupleLeq([a.createdAt, a.uuid], [a.createdAt, a.uuid]);
    assert TupleLeq([a.createdAt, a.uuid], [b.createdAt, b.uuid]) || TupleLeq([b.createdAt, b.uuid], [a.createdAt, a.uuid]);
    if Outranks(a, b) && Outranks(b, a) {
      assert [a.createdAt, a.uuid] == [b.createdAt, b.uuid];
      assert [a.createdAt, a.uuid][1] == [b.createdAt, b.uuid][1];
    }
    if Outranks(a, b) && Outranks(b, c) && |a.summary| == |c.summary| {
      assert TupleLeq([a.createdAt, a.uuid], [c.createdAt, c.uuid]);
    }
  }

  /** The longer summary, else the earlier creation, else the lower uuid, decides. */
  lemma OutranksMeans(a: Entity, b: Entity)
    ensures Outranks(a, b) <==>
      if |a.summary| != |b.summary| then |a.summary| > |b.summary|
      else if a.createdAt != b.createdAt then StrLeq(a.createdAt, b.createdAt)
      else StrLeq(a.uuid, b.uuid)
  {
    PairLeqMeans(a.createdAt, a.uuid, b.createdAt, b.uuid);
  }

  function MergeOf(a: Entity, b: Entity): Merge {
    if Outranks(a, b) then Merge(b.uuid, a.uuid) else Merge(a.uuid, b.uuid)
  }

  // ---------------------------------------------------------------------------------------------
  // The best pair of a cluster

  predicate IsPair(nodes: seq<Entity>, p: (nat, nat)) {
    p.0 < p.1 < |nodes|
  }

  predicate Earlier(p: (nat, nat), q: (nat, nat)) {
    p.0 < q.0 || (p.0 == q.0 && p.1 < q.1)
  }

  /** Higher scores first; among equals, the pair the double loop meets first. */
  function Better(score: ((nat, nat)) -> real): ((nat, nat), (nat, nat)) -> bool {
    (p: (nat, nat), q: (nat, nat)) => score(p) > score(q) || (score(p) == score(q) && !Earlier(q, p))
  }

  lemma BetterIsTotal(score: ((nat, nat)) -> real)
    ensures TotalOrder(Better(score))
  {
  }

  function ScoreOf(nodes: seq<Entity>): ((nat, nat)) -> real {
    (p: (nat, nat)) => if IsPair(nodes, p) then Score(nodes[p.0], nodes[p.1]) else 0.0
  }

  function Candidates(nodes: seq<Entity>, threshold: real): set<(nat, nat)> {
    set i: nat, j: nat | i < |nodes| && j < |nodes| && i < j && Score(nodes[i], nodes[j]) >= threshold :: (i, j)
  }

  ghost function BestPair(nodes: seq<Entity>, threshold: real): (p: (nat, nat))
    requires Candidates(nodes, threshold) != {}
    ensures IsPair(nodes, p) && p in Candidates(nodes, threshold)
    ensures forall q | q in Candidates(nodes, threshold) :: Better(ScoreOf(nodes))(p, q)
  {
    BetterIsTotal(ScoreOf(nodes));
    Least(Better(ScoreOf(nodes)), Candidates(nodes, threshold))
  }

  datatype Found = NoPair | Pair(at: (nat, nat))

  /** `best` is the best of the candidates the double loop has met before `end`. */
  ghost predicate BestBefore(score: ((nat, nat)) -> real, candidates: set<(nat, nat)>, end: (nat, nat), best: Found) {
    match best
    case NoPair => forall q | q in candidates :: !Earlier(q, end)
    case Pair(p) => p in candidates && Earlier(p, end) && forall q | q in candidates && Earlier(q, end) :: Better(score)(p, q)
  }

  lemma NothingBetween(score: ((nat, nat)) -> real, candidates: set<(nat, nat)>, from: (nat, nat), to: (nat, nat), best: Found)
    requires BestBefore(score, candidates, from, best) && Earlier(from, to)
    requires forall q | q in candidates && Earlier(q, to) :: Earlier(q, from)
    ensures BestBefore(score, candidates, to, best)
  {
  }

  lemma PairTested(score: ((nat, nat)) -> real, candidates: set<(nat, nat)>, i: nat, j: nat, best: Found)
    requires BestBefore(score, candidates, (i, j), best)
    ensures
      var here := (i, j);
      var wins := here in candidates && (best.NoPair? || score(here) > score(best.at));
      BestBefore(score, candidates, (i, j + 1), if wins then Pair(here) else best)
  {
  }

  lemma AllTested(score: ((nat, nat)) -> real, candidates: set<(nat, nat)>, end: (nat, nat), best: Found, p: (nat, nat))
    requires BestBefore(score, candidates, end, best) && forall q | q in candidates :: Earlier(q, end)
    requires p in candidates && forall q | q in candidates :: Better(score)(p, q)
    ensures best == Pair(p)
  {
    BetterIsTotal(score);
    assert best.Pair? ==> Better(score)(p, best.at) && Better(score)(best.at, p);
  }

  lemma IsCandidate(nodes: seq<Entity>, threshold: real, p: (nat, nat))
    ensures p in Candidates(nodes, threshold) <==> IsPair(nodes, p) && ScoreOf(nodes)(p) >= threshold
  {
  }

  ghost predicate NoneReaches(nodes: seq<Entity>, threshold: real) {
    forall i, j | 0 <= i < j < |nodes| :: Score(nodes[i], nodes[j]) < threshold
  }

  /** No pair scores higher than this one, and none listed before it as high. */
  ghost predicate FirstHighest(nodes: seq<Entity>, threshold: real, x: nat, y: nat) {
    && x < y < |nodes| && Score(nodes[x], nodes[y]) >= threshold
    && forall i, j | 0 <= i < j < |nodes| ::
         || Score(nodes[i], nodes[j]) < Score(nodes[x], nodes[y])
         || (Score(nodes[i], nodes[j]) == Score(nodes[x], nodes[y]) && (x < i || (x == i && y <= j)))
  }

  lemma NoCandidate(nodes: seq<Entity>, threshold: real)
    requires Candidates(nodes, threshold) == {}
    ensures NoneReaches(nodes, threshold)
  {
    forall i: nat, j: nat | i < j < |nodes|
      ensures Score(nodes[i], nodes[j]) < threshold
    {
      assert (i, j) !in Candidates(nodes, threshold);
    }
  }

  lemma BestIsFirst(nodes: seq<Entity>, threshold: real, p: (nat, nat))
    requires p in Candidates(nodes, threshold) && forall q | q in Candidates(nodes, threshold) :: Better(ScoreOf(nodes))(p, q)
    ensures FirstHighest(nodes, threshold, p.0, p.1)
  {
    IsCandidate(nodes, threshold, p);
    forall i: nat, j: nat | i < j < |nodes|
      ensures
        || Score(nodes[i], nodes[j]) < Score(nodes[p.0], nodes[p.1])
        || (Score(nodes[i], nodes[j]) == Score(nodes[p.0], nodes[p.1]) && (p.0 < i || (p.0 == i && p.1 <= j)))
    {
      IsCandidate(nodes, threshold, (i, j));
      assert (i, j) in Candidates(nodes, threshold) ==> Better(ScoreOf(nodes))(p, (i, j));
    }
  }

  method FindBest(nodes: seq<Entity>, threshold: real) returns (best: Found)
    ensures best.NoPair? <==> Candidates(nodes, threshold) == {}
    ensures best.Pair? ==> best.at == BestPair(nodes, threshold)
    ensures if best.NoPair? then NoneReaches(nodes, threshold) else FirstHighest(nodes, threshold, best.at.0, best.at.1)
  {
    best := NoPair;
    ghost var score, candidates := ScoreOf(nodes), Candidates(nodes, threshold);
    assert forall q | q in candidates :: IsPair(nodes, q);
    for i: nat := 0 to |nodes|
      invariant BestBefore(score, candidates, (i, 0), best)
    {
      NothingBetween(score, candidates, (i, 0), (i, i + 1), best);
      for j: nat := i + 1 to |nodes|
        invariant BestBefore(score, candidates, (i, j), best)
      {
        best := TestPair(nodes, threshold, i, j, best);
      }
      NothingBetween(score, candidates, (i, |nodes|), (i + 1, 0), best);
    }
    if candidates != {} {
      AllTested(score, candidates, (|nodes|, 0), best, BestPair(nodes, threshold));
      BestIsFirst(nodes, threshold, best.at);
    } else {
      NoCandidate(nodes, threshold);
    }
  }

  method TestPair(nodes: seq<Entity>, threshold: real, i: nat, j: nat, met: Found) returns (best: Found)
    requires i < j < |nodes| && BestBefore(ScoreOf(nodes), Candidates(nodes, threshold), (i, j), met)
    ensures BestBefore(ScoreOf(nodes), Candidates(nodes, threshold), (i, j + 1), best)
  {
    var score := ScoreOf(nodes)((i, j));
    IsCandidate(nodes, threshold, (i, j));
    PairTested(ScoreOf(nodes), Candidates(nodes, threshold), i, j, met);
    best := if score >= threshold && (met.NoPair? || score > ScoreOf(nodes)(met.at)) then Pair((i, j)) else met;
  }

  // ---------------------------------------------------------------------------------------------
  // One cluster: fold the best pair, take the victim out, try again

  function NotUuid(uuid: string): Entity -> bool {
    (e: Entity) => e.uuid != uuid
  }

  function Without(nodes: seq<Entity>, uuid: string): seq<Entity> {
    Filter(NotUuid(uuid), nodes)
  }

  lemma WithoutShrinks(nodes: seq<Entity>, e: Entity)
    requires e in nodes
    ensures |Without(nodes, e.uuid)| < |nodes|
  {
    assert !NotUuid(e.uuid)(e);
  }

  ghost function BestMerge(nodes: seq<Entity>, threshold: real): (m: Merge)
    requires Candidates(nodes, threshold) != {}
    ensures |Without(nodes, m.victim)| < |nodes|
  {
    var p := BestPair(nodes, threshold);
    WithoutShrinks(nodes, nodes[p.0]);
    WithoutShrinks(nodes, nodes[p.1]);
    MergeOf(nodes[p.0], nodes[p.1])
  }

  /** The merges of one cluster. A pair of equal uuids ends it: such a pair cannot be folded. */
  ghost function ClusterMerges(nodes: seq<Entity>, threshold: real): seq<Merge>
    decreases |nodes|
  {
    if Candidates(nodes, threshold) == {} then []
    else
      var m := BestMerge(nodes, threshold);
      if m.survivor == m.victim then [] else [m] + ClusterMerges(Without(nodes, m.victim), threshold)
  }

  lemma LoneNodeHasNoPair(nodes: seq<Entity>, threshold: real)
    requires |nodes| <= 1
    ensures Candidates(nodes, threshold) == {}
  {
  }

  lemma FoldFirst(nodes: seq<Entity>, threshold: real, m: Merge)
    requires Candidates(nodes, threshold) != {} && m == BestMerge(nodes, threshold)
    ensures ClusterMerges(nodes, threshold) ==
      if m.survivor == m.victim then [] else [m] + ClusterMerges(Without(nodes, m.victim), threshold)
    ensures |Without(nodes, m.victim)| < |nodes|
  {
  }

  /** One round: the best pair is folded and its victim leaves, or the cluster is done. */
  method FoldBest(nodes: seq<Entity>, threshold: real) returns (folded: seq<Merge>, rest: seq<Entity>)
    ensures folded == [] ==> ClusterMerges(nodes, threshold) == []
    ensures folded != [] ==> |rest| < |nodes|
    ensures folded != [] ==> ClusterMerges(nodes, threshold) == folded + ClusterMerges(rest, threshold)
  {
    var best := FindBest(nodes, threshold);
    if best.NoPair? {
      return [], nodes;
    }
    var m := MergeOf(nodes[best.at.0], nodes[best.at.1]);
    FoldFirst(nodes, threshold, m);
    return if m.survivor == m.victim then [] else [m], Without(nodes, m.victim);
  }

  lemma Regroup(a: seq<Merge>, b: seq<Merge>, c: seq<Merge>)
    ensures (a + b) + c == a + (b + c)
  {
  }

  method PlanCluster(nodes: seq<Entity>, threshold: real) returns (merges: seq<Merge>)
    ensures merges == ClusterMerges(nodes, threshold)
  {
    merges := [];
    var remaining := nodes;
    ghost var whole := ClusterMerges(nodes, threshold);
    while |remaining| > 1
      invariant merges + ClusterMerges(remaining, threshold) == whole
      decreases |remaining|
    {
      var folded, rest := FoldBest(remaining, threshold);
      if folded == [] {
        return;
      }
      Regroup(merges, folded, ClusterMerges(rest, threshold));
      merges := merges + folded;
      remaining := rest;
    }
    LoneNodeHasNoPair(remaining, threshold);
  }

  // ---------------------------------------------------------------------------------------------
  // All clusters, in the order in which their names are first met

  function NameOf(): Entity -> string {
    (e: Entity) => e.name
  }

  function Named(entities: seq<Entity>, name: string): seq<Entity> {
    Members(NameOf(), entities, name)
  }

  ghost function MergesByName(entities: seq<Entity>, names: seq<string>, threshold: real): seq<Merge> {
    if names == [] then []
    else MergesByName(entities, names[..|names| - 1], threshold) + ClusterMerges(Named(entities, names[|names| - 1]), threshold)
  }

  ghost function PlanOf(entities: seq<Entity>, threshold: real): seq<Merge> {
    MergesByName(entities, KeysMet(NameOf(), entities), threshold)
  }

  /** Clusters of one node are passed over. */
  method PlanNamed(nodes: seq<Entity>, threshold: real) returns (merges: seq<Merge>)
    ensures merges == ClusterMerges(nodes, threshold)
  {
    if |nodes| < 2 {
      LoneNodeHasNoPair(nodes, threshold);
      return [];
    }
    merges := PlanCluster(nodes, threshold);
  }

  lemma NextName(entities: seq<Entity>, names: seq<string>, i: nat, threshold: real)
    requires i < |names|
    ensures MergesByName(entities, names[..i + 1], threshold) ==
      MergesByName(entities, names[..i], threshold) + ClusterMerges(Named(entities, names[i]), threshold)
  {
    assert names[..i + 1][..i] == names[..i];
  }

  /** Plans the folds; nothing is written. */
  method Plan(entities: seq<Entity>, threshold: real) returns (merges: seq<Merge>)
    ensures merges == PlanOf(entities, threshold)
  {
    var names, byName := GroupBy(NameOf(), entities);
    merges := [];
    for i := 0 to |names|
      invariant merges == MergesByName(entities, names[..i], threshold)
    {
      NextName(entities, names, i, threshold);
      assert names[i] in byName;
      var folded := PlanNamed(byName[names[i]], threshold);
      merges := merges + folded;
    }
    assert names[..|names|] == names;
  }
}
