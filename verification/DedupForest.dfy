/** What a dedup plan is worth: a forest of victims, and nothing left to fold. */
module DedupForest {
  import opened Collections
  import opened Orders
  import opened Similarity
  import opened Folding
  import opened Grouping
  import opened DedupPlan
  import opened GraphStore
  import ApplyPlan
  import EntitySafety

  ghost function UuidOf(): Entity -> string {
    (e: Entity) => e.uuid
  }

  ghost predicate UniqueUuids(nodes: seq<Entity>) {
    DistinctBy(UuidOf(), nodes)
  }

  lemma FilterUnique(keep: Entity -> bool, nodes: seq<Entity>)
    requires UniqueUuids(nodes)
    ensures UniqueUuids(Filter(keep, nodes))
  {
    FilterDistinct(keep, UuidOf(), nodes);
  }

  // ---------------------------------------------------------------------------------------------
  // Every merge is justified, and victims never come back

  ghost predicate FoldsPair(threshold: real, m: Merge, victim: Entity, survivor: Entity) {
    && m == Merge(victim.uuid, survivor.uuid) && victim.uuid != survivor.uuid && victim.name == survivor.name
    && Score(victim, survivor) >= threshold && Outranks(survivor, victim)
  }

  ghost predicate Justified(nodes: seq<Entity>, threshold: real, m: Merge) {
    exists v, s :: v in nodes && s in nodes && FoldsPair(threshold, m, v, s)
  }

  /** A victim is folded once, and afterwards nothing is folded into it. */
  ghost predicate Forward(merges: seq<Merge>) {
    && (forall i | 0 <= i < |merges| :: merges[i].victim != merges[i].survivor)
    && (forall i, j | 0 <= i < j < |merges| :: merges[i].victim != merges[j].victim && merges[i].victim != merges[j].survivor)
  }

  lemma ScoreSymmetric(a: Entity, b: Entity)
    ensures Score(a, b) == Score(b, a)
  {
    JaccardLaws(Tokenize(a.summary), Tokenize(b.summary));
  }

  lemma BestIsJustified(nodes: seq<Entity>, threshold: real)
    requires UniqueUuids(nodes) && Candidates(nodes, threshold) != {}
    requires forall x, y | x in nodes && y in nodes :: x.name == y.name
    ensures Justified(nodes, threshold, BestMerge(nodes, threshold))
  {
    var p := BestPair(nodes, threshold);
    var a, b := nodes[p.0], nodes[p.1];
    IsCandidate(nodes, threshold, p);
    assert Score(a, b) >= threshold;
    ScoreSymmetric(a, b);
    OutranksIsPreorder(a, b, a);
    if Outranks(a, b) {
      assert FoldsPair(threshold, MergeOf(a, b), b, a);
    } else {
      assert FoldsPair(threshold, MergeOf(a, b), a, b);
    }
  }

  ghost predicate AllJustified(nodes: seq<Entity>, threshold: real, merges: seq<Merge>) {
    forall m | m in merges :: Justified(nodes, threshold, m)
  }

  lemma WithoutLacks(nodes: seq<Entity>, uuid: string, threshold: real, m: Merge)
    requires Justified(Without(nodes, uuid), threshold, m)
    ensures m.victim != uuid && m.survivor != uuid && Justified(nodes, threshold, m)
  {
    var v, s :| v in Without(nodes, uuid) && s in Without(nodes, uuid) && FoldsPair(threshold, m, v, s);
    assert NotUuid(uuid)(v) && NotUuid(uuid)(s);
  }

  lemma {:induction false} ClusterIsForward(nodes: seq<Entity>, threshold: real)
    requires UniqueUuids(nodes) && forall x, y | x in nodes && y in nodes :: x.name == y.name
    ensures Forward(ClusterMerges(nodes, threshold)) && AllJustified(nodes, threshold, ClusterMerges(nodes, threshold))
    decreases |nodes|
  {
    if Candidates(nodes, threshold) != {} {
      var m := BestMerge(nodes, threshold);
      BestIsJustified(nodes, threshold);
      FilterUnique(NotUuid(m.victim), nodes);
      var rest := ClusterMerges(Without(nodes, m.victim), threshold);
      ClusterIsForward(Without(nodes, m.victim), threshold);
      forall later | later in rest
        ensures m.victim != later.victim && m.victim != later.survivor && Justified(nodes, threshold, later)
      {
        WithoutLacks(nodes, m.victim, threshold, later);
      }
      ForwardJoin([m], rest);
      FoldFirst(nodes, threshold, m);
    }
  }

  lemma ForwardJoin(first: seq<Merge>, second: seq<Merge>)
    requires Forward(first) && Forward(second)
    requires forall a, b | a in first && b in second :: a.victim != b.victim && a.victim != b.survivor
    ensures Forward(first + second)
  {
  }

  lemma NamedIsCluster(entities: seq<Entity>, name: string)
    requires UniqueUuids(entities)
    ensures UniqueUuids(Named(entities, name))
    ensures forall e | e in Named(entities, name) :: e in entities && e.name == name
    ensures forall e | e in entities && e.name == name :: e in Named(entities, name)
  {
    FilterUnique(HasKey(NameOf(), name), entities);
    MembersHaveKey(NameOf(), entities, name);
  }

  /** A justified merge within the entities of some of the names. */
  ghost predicate JustifiedBy(entities: seq<Entity>, names: seq<string>, threshold: real, m: Merge) {
    exists v, s :: v in entities && s in entities && v.name in names && FoldsPair(threshold, m, v, s)
  }

  lemma ClusterJustified(entities: seq<Entity>, name: string, threshold: real, m: Merge)
    requires UniqueUuids(entities) && m in ClusterMerges(Named(entities, name), threshold)
    ensures JustifiedBy(entities, [name], threshold, m)
  {
    NamedIsCluster(entities, name);
    ClusterIsForward(Named(entities, name), threshold);
    assert Justified(Named(entities, name), threshold, m);
    var v, s :| v in Named(entities, name) && s in Named(entities, name) && FoldsPair(threshold, m, v, s);
    assert v.name in [name];
  }

  lemma NamesApart(entities: seq<Entity>, names: seq<string>, name: string, threshold: real, a: Merge, b: Merge)
    requires UniqueUuids(entities) && name !in names
    requires JustifiedBy(entities, names, threshold, a) && JustifiedBy(entities, [name], threshold, b)
    ensures a.victim != b.victim && a.victim != b.survivor
  {
    var v, s :| v in entities && s in entities && v.name in names && FoldsPair(threshold, a, v, s);
    var w, t :| w in entities && t in entities && w.name in [name] && FoldsPair(threshold, b, w, t);
    assert w.name == name && t.name == name;
    assert v != w && v != t;
  }

  lemma {:induction false} PlanIsForwardFor(entities: seq<Entity>, names: seq<string>, threshold: real)
    requires UniqueUuids(entities) && NoDuplicates(names)
    ensures Forward(MergesByName(entities, names, threshold))
    ensures forall m | m in MergesByName(entities, names, threshold) :: JustifiedBy(entities, names, threshold, m)
  {
    if names != [] {
      var init, name := names[..|names| - 1], names[|names| - 1];
      PlanIsForwardFor(entities, init, threshold);
      var before, cluster := MergesByName(entities, init, threshold), ClusterMerges(Named(entities, name), threshold);
      forall b | b in cluster
        ensures JustifiedBy(entities, [name], threshold, b) && JustifiedBy(entities, names, threshold, b)
      {
        ClusterJustified(entities, name, threshold, b);
      }
      forall a | a in before
        ensures JustifiedBy(entities, names, threshold, a)
      {
        assert JustifiedBy(entities, init, threshold, a);
      }
      forall a, b | a in before && b in cluster
        ensures a.victim != b.victim && a.victim != b.survivor
      {
        NamesApart(entities, init, name, threshold, a, b);
      }
      NamedIsCluster(entities, name);
      ClusterIsForward(Named(entities, name), threshold);
      ForwardJoin(before, cluster);
    }
  }

  /** Each merge folds an entity into one of the same name, similar enough, that outranks it. */
  lemma PlanIsJustified(entities: seq<Entity>, threshold: real)
    requires UniqueUuids(entities)
    ensures Forward(PlanOf(entities, threshold)) && AllJustified(entities, threshold, PlanOf(entities, threshold))
  {
    PlanIsForwardFor(entities, KeysMet(NameOf(), entities), threshold);
    forall m | m in PlanOf(entities, threshold)
      ensures Justified(entities, threshold, m)
    {
      assert JustifiedBy(entities, KeysMet(NameOf(), entities), threshold, m);
    }
  }

  // ---------------------------------------------------------------------------------------------
  // The victims form a forest

  lemma {:induction false} RedirectOfForward(merges: seq<Merge>, i: nat)
    requires Forward(merges) && i < |merges|
    ensures merges[i].victim in RedirectOf(merges) && RedirectOf(merges)[merges[i].victim] == merges[i].survivor
  {
    var init := merges[..|merges| - 1];
    if i < |init| {
      RedirectOfForward(init, i);
    }
  }

  lemma {:induction false} VictimAt(merges: seq<Merge>, v: string) returns (i: nat)
    requires Forward(merges) && v in RedirectOf(merges)
    ensures i < |merges| && merges[i].victim == v && RedirectOf(merges)[v] == merges[i].survivor
  {
    i := |merges| - 1;
    if merges[i].victim != v {
      i := VictimAt(merges[..i], v);
    }
    RedirectOfForward(merges, i);
  }

  ghost predicate MetBefore(merges: seq<Merge>, seen: set<string>, i: nat)
    requires i <= |merges|
  {
    forall v | v in seen :: exists j :: 0 <= j < i && merges[j].victim == v
  }

  ghost predicate NotBefore(merges: seq<Merge>, cur: string, i: nat)
    requires i <= |merges|
  {
    forall j | 0 <= j < i :: merges[j].victim != cur
  }

  /** A relation that every merge satisfies from victim to survivor, and that chains. */
  ghost predicate Holds(merges: seq<Merge>, below: (string, string) -> bool) {
    && (forall m | m in merges :: below(m.victim, m.survivor))
    && (forall a, b, c | below(a, b) && below(b, c) :: below(a, c))
  }

  /** Chains only move forward through the merges, so the walk ends at a root and never at its guard. */
  lemma {:induction false} ChainsEnd(merges: seq<Merge>, below: (string, string) -> bool, cur: string, seen: set<string>, i: nat)
    requires Forward(merges) && Holds(merges, below) && i <= |merges| && seen <= RedirectOf(merges).Keys
    requires MetBefore(merges, seen, i) && NotBefore(merges, cur, i)
    ensures
      var end := Follow(RedirectOf(merges), cur, seen);
      end !in RedirectOf(merges) && (end == cur || below(cur, end))
    decreases |merges| - i
  {
    var redirect := RedirectOf(merges);
    if cur in redirect {
      var j := VictimAt(merges, cur);
      assert cur !in seen;
      assert NotBefore(merges, redirect[cur], j + 1);
      assert MetBefore(merges, seen + {cur}, j + 1);
      ChainsEnd(merges, below, redirect[cur], seen + {cur}, j + 1);
      assert merges[j] in merges;
    }
  }

  ghost predicate FoldsUnder(entities: seq<Entity>, v: string, r: string) {
    exists a, b :: a in entities && b in entities && a.uuid == v && b.uuid == r && a.name == b.name && Outranks(b, a)
  }

  ghost function Under(entities: seq<Entity>): (string, string) -> bool {
    (v: string, r: string) => FoldsUnder(entities, v, r)
  }

  lemma UnderChains(entities: seq<Entity>, a: string, b: string, c: string)
    requires UniqueUuids(entities) && FoldsUnder(entities, a, b) && FoldsUnder(entities, b, c)
    ensures FoldsUnder(entities, a, c)
  {
    var x, y :| x in entities && y in entities && x.uuid == a && y.uuid == b && x.name == y.name && Outranks(y, x);
    var y', z :| y' in entities && z in entities && y'.uuid == b && z.uuid == c && y'.name == z.name && Outranks(z, y');
    assert y == y';
    OutranksIsPreorder(z, y, x);
  }

  /**
   The plan is a forest: every victim's chain ends at a root that is not a victim, has the victim's
   name, and outranks it, so its summary is at least as long.
   */
  lemma PlanIsForest(entities: seq<Entity>, threshold: real)
    requires UniqueUuids(entities)
    ensures Acyclic(RedirectOf(PlanOf(entities, threshold)))
    ensures forall v | v in RootsOf(PlanOf(entities, threshold)) :: FoldsUnder(entities, v, RootsOf(PlanOf(entities, threshold))[v])
  {
    var merges := PlanOf(entities, threshold);
    PlanIsJustified(entities, threshold);
    var below := Under(entities);
    forall a, b, c | below(a, b) && below(b, c)
      ensures below(a, c)
    {
      UnderChains(entities, a, b, c);
    }
    forall m | m in merges
      ensures below(m.victim, m.survivor)
    {
      assert Justified(entities, threshold, m);
    }
    forall v | v in RedirectOf(merges)
      ensures Follow(RedirectOf(merges), v, {}) !in RedirectOf(merges) && FoldsUnder(entities, v, Follow(RedirectOf(merges), v, {}))
    {
      ChainsEnd(merges, below, v, {}, 0);
    }
  }

  /** Another entity of the name with at least as long a summary; between equals the earlier creation, then the lower uuid. */
  ghost predicate KeptFor(v: Entity, s: Entity) {
    && s.uuid != v.uuid && s.name == v.name && |s.summary| >= |v.summary|
    && (|s.summary| == |v.summary| ==>
          if s.createdAt != v.createdAt then StrLeq(s.createdAt, v.createdAt) else StrLeq(s.uuid, v.uuid))
  }

  lemma FoldedPair(entities: seq<Entity>, threshold: real, m: Merge) returns (v: Entity, s: Entity)
    requires Justified(entities, threshold, m)
    ensures v in entities && s in entities && FoldsPair(threshold, m, v, s)
  {
    v, s :| v in entities && s in entities && FoldsPair(threshold, m, v, s);
  }

  lemma FoldsPairMeans(threshold: real, m: Merge, v: Entity, s: Entity)
    requires FoldsPair(threshold, m, v, s)
    ensures m == Merge(v.uuid, s.uuid) && KeptFor(v, s) && SharesEnough(threshold, v, s)
  {
    OutranksMeans(s, v);
    SimilarMeans(Tokenize(v.summary), Tokenize(s.summary), threshold);
  }

  /** The two summaries have enough of their tokens in common. */
  ghost predicate SharesEnough(threshold: real, v: Entity, s: Entity) {
    var a, b := Tokenize(v.summary), Tokenize(s.summary);
    if a + b == {} then threshold <= 1.0 else threshold * |a + b| as real <= |a * b| as real
  }

  /** In every merge the summary that is kept is at least as long, and the two have enough tokens in common. */
  lemma MergeKeepsLonger(entities: seq<Entity>, threshold: real, m: Merge) returns (v: Entity, s: Entity)
    requires UniqueUuids(entities) && m in PlanOf(entities, threshold)
    ensures v in entities && s in entities && m == Merge(v.uuid, s.uuid) && KeptFor(v, s) && SharesEnough(threshold, v, s)
  {
    PlanIsJustified(entities, threshold);
    v, s := FoldedPair(entities, threshold, m);
    FoldsPairMeans(threshold, m, v, s);
  }

  /** So has the root each victim ends at. */
  lemma RootKeepsLonger(entities: seq<Entity>, threshold: real, uuid: string) returns (v: Entity, r: Entity)
    requires UniqueUuids(entities) && uuid in RootsOf(PlanOf(entities, threshold))
    ensures v in entities && r in entities && v.uuid == uuid && r.uuid == RootsOf(PlanOf(entities, threshold))[uuid]
    ensures KeptFor(v, r)
  {
    PlanIsForest(entities, threshold);
    assert RootsOf(PlanOf(entities, threshold))[uuid] !in RedirectOf(PlanOf(entities, threshold));
    assert FoldsUnder(entities, uuid, RootsOf(PlanOf(entities, threshold))[uuid]);
    v, r :| v in entities && r in entities && v.uuid == uuid && r.uuid == RootsOf(PlanOf(entities, threshold))[uuid]
            && v.name == r.name && Outranks(r, v);
    OutranksMeans(r, v);
  }

  // ---------------------------------------------------------------------------------------------
  // The plan is greedy

  /** The entities no earlier merge has folded. */
  ghost predicate IsLeft(nodes: seq<Entity>, merges: seq<Merge>, i: nat, e: Entity)
    requires i <= |merges|
  {
    e in nodes && forall j | 0 <= j < i :: merges[j].victim != e.uuid
  }

  /** Merge `i` folds two of the entities left, and no two of them are more alike. */
  ghost predicate FoldsMostAlike(nodes: seq<Entity>, merges: seq<Merge>, i: nat, v: Entity, s: Entity, score: (Entity, Entity) -> real)
    requires i < |merges|
  {
    && IsLeft(nodes, merges, i, v) && IsLeft(nodes, merges, i, s) && merges[i] == Merge(v.uuid, s.uuid)
    && forall a, b | IsLeft(nodes, merges, i, a) && IsLeft(nodes, merges, i, b) && a != b :: score(a, b) <= score(v, s)
  }

  lemma LaterIsMostAlike(nodes: seq<Entity>, merges: seq<Merge>, i: nat, v: Entity, s: Entity, score: (Entity, Entity) -> real)
    requires 0 < i < |merges| && FoldsMostAlike(Without(nodes, merges[0].victim), merges[1..], i - 1, v, s, score)
    ensures FoldsMostAlike(nodes, merges, i, v, s, score)
  {
    forall e
      ensures IsLeft(nodes, merges, i, e) <==> IsLeft(Without(nodes, merges[0].victim), merges[1..], i - 1, e)
    {
      LeftAfterFirst(nodes, merges, i, e);
    }
  }

  ghost function ScoreFn(): (Entity, Entity) -> real {
    (a: Entity, b: Entity) => Score(a, b)
  }

  lemma NoneHigher(nodes: seq<Entity>, threshold: real, x: nat, y: nat, i: nat, j: nat)
    requires FirstHighest(nodes, threshold, x, y) && i < j < |nodes|
    ensures ScoreFn()(nodes[i], nodes[j]) <= ScoreFn()(nodes[x], nodes[y])
  {
  }

  /** What no pair of positions exceeds, no two entities do, whichever way round. */
  lemma NoTwoHigher(nodes: seq<Entity>, score: (Entity, Entity) -> real, high: real, a: Entity, b: Entity)
    requires forall i, j | 0 <= i < j < |nodes| :: score(nodes[i], nodes[j]) <= high
    requires score(a, b) == score(b, a) && a in nodes && b in nodes && a != b
    ensures score(a, b) <= high
  {
    var i :| 0 <= i < |nodes| && nodes[i] == a;
    var j :| 0 <= j < |nodes| && nodes[j] == b;
    assert i < j || j < i;
  }

  lemma NoneMoreAlike(nodes: seq<Entity>, threshold: real, x: nat, y: nat, a: Entity, b: Entity)
    requires FirstHighest(nodes, threshold, x, y) && a in nodes && b in nodes && a != b
    ensures ScoreFn()(a, b) <= ScoreFn()(nodes[x], nodes[y])
  {
    forall i, j | 0 <= i < j < |nodes|
      ensures ScoreFn()(nodes[i], nodes[j]) <= ScoreFn()(nodes[x], nodes[y])
    {
      NoneHigher(nodes, threshold, x, y, i, j);
    }
    ScoreSymmetric(a, b);
    NoTwoHigher(nodes, ScoreFn(), ScoreFn()(nodes[x], nodes[y]), a, b);
  }

  lemma FirstIsMostAlike(nodes: seq<Entity>, threshold: real, merges: seq<Merge>) returns (v: Entity, s: Entity)
    requires UniqueUuids(nodes) && Candidates(nodes, threshold) != {} && merges != [] && merges[0] == BestMerge(nodes, threshold)
    ensures FoldsMostAlike(nodes, merges, 0, v, s, ScoreFn())
  {
    var p := BestPair(nodes, threshold);
    var x, y := nodes[p.0], nodes[p.1];
    BestIsFirst(nodes, threshold, p);
    ScoreSymmetric(x, y);
    forall a, b | a in nodes && b in nodes && a != b
      ensures ScoreFn()(a, b) <= ScoreFn()(x, y)
    {
      NoneMoreAlike(nodes, threshold, p.0, p.1, a, b);
    }
    if Outranks(x, y) {
      v, s := y, x;
    } else {
      v, s := x, y;
    }
  }

  lemma LeftAfterFirst(nodes: seq<Entity>, merges: seq<Merge>, i: nat, e: Entity)
    requires 0 < i <= |merges|
    ensures IsLeft(nodes, merges, i, e) <==> IsLeft(Without(nodes, merges[0].victim), merges[1..], i - 1, e)
  {
    assert NotUuid(merges[0].victim)(e) <==> e.uuid != merges[0].victim;
    if IsLeft(Without(nodes, merges[0].victim), merges[1..], i - 1, e) {
      forall j | 0 <= j < i
        ensures merges[j].victim != e.uuid
      {
        assert j > 0 ==> merges[1..][j - 1] == merges[j];
      }
    }
  }

  /** The first merge folds the best pair, and the others are those of the cluster without its victim. */
  lemma FirstAndRest(nodes: seq<Entity>, threshold: real)
    requires UniqueUuids(nodes) && ClusterMerges(nodes, threshold) != []
    ensures
      var merges := ClusterMerges(nodes, threshold);
      && Candidates(nodes, threshold) != {} && merges[0] == BestMerge(nodes, threshold)
      && merges[1..] == ClusterMerges(Without(nodes, merges[0].victim), threshold)
      && UniqueUuids(Without(nodes, merges[0].victim))
  {
    assert Candidates(nodes, threshold) != {};
    var m := BestMerge(nodes, threshold);
    FoldFirst(nodes, threshold, m);
    FilterUnique(NotUuid(m.victim), nodes);
  }

  /** Every merge of a cluster folds the two most alike of the entities left. */
  lemma {:induction false} ClusterIsGreedy(nodes: seq<Entity>, threshold: real, i: nat) returns (v: Entity, s: Entity)
    requires UniqueUuids(nodes) && i < |ClusterMerges(nodes, threshold)|
    ensures FoldsMostAlike(nodes, ClusterMerges(nodes, threshold), i, v, s, ScoreFn())
    decreases i
  {
    var merges := ClusterMerges(nodes, threshold);
    FirstAndRest(nodes, threshold);
    if i == 0 {
      v, s := FirstIsMostAlike(nodes, threshold, merges);
    } else {
      v, s := ClusterIsGreedy(Without(nodes, merges[0].victim), threshold, i - 1);
      LaterIsMostAlike(nodes, merges, i, v, s, ScoreFn());
    }
  }

  // ---------------------------------------------------------------------------------------------
  // Nothing is left to fold

  ghost predicate VictimOf(merges: seq<Merge>, e: Entity) {
    exists m :: m in merges && m.victim == e.uuid
  }

  lemma NoPairIsApart(nodes: seq<Entity>, threshold: real, x: Entity, y: Entity)
    requires Candidates(nodes, threshold) == {} && x in nodes && y in nodes && x != y
    ensures Score(x, y) < threshold
  {
    var i :| 0 <= i < |nodes| && nodes[i] == x;
    var j :| 0 <= j < |nodes| && nodes[j] == y;
    ScoreSymmetric(x, y);
    IsCandidate(nodes, threshold, if i < j then (i, j) else (j, i));
  }

  lemma {:induction false} ClusterApart(nodes: seq<Entity>, threshold: real, x: Entity, y: Entity)
    requires UniqueUuids(nodes) && x in nodes && y in nodes && x != y
    requires !VictimOf(ClusterMerges(nodes, threshold), x) && !VictimOf(ClusterMerges(nodes, threshold), y)
    ensures Score(x, y) < threshold
    decreases |nodes|
  {
    if Candidates(nodes, threshold) == {} {
      NoPairIsApart(nodes, threshold, x, y);
    } else {
      var m := BestMerge(nodes, threshold);
      FoldFirst(nodes, threshold, m);
      var rest := ClusterMerges(Without(nodes, m.victim), threshold);
      NotVictims([m], rest, x);
      NotVictims([m], rest, y);
      assert NotUuid(m.victim)(x) && NotUuid(m.victim)(y);
      FilterUnique(NotUuid(m.victim), nodes);
      ClusterApart(Without(nodes, m.victim), threshold, x, y);
    }
  }

  lemma NotVictims(first: seq<Merge>, rest: seq<Merge>, e: Entity)
    ensures VictimOf(first + rest, e) <==> VictimOf(first, e) || VictimOf(rest, e)
  {
    assert forall m :: m in first + rest <==> m in first || m in rest;
  }

  lemma {:induction false} ClusterInPlan(entities: seq<Entity>, names: seq<string>, name: string, threshold: real)
    requires name in names
    ensures forall m | m in ClusterMerges(Named(entities, name), threshold) :: m in MergesByName(entities, names, threshold)
  {
    if name != names[|names| - 1] {
      assert names == names[..|names| - 1] + [names[|names| - 1]];
      ClusterInPlan(entities, names[..|names| - 1], name, threshold);
    }
  }

  /** Two entities of one name that both survive are too different to fold. */
  lemma SurvivorsApart(entities: seq<Entity>, threshold: real, x: Entity, y: Entity)
    requires UniqueUuids(entities) && x in entities && y in entities && x != y && x.name == y.name
    requires !VictimOf(PlanOf(entities, threshold), x) && !VictimOf(PlanOf(entities, threshold), y)
    ensures Score(x, y) < threshold
  {
    NamedIsCluster(entities, x.name);
    ClusterInPlan(entities, KeysMet(NameOf(), entities), x.name, threshold);
    ClusterApart(Named(entities, x.name), threshold, x, y);
  }

  ghost predicate AllApart(entities: seq<Entity>, threshold: real) {
    forall x, y | x in entities && y in entities && x != y && x.name == y.name :: Score(x, y) < threshold
  }

  lemma {:induction false} NoMergesIn(entities: seq<Entity>, names: seq<string>, threshold: real)
    requires UniqueUuids(entities) && AllApart(entities, threshold)
    ensures MergesByName(entities, names, threshold) == []
  {
    if names != [] {
      NoMergesIn(entities, names[..|names| - 1], threshold);
      var nodes := Named(entities, names[|names| - 1]);
      NamedIsCluster(entities, names[|names| - 1]);
      forall i: nat, j: nat | i < j < |nodes|
        ensures Score(nodes[i], nodes[j]) < threshold
      {
        assert nodes[i] in nodes && nodes[j] in nodes && nodes[i].uuid != nodes[j].uuid;
      }
    }
  }

  /** A plan is empty exactly when no two entities of one name are similar enough. */
  lemma PlanIsEmptyIff(entities: seq<Entity>, threshold: real)
    requires UniqueUuids(entities)
    ensures PlanOf(entities, threshold) == [] <==> AllApart(entities, threshold)
  {
    if PlanOf(entities, threshold) == [] {
      forall x, y | x in entities && y in entities && x != y && x.name == y.name
        ensures Score(x, y) < threshold
      {
        SurvivorsApart(entities, threshold, x, y);
      }
    } else if AllApart(entities, threshold) {
      NoMergesIn(entities, KeysMet(NameOf(), entities), threshold);
    }
  }

  ghost function Survives(merges: seq<Merge>): Entity -> bool {
    (e: Entity) => !VictimOf(merges, e)
  }

  ghost function Survivors(entities: seq<Entity>, merges: seq<Merge>): seq<Entity> {
    Filter(Survives(merges), entities)
  }

  /** Planning again on what a plan leaves folds nothing. */
  lemma ReplanningIsEmpty(entities: seq<Entity>, threshold: real)
    requires UniqueUuids(entities)
    ensures PlanOf(Survivors(entities, PlanOf(entities, threshold)), threshold) == []
  {
    var merges := PlanOf(entities, threshold);
    var left := Survivors(entities, merges);
    FilterUnique(Survives(merges), entities);
    forall x, y | x in left && y in left && x != y && x.name == y.name
      ensures Score(x, y) < threshold
    {
      assert Survives(merges)(x) && Survives(merges)(y);
      SurvivorsApart(entities, threshold, x, y);
    }
    PlanIsEmptyIff(left, threshold);
  }

  /**
   A plan made from a snapshot of the graph's entities is one the executor can apply, and whatever it
   moves finds its new end points: an error-free run keeps all facts, and a run is error-free unless a
   statement raises or a MENTIONS edge lacks an end.
   */
  lemma PlanCanBeApplied(entities: seq<Entity>, threshold: real, g: Graph)
    requires UniqueUuids(entities) && (forall e | e in entities :: e.uuid in g.entities) && g.Sound()
    ensures Acyclic(RedirectOf(PlanOf(entities, threshold)))
    ensures EntitySafety.Landing(RootsOf(PlanOf(entities, threshold)), g)
    ensures (forall k | k in g.mentions :: g.mentions[k].src != "" && g.mentions[k].dst != "") ==>
      ApplyPlan.Movable(RootsOf(PlanOf(entities, threshold)), g)
  {
    PlanIsForest(entities, threshold);
    var root := RootsOf(PlanOf(entities, threshold));
    forall v | v in root
      ensures root[v] in g.entities
    {
      assert FoldsUnder(entities, v, root[v]);
    }
    forall k | k in g.relations
      ensures Lands(root, g.entities, g.relations[k])
    {
    }
  }
}
