/** Which byte-identical episodes to fold. */
module EpisodicDups {
  import opened Collections
  import opened Orders
  import opened Grouping
  import opened Folding

  datatype Episode = Episode(uuid: string, name: string, content: string, createdAt: string)

  /** The fingerprint of the content is taken to be as good as the content. */
  function KeyOf(): Episode -> (string, string) {
    (e: Episode) => (e.name, e.content)
  }

  predicate Older(a: Episode, b: Episode) {
    TupleLeq([a.createdAt, a.uuid], [b.createdAt, b.uuid])
  }

  lemma OlderIsPreorder(a: Episode, b: Episode, c: Episode)
    ensures Older(a, a) && (Older(a, b) || Older(b, a))
    ensures Older(a, b) && Older(b, c) ==> Older(a, c)
  {
    TupleLeqTotal();
  }

  /** Earliest creation, then lowest uuid, then the one listed first. */
  function Keeper(nodes: seq<Episode>): (k: Episode)
    requires nodes != []
    ensures k in nodes && forall e | e in nodes :: Older(k, e)
  {
    if |nodes| == 1 then
      OlderIsPreorder(nodes[0], nodes[0], nodes[0]);
      nodes[0]
    else
      var init, last := nodes[..|nodes| - 1], nodes[|nodes| - 1];
      var k := Keeper(init);
      assert nodes == init + [last];
      OlderIsPreorder(k, last, last);
      OlderIsPreorder(last, last, last);
      assert forall e | e in init :: Older(last, k) ==> Older(last, e) by {
        forall e | e in init
          ensures Older(last, k) ==> Older(last, e)
        {
          OlderIsPreorder(last, k, e);
        }
      }
      if Older(k, last) then k else last
  }

  function Foldable(keeper: Episode): Episode -> bool {
    (e: Episode) => e.uuid != "" && e.uuid != keeper.uuid
  }

  function MergesInto(keeper: Episode, victims: seq<Episode>): (merges: seq<Merge>)
    ensures |merges| == |victims|
    ensures forall i | 0 <= i < |merges| :: merges[i] == Merge(victims[i].uuid, keeper.uuid)
  {
    seq(|victims|, i requires 0 <= i < |victims| => Merge(victims[i].uuid, keeper.uuid))
  }

  function GroupMerges(nodes: seq<Episode>): seq<Merge> {
    if |nodes| < 2 then [] else MergesInto(Keeper(nodes), Filter(Foldable(Keeper(nodes)), nodes))
  }

  function MergesByKey(episodes: seq<Episode>, keys: seq<(string, string)>): seq<Merge> {
    if keys == [] then []
    else MergesByKey(episodes, keys[..|keys| - 1]) + GroupMerges(Members(KeyOf(), episodes, keys[|keys| - 1]))
  }

  function PlanOf(episodes: seq<Episode>): seq<Merge> {
    MergesByKey(episodes, KeysMet(KeyOf(), episodes))
  }

  lemma MergesGrow(keeper: Episode, met: seq<Episode>, e: Episode)
    ensures MergesInto(keeper, Filter(Foldable(keeper), met + [e])) ==
      MergesInto(keeper, Filter(Foldable(keeper), met)) + if Foldable(keeper)(e) then [Merge(e.uuid, keeper.uuid)] else []
  {
    FilterAppend(Foldable(keeper), met, e);
  }

  method FoldInto(keeper: Episode, nodes: seq<Episode>) returns (merges: seq<Merge>)
    ensures merges == MergesInto(keeper, Filter(Foldable(keeper), nodes))
  {
    merges := [];
    for i := 0 to |nodes|
      invariant merges == MergesInto(keeper, Filter(Foldable(keeper), nodes[..i]))
    {
      assert nodes[..i + 1] == nodes[..i] + [nodes[i]];
      MergesGrow(keeper, nodes[..i], nodes[i]);
      if nodes[i].uuid != "" && nodes[i].uuid != keeper.uuid {
        merges := merges + [Merge(nodes[i].uuid, keeper.uuid)];
      }
    }
    assert nodes[..|nodes|] == nodes;
  }

  method FoldGroup(nodes: seq<Episode>) returns (merges: seq<Merge>)
    ensures merges == GroupMerges(nodes)
  {
    if |nodes| < 2 {
      return [];
    }
    var keeper := Keeper(nodes);
    merges := FoldInto(keeper, nodes);
  }

  lemma NextKey(episodes: seq<Episode>, keys: seq<(string, string)>, i: nat)
    requires i < |keys|
    ensures MergesByKey(episodes, keys[..i + 1]) == MergesByKey(episodes, keys[..i]) + GroupMerges(Members(KeyOf(), episodes, keys[i]))
  {
    assert keys[..i + 1][..i] == keys[..i];
  }

  method Plan(episodes: seq<Episode>) returns (merges: seq<Merge>)
    ensures merges == PlanOf(episodes)
  {
    var keys, groups := GroupBy(KeyOf(), episodes);
    merges := [];
    for i := 0 to |keys|
      invariant merges == MergesByKey(episodes, keys[..i])
    {
      NextKey(episodes, keys, i);
      var folded := FoldGroup(groups[keys[i]]);
      merges := merges + folded;
    }
    assert keys[..|keys|] == keys;
  }

  // ---------------------------------------------------------------------------------------------
  // What the plan is worth

  ghost function UuidOf(): Episode -> string {
    (e: Episode) => e.uuid
  }

  ghost predicate Identified(episodes: seq<Episode>) {
    DistinctBy(UuidOf(), episodes) && forall e | e in episodes :: e.uuid != ""
  }

  /** The oldest of the episodes with the name and content of `e`. */
  ghost predicate Keeps(episodes: seq<Episode>, e: Episode, keeper: Episode) {
    && e in episodes && keeper in episodes && KeyOf()(keeper) == KeyOf()(e)
    && forall other | other in episodes && KeyOf()(other) == KeyOf()(e) :: Older(keeper, other)
  }

  lemma OneKeeper(episodes: seq<Episode>, e: Episode, f: Episode, k: Episode, l: Episode)
    requires Identified(episodes) && Keeps(episodes, e, k) && Keeps(episodes, f, l) && KeyOf()(e) == KeyOf()(f)
    ensures k == l
  {
    TupleLeqTotal();
    assert [k.createdAt, k.uuid] == [l.createdAt, l.uuid];
    assert [k.createdAt, k.uuid][1] == [l.createdAt, l.uuid][1];
    assert UuidOf()(k) == UuidOf()(l);
  }

  ghost predicate Folds(episodes: seq<Episode>, m: Merge, victim: Episode, keeper: Episode) {
    m == Merge(victim.uuid, keeper.uuid) && victim != keeper && Keeps(episodes, victim, keeper)
  }

  lemma GroupFolds(episodes: seq<Episode>, key: (string, string), victim: Episode, keeper: Episode)
    requires Identified(episodes) && victim != keeper && Keeps(episodes, victim, keeper) && KeyOf()(victim) == key
    ensures Merge(victim.uuid, keeper.uuid) in GroupMerges(Members(KeyOf(), episodes, key))
  {
    var nodes := Members(KeyOf(), episodes, key);
    MembersHaveKey(KeyOf(), episodes, key);
    assert victim in nodes && keeper in nodes;
    var k := Keeper(nodes);
    assert Keeps(episodes, victim, k);
    OneKeeper(episodes, victim, victim, k, keeper);
    assert UuidOf()(victim) != UuidOf()(keeper);
    assert Foldable(k)(victim);
    var victims := Filter(Foldable(k), nodes);
    var i :| 0 <= i < |victims| && victims[i] == victim;
    assert GroupMerges(nodes)[i] == Merge(victim.uuid, keeper.uuid);
  }

  lemma GroupOnlyFolds(episodes: seq<Episode>, key: (string, string), m: Merge)
    requires m in GroupMerges(Members(KeyOf(), episodes, key))
    ensures exists victim, keeper :: Folds(episodes, m, victim, keeper) && KeyOf()(victim) == key
  {
    var nodes := Members(KeyOf(), episodes, key);
    MembersHaveKey(KeyOf(), episodes, key);
    var k := Keeper(nodes);
    var victims := Filter(Foldable(k), nodes);
    var i :| 0 <= i < |victims| && m == Merge(victims[i].uuid, k.uuid);
    assert victims[i] in victims && Foldable(k)(victims[i]);
    assert Folds(episodes, m, victims[i], k);
  }

  lemma {:induction false} InSomeGroup(episodes: seq<Episode>, keys: seq<(string, string)>, m: Merge)
    ensures m in MergesByKey(episodes, keys) <==> exists key :: key in keys && m in GroupMerges(Members(KeyOf(), episodes, key))
  {
    if keys != [] {
      var init, last := keys[..|keys| - 1], keys[|keys| - 1];
      assert keys == init + [last];
      InSomeGroup(episodes, init, m);
    }
  }

  /** An episode is folded, and into which other, exactly when that other is the oldest of its kind. */
  lemma PlanFoldsIff(episodes: seq<Episode>, m: Merge)
    requires Identified(episodes)
    ensures m in PlanOf(episodes) <==> exists victim, keeper :: Folds(episodes, m, victim, keeper)
  {
    InSomeGroup(episodes, KeysMet(KeyOf(), episodes), m);
    if m in PlanOf(episodes) {
      var key :| key in KeysMet(KeyOf(), episodes) && m in GroupMerges(Members(KeyOf(), episodes, key));
      GroupOnlyFolds(episodes, key, m);
    }
    if victim, keeper :| Folds(episodes, m, victim, keeper) {
      GroupFolds(episodes, KeyOf()(victim), victim, keeper);
    }
  }

  /** Created no later, and of those created together with the lowest uuid. */
  ghost predicate Earliest(episodes: seq<Episode>, name: string, content: string, k: Episode) {
    && k in episodes && k.name == name && k.content == content
    && forall e | e in episodes && e.name == name && e.content == content ::
         if k.createdAt != e.createdAt then StrLeq(k.createdAt, e.createdAt) else StrLeq(k.uuid, e.uuid)
  }

  lemma KeepsEarliest(episodes: seq<Episode>, e: Episode, k: Episode)
    requires e in episodes
    ensures Keeps(episodes, e, k) <==> Earliest(episodes, e.name, e.content, k)
  {
    forall other: Episode
      ensures KeyOf()(other) == KeyOf()(e) <==> other.name == e.name && other.content == e.content
      ensures Older(k, other) <==> if k.createdAt != other.createdAt then StrLeq(k.createdAt, other.createdAt) else StrLeq(k.uuid, other.uuid)
    {
      PairLeqMeans(k.createdAt, k.uuid, other.createdAt, other.uuid);
    }
  }

  /** Property by property: exactly the episodes that are not the earliest of their name and content go, into that one. */
  lemma PlanFoldsIntoEarliestIff(episodes: seq<Episode>, m: Merge)
    requires Identified(episodes)
    ensures m in PlanOf(episodes) <==> exists v, k :: v in episodes && v != k && Earliest(episodes, v.name, v.content, k)
                                                 && m == Merge(v.uuid, k.uuid)
  {
    PlanFoldsIff(episodes, m);
    if v, k :| Folds(episodes, m, v, k) {
      KeepsEarliest(episodes, v, k);
    }
    if v, k :| v in episodes && v != k && Earliest(episodes, v.name, v.content, k) && m == Merge(v.uuid, k.uuid) {
      KeepsEarliest(episodes, v, k);
      assert Folds(episodes, m, v, k);
    }
  }

  /** Whatever the episodes, none without a uuid is folded and none into itself. */
  lemma OnlyOthersFold(episodes: seq<Episode>, m: Merge)
    requires m in PlanOf(episodes)
    ensures m.victim != "" && m.victim != m.survivor
  {
    InSomeGroup(episodes, KeysMet(KeyOf(), episodes), m);
    var key :| key in KeysMet(KeyOf(), episodes) && m in GroupMerges(Members(KeyOf(), episodes, key));
    var nodes := Members(KeyOf(), episodes, key);
    var victims := Filter(Foldable(Keeper(nodes)), nodes);
    var i :| 0 <= i < |victims| && m == Merge(victims[i].uuid, Keeper(nodes).uuid);
    assert victims[i] in victims && Foldable(Keeper(nodes))(victims[i]);
  }

  // Each goes once

  ghost predicate DistinctVictims(merges: seq<Merge>) {
    forall i, j | 0 <= i < j < |merges| :: merges[i].victim != merges[j].victim
  }

  lemma GroupVictimsDistinct(episodes: seq<Episode>, key: (string, string))
    requires Identified(episodes)
    ensures DistinctVictims(GroupMerges(Members(KeyOf(), episodes, key)))
  {
    var nodes := Members(KeyOf(), episodes, key);
    MembersHaveKey(KeyOf(), episodes, key);
    FilterDistinct(HasKey(KeyOf(), key), UuidOf(), episodes);
    if |nodes| >= 2 {
      FilterDistinct(Foldable(Keeper(nodes)), UuidOf(), nodes);
      var victims := Filter(Foldable(Keeper(nodes)), nodes);
      assert forall i, j | 0 <= i < j < |victims| :: UuidOf()(victims[i]) != UuidOf()(victims[j]);
    }
  }

  lemma GroupVictim(episodes: seq<Episode>, key: (string, string), m: Merge) returns (e: Episode)
    requires m in GroupMerges(Members(KeyOf(), episodes, key))
    ensures e in episodes && e.uuid == m.victim && KeyOf()(e) == key
  {
    GroupOnlyFolds(episodes, key, m);
    var keeper;
    e, keeper :| Folds(episodes, m, e, keeper) && KeyOf()(e) == key;
  }

  lemma SameUuid(episodes: seq<Episode>, e: Episode, f: Episode)
    requires Identified(episodes) && e in episodes && f in episodes && e.uuid == f.uuid
    ensures e == f
  {
    assert UuidOf()(e) == UuidOf()(f);
  }

  lemma DistinctJoin(first: seq<Merge>, second: seq<Merge>)
    requires DistinctVictims(first) && DistinctVictims(second)
    requires forall a, b | a in first && b in second :: a.victim != b.victim
    ensures DistinctVictims(first + second)
  {
  }

  lemma KeysApart(episodes: seq<Episode>, keys: seq<(string, string)>, other: (string, string), a: Merge, b: Merge)
    requires Identified(episodes) && other !in keys && a in MergesByKey(episodes, keys)
    requires b in GroupMerges(Members(KeyOf(), episodes, other))
    ensures a.victim != b.victim
  {
    InSomeGroup(episodes, keys, a);
    var key :| key in keys && a in GroupMerges(Members(KeyOf(), episodes, key));
    var e := GroupVictim(episodes, key, a);
    var f := GroupVictim(episodes, other, b);
    if e.uuid == f.uuid {
      SameUuid(episodes, e, f);
    }
  }

  lemma {:induction false} VictimsDistinctFor(episodes: seq<Episode>, keys: seq<(string, string)>)
    requires Identified(episodes) && NoDuplicates(keys)
    ensures DistinctVictims(MergesByKey(episodes, keys))
  {
    if keys != [] {
      var init, last := keys[..|keys| - 1], keys[|keys| - 1];
      VictimsDistinctFor(episodes, init);
      GroupVictimsDistinct(episodes, last);
      forall a, b | a in MergesByKey(episodes, init) && b in GroupMerges(Members(KeyOf(), episodes, last))
        ensures a.victim != b.victim
      {
        KeysApart(episodes, init, last, a, b);
      }
      DistinctJoin(MergesByKey(episodes, init), GroupMerges(Members(KeyOf(), episodes, last)));
    }
  }

  lemma EachGoesOnce(episodes: seq<Episode>)
    requires Identified(episodes)
    ensures DistinctVictims(PlanOf(episodes))
  {
    VictimsDistinctFor(episodes, KeysMet(KeyOf(), episodes));
  }

  lemma SurvivorIsNoVictim(episodes: seq<Episode>, a: Merge, b: Merge)
    requires Identified(episodes) && a in PlanOf(episodes) && b in PlanOf(episodes)
    ensures a.survivor != b.victim
  {
    PlanFoldsIff(episodes, a);
    PlanFoldsIff(episodes, b);
    var v, k :| Folds(episodes, a, v, k);
    var w, l :| Folds(episodes, b, w, l);
    if k.uuid == w.uuid {
      assert UuidOf()(k) == UuidOf()(w);
      OneKeeper(episodes, v, w, k, l);
    }
  }

  lemma FollowOnce(redirect: Redirect, v: string)
    requires v in redirect && redirect[v] !in redirect
    ensures Follow(redirect, v, {}) == redirect[v]
  {
  }

  /** No survivor is a victim: chains have length one, and the executor's root map is the plan itself. */
  lemma PlanIsFlat(episodes: seq<Episode>)
    requires Identified(episodes)
    ensures forall a, b | a in PlanOf(episodes) && b in PlanOf(episodes) :: a.survivor != b.victim
    ensures Acyclic(RedirectOf(PlanOf(episodes))) && RootsOf(PlanOf(episodes)) == RedirectOf(PlanOf(episodes))
  {
    var merges := PlanOf(episodes);
    forall a, b | a in merges && b in merges
      ensures a.survivor != b.victim
    {
      SurvivorIsNoVictim(episodes, a, b);
    }
    FlatMerges(merges);
  }

  lemma FlatMerges(merges: seq<Merge>)
    requires forall a, b | a in merges && b in merges :: a.survivor != b.victim
    ensures Acyclic(RedirectOf(merges)) && RootsOf(merges) == RedirectOf(merges)
  {
    var redirect := RedirectOf(merges);
    forall v | v in redirect
      ensures Follow(redirect, v, {}) == redirect[v] && redirect[v] !in redirect
    {
      var m := MergeIn(merges, v);
      if redirect[v] in redirect {
        var n := MergeIn(merges, redirect[v]);
      }
      FollowOnce(redirect, v);
    }
  }

  lemma {:induction false} MergeIn(merges: seq<Merge>, v: string) returns (m: Merge)
    requires v in RedirectOf(merges)
    ensures m in merges && m == Merge(v, RedirectOf(merges)[v])
  {
    m := merges[|merges| - 1];
    if m.victim != v {
      m := MergeIn(merges[..|merges| - 1], v);
    }
  }

  ghost predicate NotFolded(merges: seq<Merge>, e: Episode) {
    forall m | m in merges :: m.victim != e.uuid
  }

  /** Of every name and content exactly one episode is left: the oldest. */
  lemma OneOfEachIsLeft(episodes: seq<Episode>, e: Episode)
    requires Identified(episodes) && e in episodes
    ensures NotFolded(PlanOf(episodes), e) <==> Keeps(episodes, e, e)
  {
    var nodes := Members(KeyOf(), episodes, KeyOf()(e));
    MembersHaveKey(KeyOf(), episodes, KeyOf()(e));
    assert e in nodes;
    var k := Keeper(nodes);
    assert Keeps(episodes, e, k);
    if NotFolded(PlanOf(episodes), e) {
      if e != k {
        var m := Merge(e.uuid, k.uuid);
        assert Folds(episodes, m, e, k);
        PlanFoldsIff(episodes, m);
      }
    } else if Keeps(episodes, e, e) {
      var m :| m in PlanOf(episodes) && m.victim == e.uuid;
      PlanFoldsIff(episodes, m);
      var v, l :| Folds(episodes, m, v, l);
      assert UuidOf()(v) == UuidOf()(e);
      OneKeeper(episodes, e, v, e, l);
    }
  }
}
