/** What folding victims into survivors must keep, and how single statements keep it. */
module Folding {
  import opened Collections
  import opened GraphStore

  /** Victim to survivor; after chains are collapsed no survivor is itself a victim. */
  type Redirect = map<string, string>

  ghost predicate Flat(root: Redirect) {
    forall v | v in root :: root[v] !in root
  }

  function To(root: Redirect, u: string): string {
    if u in root then root[u] else u
  }

  // ---------------------------------------------------------------------------------------------
  // Collapsing chains

  function Follow(redirect: Redirect, cur: string, seen: set<string>): string
    requires seen <= redirect.Keys
    decreases redirect.Keys - seen
  {
    if cur in redirect && cur !in seen then Follow(redirect, redirect[cur], seen + {cur}) else cur
  }

  /** Every chain of merges ends at a node that is not a victim. */
  ghost predicate Acyclic(redirect: Redirect) {
    forall v | v in redirect :: Follow(redirect, v, {}) !in redirect
  }

  /** The walk with a visited set, for one victim. */
  method Walk(redirect: Redirect, uuid: string) returns (cur: string)
    ensures cur == Follow(redirect, uuid, {})
  {
    var seen: set<string> := {};
    cur := uuid;
    while cur in redirect && cur !in seen
      invariant seen <= redirect.Keys
      invariant Follow(redirect, cur, seen) == Follow(redirect, uuid, {})
      decreases redirect.Keys - seen
    {
      seen := seen + {cur};
      cur := redirect[cur];
    }
  }

  method RootMap(redirect: Redirect) returns (root: Redirect)
    ensures root.Keys == redirect.Keys
    ensures forall v | v in root :: root[v] == Follow(redirect, v, {})
    ensures Acyclic(redirect) ==> Flat(root)
  {
    root := map[];
    var todo := redirect.Keys;
    while todo != {}
      invariant todo <= redirect.Keys && root.Keys == redirect.Keys - todo
      invariant forall v | v in root :: root[v] == Follow(redirect, v, {})
      decreases todo
    {
      var v :| v in todo;
      todo := todo - {v};
      var r := Walk(redirect, v);
      root := root[v := r];
    }
  }

  // ---------------------------------------------------------------------------------------------
  // The merges of a plan

  datatype Merge = Merge(victim: string, survivor: string)

  /** `{m.victim: m.survivor for m in merges}`: a later merge of the same victim wins. */
  function RedirectOf(merges: seq<Merge>): Redirect {
    if merges == [] then map[]
    else RedirectOf(merges[..|merges| - 1])[merges[|merges| - 1].victim := merges[|merges| - 1].survivor]
  }

  ghost function RootsOf(merges: seq<Merge>): Redirect {
    var redirect := RedirectOf(merges);
    map v | v in redirect :: Follow(redirect, v, {})
  }

  lemma {:induction false} SingleCount<T>(s: seq<T>)
    requires forall x | x in s :: multiset(s)[x] == 1
    ensures |s| == |Elements(s)|
  {
    if s != [] {
      assert s == [s[0]] + s[1..];
      assert forall x | x in s :: multiset(s)[x] == multiset{s[0]}[x] + multiset(s[1..])[x];
      SingleCount(s[1..]);
      assert Elements(s) == {s[0]} + Elements(s[1..]);
      assert s[0] !in multiset(s[1..]);
      assert s[0] !in s[1..];
    }
  }

  lemma {:induction false} ElementsBound<T>(s: seq<T>)
    ensures |Elements(s)| <= |s|
  {
    if s != [] {
      ElementsBound(s[1..]);
      assert s == [s[0]] + s[1..];
      assert Elements(s) == {s[0]} + Elements(s[1..]);
    }
  }

  lemma ChunkJoins(victims: seq<string>, start: nat, end: nat)
    requires start <= end <= |victims|
    ensures Elements(victims[..end]) == Elements(victims[..start]) + Elements(victims[start..end])
    ensures Elements(victims[start..end]) <= Elements(victims)
    ensures |Elements(victims[start..end])| <= end - start
  {
    ElementsBound(victims[start..end]);
    assert victims[..end] == victims[..start] + victims[start..end];
  }

  method CollectRedirect(merges: seq<Merge>) returns (redirect: Redirect)
    ensures redirect == RedirectOf(merges)
  {
    redirect := map[];
    for i := 0 to |merges|
      invariant redirect == RedirectOf(merges[..i])
    {
      assert merges[..i + 1][..i] == merges[..i];
      redirect := redirect[merges[i].victim := merges[i].survivor];
    }
    assert merges[..|merges|] == merges;
  }

  method KeysInSomeOrder(redirect: Redirect) returns (victims: seq<string>)
    ensures Elements(victims) == redirect.Keys && |victims| == |redirect|
  {
    victims := [];
    var todo := redirect.Keys;
    while todo != {}
      invariant todo <= redirect.Keys && Elements(victims) == redirect.Keys - todo
      invariant |victims| + |todo| == |redirect|
      decreases todo
    {
      var v :| v in todo;
      assert Elements(victims + [v]) == Elements(victims) + {v};
      victims, todo := victims + [v], todo - {v};
    }
  }

  // ---------------------------------------------------------------------------------------------
  // The image of the edges once every victim is read as its survivor

  ghost function Pairs(root: Redirect, g: Graph): set<(string, string)> {
    set k | k in g.mentions :: (g.mentions[k].src, To(root, g.mentions[k].dst))
  }

  ghost function Triple(root: Redirect, r: Relation): (string, string, string) {
    (To(root, r.src), To(root, r.dst), r.fact)
  }

  predicate Touched(root: Redirect, r: Relation) {
    r.src in root || r.dst in root
  }

  /** A relation whose end points merge into one node: it is dropped on purpose. */
  predicate FoldsAway(root: Redirect, r: Relation) {
    Touched(root, r) && To(root, r.src) == To(root, r.dst)
  }

  ghost function Triples(root: Redirect, g: Graph): set<(string, string, string)> {
    set k | k in g.relations && !FoldsAway(root, g.relations[k]) :: Triple(root, g.relations[k])
  }

  // ---------------------------------------------------------------------------------------------
  // Single statements

  lemma AddMentionKeepsPairs(root: Redirect, g: Graph, m: Mention)
    requires g.Sound() && (m.src, To(root, m.dst)) in Pairs(root, g)
    ensures g.AddMention(m).Sound() && Pairs(root, g.AddMention(m)) == Pairs(root, g)
  {
    var h := g.AddMention(m);
    forall k | k in g.mentions
      ensures k in h.mentions && h.mentions[k] == g.mentions[k]
    {
    }
  }

  lemma RemoveMentionKeepsPairs(root: Redirect, g: Graph, src: string, dst: string, uuid: string, other: nat)
    requires g.Sound() && other in g.mentions
    requires g.mentions[other].src == src && g.mentions[other].dst != dst && To(root, g.mentions[other].dst) == To(root, dst)
    ensures g.RemoveMention(src, dst, uuid).Sound()
    ensures Pairs(root, g.RemoveMention(src, dst, uuid)) == Pairs(root, g)
  {
    var h := g.RemoveMention(src, dst, uuid);
    assert other in h.mentions && h.mentions[other] == g.mentions[other];
    forall p | p in Pairs(root, g)
      ensures p in Pairs(root, h)
    {
      var k :| k in g.mentions && p == (g.mentions[k].src, To(root, g.mentions[k].dst));
      if k !in h.mentions {
        assert p == (h.mentions[other].src, To(root, h.mentions[other].dst));
      } else {
        assert h.mentions[k] == g.mentions[k];
      }
    }
  }

  /** What the DELETE of a relation matches. */
  predicate SameEdge(a: Relation, b: Relation) {
    a.src == b.src && a.dst == b.dst && a.uuid == b.uuid
  }

  /** An edge the DELETE of `r` does not match carries the triple. */
  ghost predicate Carried(root: Redirect, g: Graph, r: Relation, t: (string, string, string)) {
    exists j :: j in g.relations && !SameEdge(g.relations[j], r) && !FoldsAway(root, g.relations[j]) && Triple(root, g.relations[j]) == t
  }

  lemma LeftIsCarried(root: Redirect, g: Graph, r: Relation, t: (string, string, string))
    ensures t in Triples(root, g.RemoveRelation(r.src, r.dst, r.uuid)) <==> Carried(root, g, r, t)
  {
    var h := g.RemoveRelation(r.src, r.dst, r.uuid);
    if Carried(root, g, r, t) {
      var j :| j in g.relations && !SameEdge(g.relations[j], r) && !FoldsAway(root, g.relations[j]) && Triple(root, g.relations[j]) == t;
      assert h.relations[j] == g.relations[j];
    }
  }

  /** Deleting a relation keeps all triples exactly when each one it takes is carried by an edge it leaves. */
  lemma DeletionKeepsTriplesIff(root: Redirect, g: Graph, r: Relation)
    ensures Triples(root, g.RemoveRelation(r.src, r.dst, r.uuid)) == Triples(root, g) <==>
      forall k | k in g.relations && SameEdge(g.relations[k], r) && !FoldsAway(root, g.relations[k]) ::
        Carried(root, g, r, Triple(root, g.relations[k]))
  {
    var h := g.RemoveRelation(r.src, r.dst, r.uuid);
    if Triples(root, h) == Triples(root, g) {
      forall k | k in g.relations && SameEdge(g.relations[k], r) && !FoldsAway(root, g.relations[k])
        ensures Carried(root, g, r, Triple(root, g.relations[k]))
      {
        assert Triple(root, g.relations[k]) in Triples(root, g);
        LeftIsCarried(root, g, r, Triple(root, g.relations[k]));
      }
    } else {
      assert Triples(root, h) <= Triples(root, g);
      var t :| t in Triples(root, g) && t !in Triples(root, h);
      LeftIsCarried(root, g, r, t);
      var k :| k in g.relations && !FoldsAway(root, g.relations[k]) && t == Triple(root, g.relations[k]);
      assert SameEdge(g.relations[k], r);
    }
  }

  function MovedTo(root: Redirect, r: Relation, groupId: string): Relation {
    r.(src := To(root, r.src), dst := To(root, r.dst), groupId := groupId)
  }

  /** The CREATE of a move matches both of its end points. */
  predicate Lands(root: Redirect, nodes: set<string>, r: Relation) {
    To(root, r.src) in nodes && To(root, r.dst) in nodes
  }

  lemma CarriedAfterCreate(root: Redirect, g: Graph, r: Relation, groupId: string, t: (string, string, string))
    requires g.Sound() && Flat(root) && Touched(root, r) && !FoldsAway(root, r)
    ensures Carried(root, g.AddRelation(MovedTo(root, r, groupId)), r, t) <==>
      Carried(root, g, r, t) || (Lands(root, g.entities, r) && t == Triple(root, r))
  {
    var moved := MovedTo(root, r, groupId);
    var a := g.AddRelation(moved);
    if Carried(root, g, r, t) {
      var j :| j in g.relations && !SameEdge(g.relations[j], r) && !FoldsAway(root, g.relations[j]) && Triple(root, g.relations[j]) == t;
      assert a.relations[j] == g.relations[j];
    }
    if Lands(root, g.entities, r) && t == Triple(root, r) {
      assert a.relations[g.nextId] == moved;
    }
    if Carried(root, a, r, t) {
      var j :| j in a.relations && !SameEdge(a.relations[j], r) && !FoldsAway(root, a.relations[j]) && Triple(root, a.relations[j]) == t;
      if j in g.relations {
        assert a.relations[j] == g.relations[j];
      }
    }
  }

  /**
   The move of a relation does not check that its CREATE matched, and its DELETE takes every edge of the
   uuid between the two nodes. It keeps all triples exactly when each edge taken has its fact on the copy,
   which needs both new end points, or on an edge that is left.
   */
  lemma RelationMoveKeepsTriplesIff(root: Redirect, g: Graph, r: Relation, groupId: string)
    requires g.Sound() && Flat(root) && r in g.relations.Values && Touched(root, r) && !FoldsAway(root, r)
    ensures
      Triples(root, g.AddRelation(MovedTo(root, r, groupId)).RemoveRelation(r.src, r.dst, r.uuid)) == Triples(root, g) <==>
      forall k | k in g.relations && SameEdge(g.relations[k], r) ::
        (Lands(root, g.entities, r) && g.relations[k].fact == r.fact) || Carried(root, g, r, Triple(root, g.relations[k]))
  {
    var moved := MovedTo(root, r, groupId);
    var a := g.AddRelation(moved);
    var i :| i in g.relations && g.relations[i] == r;
    CreateKeepsTriples(root, g, r, i, groupId);
    DeletionKeepsTriplesIff(root, a, r);
    forall k | k in g.relations && SameEdge(g.relations[k], r)
      ensures k in a.relations && a.relations[k] == g.relations[k] && !FoldsAway(root, g.relations[k])
      ensures Triple(root, g.relations[k]) == Triple(root, r) <==> g.relations[k].fact == r.fact
    {
    }
    forall t
      ensures Carried(root, a, r, t) <==> Carried(root, g, r, t) || (Lands(root, g.entities, r) && t == Triple(root, r))
    {
      CarriedAfterCreate(root, g, r, groupId, t);
    }
    forall k | k in a.relations && SameEdge(a.relations[k], r)
      ensures k in g.relations && a.relations[k] == g.relations[k]
    {
    }
  }

  lemma CreateKeepsTriples(root: Redirect, g: Graph, r: Relation, i: nat, groupId: string)
    requires g.Sound() && Flat(root) && i in g.relations && g.relations[i] == r && !FoldsAway(root, r)
    ensures Triples(root, g.AddRelation(MovedTo(root, r, groupId))) == Triples(root, g)
  {
    var a := g.AddRelation(MovedTo(root, r, groupId));
    assert Triple(root, r) in Triples(root, g);
    forall k | k in g.relations
      ensures k in a.relations && a.relations[k] == g.relations[k]
    {
    }
  }

  /** Two relations of one uuid between the same nodes: moving the one takes the other's fact along. */
  lemma SharedUuidLosesFact(root: Redirect, g: Graph, r: Relation, other: Relation, groupId: string)
    requires g.Sound() && Flat(root) && r in g.relations.Values && Touched(root, r) && !FoldsAway(root, r)
    requires other in g.relations.Values && SameEdge(other, r) && other.fact != r.fact && !Carried(root, g, r, Triple(root, other))
    ensures Triple(root, other) in Triples(root, g)
    ensures Triple(root, other) !in Triples(root, g.AddRelation(MovedTo(root, r, groupId)).RemoveRelation(r.src, r.dst, r.uuid))
  {
    var a := g.AddRelation(MovedTo(root, r, groupId));
    var h := a.RemoveRelation(r.src, r.dst, r.uuid);
    var k :| k in g.relations && g.relations[k] == other;
    CarriedAfterCreate(root, g, r, groupId, Triple(root, other));
    forall j | j in h.relations
      ensures j in a.relations && h.relations[j] == a.relations[j] && !SameEdge(a.relations[j], r)
    {
    }
  }
}
