/** The edges after an error-free entity fold, property by property. */
module EntityFields {
  import opened Bags
  import opened GraphStore
  import opened Folding
  import opened EntitySafety
  import opened ApplyPlan
  import opened ApplyCleanup
  import opened EntityFold

  // ---------------------------------------------------------------------------------------------
  // Where a chain of merges ends

  /** Each name is folded into the next by some merge of the plan. */
  ghost predicate Chain(merges: seq<Merge>, names: seq<string>) {
    forall i | 0 <= i < |names| - 1 :: Merge(names[i], names[i + 1]) in merges
  }

  lemma {:induction false} RedirectIsPlanned(merges: seq<Merge>, v: string)
    ensures v in RedirectOf(merges) <==> exists m :: m in merges && m.victim == v
    ensures v in RedirectOf(merges) ==> Merge(v, RedirectOf(merges)[v]) in merges
  {
    if merges != [] {
      var init, last := merges[..|merges| - 1], merges[|merges| - 1];
      RedirectIsPlanned(init, v);
      assert merges == init + [last];
      assert forall m :: m in merges <==> m in init || m == last;
    }
  }

  lemma {:induction false} ChainOf(merges: seq<Merge>, cur: string, seen: set<string>) returns (names: seq<string>)
    requires seen <= RedirectOf(merges).Keys
    ensures names != [] && names[0] == cur && names[|names| - 1] == Follow(RedirectOf(merges), cur, seen) && Chain(merges, names)
    decreases RedirectOf(merges).Keys - seen
  {
    var redirect := RedirectOf(merges);
    if cur in redirect && cur !in seen {
      RedirectIsPlanned(merges, cur);
      var rest := ChainOf(merges, redirect[cur], seen + {cur});
      names := [cur] + rest;
    } else {
      names := [cur];
    }
  }

  /** The victims are those of the merges, and each ends, merge by merge, at a name that is no victim. */
  lemma RootEndsChain(merges: seq<Merge>, v: string)
    requires Acyclic(RedirectOf(merges))
    ensures v in RootsOf(merges) <==> exists m :: m in merges && m.victim == v
    ensures v in RootsOf(merges) ==>
      && (forall m | m in merges :: m.victim != RootsOf(merges)[v])
      && exists names :: Chain(merges, names) && |names| > 1 && names[0] == v && names[|names| - 1] == RootsOf(merges)[v]
  {
    RedirectIsPlanned(merges, v);
    if v in RootsOf(merges) {
      var names := ChainOf(merges, v, {});
      RedirectIsPlanned(merges, RootsOf(merges)[v]);
    }
  }

  // ---------------------------------------------------------------------------------------------
  // MENTIONS

  /** `b` is `a`, or if that points at a victim its copy on the survivor. */
  ghost predicate MentionBecomes(root: Redirect, a: Mention, b: Mention) {
    if a.dst in root then
      && b.uuid == a.uuid && b.src == a.src && b.createdAt == a.createdAt && b.dst == root[a.dst]
      && b.groupId == if a.groupId == "" then "graphiti_memory" else a.groupId
    else b == a
  }

  /** Every edge left is one of the start or its copy, and every edge of the start has become one that is left. */
  lemma MentionsBecome(root: Redirect, g0: Graph, read: Reads, g: Graph)
    requires Flat(root) && Quotient(root, g0, read, g) && ReadFrom(root, g0, read)
    ensures forall k | k in g.mentions :: exists j :: j in g0.mentions && MentionBecomes(root, g0.mentions[j], g.mentions[k])
    ensures forall j | j in g0.mentions :: exists k :: k in g.mentions && MentionBecomes(root, g0.mentions[j], g.mentions[k])
  {
    forall k | k in g.mentions
      ensures exists j :: j in g0.mentions && MentionBecomes(root, g0.mentions[j], g.mentions[k])
    {
      var j := CameFrom(root, g0, read, g, k);
    }
    forall j | j in g0.mentions
      ensures exists k :: k in g.mentions && MentionBecomes(root, g0.mentions[j], g.mentions[k])
    {
      var k := WentTo(root, g0, read, g, j);
    }
  }

  lemma RedirectedBecomes(root: Redirect, m: Mention)
    requires Flat(root) && m.dst in root
    ensures MentionBecomes(root, m, Redirected(root, m))
  {
    assert root[m.dst] !in root;
  }

  lemma CameFrom(root: Redirect, g0: Graph, read: Reads, g: Graph, k: nat) returns (j: nat)
    requires Flat(root) && Quotient(root, g0, read, g) && ReadFrom(root, g0, read) && k in g.mentions
    ensures j in g0.mentions && MentionBecomes(root, g0.mentions[j], g.mentions[k])
  {
    var others, images := OtherEdges(root, g0.mentions), MapAll(RedirectFn(root), read.mentions);
    var m := g.mentions[k];
    InBag(g.mentions, m);
    InBag(others, m);
    assert m in Bag(others) || m in multiset(images);
    if m in others.Values {
      j :| j in others && others[j] == m;
    } else {
      var i :| 0 <= i < |images| && images[i] == m;
      ReadRows(root, g0.mentions, read.mentions);
      assert read.mentions[i] in read.mentions;
      RedirectedBecomes(root, read.mentions[i]);
      j :| j in g0.mentions && g0.mentions[j] == read.mentions[i];
    }
  }

  lemma WentTo(root: Redirect, g0: Graph, read: Reads, g: Graph, j: nat) returns (k: nat)
    requires Flat(root) && Quotient(root, g0, read, g) && ReadFrom(root, g0, read) && j in g0.mentions
    ensures k in g.mentions && MentionBecomes(root, g0.mentions[j], g.mentions[k])
  {
    var others, images := OtherEdges(root, g0.mentions), MapAll(RedirectFn(root), read.mentions);
    var m := g0.mentions[j];
    var n := Redirected(root, m);
    if m.dst in root {
      RedirectedBecomes(root, m);
      assert IntoVictim(root)(m);
      var i :| 0 <= i < |read.mentions| && read.mentions[i] == m;
      assert images[i] == n;
      assert n in multiset(images);
    } else {
      assert others[j] == n;
      InBag(others, n);
    }
    assert n in Bag(g.mentions);
    InBag(g.mentions, n);
    k :| k in g.mentions && g.mentions[k] == n;
  }

  // ---------------------------------------------------------------------------------------------
  // RELATES_TO

  /** `b` is `a`, or if that touches a victim its copy between the survivors. */
  ghost predicate RelationBecomes(root: Redirect, a: Relation, b: Relation) {
    if a.src in root || a.dst in root then
      && b.uuid == a.uuid && b.fact == a.fact && b.attributes == a.attributes && b.groupId == "graphiti_memory"
      && b.src == (if a.src in root then root[a.src] else a.src)
      && b.dst == (if a.dst in root then root[a.dst] else a.dst)
    else b == a
  }

  /** It touches no victim, or its two new ends are different nodes that exist. */
  ghost predicate IsPlaced(root: Redirect, nodes: set<string>, r: Relation) {
    var src, dst := if r.src in root then root[r.src] else r.src, if r.dst in root then root[r.dst] else r.dst;
    (r.src !in root && r.dst !in root) || (src != dst && src in nodes && dst in nodes)
  }

  lemma ReroutedBecomes(root: Redirect, r: Relation)
    ensures RelationBecomes(root, r, Rerouted(root, r))
  {
  }

  lemma TriplePlaced(root: Redirect, nodes: set<string>, r: Relation)
    ensures IsPlaced(root, nodes, r) <==> Counts(root, nodes, r)
  {
  }

  /** `b` carries the fact of `a` between the new ends of `a`. */
  ghost predicate CarriesFact(root: Redirect, a: Relation, b: Relation) {
    && b.fact == a.fact
    && b.src == (if a.src in root then root[a.src] else a.src)
    && b.dst == (if a.dst in root then root[a.dst] else a.dst)
  }

  /**
   Every relation left is one of the start or its copy; every relation of the start that has a place has
   its fact between its new ends; no two relations left share source, target and fact.
   */
  lemma RelationsBecome(root: Redirect, g0: Graph, read: Reads, g: Graph)
    requires Flat(root) && g.Sound() && Quotient(root, g0, read, g)
    ensures forall k | k in g.relations :: exists j :: j in g0.relations && RelationBecomes(root, g0.relations[j], g.relations[k])
    ensures forall j | j in g0.relations && IsPlaced(root, g0.entities, g0.relations[j]) ::
      exists k :: k in g.relations && CarriesFact(root, g0.relations[j], g.relations[k])
    ensures forall j, k | j in g.relations && k in g.relations && g.relations[j].src == g.relations[k].src &&
      g.relations[j].dst == g.relations[k].dst && g.relations[j].fact == g.relations[k].fact :: j == k
  {
    forall k | k in g.relations
      ensures exists j :: j in g0.relations && RelationBecomes(root, g0.relations[j], g.relations[k])
    {
      var j := RelationCameFrom(root, g0, read, g, k);
    }
    forall j | j in g0.relations && IsPlaced(root, g0.entities, g0.relations[j])
      ensures exists k :: k in g.relations && CarriesFact(root, g0.relations[j], g.relations[k])
    {
      var k := FactWentTo(root, g0, read, g, j);
    }
  }

  lemma FactWentTo(root: Redirect, g0: Graph, read: Reads, g: Graph, j: nat) returns (k: nat)
    requires Quotient(root, g0, read, g) && j in g0.relations && IsPlaced(root, g0.entities, g0.relations[j])
    ensures k in g.relations && CarriesFact(root, g0.relations[j], g.relations[k])
  {
    TriplePlaced(root, g0.entities, g0.relations[j]);
    InLanded(root, g0.entities, g0.relations, j);
    assert Triple(root, g0.relations[j]) in ActualTriples(g);
    k :| k in g.relations && Key(g.relations[k]) == Triple(root, g0.relations[j]);
  }

  lemma RelationCameFrom(root: Redirect, g0: Graph, read: Reads, g: Graph, k: nat) returns (j: nat)
    requires g.Sound() && Quotient(root, g0, read, g) && k in g.relations
    ensures j in g0.relations && RelationBecomes(root, g0.relations[j], g.relations[k])
  {
    var r := g.relations[k];
    assert r.src in g.entities && r.dst in g.entities;
    assert r in Lineage(root, g0.entities, g0.relations);
    if r in g0.relations.Values {
      j :| j in g0.relations && g0.relations[j] == r;
    } else {
      var r0 :| r0 in g0.relations.Values && r == Rerouted(root, r0);
      ReroutedBecomes(root, r0);
      j :| j in g0.relations && g0.relations[j] == r0;
    }
  }
}
