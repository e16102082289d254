/** Connected components of an undirected graph, as the stack-driven search computes them. */
module GraphComponents {
  import opened Collections
  import opened Orders
  import opened Propagation

  ghost predicate Closed(g: Adjacency, s: set<string>) {
    forall u | u in s && u in g :: g[u] <= s
  }

  /** `v` lies in every neighbour-closed set around `u`. */
  ghost predicate Connected(g: Adjacency, u: string, v: string) {
    forall s: set<string> | Closed(g, s) && u in s :: v in s
  }

  ghost function Class(g: Adjacency, u: string): set<string> {
    set v | v in g && Connected(g, u, v)
  }

  ghost predicate IsPath(g: Adjacency, p: seq<string>, u: string, v: string) {
    && p != [] && p[0] == u && p[|p| - 1] == v
    && (forall i | 0 <= i < |p| :: p[i] in g)
    && (forall i | 0 <= i < |p| - 1 :: p[i + 1] in g[p[i]])
  }

  lemma {:induction false} PathStaysInside(g: Adjacency, p: seq<string>, u: string, v: string, s: set<string>)
    requires IsPath(g, p, u, v) && Closed(g, s) && u in s
    ensures v in s
  {
    if |p| > 1 {
      PathStaysInside(g, p[1..], p[1], v, s);
    }
  }

  /** Connectedness is the existence of a path. */
  lemma ConnectedIffPath(g: Adjacency, u: string, v: string)
    requires Undirected(g) && u in g
    ensures Connected(g, u, v) <==> exists p :: IsPath(g, p, u, v)
  {
    if p :| IsPath(g, p, u, v) {
      forall s: set<string> | Closed(g, s) && u in s
        ensures v in s
      {
        PathStaysInside(g, p, u, v, s);
      }
    }
    if Connected(g, u, v) {
      var reached := set w | w in g && exists p :: IsPath(g, p, u, w);
      assert IsPath(g, [u], u, u);
      forall w | w in reached
        ensures g[w] <= reached
      {
        var p :| IsPath(g, p, u, w);
        forall z | z in g[w]
          ensures z in reached
        {
          assert IsPath(g, p + [z], u, z);
        }
      }
      assert Closed(g, reached);
      assert v in reached;
    }
  }

  lemma ConnectedSymmetric(g: Adjacency, u: string, v: string)
    requires Undirected(g) && u in g && Connected(g, u, v)
    ensures v in g && Connected(g, v, u)
  {
    assert Closed(g, g.Keys);
    forall s: set<string> | Closed(g, s) && v in s
      ensures u in s
    {
      if u !in s {
        assert Closed(g, g.Keys - s);
      }
    }
  }

  lemma ConnectedTransitive(g: Adjacency, u: string, v: string, w: string)
    requires Connected(g, u, v) && Connected(g, v, w)
    ensures Connected(g, u, w)
  {
    forall s: set<string> | Closed(g, s) && u in s
      ensures w in s
    {
      assert v in s;
    }
  }

  lemma NeighboursConnected(g: Adjacency, u: string, v: string)
    requires u in g && v in g[u]
    ensures Connected(g, u, v)
  {
  }

  lemma SameClass(g: Adjacency, u: string, v: string)
    requires Undirected(g) && u in g && v in Class(g, u)
    ensures Class(g, u) == Class(g, v)
  {
    ConnectedSymmetric(g, u, v);
    forall w | w in g
      ensures w in Class(g, u) <==> w in Class(g, v)
    {
      if Connected(g, u, w) { ConnectedTransitive(g, v, u, w); }
      if Connected(g, v, w) { ConnectedTransitive(g, u, v, w); }
    }
  }

  /** Larger components first; among equals the one whose smallest member comes first. */
  predicate ComponentLeq(a: seq<string>, b: seq<string>) {
    |a| > |b| || (|a| == |b| && TupleLeq(a, b))
  }

  lemma ComponentLeqTotal()
    ensures TotalOrder(ComponentLeq)
  {
    TupleLeqTotal();
  }

  /** On disjoint components the order is the sort key (minus the length, first member). */
  lemma ComponentLeqIsSortKey(a: seq<string>, b: seq<string>)
    requires a != [] && b != [] && a[0] != b[0]
    ensures ComponentLeq(a, b) <==> |a| > |b| || (|a| == |b| && StrLeq(a[0], b[0]))
  {
  }

  ghost function ClassOf(g: Adjacency): string -> set<string> {
    u => Class(g, u)
  }

  ghost function Classes(g: Adjacency): set<set<string>> {
    Image(ClassOf(g), g.Keys)
  }

  function Listing(c: set<string>): seq<string> {
    StrLeqTotal();
    SortSet(StrLeq, c)
  }

  /** All classes, each as a sorted list, in the order the report lists them. */
  function ListAll(classes: set<set<string>>): seq<seq<string>> {
    ComponentLeqTotal();
    SortSet(ComponentLeq, set c | c in classes :: Listing(c))
  }

  ghost function Components(g: Adjacency): seq<seq<string>> {
    ListAll(Classes(g))
  }

  ghost predicate Reached(g: Adjacency, root: string, s: set<string>) {
    forall v | v in s :: v in g && Connected(g, root, v)
  }

  /** Marks the unvisited neighbours and puts them on the stack, in whatever order they are met. */
  method PushUnseen(neighbours: set<string>, visited: set<string>, stack: seq<string>)
    returns (visited': set<string>, stack': seq<string>)
    requires NoDuplicates(stack) && Elements(stack) <= visited
    ensures visited' == visited + neighbours
    ensures NoDuplicates(stack') && Elements(stack') == Elements(stack) + (neighbours - visited)
  {
    visited', stack' := visited, stack;
    var todo := neighbours;
    while todo != {}
      invariant todo <= neighbours
      invariant visited' == visited + (neighbours - todo)
      invariant NoDuplicates(stack') && Elements(stack') == Elements(stack) + (neighbours - todo - visited)
      decreases todo
    {
      var nb :| nb in todo;
      todo := todo - {nb};
      if nb !in visited' {
        assert nb !in Elements(stack');
        visited' := visited' + {nb};
        stack' := stack' + [nb];
      }
    }
  }

  lemma PopOne(stack: seq<string>)
    requires NoDuplicates(stack) && stack != []
    ensures NoDuplicates(stack[..|stack| - 1])
    ensures Elements(stack[..|stack| - 1]) == Elements(stack) - {stack[|stack| - 1]}
  {
    var rest, last := stack[..|stack| - 1], stack[|stack| - 1];
    forall v
      ensures v in Elements(rest) <==> v in Elements(stack) && v != last
    {
      if v in stack && v != last {
        var i :| 0 <= i < |stack| && stack[i] == v;
        assert rest[i] == v;
      }
    }
  }

  /** Depth-first search from `root`; `seen` must already hold every other visited component whole. */
  method Explore(g: Adjacency, root: string, seen: set<string>) returns (comp: set<string>)
    requires Undirected(g) && root in g && root !in seen && Closed(g, seen) && seen <= g.Keys
    ensures comp == Class(g, root) && comp !! seen && Closed(g, seen + comp)
  {
    var visited, stack := seen + {root}, [root];
    comp := {};
    while stack != []
      invariant NoDuplicates(stack)
      invariant visited == seen + comp + Elements(stack)
      invariant seen !! comp !! Elements(stack)
      invariant Reached(g, root, comp + Elements(stack)) && root in comp + Elements(stack)
      invariant forall u | u in comp :: g[u] <= visited
      decreases g.Keys - comp
    {
      var node := stack[|stack| - 1];
      PopOne(stack);
      assert node in Elements(stack);
      FoundIsReached(g, root, node);
      stack := stack[..|stack| - 1];
      comp := comp + {node};
      visited, stack := PushUnseen(g[node], visited, stack);
    }
    ExploredIsClass(g, root, seen, comp);
  }

  lemma FoundIsReached(g: Adjacency, root: string, node: string)
    requires Undirected(g) && node in g && Connected(g, root, node)
    ensures Reached(g, root, g[node])
  {
    forall nb | nb in g[node]
      ensures nb in g && Connected(g, root, nb)
    {
      NeighboursConnected(g, node, nb);
      ConnectedTransitive(g, root, node, nb);
    }
  }

  lemma ExploredIsClass(g: Adjacency, root: string, seen: set<string>, comp: set<string>)
    requires Undirected(g) && root in comp && comp <= g.Keys && comp !! seen && Closed(g, seen) && seen <= g.Keys
    requires Reached(g, root, comp) && Closed(g, seen + comp)
    ensures comp == Class(g, root)
  {
    forall u, v | u in comp && v in g[u]
      ensures v in comp
    {
    }
    assert Closed(g, comp);
  }

  lemma ClassesGrow(g: Adjacency, seen: set<string>, root: string, comp: set<string>)
    requires Undirected(g) && root in g && comp == Class(g, root)
    ensures Image(ClassOf(g), seen + comp) == Image(ClassOf(g), seen) + {comp}
  {
    forall u | u in comp
      ensures ClassOf(g)(u) == comp
    {
      SameClass(g, root, u);
    }
    assert root in comp;
    ImageGrows(ClassOf(g), seen, comp, comp);
  }

  method SortedNodes(g: Adjacency) returns (nodes: seq<string>)
    ensures |nodes| == |g| && SortedBy(StrLeq, nodes) && NoDuplicates(nodes)
    ensures forall u :: u in nodes <==> u in g
  {
    StrLeqTotal();
    SortSetSorted(StrLeq, g.Keys);
    nodes := SortSet(StrLeq, g.Keys);
  }

  method ConnectedComponents(g: Adjacency) returns (comps: seq<seq<string>>)
    requires Undirected(g)
    ensures comps == Components(g)
  {
    var seen, found := {}, {};
    var nodes := SortedNodes(g);
    for i := 0 to |nodes|
      invariant seen <= g.Keys && Closed(g, seen)
      invariant forall j | 0 <= j < i :: nodes[j] in seen
      invariant found == Image(ClassOf(g), seen)
    {
      var root := nodes[i];
      if root !in seen {
        var comp := Explore(g, root, seen);
        ClassesGrow(g, seen, root, comp);
        found, seen := found + {comp}, seen + comp;
      }
    }
    assert forall u | u in g :: u in nodes;
    assert seen == g.Keys;
    comps := ListAll(found);
  }

  lemma ListingHolds(c: set<string>)
    ensures |Listing(c)| == |c| && forall v :: v in Listing(c) <==> v in c
    ensures SortedBy(StrLeq, Listing(c)) && NoDuplicates(Listing(c))
  {
    StrLeqTotal();
    SortSetSorted(StrLeq, c);
  }

  lemma ListAllHolds(classes: set<set<string>>)
    ensures forall c | c in classes :: Listing(c) in ListAll(classes)
    ensures forall l | l in ListAll(classes) :: exists c :: c in classes && l == Listing(c)
    ensures NoDuplicates(ListAll(classes)) && SortedBy(ComponentLeq, ListAll(classes))
  {
    ComponentLeqTotal();
    SortSetSorted(ComponentLeq, set c | c in classes :: Listing(c));
  }

  /** Every node is listed with exactly the nodes connected to it. */
  lemma EveryClassListed(g: Adjacency, u: string)
    requires u in g
    ensures Listing(Class(g, u)) in Components(g)
    ensures forall v :: v in Listing(Class(g, u)) <==> v in g && Connected(g, u, v)
  {
    ListAllHolds(Classes(g));
    ListingHolds(Class(g, u));
    assert ClassOf(g)(u) in Classes(g);
  }

  /** A listed component is the class of each of its members. */
  lemma OnlyClassesListed(g: Adjacency, c: seq<string>, v: string)
    requires Undirected(g) && c in Components(g) && v in c
    ensures v in g && c == Listing(Class(g, v))
  {
    ListAllHolds(Classes(g));
    var class' :| class' in Classes(g) && c == Listing(class');
    ListingHolds(class');
    var a :| a in g.Keys && ClassOf(g)(a) == class';
    SameClass(g, a, v);
  }

  /** No component is listed twice, and the largest come first. */
  lemma ComponentsInOrder(g: Adjacency)
    ensures NoDuplicates(Components(g)) && SortedBy(ComponentLeq, Components(g))
  {
    ListAllHolds(Classes(g));
  }

  /** Two components that share a node are the same component. */
  lemma ComponentsAreDisjoint(g: Adjacency, i: nat, j: nat, v: string)
    requires Undirected(g) && i < |Components(g)| && j < |Components(g)|
    requires v in Components(g)[i] && v in Components(g)[j]
    ensures i == j
  {
    ComponentsInOrder(g);
    OnlyClassesListed(g, Components(g)[i], v);
    OnlyClassesListed(g, Components(g)[j], v);
  }

  /** Numbers every node by the position of its component. */
  method ComponentIndex(comps: seq<seq<string>>) returns (compOf: map<string, nat>)
    ensures forall v :: v in compOf <==> exists k :: 0 <= k < |comps| && v in comps[k]
    ensures forall v | v in compOf :: compOf[v] < |comps| && v in comps[compOf[v]]
  {
    compOf := map[];
    for i := 0 to |comps|
      invariant forall v :: v in compOf <==> exists k :: 0 <= k < i && v in comps[k]
      invariant forall v | v in compOf :: compOf[v] < i && v in comps[compOf[v]]
    {
      compOf := compOf + map v | v in comps[i] :: i;
    }
  }

  /** Two nodes carry the same number exactly when they are connected. */
  lemma IndexSeparatesClasses(g: Adjacency, compOf: map<string, nat>, u: string, v: string)
    requires Undirected(g) && u in g && v in g
    requires u in compOf && compOf[u] < |Components(g)| && u in Components(g)[compOf[u]]
    requires v in compOf && compOf[v] < |Components(g)| && v in Components(g)[compOf[v]]
    ensures compOf[u] == compOf[v] <==> v in Class(g, u)
  {
    var i, j := compOf[u], compOf[v];
    OnlyClassesListed(g, Components(g)[i], u);
    OnlyClassesListed(g, Components(g)[j], v);
    EveryClassListed(g, u);
    if v in Class(g, u) {
      ComponentsAreDisjoint(g, i, j, v);
    }
  }
}
