/** The adjacency a snapshot of entities and relations describes. */
module Adjacencies {
  import opened Propagation
  import opened Clustering

  /** Between known, different entities, whichever way round the relation points. */
  ghost predicate Related(entities: seq<string>, relations: seq<(string, string)>, u: string, v: string) {
    u != v && u in entities && v in entities && ((u, v) in relations || (v, u) in relations)
  }

  ghost predicate Describes(g: Adjacency, entities: seq<string>, relations: seq<(string, string)>) {
    && (forall u :: u in g <==> u in entities)
    && (forall u, v | u in g :: v in g[u] <==> Related(entities, relations, u, v))
  }

  lemma RelationAdded(g: Adjacency, entities: seq<string>, relations: seq<(string, string)>, src: string, dst: string)
    requires Describes(g, entities, relations)
    ensures
      var more := relations + [(src, dst)];
      if src !in g || dst !in g || src == dst then Describes(g, entities, more)
      else Describes(g[src := g[src] + {dst}][dst := g[dst] + {src}], entities, more)
  {
    forall u, v
      ensures (u, v) in relations + [(src, dst)] <==> (u, v) in relations || (u == src && v == dst)
    {
    }
  }

  /** Relations that leave the snapshot make no nodes; the result is what normalising would make of it. */
  method BuildAdjacency(entities: seq<string>, relations: seq<(string, string)>) returns (g: Adjacency)
    ensures Describes(g, entities, relations)
    ensures Undirected(g) && Symmetrised(g) == g
  {
    g := map u | u in entities :: {};
    for i := 0 to |relations|
      invariant Describes(g, entities, relations[..i])
    {
      assert relations[..i + 1] == relations[..i] + [relations[i]];
      var src, dst := relations[i].0, relations[i].1;
      RelationAdded(g, entities, relations[..i], src, dst);
      if src in g && dst in g && src != dst {
        g := g[src := g[src] + {dst}];
        g := g[dst := g[dst] + {src}];
      }
    }
    assert relations[..|relations|] == relations;
    DescribedIsUndirected(g, entities, relations);
    SymmetrisedIsIdempotent(g);
  }

  lemma DescribedIsUndirected(g: Adjacency, entities: seq<string>, relations: seq<(string, string)>)
    requires Describes(g, entities, relations)
    ensures Undirected(g)
  {
    forall u, v | u in g && v in g[u]
      ensures v in g && u in g[v] && u != v
    {
      assert Related(entities, relations, u, v);
    }
  }
}
