/** The end of the entity fold: duplicate RELATES_TO go, and then the emptied victims. */
module ApplyCleanup {
  import opened Collections
  import opened GraphStore
  import opened Folding
  import opened EntitySafety
  import opened ApplyPlan

  // ---------------------------------------------------------------------------------------------
  // Phase C: duplicate RELATES_TO

  function Key(r: Relation): (string, string, string) {
    (r.src, r.dst, r.fact)
  }

  ghost predicate Represented(g: Graph, keep: set<nat>, k: nat)
    requires k in g.relations
  {
    exists j :: j in keep && j in g.relations && Key(g.relations[j]) == Key(g.relations[k])
  }

  ghost predicate OneEach(g: Graph, keep: set<nat>) {
    && keep <= g.relations.Keys
    && (forall k {:trigger Represented(g, keep, k)} | k in g.relations :: Represented(g, keep, k))
    && (forall j, k | j in keep && k in keep && Key(g.relations[j]) == Key(g.relations[k]) :: j == k)
  }

  ghost predicate NoDuplicateRelations(g: Graph) {
    forall j, k | j in g.relations && k in g.relations && Key(g.relations[j]) == Key(g.relations[k]) :: j == k
  }

  /** One edge of every (source, target, fact) group, whichever the database lists first. */
  method FirstOfEachGroup(g: Graph) returns (keep: set<nat>)
    ensures OneEach(g, keep)
  {
    keep := {};
    var met: set<(string, string, string)> := {};
    var todo := g.relations.Keys;
    while todo != {}
      invariant todo <= g.relations.Keys && keep <= g.relations.Keys - todo
      invariant forall k | k in keep :: Key(g.relations[k]) in met
      invariant forall t | t in met :: exists j :: j in keep && j in g.relations && Key(g.relations[j]) == t
      invariant forall k | k in g.relations && k !in todo :: Key(g.relations[k]) in met
      invariant forall j, k | j in keep && k in keep && Key(g.relations[j]) == Key(g.relations[k]) :: j == k
      decreases todo
    {
      var k :| k in todo;
      todo := todo - {k};
      if Key(g.relations[k]) !in met {
        met := met + {Key(g.relations[k])};
        keep := keep + {k};
      }
    }
    forall k | k in g.relations
      ensures Represented(g, keep, k)
    {
      assert Key(g.relations[k]) in met;
    }
  }

  /** `b` has one relation of each key of `a`, and `dropped` fewer. */
  ghost predicate Deduplicated(root: Redirect, a: Graph, b: Graph, dropped: nat) {
    && b.relations.Values <= a.relations.Values && Untouched(root, b.relations) == Untouched(root, a.relations)
    && NoDuplicateRelations(b) && |b.relations| == |a.relations| - dropped
  }

  lemma KeepCovers(g: Graph, keep: set<nat>, k: nat) returns (j: nat)
    requires OneEach(g, keep) && k in g.relations
    ensures j in g.KeepRelations(keep).relations && Key(g.KeepRelations(keep).relations[j]) == Key(g.relations[k])
  {
    assert Represented(g, keep, k);
    j :| j in keep && j in g.relations && Key(g.relations[j]) == Key(g.relations[k]);
  }

  lemma KeepLanded(root: Redirect, nodes: set<string>, g: Graph, keep: set<nat>)
    requires OneEach(g, keep)
    ensures Landed(root, nodes, g.KeepRelations(keep).relations) == Landed(root, nodes, g.relations)
    ensures Untouched(root, g.KeepRelations(keep).relations) == Untouched(root, g.relations)
  {
    var h := g.KeepRelations(keep);
    forall t | t in Landed(root, nodes, g.relations)
      ensures t in Landed(root, nodes, h.relations)
    {
      var k :| k in g.relations && Counts(root, nodes, g.relations[k]) && t == Triple(root, g.relations[k]);
      var j := KeepCovers(g, keep, k);
      InLanded(root, nodes, h.relations, j);
    }
    forall t | t in Untouched(root, g.relations)
      ensures t in Untouched(root, h.relations)
    {
      var k :| k in g.relations && !Touched(root, g.relations[k]) && t == Triple(root, g.relations[k]);
      var j := KeepCovers(g, keep, k);
      assert !Touched(root, h.relations[j]) && Triple(root, h.relations[j]) == t;
    }
  }

  lemma KeepIntact(root: Redirect, g0: Graph, g: Graph, keep: set<nat>)
    requires g.Sound() && Intact(root, g0, g) && OneEach(g, keep)
    ensures
      var h := g.KeepRelations(keep);
      h.Sound() && Intact(root, g0, h) && |keep| <= |g.relations| && Deduplicated(root, g, h, |g.relations| - |keep|)
  {
    var h := g.KeepRelations(keep);
    KeepLanded(root, g0.entities, g, keep);
    KeptCount(g, keep);
    assert Pairs(root, h) == Pairs(root, g);
    assert h.relations.Values <= g.relations.Values;
  }

  lemma KeptCount(g: Graph, keep: set<nat>)
    requires keep <= g.relations.Keys
    ensures |keep| <= |g.relations| && |g.KeepRelations(keep).relations| == |keep|
  {
    assert g.relations.Keys == keep + (g.relations.Keys - keep);
    assert g.KeepRelations(keep).relations.Keys == keep;
  }

  lemma AllKept(g: Graph, keep: set<nat>)
    requires OneEach(g, keep) && |keep| == |g.relations|
    ensures NoDuplicateRelations(g)
  {
    var rest := g.relations.Keys - keep;
    assert g.relations.Keys == keep + rest && |g.relations.Keys| == |keep| + |rest|;
    assert rest == {};
  }

  lemma NothingDropped(root: Redirect, g: Graph, keep: set<nat>)
    requires OneEach(g, keep) && |keep| == |g.relations|
    ensures Deduplicated(root, g, g, 0)
  {
    AllKept(g, keep);
  }

  lemma KeepSafe(s: Session, root: Redirect, g0: Graph, from: nat, keep: set<nat>)
    requires Running(root, g0, s, from) && OneEach(s.g, keep)
    ensures
      var h := s.g.KeepRelations(keep);
      h.Sound() && Intact(root, g0, h) && |keep| <= |s.g.relations| && Deduplicated(root, s.g, h, |s.g.relations| - |keep|)
  {
    NowIntact(root, g0, s.history, from);
    KeepIntact(root, g0, s.g, keep);
  }

  method DropOthers(s: Session, root: Redirect, ghost g0: Graph, ghost from: nat, keep: set<nat>) returns (ok: bool)
    requires Running(root, g0, s, from) && OneEach(s.g, keep) && |keep| <= |s.g.relations|
    modifies s
    ensures Running(root, g0, s, from) && old(s.history) <= s.history
    ensures s.g.mentions == old(s.g).mentions && s.g.entities == old(s.g).entities
    ensures s.raised == old(s.raised) + if ok then 0 else 1
    ensures ok ==> Deduplicated(root, old(s.g), s.g, |old(s.g).relations| - |keep|)
  {
    KeepSafe(s, root, g0, from, keep);
    ok := SendRelations(s, root, g0, from, s.g.KeepRelations(keep));
  }

  method DropDuplicates(s: Session, root: Redirect, ghost g0: Graph, ghost from: nat) returns (dropped: nat, errors: seq<Error>)
    requires Running(root, g0, s, from)
    modifies s
    ensures Running(root, g0, s, from) && old(s.history) <= s.history
    ensures s.g.mentions == old(s.g).mentions && s.g.entities == old(s.g).entities
    ensures old(s.raised) <= s.raised && (errors == [] <==> s.raised == old(s.raised))
    ensures errors == [] ==> Deduplicated(root, old(s.g), s.g, dropped)
  {
    var counted := s.Ask();
    if !counted {
      return 0, [DedupeEdges];
    }
    var keep := FirstOfEachGroup(s.g);
    KeptCount(s.g, keep);
    dropped := |s.g.relations| - |keep|;
    if dropped == 0 {
      NothingDropped(root, s.g, keep);
      return 0, [];
    }
    var ok := DropOthers(s, root, g0, from, keep);
    return dropped, if ok then [] else [DedupeEdges];
  }

  // ---------------------------------------------------------------------------------------------
  // Phase D: the emptied victims

  lemma RemovalIntact(root: Redirect, g0: Graph, g: Graph, chunk: set<string>)
    requires g.Sound() && Intact(root, g0, g) && chunk <= root.Keys
    ensures
      var h := g.RemoveEmptyEntities(chunk);
      h.Sound() && Intact(root, g0, h) && OnlyEmptied(root.Keys, g, h)
  {
    var h := g.RemoveEmptyEntities(chunk);
    assert Pairs(root, h) == Pairs(root, g);
    assert h.mentions == g.mentions && h.relations == g.relations;
    forall k | k in g.mentions
      ensures g.mentions[k].dst !in g.EmptyEntities(chunk)
    {
    }
    forall k | k in g.relations
      ensures g.relations[k].src !in g.EmptyEntities(chunk) && g.relations[k].dst !in g.EmptyEntities(chunk)
    {
    }
  }

  lemma DeletionSafe(root: Redirect, g0: Graph, history: seq<Moment>, from: nat, chunk: set<string>)
    requires SafeSince(root, g0, history, from) && chunk <= root.Keys && history[|history| - 1].graph.Sound()
    ensures
      var last := history[|history| - 1];
      var next := Moment(last.graph.RemoveEmptyEntities(chunk), last.undo);
      next.graph.Sound() && SafeSince(root, g0, history + [next], from) && SafeSince(root, g0, history + [last], from)
  {
    NowIntact(root, g0, history, from);
    var last := history[|history| - 1];
    RemovalIntact(root, g0, last.graph, chunk);
    SafeExtension(root, g0, history, from, last);
    SafeExtension(root, g0, history, from, Moment(last.graph.RemoveEmptyEntities(chunk), last.undo));
  }

  ghost predicate Settled(root: Redirect, g: Graph) {
    (forall k | k in g.mentions :: g.mentions[k].dst !in root) && TouchedIn(root, g.relations, [])
  }

  ghost predicate Gone(a: Graph, b: Graph, chunk: set<string>, found: nat) {
    b.entities == a.entities - chunk && found == |a.entities| - |b.entities|
  }

  lemma GoneTogether(a: Graph, b: Graph, c: Graph, first: set<string>, second: set<string>, m: nat, n: nat)
    requires Gone(a, b, first, m) && Gone(b, c, second, n)
    ensures Gone(a, c, first + second, m + n)
  {
  }

  /** What holds between the statements of the deletions; `edges` are the edges they leave alone. */
  ghost predicate Deleting(root: Redirect, g0: Graph, s: Session, from: nat, edges: Graph)
    reads s
  {
    Running(root, g0, s, from) && s.g.mentions == edges.mentions && s.g.relations == edges.relations
  }

  lemma EmptiedVictims(root: Redirect, g: Graph, chunk: set<string>)
    requires chunk <= root.Keys
    ensures Settled(root, g) ==> g.RemoveEmptyEntities(chunk).entities == g.entities - chunk
    ensures |g.EmptyEntities(chunk)| == |g.entities| - |g.RemoveEmptyEntities(chunk).entities|
  {
    assert g.entities == g.EmptyEntities(chunk) + g.RemoveEmptyEntities(chunk).entities;
  }

  /** Count, then delete, one chunk of victims. */
  method DeleteChunk(s: Session, root: Redirect, ghost g0: Graph, ghost from: nat, ghost edges: Graph, chunk: set<string>)
    returns (ok: bool, found: nat)
    requires Deleting(root, g0, s, from, edges) && chunk <= root.Keys
    modifies s
    ensures Deleting(root, g0, s, from, edges) && old(s.history) <= s.history
    ensures old(s.raised) <= s.raised && (ok <==> s.raised == old(s.raised))
    ensures s.g.entities <= old(s.g).entities && found <= |old(s.g).EmptyEntities(chunk)|
    ensures ok ==> s.g == old(s.g).RemoveEmptyEntities(chunk) && found == |old(s.g).entities| - |s.g.entities|
    ensures ok && Settled(root, edges) ==> Gone(old(s.g), s.g, chunk, found)
  {
    found := |s.g.EmptyEntities(chunk)|;
    ok := s.Ask();
    if !ok {
      return;
    }
    DeletionSafe(root, g0, s.history, from, chunk);
    EmptiedVictims(root, s.g, chunk);
    ok := s.Send(s.g.RemoveEmptyEntities(chunk));
  }

  /** Deleting a chunk leaves none of its empty victims, and a failing one leaves at most them. */
  lemma LeftAfterChunk(a: Graph, b: Graph, done: set<string>, chunk: set<string>, ok: bool)
    requires b.mentions == a.mentions && b.relations == a.relations && b.entities <= a.entities
    requires ok ==> b == a.RemoveEmptyEntities(chunk)
    ensures |b.EmptyEntities(done + chunk)| <= |a.EmptyEntities(done)| + if ok then 0 else |chunk|
  {
    var left := b.EmptyEntities(done + chunk);
    if ok {
      assert left <= a.EmptyEntities(done);
      SubsetSize(left, a.EmptyEntities(done));
    } else {
      assert left <= a.EmptyEntities(done) + chunk;
      SubsetSize(left, a.EmptyEntities(done) + chunk);
    }
  }

  /** Of the victims met, no more are left empty than one chunk for each error. */
  ghost predicate Cleared(g: Graph, met: set<string>, errors: nat, batch: nat) {
    |g.EmptyEntities(met)| <= errors * batch
  }

  lemma ClearedMore(a: Graph, b: Graph, done: set<string>, chunk: set<string>, ok: bool, errors: nat, batch: nat)
    requires b.mentions == a.mentions && b.relations == a.relations && b.entities <= a.entities
    requires ok ==> b == a.RemoveEmptyEntities(chunk)
    requires Cleared(a, done, errors, batch) && |chunk| <= batch
    ensures Cleared(b, done + chunk, if ok then errors else errors + 1, batch)
  {
    LeftAfterChunk(a, b, done, chunk, ok);
    assert (errors + 1) * batch == errors * batch + batch;
  }

  /** What the chunks up to `start` have done; `errors` of them have failed. */
  ghost predicate GoneSoFar(root: Redirect, edges: Graph, g: Graph, victims: seq<string>, start: nat, deleted: nat, errors: nat, batch: nat)
    requires start <= |victims|
  {
    && Cleared(g, Elements(victims[..start]), errors, batch)
    && deleted <= |edges.entities| - |g.entities|
    && (errors == 0 ==> deleted == |edges.entities| - |g.entities|)
    && (errors == 0 && Settled(root, edges) ==> Gone(edges, g, Elements(victims[..start]), deleted))
  }

  lemma NoneGone(root: Redirect, edges: Graph, victims: seq<string>, batch: nat)
    ensures GoneSoFar(root, edges, edges, victims, 0, 0, 0, batch)
  {
    assert edges.EmptyEntities(Elements(victims[..0])) == {};
  }

  lemma GoneMore(root: Redirect, edges: Graph, a: Graph, b: Graph, victims: seq<string>, start: nat, end: nat,
                 deleted: nat, found: nat, ok: bool, errors: nat, batch: nat)
    requires start <= end <= |victims| && end - start <= batch && GoneSoFar(root, edges, a, victims, start, deleted, errors, batch)
    requires b.mentions == a.mentions && b.relations == a.relations && b.entities <= a.entities
    requires ok ==> b == a.RemoveEmptyEntities(Elements(victims[start..end])) && found == |a.entities| - |b.entities|
    requires ok && Settled(root, edges) ==> Gone(a, b, Elements(victims[start..end]), found)
    ensures GoneSoFar(root, edges, b, victims, end, if ok then deleted + found else deleted, if ok then errors else errors + 1, batch)
  {
    ChunkJoins(victims, start, end);
    ClearedMore(a, b, Elements(victims[..start]), Elements(victims[start..end]), ok, errors, batch);
    SubsetSize(b.entities, a.entities);
    if ok && errors == 0 && Settled(root, edges) {
      GoneTogether(edges, a, b, Elements(victims[..start]), Elements(victims[start..end]), deleted, found);
    }
  }

  /** One more chunk of the list. */
  method DeleteNext(s: Session, root: Redirect, ghost g0: Graph, ghost from: nat, ghost edges: Graph, victims: seq<string>,
                    start: nat, end: nat, ghost deleted: nat, ghost errors: nat, ghost batch: nat)
    returns (ok: bool, found: nat)
    requires Deleting(root, g0, s, from, edges) && start <= end <= |victims| && Elements(victims) == root.Keys && end - start <= batch
    requires GoneSoFar(root, edges, s.g, victims, start, deleted, errors, batch)
    modifies s
    ensures Deleting(root, g0, s, from, edges) && old(s.history) <= s.history
    ensures old(s.raised) <= s.raised && (ok <==> s.raised == old(s.raised))
    ensures GoneSoFar(root, edges, s.g, victims, end, if ok then deleted + found else deleted, if ok then errors else errors + 1, batch)
  {
    ChunkJoins(victims, start, end);
    ghost var before := s.g;
    ok, found := DeleteChunk(s, root, g0, from, edges, Elements(victims[start..end]));
    GoneMore(root, edges, before, s.g, victims, start, end, deleted, found, ok, errors, batch);
  }

  lemma RunningIntact(s: Session, root: Redirect, g0: Graph, from: nat)
    requires Running(root, g0, s, from)
    ensures Intact(root, g0, s.g)
  {
    NowIntact(root, g0, s.history, from);
  }

  method DeleteVictims(s: Session, root: Redirect, ghost g0: Graph, ghost from: nat, victims: seq<string>, batch: nat)
    returns (deleted: nat, errors: seq<Error>)
    requires Deleting(root, g0, s, from, s.g) && batch > 0 && Elements(victims) == root.Keys
    modifies s
    ensures Deleting(root, g0, s, from, old(s.g)) && old(s.history) <= s.history && Intact(root, g0, s.g)
    ensures old(s.raised) <= s.raised && (errors == [] <==> s.raised == old(s.raised))
    ensures Cleared(s.g, root.Keys, |errors|, batch)
    ensures deleted <= |old(s.g).entities| - |s.g.entities| && (errors == [] ==> deleted == |old(s.g).entities| - |s.g.entities|)
    ensures errors == [] && Settled(root, old(s.g)) ==> Gone(old(s.g), s.g, root.Keys, deleted)
  {
    deleted, errors := 0, [];
    ghost var edges := s.g;
    var start := 0;
    NoneGone(root, edges, victims, batch);
    while start < |victims|
      invariant Deleting(root, g0, s, from, edges) && old(s.history) <= s.history && start <= |victims|
      invariant old(s.raised) <= s.raised && (errors == [] <==> s.raised == old(s.raised))
      invariant GoneSoFar(root, edges, s.g, victims, start, deleted, |errors|, batch)
    {
      var end := if start + batch <= |victims| then start + batch else |victims|;
      var ok, found := DeleteNext(s, root, g0, from, edges, victims, start, end, deleted, |errors|, batch);
      if ok {
        deleted := deleted + found;
      } else {
        errors := errors + [NodeDelete];
      }
      start := end;
    }
    assert victims[..start] == victims;
    RunningIntact(s, root, g0, from);
  }
}
