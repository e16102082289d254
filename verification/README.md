# Verified models of the Janus graph pipeline

This project models, in Dafny, the parts of the Janus graph memory service whose correctness rests on
an argument rather than on a glance, and proves that argument.

* **Clustering** (`Propagation`, `Cycles`, `GraphComponents`, `Clustering`, `Adjacencies`, `PartitionBlob`,
  `EntityClusters`, `ClusterTheorems`, `ClusterMeaning`). The entity graph is made undirected, low-degree nodes are pinned,
  and labels spread in synchronous rounds until nothing changes or a labelling comes back. The code only
  resolves cycles of length two. That no other cycle exists is proved here with an energy that never
  drops from round to round and a sum of labels that drops whenever the energy stands still.
* **Planning the folds** (`Similarity`, `Grouping`, `DedupPlan`, `DedupForest`, `EpisodicDups`). The greedy
  planner for entities and the exact-duplicate planner for episodes.
* **Executing the folds** (`GraphStore`, `Folding`, `EntitySafety`, `ApplyPlan`, `ApplyCleanup`, `EntityFold`, `EntityRuns`, `EntityFields`;
  `EpisodicPlan`, `EpisodicFold`, `EpisodicApply`, `EpisodicPairs`, `EpisodicRun`). The graph database has no
  transactions. The session object of `GraphStore` sends one statement at a time; each may raise, and one that
  raises may have taken effect all the same. The session keeps a ghost history of the database and of the undo
  log after every statement, so that "whatever a run stops after" is a statement about every position of it, and
  counts what raised, so that a run can be told to report an error only when there is a reason.
* **The episode queue** (`QueueTables`, `QueueSteps`, `QueueCeiling`, `QueueFairness`, `QueueStarvation`,
  `QueueMeaning`, `EpisodeQueue`, `Enqueueing`, `Worker`). Two tables, a partial unique index, several processes. Every committed
  change is an event; invariants, the claim ceiling, fairness and starvation are proved for every run of events,
  and the methods of the queue are proved to be those events. Enqueueing is split into its steps, with arbitrary
  runs of the other processes in the gaps.
* **Rate limits** (`RestartPolicy`, `CircuitBreaker`) under any clock that does not run backwards.
* **Caching** (`Lru`, `Embedding`, `EmbeddingClient`) and the **payload hash** (`PayloadHash`).
* `Collections`, `Orders`, `Counting`, `Bags` and `Options` are shared mathematics.

The modules whose names end in `Meaning` or `Fields` tell results of the others over again on the inputs alone:
degrees, labels, dates, texts, and the properties of rows and edges.

`dafny verify dfyconfig.toml` checks everything.

## What the proofs found

Where the code and its documentation part ways, the model follows the code.

* The entity fold moves MENTIONS row by row, and the DELETE of a row takes every edge of its uuid between the two
  nodes. Whatever the order of the rows, no edge counted by its root image is lost between the statements exactly
  when no two MENTIONS that are moved share uuid, source and target (`EntityRuns.EveryOrderKeepsMentionsIff`); two
  that do are an input that loses one, and then also after any rerun (`EntityRuns.SharedUuidLosesMention`,
  `EntityRuns.RerunStaysShort`). At its end an error-free run has as many MENTIONS as there were exactly when as
  many were moved as pointed at victims (`EntityRuns.FoldMatchesIff`).
* The entity fold reports no error exactly when nothing raised and every MENTIONS edge of a victim has both its ends
  and a survivor that exists (`EntityFold.Apply`), which a plan made from the same snapshot sees to unless an end has
  no uuid (`DedupForest.PlanCanBeApplied`). The episodic fold reports none exactly when nothing raised, the victims
  have edges with both ends, their survivors exist, and an undo row for every victim is kept (`EpisodicRun.Apply`):
  a plan whose victims mention nothing is reported as an error and deletes nothing.
* A rerun of an interrupted entity fold always reaches the right pairs and nodes, but not always the right number of
  MENTIONS: no phase collapses a copy made by a CREATE whose DELETE never ran
  (`EntityRuns.InterruptedMoveDuplicates`). If the reads return every edge, the rerun ends with as many as there
  were when the first run stopped, so it is right exactly when that number is still the one of the start
  (`EntityRuns.RerunMatchesIff`); it is never too small when no DELETE takes two edges
  (`EntityRuns.OnceRerunMatchesIff`). The copy is a twin of the moved edge, so a later plan that folds the survivor
  starts from a graph in which one DELETE does (`EntityRuns.InterruptedMoveLeavesTwins`).
* The RELATES_TO move does not look at whether its CREATE matched, and its DELETE takes every edge of that uuid
  between the two nodes. Exactly when a single move keeps all facts is `Folding.RelationMoveKeepsTriplesIff`; two
  facts under one uuid between the same nodes are an input on which it does not (`Folding.SharedUuidLosesFact`).
  Over whole runs a fact stays wherever the run stands, in every order of the rows, exactly when it is secure: an
  untouched relation carries it, or one that finds its new end points and shares its uuid and nodes with no other
  fact (`EntityRuns.FactIsKeptIff`, `EntityRuns.EveryOrderKeepsFactsIff`). At the end of an error-free fold all facts
  are there exactly when every moved relation finds its new end points or leaves its fact on a relation no victim
  touches (`EntityRuns.QuotientKeepsFactsIff`), which plans made from the same snapshot guarantee
  (`DedupForest.PlanCanBeApplied`). A relation that finds none is deleted and still counted as moved
  (`EntityFold.Apply`).
* The episodic fold deletes redundant rows by uuid alone. A pair is lost exactly when every edge that carries it,
  apart from the rows planned for deletion, shares its uuid with one of them (`EpisodicPairs.PairIsLostIff`); that
  happens after an interrupted move (`EpisodicPairs.InterruptedMoveLosesPair`) and never when no victim row shares
  its uuid (`EpisodicRun.UnsharedRunKeepsPairs`). Its acceptance formula for MENTIONS holds exactly when the delete
  took no other edge along and the read returned each victim edge as a row (`EpisodicPairs.EdgesBalanceIff`).
* A reap changes nothing exactly when an active row holds the hash of each row it picks
  (`QueueStarvation.ReapIsIdleIff`), and later reaps then pick the same rows: with as many held-back rows before it
  as a reap picks, a row is never picked for as long as the holders stay active
  (`QueueStarvation.BlockedHeadStarves`). One failed episode that has been sent again is enough when a reap picks
  one row (`QueueStarvation.StarvationIsReachable`). Which rows reaping alone ever requeues is settled exactly by
  `QueueStarvation.RequeuedIff`; with fewer than `limit` conflicts a reap, no row starves
  (`QueueFairness.EligibleRowIsRequeued`).
* The conflict branch of the stuck-row reaper cannot be reached (`QueueSteps.ReapRowSafe`).
* `enqueue` in observe mode, given an id that is already taken, reports success for a row it did not write;
  with fresh ids that branch is unreachable (`Enqueueing.Enqueue`). The daemon's writer looks only for an
  *active* holder after a refusal and re-raises the bare integrity error when the holder has just left
  (`Enqueueing.EnqueueGuarded`).
* `BUDGET_EXHAUSTED` is documented as a stage of the restart policy but never assigned; and `can_restart`
  says yes for a policy the operator has disabled (`RestartPolicy.Policy.CanRestart`). The cooldown is looked at
  before the budget, so a spent budget degrades for good only once the cooldown is over
  (`RestartPolicy.Policy.AttemptRestart`).
* `create_batch` returns the embedder's vectors in order exactly when the inner call answered every text it
  was sent; after a short answer the later vectors move up (`Embedding.EmbedCache.CreateBatch`).
* A pipe in `source_description` alone is enough for two payloads to share a hash
  (`PayloadHash.PipeInSourceCollides`), which the documentation denies; the exact condition is
  `PayloadHash.SamePreimageIff`.

## Model

| member | source | states |
|---|---|---|
| `Propagation.BestWins` | janus_graph/pipeline/dream_phases.py:528-536 | the elected label has at least as many votes as any other, and among those with as many it is the smallest |
| `Propagation.ElectionIsUnique` | janus_graph/pipeline/dream_phases.py:535-536 | only one label satisfies that, so the order in which neighbours are tallied does not matter |
| `Propagation.ElectedByAVoter` | janus_graph/pipeline/dream_phases.py:529-536 | the elected label is carried by some unpinned neighbour |
| `Propagation.EnergySymmetric` | janus_graph/pipeline/dream_phases.py:482-488 | on the symmetrised graph the agreement between two labellings does not depend on which is the earlier |
| `Propagation.RoundImproves` | janus_graph/pipeline/dream_phases.py:522-537 | over two rounds the agreement never drops, and if it stands still the label sum does not rise, and falls unless the labelling of two rounds ago is back |
| `Propagation.PotentialGrows` | janus_graph/pipeline/dream_phases.py:522-548 | one bounded number rises every round until the labelling of two rounds ago is back |
| `Cycles.FirstRepeatIsRecent` | janus_graph/pipeline/dream_phases.py:538-546 | the first labelling met before is the one of the previous round or of two rounds earlier |
| `Cycles.RecurrentAlternatesForEver` | janus_graph/pipeline/dream_phases.py:522-548 | a labelling that ever comes back alternates with one other from its first occurrence on |
| `Cycles.SomeRoundRepeats` | janus_graph/pipeline/dream_phases.py:522-548 | without a cap some labelling repeats within an explicit number of rounds |
| `GraphComponents.ConnectedIffPath` | janus_graph/pipeline/dream_phases.py:356-379 | being in one class is the same as being joined by a path |
| `GraphComponents.Explore` | janus_graph/pipeline/dream_phases.py:368-376 | the stack search from a root collects exactly the nodes connected to it |
| `GraphComponents.ConnectedComponents` | janus_graph/pipeline/dream_phases.py:356-379 | the scan over all roots returns exactly the listed connectivity classes, for undirected graphs |
| `GraphComponents.EveryClassListed` | janus_graph/pipeline/dream_phases.py:365-378 | the class of every node is among them |
| `GraphComponents.OnlyClassesListed` | janus_graph/pipeline/dream_phases.py:365-378 | whatever is listed is the class of each of its members |
| `GraphComponents.ComponentsInOrder` | janus_graph/pipeline/dream_phases.py:377-378 | largest first, then by smallest uuid, each once |
| `GraphComponents.ComponentLeqIsSortKey` | janus_graph/pipeline/dream_phases.py:378 | that order is the order of the source's sort key |
| `GraphComponents.ComponentsAreDisjoint` | janus_graph/pipeline/dream_phases.py:356-379 | no node is in two components |
| `GraphComponents.IndexSeparatesClasses` | janus_graph/pipeline/dream_phases.py:513 | two nodes have the same component index exactly when they are connected |
| `Clustering.Normalise` | janus_graph/pipeline/dream_phases.py:478-488 | the normalising loops compute the symmetric closure without self-loops, over all nodes mentioned anywhere |
| `Clustering.ListedIffNeighbour` | janus_graph/pipeline/dream_phases.py:478-488 | two different nodes are neighbours exactly when one is listed under the other, either way round |
| `Clustering.SymmetrisedEqualIff` | janus_graph/pipeline/dream_phases.py:472-488 | two descriptions normalise alike exactly when they name the same nodes and the same undirected edges |
| `Clustering.SymmetrisedIsIdempotent` | janus_graph/pipeline/dream_phases.py:472-488 | normalising an undirected graph changes nothing |
| `Clustering.Count` | janus_graph/pipeline/dream_phases.py:528-532 | the tally holds exactly the labels with votes, with their number of unpinned neighbours |
| `Clustering.Elect` | janus_graph/pipeline/dream_phases.py:536 | the minimum of the tally by (most votes, smallest label) |
| `Clustering.Propagate` | janus_graph/pipeline/dream_phases.py:523-537 | one sweep computes the synchronous step, whatever the order of nodes and neighbours; what that step is on degrees and labels is `ClusterMeaning.RoundMeans` |
| `Clustering.ResolveCycle` | janus_graph/pipeline/dream_phases.py:409-448 | every oscillating node takes the label its group's smallest uuid had before; no other label changes |
| `Adjacencies.BuildAdjacency` | janus_graph/pipeline/dream_phases.py:328-348 | neighbours are exactly the known, different entities related either way round; the result is already normal |
| `PartitionBlob.PartitionText` | janus_graph/pipeline/dream_phases.py:391-405 | the hashed text is the canonical text of the groups, however the labels are iterated |
| `PartitionBlob.BlobIdentifiesPartition` | janus_graph/pipeline/dream_phases.py:382-406 | with ids of one length, two labellings have the same hashed text exactly when they are the same partition |
| `EntityClusters.Settle` | janus_graph/pipeline/dream_phases.py:515-548 | the loop stops at the first labelling seen before or at the cap, and tells a fixed point from a cycle |
| `EntityClusters.Sizes` | janus_graph/pipeline/dream_phases.py:556-558 | one entry per community, each with the size of its own |
| `EntityClusters.ClusterGraph` | janus_graph/pipeline/dream_phases.py:451-576 | the whole computation returns a report that is a function of the undirected graph, the degree threshold and the cap; what it reports is `ClusterMeaning.ReportMeans` |
| `ClusterTheorems.CycleHasLengthTwo` | janus_graph/pipeline/dream_phases.py:542-546 | when the loop stops on a repeated labelling it is the one of exactly two rounds earlier, and the oscillating nodes are those that change in every round from then on |
| `ClusterTheorems.LoopEndsByItself` | janus_graph/pipeline/dream_phases.py:522-548 | above an explicit cap the loop always ends in a fixed point or a cycle; otherwise it has used up its cap |
| `ClusterTheorems.ReportIgnoresPresentation` | janus_graph/pipeline/dream_phases.py:451-488 | two descriptions of one undirected graph get the same report |
| `ClusterTheorems.PinnedNeverMove` | janus_graph/pipeline/dream_phases.py:525-527 | a pinned node keeps its label in every round |
| `ClusterTheorems.RunTraceable` | janus_graph/pipeline/dream_phases.py:522-537 | after any number of rounds each label started on a node that is connected and just as free |
| `ClusterTheorems.SettledTraceable` | janus_graph/pipeline/dream_phases.py:515-554 | the same of the final labels, after a cycle was resolved |
| `ClusterTheorems.CommunitiesRefineComponents` | janus_graph/pipeline/dream_phases.py:550-576 | every community lies in one component, every pinned node is alone, `oversized` is never true, and there are at least as many communities as components |
| `ClusterMeaning.RoundMeans` | janus_graph/pipeline/dream_phases.py:523-537 | a node with `min_degree` or more neighbours, one of which has as many, takes the label that most such neighbours carry, the smallest among equals; every other node keeps its label |
| `ClusterMeaning.RunIsUnique` | janus_graph/pipeline/dream_phases.py:508-537 | the labels of round 0, each the number of uuids before the node's, and this rule determine the labels of every round |
| `ClusterMeaning.ReportMeans` | janus_graph/pipeline/dream_phases.py:490-576 | the rounds are the first repeated labelling or the cap; converged, cycle and oscillating count are told by the last two rounds; a final cycle gives each oscillating node the label of the smallest one connected to it; pinned nodes, communities, components and the largest of each are those of the graph and the final labels |
| `Similarity.TokensAreMaximalRuns` | janus_graph/pipeline/dedup.py:53-63 | the tokens are exactly the maximal runs of word characters of the lowercased text |
| `Similarity.TokensOfText` | janus_graph/pipeline/dedup.py:53-63 | on the text itself: a token is a maximal stretch of letters of either case, digits and underscores, in small letters |
| `Similarity.JaccardLaws` | janus_graph/pipeline/dedup.py:66-73 | symmetric, between 0 and 1, 1 exactly for equal token sets, 0 exactly for disjoint ones that are not both empty |
| `Similarity.JaccardMeans` | janus_graph/pipeline/dedup.py:66-73 | the value times the number of all tokens is the number of common ones; two empty sets are alike |
| `Grouping.GroupBy` | janus_graph/pipeline/dedup.py:352-354 | the items of each key in their order, the keys in the order they are first met |
| `DedupPlan.OutranksIsPreorder` | janus_graph/pipeline/dedup.py:310-329 | the survivor policy is total, transitive, and deciding up to the uuid |
| `Orders.StrLeqMeans` | janus_graph/pipeline/dedup.py:322-329 | texts compare by their first different character, and a beginning comes before what it begins |
| `DedupPlan.OutranksMeans` | janus_graph/pipeline/dedup.py:310-329 | the longer summary decides, between equals the earlier creation, and then the lower uuid |
| `DedupPlan.FindBest` | janus_graph/pipeline/dedup.py:366-383 | the double loop finds the highest-scoring pair at or above the threshold, the first met among equals, or none when there is none |
| `DedupPlan.PlanCluster` | janus_graph/pipeline/dedup.py:364-406 | folding the best pair and taking out its victim, until no pair is left or its uuids coincide |
| `DedupPlan.Plan` | janus_graph/pipeline/dedup.py:332-406 | the merges of all clusters of one name, in the order the names are met; what they keep is `DedupForest.MergeKeepsLonger` and `DedupForest.ClusterIsGreedy` |
| `DedupForest.PlanIsJustified` | janus_graph/pipeline/dedup.py:384-406 | each merge folds an entity into another of the same name, similar enough, that outranks it; a victim is folded once and nothing is folded into it later |
| `DedupForest.MergeKeepsLonger` | janus_graph/pipeline/dedup.py:384-406 | the survivor of each merge has the victim's name, a summary at least as long, between equals an earlier creation or then a lower uuid, and the two share enough tokens |
| `DedupForest.ClusterIsGreedy` | janus_graph/pipeline/dedup.py:364-406 | each merge folds two of the entities left, and no two of those are more alike |
| `DedupForest.PlanIsForest` | janus_graph/pipeline/dedup.py:410-421 | every chain ends at a root that is no victim, so the cycle guard never fires; the root has the victim's name and outranks it |
| `DedupForest.RootKeepsLonger` | janus_graph/pipeline/dedup.py:410-421 | so the root's summary is at least as long as the victim's, with the same tie-breaks |
| `DedupForest.SurvivorsApart` | janus_graph/pipeline/dedup.py:364-386 | two survivors of one name are below the threshold |
| `DedupForest.PlanIsEmptyIff` | janus_graph/pipeline/dedup.py:332-406 | a plan is empty exactly when no two entities of one name are similar enough |
| `DedupForest.ReplanningIsEmpty` | janus_graph/pipeline/dedup.py:310-406 | planning again on the survivors folds nothing |
| `DedupForest.PlanCanBeApplied` | janus_graph/pipeline/dedup_apply.py:1031-1083 | a plan made from a snapshot of the graph is acyclic, every relation it moves finds its new end points and so does every MENTIONS edge with both ends: an error-free run keeps all facts, and only a raise or a missing end is reported |
| `EpisodicDups.Plan` | janus_graph/pipeline/dedup.py:160-199 | the merges of every name-and-content group, each into its keeper |
| `EpisodicDups.PlanFoldsIff` | janus_graph/pipeline/dedup.py:138-199 | an episode is folded, and into which one, exactly when that one is the oldest of its name and content |
| `EpisodicDups.PlanFoldsIntoEarliestIff` | janus_graph/pipeline/dedup.py:138-199 | on names, contents, dates and uuids: exactly the episodes that are not the earliest of their name and content are folded, each into that one |
| `EpisodicDups.EachGoesOnce` | janus_graph/pipeline/dedup.py:160-199 | no episode is the victim of two merges |
| `EpisodicDups.OnlyOthersFold` | janus_graph/pipeline/dedup.py:182-199 | whatever the episodes, none without a uuid is folded and none into itself |
| `EpisodicDups.PlanIsFlat` | janus_graph/pipeline/dedup.py:182-199 | no survivor is a victim, so the executor's root map is the plan itself |
| `EpisodicDups.OneOfEachIsLeft` | janus_graph/pipeline/dedup.py:160-199 | of each name and content exactly the oldest episode is left |
| `GraphStore.Session.Send` | janus_graph/pipeline/dedup_apply.py:140-145 | a statement takes effect, or raises with or without having taken effect; the history records the outcome and the count what raised |
| `GraphStore.Session.ReadMentions` | janus_graph/pipeline/dedup_apply.py:287-295 | a projection returns every matching edge and nothing else, equal rows at most once per edge |
| `GraphStore.Session.WriteUndo` | janus_graph/pipeline/queue.py:1742-1780 | the rows are appended in one transaction, or none are and none is reported; if it raises, either may be so |
| `Folding.Walk` | janus_graph/pipeline/dedup_apply.py:227-233 | the guarded walk along a chain of merges, cyclic or not |
| `Folding.RootMap` | janus_graph/pipeline/dedup_apply.py:223-237 | every victim to the end of its chain; if chains end outside the victims no root is a victim |
| `Folding.DeletionKeepsTriplesIff` | janus_graph/pipeline/dedup_apply.py:430-438 | the DELETE of a relation keeps all facts exactly when each edge it takes has its fact on an edge it leaves |
| `Folding.RelationMoveKeepsTriplesIff` | janus_graph/pipeline/dedup_apply.py:406-438 | CREATE and DELETE of a relation keep all facts exactly when each edge taken has its fact on the copy, which needs both new end points, or on an edge that is left |
| `Folding.SharedUuidLosesFact` | janus_graph/pipeline/dedup_apply.py:406-438 | two relations of one uuid between the same nodes: moving the one loses the fact of the other |
| `EntitySafety.MoveKeeps` | janus_graph/pipeline/dedup_apply.py:312-359 | if no DELETE takes two edges, CREATE and DELETE of a MENTIONS row never leave fewer edges of a root image |
| `EntitySafety.RerouteKeeps` | janus_graph/pipeline/dedup_apply.py:406-429 | the CREATE of a row read at the start keeps every secure fact on a safe edge |
| `EntitySafety.DeleteKeeps` | janus_graph/pipeline/dedup_apply.py:430-438 | the DELETE keeps every secure fact, whatever the other relations are, once the row has been rerouted, folds away or does not land |
| `EntitySafety.LandedIsAllIff` | janus_graph/pipeline/dedup_apply.py:362-442 | the facts a fold keeps are all there are exactly when every moved relation finds its new end points or leaves its fact on an untouched relation |
| `EntitySafety.TriplesAreKept` | janus_graph/pipeline/dedup_apply.py:362-465 | wherever a run stands every secure fact is there and no fact is new, for every graph |
| `ApplyPlan.MoveMention` | janus_graph/pipeline/dedup_apply.py:312-359 | CREATE then DELETE, the DELETE only after the CREATE matched; safe after either. It reports a raise, else a CREATE that matched nothing, else nothing, and in the last case the row has been moved |
| `ApplyPlan.MoveMentions` | janus_graph/pipeline/dedup_apply.py:280-360 | safe throughout; no error exactly when nothing raised and every victim edge has both ends and a new end that exists; if nothing raised, the errors are those of the rows that could not be moved, and the run passed through the graph the order of its rows determines after each of them |
| `ApplyPlan.RowsMatchIff` | janus_graph/pipeline/dedup_apply.py:280-360 | all rows of a read have both ends and a CREATE that matches exactly when, on the graph, every edge of a victim has both ends and a survivor that exists |
| `ApplyPlan.MoveRelations` | janus_graph/pipeline/dedup_apply.py:362-442 | safe throughout; an error exactly when something raised; error-free, no relation touches a victim, exactly the landing facts are left, the run passed through the graph its order determines after each row, and, if no DELETE takes two edges, both counters and the number of edges are exact |
| `ApplyCleanup.DropDuplicates` | janus_graph/pipeline/dedup_apply.py:444-465 | safe; an error exactly when something raised; error-free, no two relations share source, target and fact, no fact is lost, and the counter is the number removed |
| `ApplyCleanup.DeleteVictims` | janus_graph/pipeline/dedup_apply.py:467-485 | only edge-free victims go, whatever fails; an error exactly when something raised; of the edge-free victims no more are left than one chunk for each error; the counter is the number gone when none failed, which after folded edges is all of them |
| `EntityFold.Apply` | janus_graph/pipeline/dedup_apply.py:240-487 | after every statement the pairs are those of the start once victims are read as survivors, every secure fact is there, no MENTIONS edge counted by image is lost if no DELETE takes two, and only edge-free victims have gone; no error exactly when nothing raised and every victim edge could be moved, and then the graph is the quotient with one MENTIONS per row read and the counters balance; if nothing raised, relations and nodes are folded even where MENTIONS could not be moved; a dry run changes nothing |
| `EntityFields.RootEndsChain` | janus_graph/pipeline/dedup_apply.py:223-264 | the victims are those of the merges, and each is led by merges of the plan to an end that is no victim |
| `EntityFields.MentionsBecome` | janus_graph/pipeline/dedup_apply.py:312-359 | error-free, every MENTIONS edge left is one of the start or its copy, with the uuid, source and date of the original, the survivor as target and the default group only where there was none; and every edge of the start has become one that is left |
| `EntityFields.RelationsBecome` | janus_graph/pipeline/dedup_apply.py:377-465 | error-free, every relation left is one of the start or its copy, with all properties but ends and group; every relation with two different new ends that exist has its fact between them; no two share source, target and fact |
| `ApplyPlan.AllMoved` | janus_graph/pipeline/dedup_apply.py:280-360 | for every graph, the MENTIONS after all rows are those into no victim and one redirected copy per row |
| `EntityRuns.FoldMatchesIff` | janus_graph/pipeline/dedup_apply.py:280-360 | MENTIONS after = MENTIONS before - into victims + moved, never more of an image than before, and the same number, and the same multiset of images, exactly when as many were moved as pointed at victims |
| `EntityRuns.EachImageHasItsEdges` | janus_graph/pipeline/dedup_apply.py:280-360 | which is so when no DELETE takes two edges: then as many edges equal `m` as edges of the start have the root image `m` |
| `EntityRuns.EveryOrderKeepsMentionsIff` | janus_graph/pipeline/dedup_apply.py:312-359 | every order of the rows keeps every edge, counted by image, after each row exactly when no two MENTIONS that are moved share uuid, source and target |
| `EntityRuns.SharedUuidLosesMention` | janus_graph/pipeline/dedup_apply.py:346-357 | the input: moving one of two such MENTIONS takes both, and the pairs do not show it |
| `EntityRuns.RerunStaysShort` | janus_graph/pipeline/dedup_apply.py:346-357 | an error-free rerun from there ends with fewer MENTIONS than there were |
| `EntityRuns.QuotientKeepsFactsIff` | janus_graph/pipeline/dedup_apply.py:362-465 | an error-free fold keeps all facts exactly when every moved relation finds its new end points or leaves its fact on an untouched relation |
| `EntityRuns.FactsAreKeptThroughout` | janus_graph/pipeline/dedup_apply.py:362-485 | after every statement of every run, failing or not, the secure facts are there and none is new; all facts, if all are secure |
| `EntityRuns.FactIsKeptIff` | janus_graph/pipeline/dedup_apply.py:377-442 | a fact is there after each relation, in every order of the rows, exactly when it is secure |
| `EntityRuns.EveryOrderKeepsFactsIff` | janus_graph/pipeline/dedup_apply.py:377-442 | all facts are, in every order, exactly when all are secure |
| `EntityRuns.EveryMomentIsAStart` | janus_graph/pipeline/dedup_apply.py:240-487 | every moment of a run is a graph the plan can be applied to again, and conditions under which nothing is lost still hold |
| `EntityRuns.RerunConverges` | janus_graph/pipeline/dedup_apply.py:240-487 | an error-free rerun from wherever a run stopped ends with the pairs and nodes of an uninterrupted run, and with its facts exactly when the landing facts were still there, as they are when they are secure |
| `EntityRuns.RerunMatchesIff` | janus_graph/pipeline/dedup_apply.py:312-359 | the rerun has the number of MENTIONS of an uninterrupted run exactly when both starts have as many edges into no victim and rows together; with reads that return every edge, exactly when the first run stopped with the number it started from |
| `EntityRuns.OnceRerunMatchesIff` | janus_graph/pipeline/dedup_apply.py:312-359 | if no DELETE takes two edges, the reads do, the rerun never has too few, and it has the very edges of an uninterrupted run exactly under that condition |
| `EntityRuns.InterruptedMoveDuplicates` | janus_graph/pipeline/dedup_apply.py:323-357 | the input: a run stopped between CREATE and DELETE makes the rerun end with one copy of the moved edge too many |
| `EntityRuns.InterruptedMoveLeavesTwins` | janus_graph/pipeline/dedup_apply.py:323-357 | which is its twin: a later plan that moves them starts from two edges one DELETE takes |
| `EpisodicPlan.SplitRepeats` | janus_graph/pipeline/dedup_apply.py:772-782 | the rows split into one per victim and target, and repeats of those |
| `EpisodicPlan.SortRows` | janus_graph/pipeline/dedup_apply.py:799-818 | the unique rows split into those whose pair the survivor holds, those another victim brings, and one per new pair |
| `EpisodicPlan.RowsAreSplit` | janus_graph/pipeline/dedup_apply.py:772-833 | every row is counted once, and each count depends on the set of rows alone |
| `EpisodicApply.ReadRows` | janus_graph/pipeline/dedup_apply.py:705-756 | every resolved victim row, no edge twice; an error exactly when the read raised, nothing was there, or an edge lacks an end |
| `EpisodicApply.ReadHeld` | janus_graph/pipeline/dedup_apply.py:725-743 | the pairs the survivors hold, or fewer with an error, exactly when the read raised |
| `EpisodicFold.RedundantIff` | janus_graph/pipeline/dedup_apply.py:543-549 | deleting by uuid loses no pair exactly when each edge of the uuids has its pair on an edge of another uuid |
| `EpisodicFold.DropRows` | janus_graph/pipeline/dedup_apply.py:528-552 | count, delete, count: an error exactly when one raised, and wherever it did no pair is lost but those the delete by uuid does not spare |
| `EpisodicFold.MoveRow` | janus_graph/pipeline/dedup_apply.py:857-908 | CREATE on the survivor, then DELETE at the victim, only if the CREATE matched; pairs kept after either. It reports a raise, else a CREATE that matched nothing, else nothing, and in the last case the row has been moved |
| `EpisodicPairs.PairIsLostIff` | janus_graph/pipeline/dedup_apply.py:820-833 | the delete by uuid loses a pair exactly when every edge that carries it, apart from the rows planned for deletion, shares its uuid with such a row |
| `EpisodicPairs.PlanLosesNothingIff` | janus_graph/pipeline/dedup_apply.py:820-833 | it loses nothing exactly when each pair has an edge whose uuid no doomed row has |
| `EpisodicPairs.RedundantsAreRedundant` | janus_graph/pipeline/dedup_apply.py:820-833 | every row deleted as redundant leaves its pair on an edge that is not deleted if no victim row shares its uuid, even if the survivors' edges could not be read |
| `EpisodicPairs.FoldKeepsPairsIff` | janus_graph/pipeline/dedup_apply.py:820-908 | an error-free run ends with every pair exactly when each was spared by the delete or is brought by a created row |
| `EpisodicPairs.InterruptedMoveLosesPair` | janus_graph/pipeline/dedup_apply.py:543-549 | after an interrupted move two edges share a uuid, the pair counts as held, and the delete by uuid loses it |
| `EpisodicPairs.CountsAreTally` | janus_graph/pipeline/dedup_apply.py:820-840 | the counts of moved, dropped and created rows of an error-free plan are fixed by the graph, and if no victim row shares its uuid so are those of rewired rows and repeats: then a dry run and a real one report the same |
| `EpisodicPairs.EdgesBalanceIff` | janus_graph/pipeline/dedup_apply.py:866-895 | MENTIONS after = MENTIONS before - rewired + created, exactly when the read returned each victim edge as a row and the delete by uuid took no other edge along |
| `EpisodicPairs.EdgesBalance` | janus_graph/pipeline/dedup_apply.py:866-895 | so it does when no victim row shares its uuid |
| `EpisodicPairs.OneEdgePerGain` | janus_graph/pipeline/dedup_apply.py:784-818 | each target a survivor gains is mentioned by exactly one edge |
| `EpisodicPairs.EdgesBecome` | janus_graph/pipeline/dedup_apply.py:857-908 | error-free, every edge left is one of the start or the copy of a victim's, with its uuid, target and date, the survivor as source and the default group only where there was none |
| `EpisodicRun.PlacedIff` | janus_graph/pipeline/dedup_apply.py:784-882 | the CREATEs of a complete plan all match exactly when every victim with an edge has a survivor that exists |
| `EpisodicRun.BuildUndo` | janus_graph/pipeline/dedup_apply.py:571-641 | a row for every merge whose victim still has a node, with its survivor, its properties and an edge for each target it had; none exactly when the read raised or there is none |
| `EpisodicRun.RecordUndo` | janus_graph/pipeline/dedup_apply.py:911-949 | deletion may go on exactly when nothing raised, rows for all victims were built and the writer keeps them, and then they are in the log |
| `EpisodicRun.DeleteSilent` | janus_graph/pipeline/dedup_apply.py:951-978 | only victims without MENTIONS go; an error exactly when something raised; of the silent victims no more are left than one chunk for each error; when none failed the counters add up, and when no victim edge is left all go |
| `EpisodicRun.Apply` | janus_graph/pipeline/dedup_apply.py:644-980 | after every statement each (survivor, target) pair that the plan's delete by uuid spares is there, none is new, and no node has gone before all undo rows were written and its own MENTIONS were gone; no error exactly when nothing raised, the victims have edges with both ends, and, for a real run, their survivors exist and every victim gets an undo row that is kept; then the MENTIONS are as a multiset those of others the delete spared and one per created row, no victim is left, and the counters are exact; if nothing raised and undo rows are kept, silent victims go even where rows were skipped or not moved |
| `EpisodicRun.UnsharedRunKeepsPairs` | janus_graph/pipeline/dedup_apply.py:644-980 | if no victim row shares its uuid, every statement of a run keeps all pairs |
| `QueueTables.BlockedIff` | janus_graph/core/dedup.py:147-158 | the index refuses exactly the writes that would put two active enforced rows on one hash |
| `QueueTables.ActiveIsNotBlocked` | janus_graph/core/dedup.py:147-158 | rewriting an active row as an active row is never refused |
| `QueueSteps.StepSafe` | janus_graph/pipeline/queue.py:1041-1637 | every change keeps: index, aborted implies open dead letter, done implies none; and stamps what it touches |
| `QueueSteps.RunsAreSound` | janus_graph/pipeline/queue.py:944-1637 | so does every interleaving of changes by any processes |
| `QueueSteps.RowsStay` | janus_graph/pipeline/queue.py:944-1637 | rows never vanish and their hashes and gates never change |
| `QueueSteps.MarkDoneSafe` | janus_graph/pipeline/queue.py:1100-1148 | finishing an episode closes its open dead letter |
| `QueueSteps.MarkAbortedSafe` | janus_graph/pipeline/queue.py:1172-1204 | aborting opens a dead letter, replacing any earlier one |
| `QueueSteps.ReapRowSafe` | janus_graph/pipeline/queue.py:1280-1321 | a stuck row is under the index already, so requeueing it is never refused |
| `QueueSteps.RequeueDecidesEach` | janus_graph/core/dedup.py:345-408 | each row is requeued, or is as it was while an active row holds its hash; nothing else changes |
| `QueueCeiling.ClaimsAreBounded` | janus_graph/pipeline/queue.py:1379-1382 | between two replays an episode is claimed at most `max_attempts` times, whatever mix of reports and reaps occurs |
| `QueueFairness.HeldBackIff` | janus_graph/core/dedup.py:345-408 | of the rows a reap picks, those left as they were are exactly those whose hash another row holds under the index |
| `QueueFairness.ReapsWhileWaiting` | janus_graph/pipeline/queue.py:1363-1430 | while a row waits with `a` eligible rows not behind it, at most `a / (limit - held)` reaps go by, `held` bounding the conflicts of one reap |
| `QueueFairness.EligibleRowIsRequeued` | janus_graph/pipeline/queue.py:1363-1430 | an eligible row is requeued by one of the next `a / (limit - held) + 1` reaps, whatever else happens in between |
| `QueueStarvation.ReapIsIdleIff` | janus_graph/pipeline/queue.py:1397-1428 | a reap changes nothing exactly when an active row holds the hash of each row it picked |
| `QueueStarvation.BlockedHeadStarves` | janus_graph/pipeline/queue.py:1363-1430 | with `limit` or more held-back rows strictly before it, a row is neither picked nor changed by any reap of any run in which the others leave the holders active, and the head stays held back |
| `QueueStarvation.StarvationIsReachable` | janus_graph/pipeline/queue.py:1363-1430 | seven ordinary changes from an empty queue lead to such a state: two failed episodes of which the older has been sent again |
| `QueueStarvation.RequeuedIff` | janus_graph/pipeline/queue.py:1363-1430 | under reaping alone a row with a time stamp of its own is requeued exactly when fewer than `limit` rows ahead of it are surplus and neither an active row nor one ahead of it has its hash |
| `QueueFairness.ClaimsWhileQueued` | janus_graph/pipeline/queue.py:1050-1074 | the same bound for queued rows under first-come claims |
| `EpisodeQueue.Queue.Select` | janus_graph/pipeline/queue.py:1397-1405 | `ORDER BY key LIMIT n`, ties in any order |
| `EpisodeQueue.Queue.ClaimNextBatch` | janus_graph/pipeline/queue.py:1041-1098 | takes the longest queued rows, 20 when no positive limit is given, and changes nothing else |
| `EpisodeQueue.Queue.MarkAsDone` | janus_graph/pipeline/queue.py:1100-1148 | the committed change is the `done` event |
| `EpisodeQueue.Queue.MarkAsFailed` | janus_graph/pipeline/queue.py:1150-1170 | the committed change is the `failed` event |
| `EpisodeQueue.Queue.MarkAsAborted` | janus_graph/pipeline/queue.py:1172-1204 | the committed change is the `aborted` event |
| `EpisodeQueue.Queue.MarkAsSkipped` | janus_graph/pipeline/queue.py:2133-2181 | the committed change is the backstop's skip |
| `EpisodeQueue.Queue.ReapStuckProcessing` | janus_graph/pipeline/queue.py:1220-1326 | exactly the rows processing for `timeout` or longer are requeued or, at the ceiling, aborted with a dead letter |
| `EpisodeQueue.Queue.RequeueGuarded` | janus_graph/core/dedup.py:345-408 | row by row in savepoints; the rows reported are requeued, all others unchanged |
| `EpisodeQueue.Queue.ReapFailedOrAborted` | janus_graph/pipeline/queue.py:1328-1433 | the oldest eligible rows up to the limit are requeued or held back, the number returned is the number requeued, and nothing happens without a positive limit; which rows those are and what they become is `QueueMeaning.ReapPicks` and `QueueMeaning.ReapMeans` |
| `EpisodeQueue.Queue.ReplayEpisode` | janus_graph/pipeline/queue.py:1435-1511 | replays, and closes the letter, exactly when there is a letter, the policy allows its error and the index its row; on texts and rows `QueueMeaning.ReplayMeans` |
| `EpisodeQueue.Queue.ReplayBatch` | janus_graph/pipeline/queue.py:1513-1637 | the oldest open letters in turn: finished or missing episodes only have their letter closed, held-back ones stay open, and the number returned is the number requeued; on texts and rows `QueueMeaning.BatchPicks` and `QueueMeaning.BatchMeans` |
| `QueueMeaning.MentionsMeans` | janus_graph/pipeline/queue.py:455-466 | a code is found in an error text whichever case either is written in |
| `QueueMeaning.AllowsMeans` | janus_graph/pipeline/queue.py:439-467 | no error text, or every allowed code in it, or, without an allowlist, no permanent code in it |
| `QueueMeaning.ReapPicks` | janus_graph/pipeline/queue.py:1370-1405 | a reap with room picks exactly the failed rows without an open letter and the aborted rows, below the ceiling if that is respected, whose error text the policy permits; one without room those longest unchanged |
| `QueueMeaning.ReapMeans` | janus_graph/pipeline/queue.py:1406-1430 | a picked row is queued at the end, with its failures and error as they were, or is as it was because an active enforced row has its hash; no other row and no letter changes |
| `QueueMeaning.PermanentIsNeverReaped` | janus_graph/pipeline/queue.py:460-467 | without an allowlist no reap changes a row whose error contains a permanent code |
| `QueueMeaning.StuckPicks` | janus_graph/pipeline/queue.py:1228-1247 | a reap of stuck rows takes exactly those processing since `timeout` or longer |
| `QueueMeaning.StuckMeans` | janus_graph/pipeline/queue.py:1249-1321 | each has one failure more; at the ceiling it is aborted with the timeout error and a letter, below it queued at the end; other rows and letters stay |
| `QueueMeaning.ClaimMeans` | janus_graph/pipeline/queue.py:1050-1098 | a claim takes queued rows, none before one queued longer, and starts them now; other rows stay |
| `QueueMeaning.ReplayMeans` | janus_graph/pipeline/queue.py:1435-1511 | with a letter whose text the policy permits and a free hash the episode is queued without failures or error and the letter closed; otherwise nothing changes |
| `QueueMeaning.BatchPicks` | janus_graph/pipeline/queue.py:1513-1575 | a batch takes exactly the selected open letters whose text the policy permits, or the oldest of them up to the limit |
| `QueueMeaning.BatchMeans` | janus_graph/pipeline/queue.py:1575-1634 | each is closed and its unfinished episode queued anew, or nothing changes because its hash is taken; other letters and rows stay |
| `QueueMeaning.PermanentIsNeverReplayed` | janus_graph/pipeline/queue.py:460-467 | without an allowlist no replay changes an episode whose letter contains a permanent code |
| `Enqueueing.FindActiveDuplicate` | janus_graph/core/dedup.py:194-222 | the newest active row that carries the hash, if any |
| `Enqueueing.FindAnyDuplicate` | janus_graph/core/dedup.py:225-251 | the newest row that carries the hash, if any |
| `Enqueueing.RefusedIff` | janus_graph/pipeline/queue.py:986-1038 | a fresh id is refused exactly in enforce mode when an active enforced row holds the hash |
| `Enqueueing.NameHolder` | janus_graph/pipeline/queue.py:1021-1037 | after a refusal by the index a row that carries the hash is always found, whatever happens between the lookups |
| `Enqueueing.Enqueue` | janus_graph/pipeline/queue.py:724-878 | with a fresh id: off and observe always insert, enforce rejects exactly when a queued or processing row with the hash was there at the check or an enforced one at the insert, and every rejection names a row that carries the hash; an accepted row is queued now, without failures, under its gate |
| `Enqueueing.EnqueueGuarded` | janus_graph/daemon/episode_queue_adapter.py:211-409 | the same for the daemon's writer, and exactly when it raises a bare integrity error |
| `Worker.ProcessRecord` | janus_graph/pipeline/worker.py:30-130 | skipped exactly when the payload is in the graph under another id; else done exactly when there was nothing to ingest or it was ingested; failed exactly when the failure can be mended and the record is below the ceiling; aborted with a letter otherwise. The error is on the row and in the letter, a finished episode's letter is closed, every other property and every other row and letter stays |
| `RestartPolicy.WindowHoldsAtMost` | janus_graph/daemon/falkordb_restart_policy.py:256-259 | runs of restarts within an hour being bounded bounds every closed window of 3600 seconds |
| `RestartPolicy.RecordedIsLawful` | janus_graph/daemon/falkordb_restart_policy.py:241-300 | a restart recorded after the gates keeps the window bound and the cooldown distance, though the three clock readings differ |
| `RestartPolicy.PermittedMeans` | janus_graph/daemon/falkordb_restart_policy.py:155-259 | the pruned window is full exactly when as many of all restarts ever recorded lie in the hour before |
| `RestartPolicy.Policy.PruneWindow` | janus_graph/daemon/falkordb_restart_policy.py:296-300 | nothing an hour old or younger is forgotten |
| `RestartPolicy.Policy.CanRestart` | janus_graph/daemon/falkordb_restart_policy.py:155-174 | yes exactly when the policy is not degraded, fewer restarts than the budget lie in the hour before, and the cooldown since the last is over, without regard to the operator's switch or the manager |
| `RestartPolicy.Policy.AttemptRestart` | janus_graph/daemon/falkordb_restart_policy.py:202-294 | a restart is issued exactly when, besides, the policy is enabled and a manager is bound; it is recorded exactly when the start returned; and the state afterwards is determined: cooling down, degraded for good by the budget or by a start that raised, or ok |
| `RestartPolicy.Policy.EveryHourIsBounded` | janus_graph/daemon/falkordb_restart_policy.py:71-321 | at any time, every closed hour holds at most `max_per_hour` recorded restarts |
| `CircuitBreaker.Breaker.AllowProbe` | janus_graph/daemon/circuit_breaker.py:109-128 | no probe while open before the retry time; the first one after it half-opens |
| `CircuitBreaker.Breaker.RecordSuccess` | janus_graph/daemon/circuit_breaker.py:130-140 | closes from half-open only, and ends the run of failures |
| `CircuitBreaker.StreakMeans` | janus_graph/daemon/circuit_breaker.py:142-155 | the run of failures is `n` or longer exactly when the last `n` reports are failures |
| `CircuitBreaker.Breaker.RecordFailure` | janus_graph/daemon/circuit_breaker.py:142-162 | the hook fires on closed to open only, after exactly max(1, threshold) failures in a row; the kept history of firings is at least the reset timeout apart |
| `Lru.HitMoves` | janus_graph/cache/lru.py:18-22 | a hit moves its key to the end of the recency order |
| `Lru.MissPushes` | janus_graph/cache/lru.py:24-29 | a new key goes to the end and pushes out the least recently used one when full |
| `Lru.KeptIff` | janus_graph/cache/lru.py:11-29 | a key is kept exactly when fewer than the capacity of other keys were touched since it was |
| `Lru.Cache.Get` | janus_graph/cache/lru.py:18-22 | the stored value, and a touch only on a hit; what is kept is always the most recently touched keys in order |
| `Lru.Cache.Set` | janus_graph/cache/lru.py:24-29 | a touch, so the kept keys are again the most recently touched ones in order; the value is stored if there is room at all, and no other value changes |
| `Embedding.EmbedCache.Create` | janus_graph/cache/embed_cache.py:41-67 | after any history the answer is the inner embedder's |
| `Embedding.EmbedCache.CreateBatch` | janus_graph/cache/embed_cache.py:69-102 | exactly the texts not cached are sent, in order; the result is the inner embedder's vectors for all texts exactly when the inner call answered every text it was sent, and else those of the texts not left out; hits and then answered misses are touched in order |
| `EmbeddingClient.Client.Merge` | janus_graph/daemon/embedding_client.py:146-167 | answers go to the positions of the misses; only vectors just returned enter the cache |
| `EmbeddingClient.Client.Embed` | janus_graph/daemon/embedding_client.py:81-172 | one result per text in order, the vector being the text's own; a text fails exactly when it was not cached and its position not answered, with the server's error or for a missing vector; failures are not cached, and hits and then answered misses are touched in order |
| `PayloadHash.SamePreimageIff` | janus_graph/core/payload_hash.py:114-130 | payloads of one hashed text are equal exactly when their labels hold as many pipes each |
| `PayloadHash.PipeFreeLabelsIdentify` | janus_graph/core/payload_hash.py:22-33 | while the labels hold no pipe the hashed text identifies the payload, whatever the content |
| `PayloadHash.PipeInSourceCollides` | janus_graph/core/payload_hash.py:46-50 | a pipe in the source alone can make two payloads collide |

## Left out

- EntityFold.Apply: starts from acyclic merges, as the planner's always are (`DedupForest.PlanIsForest`). That no MENTIONS edge is lost between statements holds only if no DELETE takes two, and only secure facts are kept there; exactly so (`EntityRuns.EveryOrderKeepsMentionsIff`, `EntityRuns.FactIsKeptIff`).
- EpisodicRun.Apply: starts from acyclic merges, as the planner's always are (`EpisodicDups.PlanIsFlat`), so that its branch for a victim without a survivor cannot be reached. The undo writer keeps all rows it is given, as the queue's does, or none. The properties of an episode are one opaque text.
- EpisodicDups.PlanFoldsIff: takes the SHA-1 of a content to be as good as the content, and uuids to be distinct and not empty.
- Similarity.TokensAreMaximalRuns: lowercases ASCII letters only; characters outside ASCII whose lower case is ASCII are not covered.
- Similarity.JaccardLaws: uses exact quotients; two different quotients that round to one float would tie in the code.
- PartitionBlob.BlobIdentifiesPartition: is about the text that is hashed, with ids of one length, as uuids are; SHA-256 and its truncation to 16 digits are not part of this model.
- EpisodeQueue.Queue.ReapStuckProcessing: takes one clock reading per call, and no unreadable time stamps.
- EpisodeQueue.Queue.ReplayBatch: takes the error-class and minimum-age filters as one given condition on dead letters.
- QueueSteps.RowsStay: speaks of the modelled changes; the start-up backfill that fills the canonical hash of rows written before there was one (janus_graph/pipeline/queue.py:614-684) is no event of the model.
- EpisodeQueue.Queue.ClaimNextBatch: is one atomic step; two processes claiming at once can claim the same row in the code, and nothing here says otherwise.
- Enqueueing.Enqueue: takes other processes to be any runs of the modelled changes that do not write the new id; the ledger of dedup events is not modelled.
- Worker.ProcessRecord: takes the outcome of ingestion and the backstop's lookup as inputs.
- RestartPolicy.Policy.AttemptRestart: is sequential; concurrent callers and the lock are not modelled, nor are logging and the callback beyond its firing once.
- CircuitBreaker.Breaker.RecordFailure: counts every closed-to-open transition as a firing, registered callback or not.
- Embedding.EmbedCache.Create: stands for `embed` too, which differs only in which inner method it tries first; hit and miss counters, token-id inputs and raising embedders are left out.
- EmbeddingClient.Client.Embed: takes the server as a function from the texts sent to a response; sessions, retries and the semaphore are left out.
- PayloadHash.SamePreimageIff: is about the text that is hashed; SHA-256 is not part of this model.
- Null uuids and null facts in the graph database, edge types other than MENTIONS and RELATES_TO, and concurrent writers to the graph.
- Report text and operator counters of the planner (clusters scanned, highest similarity seen, planned drops): they restate what the merges say.
- Orphan pruning, repair heuristics, `bounded_label_propagation`, result ranking, configuration, command line and MCP tools: I/O or easy members.
- SQL and Cypher texts: each statement is modelled by its effect.
