/**
 Two processes write new episodes into the same table, each in steps: look for a duplicate, insert,
 and, when the index refuses, look again. Between the steps the others do as they please.
 */
module Enqueueing {
  import opened Options
  import opened QueueTables
  import opened QueueSteps
  import opened EpisodeQueue

  /** What a caller gets back; `Raised` is an integrity error that is not turned into a rejection. */
  datatype Outcome = Accepted(id: string) | Rejected(existing: Option<string>) | Raised | LockedOut

  // ---------------------------------------------------------------------------------------------
  // The others

  ghost predicate Leads(t: Tables, u: Tables) {
    exists ts, evs :: Run(ts, evs) && ts[0] == t && ts[|ts| - 1] == u
  }

  /** Any run of changes by the other processes, none of which writes a row under our new id. */
  ghost predicate Others(gap: Tables -> Tables, id: string) {
    forall t: Tables | Sound(t) :: Leads(t, gap(t)) && (id !in t.episodes ==> id !in gap(t).episodes)
  }

  lemma LeadsKeeps(t: Tables, u: Tables)
    requires Sound(t) && Leads(t, u)
    ensures Sound(u)
    ensures forall id | id in t.episodes :: id in u.episodes && SameContent(t.episodes[id], u.episodes[id])
  {
    var ts, evs :| Run(ts, evs) && ts[0] == t && ts[|ts| - 1] == u;
    RunsAreSound(ts, evs, |evs|);
    forall id | id in t.episodes
      ensures id in u.episodes && SameContent(t.episodes[id], u.episodes[id])
    {
      RowsStay(ts, evs, 0, |evs|, id);
    }
  }

  method LetOthersRun(q: Queue, gap: Tables -> Tables, ghost id: string)
    requires q.Valid() && Others(gap, id)
    modifies q
    ensures q.Valid() && q.Contents() == gap(old(q.Contents()))
    ensures id !in old(q.episodes) ==> id !in q.episodes
    ensures forall x | x in old(q.episodes) :: x in q.episodes && SameContent(old(q.episodes)[x], q.episodes[x])
  {
    var after := gap(Tables(q.episodes, q.deadLetter));
    LeadsKeeps(q.Contents(), after);
    q.episodes, q.deadLetter := after.episodes, after.deadLetter;
  }

  // ---------------------------------------------------------------------------------------------
  // The lookups

  /** The legacy column counts only where there is no canonical hash. */
  predicate Holds(e: Episode, hash: string) {
    e.canonicalHash == Some(hash) || (e.canonicalHash.None? && e.payloadHash == Some(hash))
  }

  /** A queued or processing row carries the hash. */
  ghost predicate HasActive(t: Tables, hash: string) {
    exists id | id in t.episodes :: var e := t.episodes[id];
      && (e.status == Queued || e.status == Processing)
      && (e.canonicalHash == Some(hash) || (e.canonicalHash.None? && e.payloadHash == Some(hash)))
  }

  /** One written under the enforcing gate carries it as its canonical hash. */
  ghost predicate HasCovered(t: Tables, hash: string) {
    exists id | id in t.episodes :: var e := t.episodes[id];
      (e.status == Queued || e.status == Processing) && e.gate == Enforce && e.canonicalHash == Some(hash)
  }

  /** A queued row without failures; with the gate off it has no legacy hash. */
  predicate IsNew(e: Episode, hash: string, gate: Gate, now: nat) {
    && e.status == Queued && e.attempts == 0 && e.lastError.None? && e.startedAt.None?
    && e.enqueuedAt == e.updatedAt == e.createdAt == now && e.gate == gate
    && e.canonicalHash == Some(hash) && e.payloadHash == if gate == Off then None else Some(hash)
  }

  /** `ORDER BY created_at DESC LIMIT 1`. */
  method Newest(q: Queue, found: set<string>) returns (id: Option<string>)
    requires found <= q.episodes.Keys
    ensures id.None? <==> found == {}
    ensures id.Some? ==> id.value in found && forall x | x in found :: q.episodes[x].createdAt <= q.episodes[id.value].createdAt
  {
    id := None;
    var rest := found;
    while rest != {}
      invariant rest <= found && (id.None? <==> rest == found)
      invariant id.Some? ==> id.value in found
      invariant id.Some? ==> forall x | x in found - rest :: q.episodes[x].createdAt <= q.episodes[id.value].createdAt
      decreases rest
    {
      var x :| x in rest;
      rest := rest - {x};
      if id.None? || q.episodes[x].createdAt > q.episodes[id.value].createdAt {
        id := Some(x);
      }
    }
  }

  method FindActiveDuplicate(q: Queue, hash: string) returns (id: Option<string>)
    ensures id.Some? <==> HasActive(q.Contents(), hash)
    ensures id.Some? ==> id.value in q.episodes && Active(q.episodes[id.value].status) && Holds(q.episodes[id.value], hash)
    ensures id.Some? ==> forall x | x in q.episodes && Active(q.episodes[x].status) && Holds(q.episodes[x], hash) ::
      q.episodes[x].createdAt <= q.episodes[id.value].createdAt
  {
    var found := set x | x in q.episodes && Active(q.episodes[x].status) && Holds(q.episodes[x], hash);
    id := Newest(q, found);
    assert found != {} ==> HasActive(q.Contents(), hash) by {
      if x :| x in found {
        assert Active(q.Contents().episodes[x].status);
      }
    }
    assert HasActive(q.Contents(), hash) ==> found != {} by {
      if HasActive(q.Contents(), hash) {
        var x :| x in q.Contents().episodes && Active(q.Contents().episodes[x].status) && Holds(q.Contents().episodes[x], hash);
        assert x in found;
      }
    }
  }

  method FindAnyDuplicate(q: Queue, hash: string) returns (id: Option<string>)
    ensures id.Some? <==> exists x :: x in q.episodes && Holds(q.episodes[x], hash)
    ensures id.Some? ==> id.value in q.episodes && Holds(q.episodes[id.value], hash)
    ensures id.Some? ==> forall x | x in q.episodes && Holds(q.episodes[x], hash) ::
      q.episodes[x].createdAt <= q.episodes[id.value].createdAt
  {
    var found := set x | x in q.episodes && Holds(q.episodes[x], hash);
    id := Newest(q, found);
    assert forall x :: x in found <==> x in q.episodes && Holds(q.episodes[x], hash);
  }

  /** One INSERT, refused by the primary key or by the index. */
  method Insert(q: Queue, id: string, hash: string, mode: Gate, now: nat) returns (ok: bool)
    requires q.Valid() && mode != Ungated
    modifies q`episodes
    ensures q.Valid() && ok == !Refused(old(q.Contents()), id, Fresh(hash, mode, now))
    ensures q.Contents() == if ok then Put(old(q.Contents()), id, Fresh(hash, mode, now)) else old(q.Contents())
  {
    ok := !Refused(Tables(q.episodes, q.deadLetter), id, Fresh(hash, mode, now));
    if ok {
      InsertSafe(q.Contents(), id, hash, mode, now);
      q.episodes := q.episodes[id := Fresh(hash, mode, now)];
    }
  }

  /** A fresh id is refused exactly in enforce mode, when another enforced row already holds the hash. */
  lemma RefusedIff(t: Tables, id: string, hash: string, mode: Gate, now: nat)
    requires id !in t.episodes
    ensures Refused(t, id, Fresh(hash, mode, now)) <==> mode == Enforce && HasCovered(t, hash)
  {
    if mode == Enforce && HasCovered(t, hash) {
      var o :| o in t.episodes && Covered(t.episodes[o]) && t.episodes[o].canonicalHash == Some(hash);
      assert o != id;
    }
  }

  // ---------------------------------------------------------------------------------------------
  // The first writer

  /** Names who holds the hash after a refusal, now or at any time before. */
  method NameHolder(q: Queue, id: string, hash: string, gap: Tables -> Tables, later: Tables -> Tables) returns (existing: Option<string>)
    requires q.Valid() && Others(gap, id) && Others(later, id)
    modifies q
    ensures q.Valid() && (id !in old(q.episodes) ==> id !in q.episodes)
    ensures forall x | x in old(q.episodes) :: x in q.episodes && SameContent(old(q.episodes)[x], q.episodes[x])
    ensures HasCovered(old(q.Contents()), hash) ==> existing.Some?
    ensures existing.Some? ==> existing.value in q.episodes && Holds(q.episodes[existing.value], hash)
  {
    ghost var holds := HasCovered(q.Contents(), hash);
    ghost var holder := "";
    if holds {
      holder :| holder in q.episodes && Covered(q.episodes[holder]) && q.episodes[holder].canonicalHash == Some(hash);
    }
    LetOthersRun(q, gap, id);
    existing := FindActiveDuplicate(q, hash);
    if existing.None? {
      LetOthersRun(q, later, id);
      existing := FindAnyDuplicate(q, hash);
      assert holds ==> Holds(q.episodes[holder], hash);
    }
  }

  /** The insert of an observed or enforced episode, and what a refusal becomes. */
  method InsertOrName(q: Queue, id: string, hash: string, mode: Gate, now: nat,
                      afterRefusal: Tables -> Tables, later: Tables -> Tables) returns (o: Outcome)
    requires q.Valid() && (mode == Observe || mode == Enforce) && Others(afterRefusal, id) && Others(later, id)
    modifies q
    ensures q.Valid()
    ensures id !in old(q.episodes) && !(mode == Enforce && HasCovered(old(q.Contents()), hash)) ==>
      o == Accepted(id) && id in q.episodes && IsNew(q.episodes[id], hash, mode, now)
    ensures id !in old(q.episodes) && mode == Enforce && HasCovered(old(q.Contents()), hash) ==>
      o.Rejected? && id !in q.episodes && o.existing.Some? && o.existing.value in q.episodes && Holds(q.episodes[o.existing.value], hash)
    ensures id in old(q.episodes) ==> id in q.episodes && SameContent(old(q.episodes)[id], q.episodes[id])
    ensures id in old(q.episodes) && mode == Observe ==> o == Accepted(id)
  {
    RefusedIfFresh(q.Contents(), id, hash, mode, now);
    var ok := Insert(q, id, hash, mode, now);
    if ok {
      return Accepted(id);
    }
    var existing := NameHolder(q, id, hash, afterRefusal, later);
    return if mode == Enforce then Rejected(existing) else Accepted(id);
  }

  /**
   `EpisodeQueue.enqueue`. With a fresh id nothing is ever lost and every rejection is truthful: off and
   observe always insert; enforce rejects exactly when the check or the index finds a holder, and
   names a row that carries the hash. A taken id makes the observe branch report a row it did not write.
   */
  method Enqueue(q: Queue, id: string, hash: string, mode: Gate, now: nat,
                 beforeInsert: Tables -> Tables, afterRefusal: Tables -> Tables, later: Tables -> Tables) returns (o: Outcome)
    requires q.Valid() && mode != Ungated && Others(beforeInsert, id) && Others(afterRefusal, id) && Others(later, id)
    modifies q
    ensures q.Valid()
    ensures id !in old(q.episodes) && mode != Enforce ==> o == Accepted(id)
    ensures id !in old(q.episodes) && mode == Enforce ==>
      (o.Rejected? <==> HasActive(old(q.Contents()), hash) || HasCovered(beforeInsert(old(q.Contents())), hash))
    ensures id !in old(q.episodes) ==> o == Accepted(id) || (o.Rejected? && mode == Enforce)
    ensures id !in old(q.episodes) && o.Accepted? ==> id in q.episodes && IsNew(q.episodes[id], hash, mode, now)
    ensures id !in old(q.episodes) && o.Rejected? ==>
      id !in q.episodes && o.existing.Some? && o.existing.value in q.episodes && Holds(q.episodes[o.existing.value], hash)
    ensures id in old(q.episodes) ==> id in q.episodes && SameContent(old(q.episodes)[id], q.episodes[id])
    ensures id in old(q.episodes) && mode == Observe ==> o == Accepted(id)
    ensures id in old(q.episodes) && mode == Off ==> o == Raised && q.Contents() == old(q.Contents())
  {
    if mode == Off {
      RefusedIfFresh(q.Contents(), id, hash, mode, now);
      var stored := Insert(q, id, hash, mode, now);
      return if stored then Accepted(id) else Raised;
    }
    var existing := FindActiveDuplicate(q, hash);
    if existing.Some? && mode == Enforce {
      return Rejected(existing);
    }
    LetOthersRun(q, beforeInsert, id);
    o := InsertOrName(q, id, hash, mode, now, afterRefusal, later);
  }

  lemma RefusedIfFresh(t: Tables, id: string, hash: string, mode: Gate, now: nat)
    ensures id !in t.episodes ==> (Refused(t, id, Fresh(hash, mode, now)) <==> mode == Enforce && HasCovered(t, hash))
  {
    if id !in t.episodes {
      RefusedIff(t, id, hash, mode, now);
    }
  }

  // ---------------------------------------------------------------------------------------------
  // The second writer

  /**
   `EpisodeQueueAdapter.enqueue_guarded`, which draws a fresh id itself. It looks only for an active
   holder after a refusal, so when the holder has just left the active rows the caller sees the bare
   integrity error instead of a duplicate.
   */
  method EnqueueGuarded(q: Queue, id: string, hash: string, mode: Gate, lockedOut: bool, now: nat,
                        beforeInsert: Tables -> Tables, afterRefusal: Tables -> Tables) returns (o: Outcome)
    requires q.Valid() && mode != Ungated && id !in q.episodes && Others(beforeInsert, id) && Others(afterRefusal, id)
    modifies q
    ensures q.Valid()
    ensures lockedOut ==> o == LockedOut && q.Contents() == old(q.Contents())
    ensures !lockedOut && mode != Enforce ==> o == Accepted(id)
    ensures o.Accepted? ==> o == Accepted(id) && id in q.episodes && IsNew(q.episodes[id], hash, mode, now)
    ensures !o.Accepted? ==> id !in q.episodes
    ensures o.Rejected? ==>
      o.existing.Some? && o.existing.value in q.episodes && Active(q.episodes[o.existing.value].status) && Holds(q.episodes[o.existing.value], hash)
    ensures !lockedOut ==>
      var met := beforeInsert(old(q.Contents()));
      (o.Raised? <==> mode == Enforce && !HasActive(old(q.Contents()), hash) && HasCovered(met, hash) && !HasActive(afterRefusal(met), hash))
  {
    if lockedOut {
      return LockedOut;
    }
    if mode != Off {
      var existing := FindActiveDuplicate(q, hash);
      if existing.Some? && mode == Enforce {
        return Rejected(existing);
      }
    }
    LetOthersRun(q, beforeInsert, id);
    RefusedIff(q.Contents(), id, hash, mode, now);
    var ok := Insert(q, id, hash, mode, now);
    if ok {
      return Accepted(id);
    }
    LetOthersRun(q, afterRefusal, id);
    var existing := FindActiveDuplicate(q, hash);
    return if existing.Some? then Rejected(existing) else Raised;
  }
}
