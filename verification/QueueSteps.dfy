/** Every way the queue's tables change, and what each change keeps. */
module QueueSteps {
  import opened QueueTables

  /** One committed change, by whichever process; each carries the time at which it was made. */
  datatype Event =
    | Inserted(id: string, hash: string, gate: Gate, now: nat)
    | Claimed(ids: seq<string>, limit: int, now: nat)
    | MarkedDone(id: string, now: nat)
    | MarkedFailed(id: string, error: string, now: nat)
    | MarkedAborted(id: string, error: string, now: nat)
    | MarkedSkipped(id: string, existing: string, now: nat)
    | Touched(id: string, now: nat)
    | ReapedStuck(ids: seq<string>, timeout: int, maxAttempts: int, now: nat)
    | ReapedFailed(ids: seq<string>, limit: int, policy: Policy, now: nat)
    | Replayed(id: string, policy: Policy, now: nat)
    | ReplayedBatch(ids: seq<string>, limit: int, selected: DeadLetter -> bool, policy: Policy, now: nat)

  ghost function StuckIds(t: Tables, timeout: int, now: nat): set<string> {
    set id | id in t.episodes && Stuck(t.episodes[id], timeout, now)
  }

  ghost predicate ListsOnce(ids: seq<string>, from: set<string>) {
    (forall id :: id in ids <==> id in from) && forall i, j | 0 <= i < j < |ids| :: ids[i] != ids[j]
  }

  ghost predicate Enabled(t: Tables, ev: Event) {
    match ev
    case Inserted(id, hash, gate, now) => gate != Ungated && !Refused(t, id, Fresh(hash, gate, now))
    case Claimed(ids, limit, now) => limit > 0 && Picks(ids, WithStatus(t, Queued), EnqueuedAt(t), limit)
    case ReapedStuck(ids, timeout, maxAttempts, now) => ListsOnce(ids, StuckIds(t, timeout, now))
    case ReapedFailed(ids, limit, policy, now) => limit > 0 && Picks(ids, Reapable(t, policy), UpdatedAt(t), limit)
    case ReplayedBatch(ids, limit, selected, policy, now) => Picks(ids, OpenLetters(t, selected, policy), FailedAt(t), limit)
    case _ => true
  }

  ghost function Next(t: Tables, ev: Event): Tables {
    match ev
    case Inserted(id, hash, gate, now) => Put(t, id, Fresh(hash, gate, now))
    case Claimed(ids, limit, now) => Claim(t, (set id | id in ids), now)
    case MarkedDone(id, now) => MarkDone(t, id, now)
    case MarkedFailed(id, error, now) => MarkFailed(t, id, error, now)
    case MarkedAborted(id, error, now) => MarkAborted(t, id, error, now)
    case MarkedSkipped(id, existing, now) => MarkSkipped(t, id, existing, now)
    case Touched(id, now) => Touch(t, id, now)
    case ReapedStuck(ids, timeout, maxAttempts, now) => ReapRows(t, ids, maxAttempts, now)
    case ReapedFailed(ids, limit, policy, now) => RequeueAll(t, ids, false, now)
    case Replayed(id, policy, now) => Replay(t, id, policy, now)
    case ReplayedBatch(ids, limit, selected, policy, now) => ReplayAll(t, ids, now)
  }

  // ---------------------------------------------------------------------------------------------
  // What a change may do to one row

  /**
   `b` may follow `a` as far as the rows go: none vanishes or changes its hashes or gate, each one that
   changes carries the time of the change, a failed row whose dead letter was open and is closed has
   changed too, and a row that enters the queue enters at its end.
   */
  ghost predicate Follows(a: Tables, b: Tables, now: nat) {
    && (forall id | id in a.episodes :: id in b.episodes && SameContent(a.episodes[id], b.episodes[id]))
    && (forall id | id in b.episodes :: (id in a.episodes && a.episodes[id] == b.episodes[id]) || b.episodes[id].updatedAt == now)
    && (forall id | id in b.episodes && id in a.episodes && a.episodes[id] == b.episodes[id] && b.episodes[id].updatedAt != now
                    && OpenLetter(a, id) && b.episodes[id].status == Failed :: OpenLetter(b, id))
    && (forall id | id in b.episodes && b.episodes[id].status == Queued ::
          b.episodes[id].enqueuedAt == now
          || (id in a.episodes && a.episodes[id].status == Queued && a.episodes[id].enqueuedAt == b.episodes[id].enqueuedAt))
  }

  predicate SameContent(a: Episode, b: Episode) {
    a.payloadHash == b.payloadHash && a.canonicalHash == b.canonicalHash && a.gate == b.gate
  }

  lemma FollowsChains(a: Tables, b: Tables, c: Tables, now: nat)
    requires Follows(a, b, now) && Follows(b, c, now)
    ensures Follows(a, c, now)
  {
  }

  lemma RequeueSafe(t: Tables, id: string, reset: bool, now: nat)
    requires Sound(t)
    ensures Sound(Requeue(t, id, reset, now)) && Follows(t, Requeue(t, id, reset, now), now)
  {
  }

  lemma CloseSafe(t: Tables, id: string, now: nat)
    requires Sound(t)
    requires id !in t.episodes || t.episodes[id].status == Done || (t.episodes[id].updatedAt == now && t.episodes[id].status != Aborted)
    ensures Sound(Close(t, id, now)) && Follows(t, Close(t, id, now), now)
  {
  }

  lemma {:induction false} RequeueAllSafe(t: Tables, ids: seq<string>, reset: bool, now: nat)
    requires Sound(t)
    ensures Sound(RequeueAll(t, ids, reset, now)) && Follows(t, RequeueAll(t, ids, reset, now), now)
  {
    if ids != [] {
      var u := RequeueAll(t, ids[..|ids| - 1], reset, now);
      RequeueAllSafe(t, ids[..|ids| - 1], reset, now);
      RequeueSafe(u, ids[|ids| - 1], reset, now);
      FollowsChains(t, u, RequeueAll(t, ids, reset, now), now);
    }
  }

  lemma ReplayGuardedSafe(t: Tables, id: string, now: nat)
    requires Sound(t)
    ensures Sound(ReplayGuarded(t, id, now)) && Follows(t, ReplayGuarded(t, id, now), now)
  {
    RequeueSafe(t, id, true, now);
    var u := Requeue(t, id, true, now);
    if id !in t.episodes || t.episodes[id].status == Done {
      CloseSafe(t, id, now);
    } else if Requeueable(t, id, true, now) {
      CloseSafe(u, id, now);
      FollowsChains(t, u, Close(u, id, now), now);
    }
  }

  lemma ReplaySafe(t: Tables, id: string, policy: Policy, now: nat)
    requires Sound(t)
    ensures Sound(Replay(t, id, policy, now)) && Follows(t, Replay(t, id, policy, now), now)
  {
    RequeueSafe(t, id, true, now);
    if Replayable(t, id, policy, now) {
      var u := Requeue(t, id, true, now);
      CloseSafe(u, id, now);
      FollowsChains(t, u, Close(u, id, now), now);
    }
  }

  lemma {:induction false} ReplayAllSafe(t: Tables, ids: seq<string>, now: nat)
    requires Sound(t)
    ensures Sound(ReplayAll(t, ids, now)) && Follows(t, ReplayAll(t, ids, now), now)
  {
    if ids != [] {
      var u := ReplayAll(t, ids[..|ids| - 1], now);
      ReplayAllSafe(t, ids[..|ids| - 1], now);
      ReplayGuardedSafe(u, ids[|ids| - 1], now);
      FollowsChains(t, u, ReplayAll(t, ids, now), now);
    }
  }

  /** A stuck row is under the index already: reaping it is never blocked. */
  lemma ReapRowSafe(t: Tables, id: string, maxAttempts: int, now: nat)
    requires Sound(t) && id in t.episodes && t.episodes[id].status == Processing
    ensures !Blocked(t, id, Reaped(t.episodes[id], maxAttempts, now))
    ensures Sound(ReapRow(t, id, maxAttempts, now)) && Follows(t, ReapRow(t, id, maxAttempts, now), now)
  {
    ActiveIsNotBlocked(t, id, Reaped(t.episodes[id], maxAttempts, now));
    PutKeepsIndex(t, id, Reaped(t.episodes[id], maxAttempts, now));
  }

  lemma {:induction false} ReapRowsSafe(t: Tables, ids: seq<string>, maxAttempts: int, now: nat)
    requires Sound(t) && forall id | id in ids :: id in t.episodes && t.episodes[id].status == Processing
    requires forall i, j | 0 <= i < j < |ids| :: ids[i] != ids[j]
    ensures Sound(ReapRows(t, ids, maxAttempts, now)) && Follows(t, ReapRows(t, ids, maxAttempts, now), now)
    ensures forall id | id in t.episodes && id !in ids :: ReapRows(t, ids, maxAttempts, now).episodes[id] == t.episodes[id]
    ensures forall id | id in ids :: ReapRows(t, ids, maxAttempts, now).episodes[id] == Reaped(t.episodes[id], maxAttempts, now)
  {
    if ids != [] {
      var init, id := ids[..|ids| - 1], ids[|ids| - 1];
      assert ids == init + [id];
      assert id !in init;
      ReapRowsSafe(t, init, maxAttempts, now);
      var u := ReapRows(t, init, maxAttempts, now);
      ReapRowSafe(u, id, maxAttempts, now);
      FollowsChains(t, u, ReapRow(u, id, maxAttempts, now), now);
    }
  }

  lemma ClaimSafe(t: Tables, ids: set<string>, now: nat)
    requires Sound(t) && forall id | id in ids :: id in t.episodes && t.episodes[id].status == Queued
    ensures Sound(Claim(t, ids, now)) && Follows(t, Claim(t, ids, now), now)
  {
    var u := Claim(t, ids, now);
    forall a, b | a in u.episodes && b in u.episodes && Covered(u.episodes[a]) && Covered(u.episodes[b])
                  && u.episodes[a].canonicalHash == u.episodes[b].canonicalHash
      ensures a == b
    {
      assert Covered(t.episodes[a]) && Covered(t.episodes[b]);
    }
  }

  lemma InsertSafe(t: Tables, id: string, hash: string, gate: Gate, now: nat)
    requires Sound(t) && !Refused(t, id, Fresh(hash, gate, now))
    ensures var u := Put(t, id, Fresh(hash, gate, now)); Sound(u) && Follows(t, u, now)
  {
    PutKeepsIndex(t, id, Fresh(hash, gate, now));
  }

  /** `u` is `t` but for the row of `id` and its letter, and the row neither enters the index nor the queue. */
  ghost predicate RewritesOne(t: Tables, u: Tables, id: string, now: nat) {
    && u.episodes.Keys == t.episodes.Keys
    && (forall x | x in t.episodes && x != id :: u.episodes[x] == t.episodes[x])
    && (forall x: string | x != id :: OpenLetter(u, x) == OpenLetter(t, x))
    && (id in t.episodes ==> Rewrites(t.episodes[id], u.episodes[id], OpenLetter(u, id), now))
  }

  predicate Rewrites(a: Episode, b: Episode, open: bool, now: nat) {
    && SameContent(a, b) && b.updatedAt == now
    && (Active(b.status) ==> Active(a.status)) && (b.status == Queued ==> a.status == Queued && a.enqueuedAt == b.enqueuedAt)
    && (b.status == Aborted ==> open) && (b.status == Done ==> !open)
  }

  lemma RewriteKeepsIndex(t: Tables, u: Tables, id: string, now: nat)
    requires IndexHolds(t) && RewritesOne(t, u, id, now)
    ensures IndexHolds(u)
  {
    forall a, b | a in u.episodes && b in u.episodes && Covered(u.episodes[a]) && Covered(u.episodes[b])
                  && u.episodes[a].canonicalHash == u.episodes[b].canonicalHash
      ensures a == b
    {
      assert Covered(t.episodes[a]) && t.episodes[a].canonicalHash == u.episodes[a].canonicalHash;
      assert Covered(t.episodes[b]) && t.episodes[b].canonicalHash == u.episodes[b].canonicalHash;
    }
  }

  lemma RewriteSafe(t: Tables, u: Tables, id: string, now: nat)
    requires Sound(t) && RewritesOne(t, u, id, now)
    ensures Sound(u) && Follows(t, u, now)
  {
    RewriteKeepsIndex(t, u, id, now);
    assert forall x | x in u.episodes :: x == id || u.episodes[x] == t.episodes[x];
  }

  /** A finished episode leaves the index, and its letter, if open, is closed with it. */
  lemma MarkDoneSafe(t: Tables, id: string, now: nat)
    requires Sound(t)
    ensures Sound(MarkDone(t, id, now)) && Follows(t, MarkDone(t, id, now), now)
  {
    RewriteSafe(t, MarkDone(t, id, now), id, now);
  }

  lemma MarkFailedSafe(t: Tables, id: string, error: string, now: nat)
    requires Sound(t)
    ensures Sound(MarkFailed(t, id, error, now)) && Follows(t, MarkFailed(t, id, error, now), now)
  {
    RewriteSafe(t, MarkFailed(t, id, error, now), id, now);
  }

  lemma MarkAbortedSafe(t: Tables, id: string, error: string, now: nat)
    requires Sound(t)
    ensures Sound(MarkAborted(t, id, error, now)) && Follows(t, MarkAborted(t, id, error, now), now)
  {
    RewriteSafe(t, MarkAborted(t, id, error, now), id, now);
  }

  lemma MarkSkippedSafe(t: Tables, id: string, existing: string, now: nat)
    requires Sound(t)
    ensures Sound(MarkSkipped(t, id, existing, now)) && Follows(t, MarkSkipped(t, id, existing, now), now)
  {
    RewriteSafe(t, MarkSkipped(t, id, existing, now), id, now);
  }

  lemma TouchSafe(t: Tables, id: string, now: nat)
    requires Sound(t)
    ensures Sound(Touch(t, id, now)) && Follows(t, Touch(t, id, now), now)
  {
    RewriteSafe(t, Touch(t, id, now), id, now);
  }

  /** Every change keeps the tables sound and follows from what was there. */
  lemma StepSafe(t: Tables, ev: Event)
    requires Sound(t) && Enabled(t, ev)
    ensures Sound(Next(t, ev)) && Follows(t, Next(t, ev), ev.now)
  {
    match ev
    case Inserted(id, hash, gate, now) => InsertSafe(t, id, hash, gate, now);
    case Claimed(ids, limit, now) => ClaimSafe(t, (set id | id in ids), now);
    case MarkedDone(id, now) => MarkDoneSafe(t, id, now);
    case MarkedFailed(id, error, now) => MarkFailedSafe(t, id, error, now);
    case MarkedAborted(id, error, now) => MarkAbortedSafe(t, id, error, now);
    case MarkedSkipped(id, existing, now) => MarkSkippedSafe(t, id, existing, now);
    case Touched(id, now) => TouchSafe(t, id, now);
    case ReapedStuck(ids, timeout, maxAttempts, now) => ReapRowsSafe(t, ids, maxAttempts, now);
    case ReapedFailed(ids, limit, policy, now) => RequeueAllSafe(t, ids, false, now);
    case Replayed(id, policy, now) => ReplaySafe(t, id, policy, now);
    case ReplayedBatch(ids, limit, selected, policy, now) => ReplayAllSafe(t, ids, now);
  }

  // ---------------------------------------------------------------------------------------------
  // Runs

  /** `ts` are the tables before, between and after the changes `evs`. */
  ghost predicate Run(ts: seq<Tables>, evs: seq<Event>) {
    && |ts| == |evs| + 1
    && forall i | 0 <= i < |evs| :: Enabled(ts[i], evs[i]) && ts[i + 1] == Next(ts[i], evs[i])
  }

  /** Whatever the processes do and however their changes interleave, the tables stay sound. */
  lemma {:induction false} RunsAreSound(ts: seq<Tables>, evs: seq<Event>, i: nat)
    requires Run(ts, evs) && Sound(ts[0]) && i < |ts|
    ensures Sound(ts[i])
  {
    if i > 0 {
      RunsAreSound(ts, evs, i - 1);
      StepSafe(ts[i - 1], evs[i - 1]);
    }
  }

  /** Rows never vanish, and their hashes and gates never change. */
  lemma {:induction false} RowsStay(ts: seq<Tables>, evs: seq<Event>, i: nat, j: nat, id: string)
    requires Run(ts, evs) && Sound(ts[0]) && i <= j < |ts| && id in ts[i].episodes
    ensures id in ts[j].episodes && SameContent(ts[i].episodes[id], ts[j].episodes[id])
    decreases j
  {
    if i < j {
      RowsStay(ts, evs, i, j - 1, id);
      RunsAreSound(ts, evs, j - 1);
      StepSafe(ts[j - 1], evs[j - 1]);
    }
  }

  // ---------------------------------------------------------------------------------------------
  // What a guarded requeue does to each of its rows

  /** A holder stays in place while other rows are requeued. */
  lemma RequeueKeepsHolder(t: Tables, id: string, other: string, e: Episode, reset: bool, now: nat)
    requires Blocked(t, id, e) && other != id
    ensures Blocked(Requeue(t, other, reset, now), id, e)
  {
    var o :| o in t.episodes && o != id && Covered(t.episodes[o]) && t.episodes[o].canonicalHash == e.canonicalHash;
    var u := Requeue(t, other, reset, now);
    assert Covered(u.episodes[o]) && u.episodes[o].canonicalHash == e.canonicalHash;
  }

  /** Afterwards each row is requeued, or is as it was and an active row holds its hash. */
  ghost predicate RequeuedOrHeld(t: Tables, u: Tables, id: string, reset: bool, now: nat)
    requires id in t.episodes
  {
    && id in u.episodes
    && (u.episodes[id] == Requeued(t.episodes[id], reset, now)
        || (u.episodes[id] == t.episodes[id] && Blocked(u, id, Requeued(t.episodes[id], reset, now))))
  }

  lemma {:induction false} RequeueDecidesEach(t: Tables, ids: seq<string>, reset: bool, now: nat)
    requires forall i, j | 0 <= i < j < |ids| :: ids[i] != ids[j]
    ensures forall id | id in t.episodes && id in ids :: RequeuedOrHeld(t, RequeueAll(t, ids, reset, now), id, reset, now)
    ensures forall id | id in t.episodes && id !in ids :: id in RequeueAll(t, ids, reset, now).episodes
    ensures forall id | id in t.episodes && id !in ids :: RequeueAll(t, ids, reset, now).episodes[id] == t.episodes[id]
    ensures RequeueAll(t, ids, reset, now).episodes.Keys == t.episodes.Keys
  {
    if ids != [] {
      var init, last := ids[..|ids| - 1], ids[|ids| - 1];
      assert ids == init + [last] && last !in init;
      RequeueDecidesEach(t, init, reset, now);
      var u := RequeueAll(t, init, reset, now);
      var v := RequeueAll(t, ids, reset, now);
      forall id | id in t.episodes && id in ids
        ensures RequeuedOrHeld(t, v, id, reset, now)
      {
        if id != last {
          assert RequeuedOrHeld(t, u, id, reset, now);
          if u.episodes[id] != Requeued(t.episodes[id], reset, now) {
            RequeueKeepsHolder(u, id, last, Requeued(t.episodes[id], reset, now), reset, now);
          }
        }
      }
    }
  }
}
