/** How often an episode is claimed. */
module QueueCeiling {
  import opened QueueTables
  import opened QueueSteps

  /** A dead-letter replay that put `id` back into the queue. */
  ghost predicate Renews(t: Tables, ev: Event, id: string) {
    && (ev.Replayed? || ev.ReplayedBatch?)
    && id in t.episodes && id in Next(t, ev).episodes && Next(t, ev).episodes[id] != t.episodes[id]
  }

  /** Claims of `id` among the first `n` changes since its last replay. */
  ghost function Claims(ts: seq<Tables>, evs: seq<Event>, n: nat, id: string): nat
    requires n <= |evs| < |ts|
  {
    if n == 0 then 0
    else if evs[n - 1].Claimed? && id in evs[n - 1].ids then Claims(ts, evs, n - 1, id) + 1
    else if Renews(ts[n - 1], evs[n - 1], id) then 0
    else Claims(ts, evs, n - 1, id)
  }

  /** Every reaper works with the same attempt ceiling. */
  ghost predicate SharesCeiling(ev: Event, maxAttempts: int) {
    match ev
    case ReapedStuck(_, _, m, _) => m == maxAttempts
    case ReapedFailed(_, _, policy, _) => policy.respectCeiling && policy.maxAttempts == maxAttempts
    case _ => true
  }

  function Uncounted(s: Status): nat {
    if s == Processing || s == Done || s == Skipped then 1 else 0
  }

  /** A claim is either counted as an attempt or still, or finally, under way. */
  ghost predicate Within(t: Tables, id: string, claims: nat, maxAttempts: int) {
    && claims <= maxAttempts
    && (id !in t.episodes ==> claims == 0)
    && (id in t.episodes ==> claims <= t.episodes[id].attempts + Uncounted(t.episodes[id].status))
    && (id in t.episodes && t.episodes[id].status == Queued ==> t.episodes[id].attempts < maxAttempts)
  }

  ghost predicate QueuedBelow(t: Tables, maxAttempts: int) {
    forall id | id in t.episodes && t.episodes[id].status == Queued :: t.episodes[id].attempts < maxAttempts
  }

  lemma {:induction false} ReplayAllRow(t: Tables, ids: seq<string>, now: nat, id: string)
    requires id in t.episodes
    ensures
      var u := ReplayAll(t, ids, now);
      id in u.episodes && (u.episodes[id] == t.episodes[id] || u.episodes[id] == Requeued(t.episodes[id], true, now))
  {
    if ids != [] {
      ReplayAllRow(t, ids[..|ids| - 1], now, id);
    }
  }

  lemma {:induction false} ReplayAllKeys(t: Tables, ids: seq<string>, now: nat)
    ensures ReplayAll(t, ids, now).episodes.Keys == t.episodes.Keys
  {
    if ids != [] {
      ReplayAllKeys(t, ids[..|ids| - 1], now);
    }
  }

  lemma {:induction false} ReapRowsKeys(t: Tables, ids: seq<string>, maxAttempts: int, now: nat)
    ensures ReapRows(t, ids, maxAttempts, now).episodes.Keys == t.episodes.Keys
  {
    if ids != [] {
      ReapRowsKeys(t, ids[..|ids| - 1], maxAttempts, now);
    }
  }

  lemma ReapStays(t: Tables, ids: seq<string>, policy: Policy, now: nat, id: string, claims: nat)
    requires Within(t, id, claims, policy.maxAttempts) && policy.respectCeiling
    requires (forall x | x in ids :: x in Reapable(t, policy)) && forall i, j | 0 <= i < j < |ids| :: ids[i] != ids[j]
    ensures Within(RequeueAll(t, ids, false, now), id, claims, policy.maxAttempts)
  {
    RequeueDecidesEach(t, ids, false, now);
    if id in ids {
      assert RequeuedOrHeld(t, RequeueAll(t, ids, false, now), id, false, now);
    }
  }

  lemma StuckStays(t: Tables, ids: seq<string>, timeout: int, maxAttempts: int, now: nat, id: string, claims: nat)
    requires Sound(t) && Within(t, id, claims, maxAttempts) && ListsOnce(ids, StuckIds(t, timeout, now))
    ensures Within(ReapRows(t, ids, maxAttempts, now), id, claims, maxAttempts)
  {
    ReapRowsKeys(t, ids, maxAttempts, now);
    ReapRowsSafe(t, ids, maxAttempts, now);
  }

  lemma StepStaysWithin(t: Tables, ev: Event, id: string, claims: nat, maxAttempts: int)
    requires Sound(t) && Enabled(t, ev) && SharesCeiling(ev, maxAttempts) && maxAttempts > 0
    requires Within(t, id, claims, maxAttempts)
    ensures
      var after := if ev.Claimed? && id in ev.ids then claims + 1 else if Renews(t, ev, id) then 0 else claims;
      Within(Next(t, ev), id, after, maxAttempts)
  {
    match ev
    case ReapedStuck(ids, timeout, m, now) => StuckStays(t, ids, timeout, m, now, id, claims);
    case ReapedFailed(ids, limit, policy, now) => ReapStays(t, ids, policy, now, id, claims);
    case ReplayedBatch(ids, limit, selected, policy, now) =>
      ReplayAllKeys(t, ids, now);
      if id in t.episodes {
        ReplayAllRow(t, ids, now, id);
      }
    case Claimed(ids, limit, now) =>
      if id in ids {
        assert id in WithStatus(t, Queued);
      }
    case Replayed(_, policy, now) => ReplayStays(t, ev.id, policy, now, id, claims, maxAttempts);
    case _ => OneRowStays(t, ev, id, claims, maxAttempts);
  }

  lemma ReplayStays(t: Tables, replayed: string, policy: Policy, now: nat, id: string, claims: nat, maxAttempts: int)
    requires Within(t, id, claims, maxAttempts) && maxAttempts > 0
    ensures
      var ev := Replayed(replayed, policy, now);
      Within(Next(t, ev), id, if Renews(t, ev, id) then 0 else claims, maxAttempts)
  {
    assert Replay(t, replayed, policy, now).episodes.Keys == t.episodes.Keys;
  }

  /** What a worker reports of one row, or a new one. */
  lemma OneRowStays(t: Tables, ev: Event, id: string, claims: nat, maxAttempts: int)
    requires ev.Inserted? || ev.MarkedDone? || ev.MarkedFailed? || ev.MarkedAborted? || ev.MarkedSkipped? || ev.Touched?
    requires Enabled(t, ev) && Within(t, id, claims, maxAttempts) && maxAttempts > 0
    ensures Within(Next(t, ev), id, claims, maxAttempts)
  {
  }

  /**
   Between two replays an episode is claimed at most `maxAttempts` times, whatever the workers report,
   whichever rows are reaped, and however often.
   */
  lemma {:induction false} ClaimsAreBounded(ts: seq<Tables>, evs: seq<Event>, n: nat, id: string, maxAttempts: int)
    requires Run(ts, evs) && Sound(ts[0]) && QueuedBelow(ts[0], maxAttempts) && maxAttempts > 0 && n <= |evs|
    requires forall i | 0 <= i < |evs| :: SharesCeiling(evs[i], maxAttempts)
    ensures Claims(ts, evs, n, id) <= maxAttempts && Within(ts[n], id, Claims(ts, evs, n, id), maxAttempts)
  {
    if n > 0 {
      ClaimsAreBounded(ts, evs, n - 1, id, maxAttempts);
      RunsAreSound(ts, evs, n - 1);
      StepStaysWithin(ts[n - 1], evs[n - 1], id, Claims(ts, evs, n - 1, id), maxAttempts);
    }
  }
}
