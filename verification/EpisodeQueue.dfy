/** The queue itself: each method commits one change of the tables. */
module EpisodeQueue {
  import opened Collections
  import opened Options
  import opened QueueTables
  import opened QueueSteps

  class Queue {
    var episodes: map<string, Episode>
    var deadLetter: map<string, DeadLetter>

    ghost function Contents(): Tables
      reads this
    {
      Tables(episodes, deadLetter)
    }

    ghost predicate Valid()
      reads this
    {
      Sound(Contents())
    }

    constructor ()
      ensures Valid() && Contents() == Tables(map[], map[])
    {
      episodes, deadLetter := map[], map[];
    }

    // -------------------------------------------------------------------------------------------
    // Reading

    /** `ORDER BY key LIMIT limit` over `from`. */
    method Select(from: set<string>, key: string -> int, limit: int) returns (ids: seq<string>)
      ensures Picks(ids, from, key, limit)
    {
      ids := [];
      var rest := from;
      var wanted := Cap(limit, |from|);
      while |ids| < wanted
        invariant rest <= from && |ids| + |rest| == |from| && |ids| <= wanted
        invariant forall id :: id in ids <==> id in from - rest
        invariant forall i, j | 0 <= i < j < |ids| :: ids[i] != ids[j] && key(ids[i]) <= key(ids[j])
        invariant forall id, other | id in ids && other in rest :: key(id) <= key(other)
      {
        LowestExists(rest, key);
        var next :| next in rest && forall other | other in rest :: key(next) <= key(other);
        ids, rest := ids + [next], rest - {next};
      }
    }

    static lemma LowestExists(s: set<string>, key: string -> int)
      requires s != {}
      ensures exists x :: x in s && forall y | y in s :: key(x) <= key(y)
      decreases |s|
    {
      var x :| x in s;
      if s - {x} == {} {
        assert s == {x} + (s - {x});
      } else {
        LowestExists(s - {x}, key);
        var m :| m in s - {x} && forall y | y in s - {x} :: key(m) <= key(y);
        var lowest := if key(x) <= key(m) then x else m;
        assert lowest in s && forall y | y in s :: key(lowest) <= key(y);
      }
    }

    // -------------------------------------------------------------------------------------------
    // Claiming and reporting

    /** Takes the rows that have been queued longest. */
    method ClaimNextBatch(limit: Option<int>, now: nat) returns (ids: seq<string>)
      requires Valid()
      modifies this
      ensures Valid()
      ensures
        var effective := if limit.Some? && limit.value > 0 then limit.value else 20;
        Enabled(old(Contents()), Claimed(ids, effective, now)) && Contents() == Next(old(Contents()), Claimed(ids, effective, now))
    {
      var effective := if limit.Some? && limit.value > 0 then limit.value else 20;
      ids := Select(WithStatus(Tables(episodes, deadLetter), Queued), EnqueuedAt(Tables(episodes, deadLetter)), effective);
      StepSafe(Contents(), Claimed(ids, effective, now));
      var taken := set id | id in ids;
      episodes := map id | id in episodes ::
        if id in taken then episodes[id].(status := Processing, startedAt := Some(now), updatedAt := now) else episodes[id];
    }

    method MarkAsDone(id: string, now: nat)
      requires Valid()
      modifies this
      ensures Valid() && Contents() == Next(old(Contents()), MarkedDone(id, now))
    {
      MarkDoneSafe(Contents(), id, now);
      ghost var t := Contents();
      if id in episodes {
        episodes := episodes[id := episodes[id].(status := Done, updatedAt := now)];
      }
      if id in deadLetter && deadLetter[id].recovered.None? {
        deadLetter := deadLetter[id := deadLetter[id].(recovered := Some(Recovery(now, deadLetter[id].attempts)))];
      }
      assert Contents() == MarkDone(t, id, now);
    }

    method MarkAsFailed(id: string, error: string, now: nat)
      requires Valid()
      modifies this
      ensures Valid() && Contents() == Next(old(Contents()), MarkedFailed(id, error, now))
    {
      MarkFailedSafe(Contents(), id, error, now);
      ghost var t := Contents();
      if id in episodes {
        var e := episodes[id];
        episodes := episodes[id := e.(status := Failed, attempts := e.attempts + 1, lastError := Some(error), updatedAt := now)];
      }
      assert Contents() == MarkFailed(t, id, error, now);
    }

    method MarkAsAborted(id: string, error: string, now: nat)
      requires Valid()
      modifies this
      ensures Valid() && Contents() == Next(old(Contents()), MarkedAborted(id, error, now))
    {
      MarkAbortedSafe(Contents(), id, error, now);
      ghost var t := Contents();
      var attempts := (if id in episodes then episodes[id].attempts else 0) + 1;
      if id in episodes {
        episodes := episodes[id := episodes[id].(status := Aborted, attempts := attempts, lastError := Some(error), updatedAt := now)];
      }
      assert episodes == MarkAborted(t, id, error, now).episodes;
      deadLetter := deadLetter[id := DeadLetter(error, attempts, now, None)];
      assert Contents() == MarkAborted(t, id, error, now);
    }

    method MarkAsSkipped(id: string, existing: string, now: nat)
      requires Valid()
      modifies this
      ensures Valid() && Contents() == Next(old(Contents()), MarkedSkipped(id, existing, now))
    {
      MarkSkippedSafe(Contents(), id, existing, now);
      ghost var t := Contents();
      if id in episodes {
        var error := "skipped: payload already ingested as " + existing;
        episodes := episodes[id := episodes[id].(status := Skipped, updatedAt := now, lastError := Some(error))];
      }
      assert Contents() == MarkSkipped(t, id, existing, now);
    }

    method UpdateCheckpoint(id: string, now: nat)
      requires Valid()
      modifies this
      ensures Valid() && Contents() == Next(old(Contents()), Touched(id, now))
    {
      TouchSafe(Contents(), id, now);
      ghost var t := Contents();
      if id in episodes {
        episodes := episodes[id := episodes[id].(updatedAt := now)];
      }
      assert Contents() == Touch(t, id, now);
    }

    // -------------------------------------------------------------------------------------------
    // Reaping

    method StuckRows(timeout: int, now: nat) returns (ids: seq<string>)
      ensures ListsOnce(ids, StuckIds(Contents(), timeout, now))
    {
      ids := [];
      var todo := episodes.Keys;
      while todo != {}
        invariant todo <= episodes.Keys
        invariant forall id :: id in ids <==> id in StuckIds(Contents(), timeout, now) && id !in todo
        invariant forall i, j | 0 <= i < j < |ids| :: ids[i] != ids[j]
        decreases todo
      {
        var id :| id in todo;
        todo := todo - {id};
        if Stuck(episodes[id], timeout, now) {
          ids := ids + [id];
        }
      }
    }

    /** Reaps one stuck row. The branch for a blocked requeue cannot be reached. */
    method ReapOne(id: string, maxAttempts: int, now: nat)
      requires Valid() && id in episodes && episodes[id].status == Processing
      modifies this
      ensures Valid() && Contents() == ReapRow(old(Contents()), id, maxAttempts, now)
    {
      ReapRowSafe(Contents(), id, maxAttempts, now);
      var e := episodes[id];
      var attempts := e.attempts + 1;
      if attempts >= maxAttempts {
        episodes := episodes[id := e.(status := Aborted, attempts := attempts, lastError := Some(TIMEOUT_ERROR), updatedAt := now)];
        deadLetter := deadLetter[id := DeadLetter(TIMEOUT_ERROR, attempts, now, None)];
      } else {
        var requeued := e.(status := Queued, attempts := attempts, enqueuedAt := now, updatedAt := now);
        if Blocked(Tables(episodes, deadLetter), id, requeued) {
          assert false;
        } else {
          episodes := episodes[id := requeued];
        }
      }
    }

    /** Requeues or aborts every row whose processing has gone on for `timeout` or longer. */
    method ReapStuckProcessing(timeout: int, maxAttempts: int, now: nat) returns (count: nat, ghost ids: seq<string>)
      requires Valid()
      modifies this
      ensures Valid()
      ensures Enabled(old(Contents()), ReapedStuck(ids, timeout, maxAttempts, now))
      ensures Contents() == Next(old(Contents()), ReapedStuck(ids, timeout, maxAttempts, now)) && count == |ids|
    {
      var stuck := StuckRows(timeout, now);
      ids, count := stuck, 0;
      ghost var t := Contents();
      assert forall id | id in stuck :: id in StuckIds(t, timeout, now);
      for i := 0 to |stuck|
        invariant Valid() && Contents() == ReapRows(t, stuck[..i], maxAttempts, now) && count == i
      {
        assert stuck[..i + 1] == stuck[..i] + [stuck[i]];
        assert stuck[i] in stuck && stuck[i] !in stuck[..i];
        assert forall id | id in stuck[..i] :: id in stuck;
        ReapRowsSafe(t, stuck[..i], maxAttempts, now);
        ReapOne(stuck[i], maxAttempts, now);
        count := count + 1;
      }
      assert stuck[..|stuck|] == stuck;
    }

    /** The UPDATE of one row in its savepoint. */
    method RequeueRow(id: string, reset: bool, now: nat) returns (ok: bool)
      requires Valid()
      modifies this`episodes
      ensures Valid() && Contents() == Requeue(old(Contents()), id, reset, now)
      ensures ok == Requeueable(old(Contents()), id, reset, now)
    {
      RequeueSafe(Contents(), id, reset, now);
      ok := true;
      if id in episodes {
        var e := Requeued(episodes[id], reset, now);
        if Blocked(Tables(episodes, deadLetter), id, e) {
          ok := false;
        } else {
          episodes := episodes[id := e];
        }
      }
    }

    /** Each row in its own savepoint: one conflict does not stop the rest, and only requeued rows are reported. */
    method RequeueGuarded(ids: seq<string>, reset: bool, now: nat) returns (requeued: seq<string>)
      requires Valid() && NoDuplicates(ids)
      modifies this`episodes
      ensures Valid() && Contents() == RequeueAll(old(Contents()), ids, reset, now)
      ensures Reported(old(Contents()), Contents(), ids, requeued, reset, now)
      ensures |ids| == 1 ==> (requeued == [] <==> !Requeueable(old(Contents()), ids[0], reset, now))
    {
      requeued := [];
      ghost var t := Contents();
      for i := 0 to |ids|
        invariant Valid() && Contents() == RequeueAll(t, ids[..i], reset, now) && deadLetter == t.deadLetter
        invariant Reported(t, Contents(), ids[..i], requeued, reset, now) && |requeued| <= i
        invariant i == 1 ==> (requeued == [] <==> !Requeueable(t, ids[0], reset, now))
      {
        assert ids[..i + 1][..i] == ids[..i] && ids[..i + 1] == ids[..i] + [ids[i]];
        ReportGrows(t, Contents(), ids[..i], requeued, ids[i], reset, now);
        assert i == 0 ==> ids[..i] == [] && Contents() == t;
        var ok := RequeueRow(ids[i], reset, now);
        if ok {
          requeued := requeued + [ids[i]];
        }
      }
      assert ids[..|ids|] == ids;
    }

    method ReapFailedOrAborted(limit: Option<int>, policy: Policy, now: nat) returns (count: nat, ghost ids: seq<string>)
      requires Valid()
      modifies this
      ensures Valid()
      ensures
        var effective := if limit.Some? then limit.value else policy.reapLimit;
        && (effective <= 0 ==> Contents() == old(Contents()) && count == 0)
        && (effective > 0 ==> Enabled(old(Contents()), ReapedFailed(ids, effective, policy, now)))
        && (effective > 0 ==> Contents() == Next(old(Contents()), ReapedFailed(ids, effective, policy, now)))
        && (effective > 0 ==> count == |NowQueued(Contents(), ids)|)
    {
      var effective := if limit.Some? then limit.value else policy.reapLimit;
      ids, count := [], 0;
      if effective <= 0 {
        return;
      }
      var picked := Select(Reapable(Tables(episodes, deadLetter), policy), UpdatedAt(Tables(episodes, deadLetter)), effective);
      ids := picked;
      ghost var t := Contents();
      var requeued := RequeueGuarded(picked, false, now);
      count := |requeued|;
      ReportedCount(t, Contents(), picked, requeued, policy, now);
    }

    // -------------------------------------------------------------------------------------------
    // Replaying

    method CloseLetter(id: string, now: nat)
      requires id in deadLetter
      modifies this`deadLetter
      ensures Contents() == Close(old(Contents()), id, now)
    {
      deadLetter := deadLetter[id := deadLetter[id].(recovered := Some(Recovery(now, deadLetter[id].attempts)))];
    }

    /** A manual replay: the policy may refuse it, and so may the index. */
    method ReplayEpisode(id: string, policy: Policy, now: nat) returns (replayed: bool)
      requires Valid()
      modifies this
      ensures Valid() && Contents() == Next(old(Contents()), Replayed(id, policy, now))
      ensures replayed == Replayable(old(Contents()), id, policy, now)
    {
      ReplaySafe(Contents(), id, policy, now);
      if id !in deadLetter || !Allows(policy, Some(deadLetter[id].lastError)) {
        return false;
      }
      ghost var t := Contents();
      var requeued := RequeueGuarded([id], true, now);
      RequeueOneOnly(t, id, now);
      if requeued == [] {
        return false;
      }
      CloseLetter(id, now);
      return true;
    }

    static lemma RequeueOneOnly(t: Tables, id: string, now: nat)
      ensures RequeueAll(t, [id], true, now) == Requeue(t, id, true, now)
    {
      assert [id][..0] == [];
    }

    /** One row of a batch: finished and missing episodes are not replayed, only their letter is closed. */
    method ReplayRow(id: string, now: nat) returns (replayed: bool)
      requires Valid() && id in deadLetter
      modifies this
      ensures Valid() && Contents() == ReplayGuarded(old(Contents()), id, now) && deadLetter.Keys == old(deadLetter.Keys)
      ensures replayed == GoesBack(old(Contents()), id, now)
    {
      ReplayGuardedSafe(Contents(), id, now);
      if id !in episodes || episodes[id].status == Done {
        CloseLetter(id, now);
        return false;
      }
      replayed := RequeueRow(id, true, now);
      if replayed {
        CloseLetter(id, now);
      }
    }

    method ReplayBatch(limit: int, selected: DeadLetter -> bool, policy: Policy, now: nat) returns (count: nat, ghost ids: seq<string>)
      requires Valid()
      modifies this
      ensures Valid()
      ensures Enabled(old(Contents()), ReplayedBatch(ids, limit, selected, policy, now))
      ensures Contents() == Next(old(Contents()), ReplayedBatch(ids, limit, selected, policy, now))
      ensures count == |NowQueued(Contents(), ids)|
    {
      var t := Tables(episodes, deadLetter);
      var picked := Select(OpenLetters(t, selected, policy), FailedAt(t), limit);
      ids, count := picked, 0;
      for i := 0 to |picked|
        invariant Valid() && Contents() == ReplayAll(t, picked[..i], now) && count == |NowQueued(Contents(), picked[..i])|
        invariant deadLetter.Keys == t.deadLetter.Keys
      {
        assert picked[..i + 1] == picked[..i] + [picked[i]] && picked[..i + 1][..i] == picked[..i];
        assert picked[i] in picked;
        QueuedGrows(Contents(), picked[..i], picked[i], now);
        var replayed := ReplayRow(picked[i], now);
        if replayed {
          count := count + 1;
        }
      }
      assert picked[..|picked|] == picked;
    }
  }

  /** `requeued` are the ids whose row was requeued, or that have none; every other row of `ids` is as it was. */
  ghost predicate Reported(t: Tables, u: Tables, ids: seq<string>, requeued: seq<string>, reset: bool, now: nat) {
    && NoDuplicates(requeued) && (forall id | id in requeued :: id in ids) && u.episodes.Keys == t.episodes.Keys
    && (forall id | id in requeued && id in t.episodes :: u.episodes[id] == Requeued(t.episodes[id], reset, now))
    && (forall id | id in t.episodes && id !in requeued :: u.episodes[id] == t.episodes[id])
  }

  lemma ReportGrows(t: Tables, u: Tables, ids: seq<string>, requeued: seq<string>, id: string, reset: bool, now: nat)
    requires Reported(t, u, ids, requeued, reset, now) && id !in ids
    ensures
      var v := Requeue(u, id, reset, now);
      Reported(t, v, ids + [id], if Requeueable(u, id, reset, now) then requeued + [id] else requeued, reset, now)
  {
    assert id !in requeued;
    assert id in t.episodes ==> u.episodes[id] == t.episodes[id];
  }

  ghost function NowQueued(u: Tables, ids: seq<string>): set<string> {
    set id | id in ids && InQueue(u, id)
  }

  /** The row is there, unfinished, and not held back. */
  predicate GoesBack(t: Tables, id: string, now: nat) {
    id in t.episodes && t.episodes[id].status != Done && Requeueable(t, id, true, now)
  }

  predicate InQueue(t: Tables, id: string) {
    id in t.episodes && t.episodes[id].status == Queued
  }

  /** Replaying a row moves it into the queue, or it was not there before: an active row is never blocked. */
  lemma ReplayedRow(t: Tables, id: string, now: nat)
    requires Sound(t)
    ensures InQueue(ReplayGuarded(t, id, now), id) <==> GoesBack(t, id, now)
  {
    if id in t.episodes && Active(t.episodes[id].status) {
      ActiveIsNotBlocked(t, id, Requeued(t.episodes[id], true, now));
    }
  }

  lemma OtherRowsStay(t: Tables, id: string, other: string, now: nat)
    requires other != id
    ensures InQueue(ReplayGuarded(t, id, now), other) == InQueue(t, other)
  {
  }

  lemma QueuedGrows(u: Tables, ids: seq<string>, id: string, now: nat)
    requires Sound(u) && id !in ids
    ensures |NowQueued(ReplayGuarded(u, id, now), ids + [id])| == |NowQueued(u, ids)| + if GoesBack(u, id, now) then 1 else 0
  {
    var v := ReplayGuarded(u, id, now);
    ReplayedRow(u, id, now);
    forall other | other != id
      ensures InQueue(v, other) == InQueue(u, other)
    {
      OtherRowsStay(u, id, other, now);
    }
    QueuedOneMore(u, v, ids, id);
  }

  lemma QueuedOneMore(u: Tables, v: Tables, ids: seq<string>, id: string)
    requires id !in ids && forall other | other != id :: InQueue(v, other) == InQueue(u, other)
    ensures |NowQueued(v, ids + [id])| == |NowQueued(u, ids)| + if InQueue(v, id) then 1 else 0
  {
    forall other
      ensures other in NowQueued(v, ids + [id]) <==> other in NowQueued(u, ids) || (other == id && InQueue(v, id))
    {
      assert other in NowQueued(v, ids + [id]) <==> other in ids + [id] && InQueue(v, other);
      assert other in NowQueued(u, ids) <==> other in ids && InQueue(u, other);
    }
    if InQueue(v, id) {
      assert NowQueued(v, ids + [id]) == NowQueued(u, ids) + {id};
    } else {
      assert NowQueued(v, ids + [id]) == NowQueued(u, ids);
    }
  }

  /** What a reap reports is the number of rows it moved into the queue. */
  lemma ReportedCount(t: Tables, u: Tables, ids: seq<string>, requeued: seq<string>, policy: Policy, now: nat)
    requires Reported(t, u, ids, requeued, false, now) && forall id | id in ids :: id in Reapable(t, policy)
    ensures |requeued| == |NowQueued(u, ids)|
  {
    CountElements(requeued);
    forall id
      ensures id in NowQueued(u, ids) <==> id in requeued
    {
      if id in ids {
        assert id in Reapable(t, policy);
      }
    }
    assert NowQueued(u, ids) == Elements(requeued);
  }
}
