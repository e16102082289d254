/** What the reaps and replays pick, and what they make of a row, property by property. */
module QueueMeaning {
  import Collections
  import opened Options
  import opened Similarity
  import opened QueueTables
  import opened QueueSteps

  // ---------------------------------------------------------------------------------------------
  // The retry policy

  ghost predicate SameLetter(c: char, d: char) {
    || c == d
    || ('A' <= c <= 'Z' && d as int == c as int - 'A' as int + 'a' as int)
    || ('A' <= d <= 'Z' && c as int == d as int - 'A' as int + 'a' as int)
  }

  ghost predicate OccursHere(text: string, code: string, i: nat) {
    i + |code| <= |text| && forall k | 0 <= k < |code| :: SameLetter(text[i + k], code[k])
  }

  /** The code occurs in the text, whichever case either is written in. */
  ghost predicate Contains(text: string, code: string) {
    exists i: nat :: OccursHere(text, code, i)
  }

  lemma SameWhenLowered(c: char, d: char)
    ensures Lower(c) == Lower(d) <==> SameLetter(c, d)
  {
    if Lower(c) == Lower(d) {
      assert Lower(c) as int == Lower(d) as int;
    }
  }

  lemma OccursWhenLowered(text: string, code: string, i: nat)
    ensures OccursAt(LowerAll(text), LowerAll(code), i) <==> OccursHere(text, code, i)
  {
    if i + |code| <= |text| {
      var slice := LowerAll(text)[i..i + |code|];
      forall k | 0 <= k < |code|
        ensures slice[k] == LowerAll(code)[k] <==> SameLetter(text[i + k], code[k])
      {
        SameWhenLowered(text[i + k], code[k]);
      }
      assert slice == LowerAll(code) <==> forall k | 0 <= k < |code| :: slice[k] == LowerAll(code)[k];
    }
  }

  lemma MentionsMeans(text: string, code: string)
    ensures Mentions(text, code) <==> Contains(text, code)
  {
    forall i: nat
      ensures OccursAt(LowerAll(text), LowerAll(code), i) <==> OccursHere(text, code, i)
    {
      OccursWhenLowered(text, code, i);
    }
    if i: nat :| OccursHere(text, code, i) {
      assert OccursAt(LowerAll(text), LowerAll(code), i);
    }
  }

  /** With an allowlist every code on it has to occur in the text, without one no permanent code may. */
  ghost predicate TextPermits(p: Policy, text: string) {
    if p.allowed != [] then forall c | c in p.allowed :: Contains(text, c) else forall c | c in p.permanent :: !Contains(text, c)
  }

  /** What the policy allows is what its codes permit; a row without an error text is never held back. */
  lemma AllowsMeans(p: Policy, error: Option<string>)
    ensures Allows(p, error) <==> error.None? || TextPermits(p, error.value)
  {
    if error.Some? {
      forall c
        ensures Mentions(error.value, c) <==> Contains(error.value, c)
      {
        MentionsMeans(error.value, c);
      }
    }
  }

  // ---------------------------------------------------------------------------------------------
  // Which rows a reap of failures picks

  ghost predicate HasOpenLetter(t: Tables, id: string) {
    id in t.deadLetter && t.deadLetter[id].recovered.None?
  }

  /** Failed without an open letter or aborted, below the ceiling if that counts, and permitted by its error. */
  ghost predicate Reapworthy(t: Tables, p: Policy, id: string) {
    && id in t.episodes
    && ((t.episodes[id].status == Failed && !HasOpenLetter(t, id)) || t.episodes[id].status == Aborted)
    && (p.respectCeiling ==> t.episodes[id].attempts < p.maxAttempts)
    && (t.episodes[id].lastError.None? || TextPermits(p, t.episodes[id].lastError.value))
  }

  lemma ReapableMeans(t: Tables, p: Policy, id: string)
    ensures id in Reapable(t, p) <==> Reapworthy(t, p, id)
  {
    if id in t.episodes {
      AllowsMeans(p, t.episodes[id].lastError);
    }
  }

  /** A reap with room picks exactly these rows; one without room those of them that have waited longest. */
  lemma ReapPicks(t: Tables, ids: seq<string>, limit: int, p: Policy, now: nat, id: string)
    requires Enabled(t, ReapedFailed(ids, limit, p, now))
    ensures id in ids ==> Reapworthy(t, p, id)
    ensures Reapworthy(t, p, id) && id !in ids ==>
      |ids| == limit && forall x | x in ids :: x in t.episodes && t.episodes[x].updatedAt <= t.episodes[id].updatedAt
    ensures |ids| < limit ==> (id in ids <==> Reapworthy(t, p, id))
    ensures |ids| <= limit && forall i, j | 0 <= i < j < |ids| :: ids[i] != ids[j]
  {
    ReapableMeans(t, p, id);
    if Reapworthy(t, p, id) && id !in ids {
      PicksAll(ids, Reapable(t, p), UpdatedAt(t), limit, id);
      forall x | x in ids
        ensures x in t.episodes && t.episodes[x].updatedAt <= t.episodes[id].updatedAt
      {
        assert x in Reapable(t, p);
        assert UpdatedAt(t)(x) <= UpdatedAt(t)(id);
      }
    }
  }

  /** What is left out was left out for want of room. */
  lemma PicksAll(ids: seq<string>, from: set<string>, key: string -> int, limit: int, id: string)
    requires Picks(ids, from, key, limit) && id in from && id !in ids
    ensures |ids| == limit
  {
    var picked := set x | x in ids;
    assert picked <= from - {id};
    assert from == (from - {id}) + {id};
    Collections.CountElements(ids);
    assert Collections.Elements(ids) == picked;
    Collections.SubsetSize(picked, from - {id});
  }

  // ---------------------------------------------------------------------------------------------
  // What becomes of them

  /** Another queued or processing row under the enforcing gate has the hash of this one, which is under it too. */
  ghost predicate HashTaken(t: Tables, id: string) {
    && id in t.episodes && t.episodes[id].gate == Enforce && t.episodes[id].canonicalHash.Some?
    && exists o :: o in t.episodes && o != id && (t.episodes[o].status == Queued || t.episodes[o].status == Processing)
                   && t.episodes[o].gate == Enforce && t.episodes[o].canonicalHash == t.episodes[id].canonicalHash
  }

  /** `b` is `a` back in the queue; a replay also clears its failures. */
  ghost predicate BackInQueue(a: Episode, b: Episode, replay: bool, now: nat) {
    && b.status == Queued && b.enqueuedAt == b.updatedAt == now
    && b.attempts == (if replay then 0 else a.attempts) && b.lastError == (if replay then None else a.lastError)
    && b.startedAt == a.startedAt && b.createdAt == a.createdAt
    && b.payloadHash == a.payloadHash && b.canonicalHash == a.canonicalHash && b.gate == a.gate
  }

  lemma RequeueMeans(t: Tables, id: string, replay: bool, now: nat)
    requires id in t.episodes
    ensures Requeueable(t, id, replay, now) <==> !HashTaken(t, id)
    ensures BackInQueue(t.episodes[id], Requeued(t.episodes[id], replay, now), replay, now)
  {
  }

  /** A reaped row is back in the queue, or as it was because its hash is taken; no other row and no letter changes. */
  lemma ReapMeans(t: Tables, ids: seq<string>, limit: int, p: Policy, now: nat, id: string)
    requires Enabled(t, ReapedFailed(ids, limit, p, now)) && id in t.episodes
    ensures
      var u := Next(t, ReapedFailed(ids, limit, p, now));
      && id in u.episodes && u.deadLetter == t.deadLetter
      && (id !in ids ==> u.episodes[id] == t.episodes[id])
      && (id in ids ==> BackInQueue(t.episodes[id], u.episodes[id], false, now) || (u.episodes[id] == t.episodes[id] && HashTaken(u, id)))
  {
    var u := RequeueAll(t, ids, false, now);
    RequeueDecidesEach(t, ids, false, now);
    LettersStay(t, ids, false, now);
    RequeueMeans(t, id, false, now);
    if id in ids && u.episodes[id] != Requeued(t.episodes[id], false, now) {
      assert RequeuedOrHeld(t, u, id, false, now);
      BlockedMeans(u, id, false, now);
    }
  }

  lemma BlockedMeans(u: Tables, id: string, replay: bool, now: nat)
    requires id in u.episodes && Blocked(u, id, Requeued(u.episodes[id], replay, now))
    ensures HashTaken(u, id)
  {
  }

  lemma {:induction false} LettersStay(t: Tables, ids: seq<string>, reset: bool, now: nat)
    ensures RequeueAll(t, ids, reset, now).deadLetter == t.deadLetter
  {
    if ids != [] {
      LettersStay(t, ids[..|ids| - 1], reset, now);
    }
  }

  /** Without an allowlist no reap touches a row whose error contains a permanent code. */
  lemma PermanentIsNeverReaped(t: Tables, ids: seq<string>, limit: int, p: Policy, now: nat, id: string, code: string)
    requires Enabled(t, ReapedFailed(ids, limit, p, now)) && id in t.episodes
    requires p.allowed == [] && code in p.permanent && t.episodes[id].lastError.Some? && Contains(t.episodes[id].lastError.value, code)
    ensures
      var u := Next(t, ReapedFailed(ids, limit, p, now));
      id in u.episodes && u.episodes[id] == t.episodes[id]
  {
    ReapPicks(t, ids, limit, p, now, id);
    ReapMeans(t, ids, limit, p, now, id);
  }

  // ---------------------------------------------------------------------------------------------
  // Stuck rows

  /** A reap of stuck rows takes exactly those processing since `timeout` or longer. */
  lemma StuckPicks(t: Tables, ids: seq<string>, timeout: int, maxAttempts: int, now: nat, id: string)
    requires Enabled(t, ReapedStuck(ids, timeout, maxAttempts, now))
    ensures id in ids <==> id in t.episodes && t.episodes[id].status == Processing
                           && t.episodes[id].startedAt.Some? && now - t.episodes[id].startedAt.value >= timeout
  {
  }

  /** One failure more; at the ceiling the row is aborted, below it the row goes to the end of the queue. */
  ghost predicate TimedOut(a: Episode, b: Episode, maxAttempts: int, now: nat) {
    && b.attempts == a.attempts + 1 && b.updatedAt == now && b.startedAt == a.startedAt && b.createdAt == a.createdAt
    && b.payloadHash == a.payloadHash && b.canonicalHash == a.canonicalHash && b.gate == a.gate
    && (if a.attempts + 1 >= maxAttempts
        then b.status == Aborted && b.lastError == Some("Processing timeout exceeded") && b.enqueuedAt == a.enqueuedAt
        else b.status == Queued && b.lastError == a.lastError && b.enqueuedAt == now)
  }

  /** The letter of a row that is aborted is a new one; any other is as it was. */
  ghost predicate StuckLetter(t: Tables, u: Tables, id: string, aborted: bool, now: nat) {
    if aborted then id in t.episodes && id in u.deadLetter
                    && u.deadLetter[id] == DeadLetter("Processing timeout exceeded", t.episodes[id].attempts + 1, now, None)
    else (id in u.deadLetter <==> id in t.deadLetter) && (id in t.deadLetter ==> u.deadLetter[id] == t.deadLetter[id])
  }

  lemma OneStuckLetter(t: Tables, u: Tables, last: string, maxAttempts: int, now: nat, id: string)
    requires last in t.episodes && last in u.episodes && u.episodes[last] == t.episodes[last]
    ensures StuckLetter(u, ReapRow(u, last, maxAttempts, now), id, id == last && t.episodes[last].attempts + 1 >= maxAttempts, now)
  {
  }

  lemma {:induction false} StuckLetters(t: Tables, ids: seq<string>, maxAttempts: int, now: nat, id: string)
    requires Sound(t) && forall x | x in ids :: x in t.episodes && t.episodes[x].status == Processing
    requires forall i, j | 0 <= i < j < |ids| :: ids[i] != ids[j]
    ensures StuckLetter(t, ReapRows(t, ids, maxAttempts, now), id, id in ids && t.episodes[id].attempts + 1 >= maxAttempts, now)
  {
    if ids != [] {
      var init, last := ids[..|ids| - 1], ids[|ids| - 1];
      assert ids == init + [last] && last !in init;
      StuckLetters(t, init, maxAttempts, now, id);
      ReapRowsSafe(t, init, maxAttempts, now);
      OneStuckLetter(t, ReapRows(t, init, maxAttempts, now), last, maxAttempts, now, id);
    }
  }

  /** A row that is stuck has timed out, with a letter if it is aborted; the others and their letters stay. */
  lemma StuckMeans(t: Tables, ids: seq<string>, timeout: int, maxAttempts: int, now: nat, id: string)
    requires Sound(t) && Enabled(t, ReapedStuck(ids, timeout, maxAttempts, now)) && id in t.episodes
    ensures
      var u := Next(t, ReapedStuck(ids, timeout, maxAttempts, now));
      && id in u.episodes
      && (if id in ids then TimedOut(t.episodes[id], u.episodes[id], maxAttempts, now) else u.episodes[id] == t.episodes[id])
      && StuckLetter(t, u, id, id in ids && t.episodes[id].attempts + 1 >= maxAttempts, now)
  {
    ReapRowsSafe(t, ids, maxAttempts, now);
    StuckLetters(t, ids, maxAttempts, now, id);
  }

  // ---------------------------------------------------------------------------------------------
  // Claims

  ghost predicate Started(a: Episode, b: Episode, now: nat) {
    && b.status == Processing && b.startedAt == Some(now) && b.updatedAt == now
    && b.attempts == a.attempts && b.lastError == a.lastError && b.enqueuedAt == a.enqueuedAt && b.createdAt == a.createdAt
    && b.payloadHash == a.payloadHash && b.canonicalHash == a.canonicalHash && b.gate == a.gate
  }

  /** A claim takes queued rows, none before one that has been queued longer, and sets them to processing. */
  lemma ClaimMeans(t: Tables, ids: seq<string>, limit: int, now: nat, id: string)
    requires Enabled(t, Claimed(ids, limit, now)) && id in t.episodes
    ensures
      var u, a := Next(t, Claimed(ids, limit, now)), t.episodes[id];
      && id in u.episodes && u.deadLetter == t.deadLetter
      && (id in ids ==> a.status == Queued && Started(a, u.episodes[id], now))
      && (id !in ids ==> u.episodes[id] == a)
      && (id !in ids && a.status == Queued ==>
            |ids| == limit && forall x | x in ids :: x in t.episodes && t.episodes[x].enqueuedAt <= a.enqueuedAt)
  {
    if id !in ids && t.episodes[id].status == Queued {
      PicksAll(ids, WithStatus(t, Queued), EnqueuedAt(t), limit, id);
      forall x | x in ids
        ensures x in t.episodes && t.episodes[x].enqueuedAt <= t.episodes[id].enqueuedAt
      {
        assert x in WithStatus(t, Queued);
        assert EnqueuedAt(t)(x) <= EnqueuedAt(t)(id);
      }
    }
  }

  // ---------------------------------------------------------------------------------------------
  // What the worker writes

  /** The row at the end of an attempt, property by property; `a` is what it was. */
  ghost predicate Ended(a: Episode, b: Episode, status: Status, failures: nat, lastError: Option<string>, now: nat) {
    && b.status == status && b.attempts == a.attempts + failures && b.lastError == lastError && b.updatedAt == now
    && b.enqueuedAt == a.enqueuedAt && b.startedAt == a.startedAt && b.createdAt == a.createdAt
    && b.payloadHash == a.payloadHash && b.canonicalHash == a.canonicalHash && b.gate == a.gate
  }

  /** The letter of a finished episode: closed at the time it finished, if it was open. */
  ghost predicate ClosedIfOpen(a: DeadLetter, b: DeadLetter, now: nat) {
    if a.recovered.None? then LetterClosed(a, b, now) else b == a
  }

  ghost predicate OthersStay(t: Tables, u: Tables, id: string) {
    forall x: string | x != id :: Unchanged(t, u, x)
  }

  lemma DoneMeans(t: Tables, id: string, now: nat)
    requires id in t.episodes
    ensures
      var u := Next(t, MarkedDone(id, now));
      && id in u.episodes && Ended(t.episodes[id], u.episodes[id], Done, 0, t.episodes[id].lastError, now)
      && (id in u.deadLetter <==> id in t.deadLetter) && (id in t.deadLetter ==> ClosedIfOpen(t.deadLetter[id], u.deadLetter[id], now))
      && OthersStay(t, u, id)
  {
  }

  lemma FailedMeans(t: Tables, id: string, error: string, now: nat)
    requires id in t.episodes
    ensures
      var u := Next(t, MarkedFailed(id, error, now));
      && id in u.episodes && Ended(t.episodes[id], u.episodes[id], Failed, 1, Some(error), now)
      && u.deadLetter == t.deadLetter && OthersStay(t, u, id)
  {
  }

  lemma AbortedMeans(t: Tables, id: string, error: string, now: nat)
    requires id in t.episodes
    ensures
      var u := Next(t, MarkedAborted(id, error, now));
      && id in u.episodes && Ended(t.episodes[id], u.episodes[id], Aborted, 1, Some(error), now)
      && id in u.deadLetter && u.deadLetter[id] == DeadLetter(error, t.episodes[id].attempts + 1, now, None)
      && OthersStay(t, u, id)
  {
  }

  lemma SkippedMeans(t: Tables, id: string, existing: string, now: nat)
    requires id in t.episodes
    ensures
      var u := Next(t, MarkedSkipped(id, existing, now));
      && id in u.episodes
      && Ended(t.episodes[id], u.episodes[id], Skipped, 0, Some("skipped: payload already ingested as " + existing), now)
      && u.deadLetter == t.deadLetter && OthersStay(t, u, id)
  {
  }

  /** A checkpoint only touches the time of the row, which every end of an attempt overwrites. */
  lemma TouchMeans(t: Tables, id: string, at: nat)
    requires id in t.episodes
    ensures
      var u := Next(t, Touched(id, at));
      && id in u.episodes && u.episodes[id] == t.episodes[id].(updatedAt := at) && u.deadLetter == t.deadLetter && OthersStay(t, u, id)
  {
  }

  lemma OthersStayTwice(t: Tables, u: Tables, v: Tables, id: string)
    requires OthersStay(t, u, id) && OthersStay(u, v, id)
    ensures OthersStay(t, v, id)
  {
    forall x: string | x != id
      ensures Unchanged(t, v, x)
    {
      assert Unchanged(t, u, x) && Unchanged(u, v, x);
    }
  }

  // ---------------------------------------------------------------------------------------------
  // Replays

  /** The letter is closed at `now`, and says nothing else than it did. */
  ghost predicate LetterClosed(a: DeadLetter, b: DeadLetter, now: nat) {
    b.lastError == a.lastError && b.attempts == a.attempts && b.failedAt == a.failedAt && b.recovered == Some(Recovery(now, a.attempts))
  }

  /** A manual replay goes through exactly when there is a letter whose text the policy permits and no hash is taken. */
  lemma ReplayableMeans(t: Tables, id: string, p: Policy, now: nat)
    ensures Replayable(t, id, p, now) <==>
      id in t.deadLetter && TextPermits(p, t.deadLetter[id].lastError) && !HashTaken(t, id)
  {
    if id in t.deadLetter {
      AllowsMeans(p, Some(t.deadLetter[id].lastError));
      if id in t.episodes {
        RequeueMeans(t, id, true, now);
      }
    }
  }

  /** Then the episode, if there is one, is back in the queue and its letter closed; nothing else ever changes. */
  lemma ReplayMeans(t: Tables, id: string, p: Policy, now: nat)
    ensures
      var u := Next(t, Replayed(id, p, now));
      if id in t.deadLetter && TextPermits(p, t.deadLetter[id].lastError) && !HashTaken(t, id) then
        && u.deadLetter.Keys == t.deadLetter.Keys && LetterClosed(t.deadLetter[id], u.deadLetter[id], now)
        && u.episodes.Keys == t.episodes.Keys && (id in t.episodes ==> BackInQueue(t.episodes[id], u.episodes[id], true, now))
        && (forall x | x in t.deadLetter && x != id :: u.deadLetter[x] == t.deadLetter[x])
        && (forall x | x in t.episodes && x != id :: u.episodes[x] == t.episodes[x])
      else u == t
  {
    ReplayableMeans(t, id, p, now);
    if id in t.episodes {
      RequeueMeans(t, id, true, now);
    }
  }

  /** Selected, open, and permitted by its text. */
  ghost predicate Replayworthy(t: Tables, selected: DeadLetter -> bool, p: Policy, id: string) {
    && id in t.deadLetter && t.deadLetter[id].recovered.None? && selected(t.deadLetter[id])
    && TextPermits(p, t.deadLetter[id].lastError)
  }

  /** A batch takes exactly these letters, or as many of the oldest as it may. */
  lemma BatchPicks(t: Tables, ids: seq<string>, limit: int, selected: DeadLetter -> bool, p: Policy, now: nat, id: string)
    requires Enabled(t, ReplayedBatch(ids, limit, selected, p, now))
    ensures id in ids ==> Replayworthy(t, selected, p, id)
    ensures Replayworthy(t, selected, p, id) && id !in ids ==>
      |ids| == limit && forall x | x in ids :: x in t.deadLetter && t.deadLetter[x].failedAt <= t.deadLetter[id].failedAt
    ensures limit < 0 || |ids| < limit ==> (id in ids <==> Replayworthy(t, selected, p, id))
  {
    if id in t.deadLetter {
      AllowsMeans(p, Some(t.deadLetter[id].lastError));
    }
    assert id in OpenLetters(t, selected, p) <==> Replayworthy(t, selected, p, id);
    if Replayworthy(t, selected, p, id) && id !in ids {
      PicksAll(ids, OpenLetters(t, selected, p), FailedAt(t), limit, id);
      forall x | x in ids
        ensures x in t.deadLetter && t.deadLetter[x].failedAt <= t.deadLetter[id].failedAt
      {
        assert x in OpenLetters(t, selected, p);
        assert FailedAt(t)(x) <= FailedAt(t)(id);
      }
    }
  }

  /** One letter of a batch: a missing or finished episode only has it closed, any other goes back unless its hash is taken. */
  ghost predicate BatchRow(t: Tables, u: Tables, id: string, now: nat) {
    && id in t.deadLetter && id in u.deadLetter && (id in u.episodes <==> id in t.episodes)
    && (id !in t.episodes || t.episodes[id].status == Done ==>
          LetterClosed(t.deadLetter[id], u.deadLetter[id], now) && (id in t.episodes ==> u.episodes[id] == t.episodes[id]))
    && (id in t.episodes && t.episodes[id].status != Done ==>
          || (LetterClosed(t.deadLetter[id], u.deadLetter[id], now) && BackInQueue(t.episodes[id], u.episodes[id], true, now))
          || (u.deadLetter[id] == t.deadLetter[id] && u.episodes[id] == t.episodes[id] && HashTaken(u, id)))
  }

  /** Row and letter of `id` are those of before. */
  ghost predicate Unchanged(t: Tables, u: Tables, id: string) {
    && (id in u.episodes <==> id in t.episodes) && (id in t.episodes ==> u.episodes[id] == t.episodes[id])
    && (id in u.deadLetter <==> id in t.deadLetter) && (id in t.deadLetter ==> u.deadLetter[id] == t.deadLetter[id])
  }

  lemma ReplayGuardedMeans(t: Tables, id: string, now: nat, other: string)
    ensures other != id ==> Unchanged(t, ReplayGuarded(t, id, now), other)
    ensures id in t.deadLetter ==> BatchRow(t, ReplayGuarded(t, id, now), id, now)
    ensures HashTaken(t, other) && other != id ==> HashTaken(ReplayGuarded(t, id, now), other)
  {
    if id in t.episodes {
      RequeueMeans(t, id, true, now);
    }
    if HashTaken(t, other) && other != id {
      HolderStays(t, id, now, other);
    }
  }

  lemma HolderStays(t: Tables, id: string, now: nat, other: string)
    requires HashTaken(t, other) && other != id
    ensures HashTaken(ReplayGuarded(t, id, now), other)
  {
    var o :| o in t.episodes && o != other && (t.episodes[o].status == Queued || t.episodes[o].status == Processing)
             && t.episodes[o].gate == Enforce && t.episodes[o].canonicalHash == t.episodes[other].canonicalHash;
    var u := ReplayGuarded(t, id, now);
    assert o in u.episodes && (u.episodes[o].status == Queued || u.episodes[o].status == Processing);
    assert u.episodes[o].gate == Enforce && u.episodes[o].canonicalHash == t.episodes[o].canonicalHash;
    assert u.episodes[other] == t.episodes[other];
  }

  lemma BatchRowStays(t: Tables, u: Tables, v: Tables, id: string, now: nat)
    requires BatchRow(t, u, id, now) && Unchanged(u, v, id) && (HashTaken(u, id) ==> HashTaken(v, id))
    ensures BatchRow(t, v, id, now)
  {
  }

  lemma {:induction false} BatchDecidesEach(t: Tables, ids: seq<string>, now: nat, id: string)
    requires (forall x | x in ids :: x in t.deadLetter) && forall i, j | 0 <= i < j < |ids| :: ids[i] != ids[j]
    ensures id !in ids ==> Unchanged(t, ReplayAll(t, ids, now), id)
    ensures id in ids ==> BatchRow(t, ReplayAll(t, ids, now), id, now)
  {
    if ids != [] {
      var init, last := ids[..|ids| - 1], ids[|ids| - 1];
      assert ids == init + [last] && last !in init;
      BatchDecidesEach(t, init, now, id);
      var u := ReplayAll(t, init, now);
      BatchDecidesEach(t, init, now, last);
      ReplayGuardedMeans(u, last, now, id);
      if id == last {
        SameRowSameBatch(t, u, ReplayAll(t, ids, now), id, now);
      } else if id in init {
        BatchRowStays(t, u, ReplayAll(t, ids, now), id, now);
      }
    }
  }

  lemma SameRowSameBatch(t: Tables, u: Tables, v: Tables, id: string, now: nat)
    requires Unchanged(t, u, id) && BatchRow(u, v, id, now)
    ensures BatchRow(t, v, id, now)
  {
  }

  /** What a batch makes of each letter it takes and of its episode; all others stay. */
  lemma BatchMeans(t: Tables, ids: seq<string>, limit: int, selected: DeadLetter -> bool, p: Policy, now: nat, id: string)
    requires Enabled(t, ReplayedBatch(ids, limit, selected, p, now))
    ensures
      var u := Next(t, ReplayedBatch(ids, limit, selected, p, now));
      if id in ids then BatchRow(t, u, id, now) else Unchanged(t, u, id)
  {
    BatchDecidesEach(t, ids, now, id);
  }

  /** Without an allowlist neither replay touches an episode whose letter contains a permanent code. */
  lemma PermanentIsNeverReplayed(t: Tables, ids: seq<string>, limit: int, selected: DeadLetter -> bool, p: Policy, now: nat,
                                 id: string, code: string)
    requires id in t.deadLetter && p.allowed == [] && code in p.permanent && Contains(t.deadLetter[id].lastError, code)
    ensures Next(t, Replayed(id, p, now)) == t
    ensures Enabled(t, ReplayedBatch(ids, limit, selected, p, now)) ==>
      Unchanged(t, Next(t, ReplayedBatch(ids, limit, selected, p, now)), id)
  {
    ReplayMeans(t, id, p, now);
    if Enabled(t, ReplayedBatch(ids, limit, selected, p, now)) {
      BatchPicks(t, ids, limit, selected, p, now, id);
      BatchMeans(t, ids, limit, selected, p, now, id);
    }
  }
}
