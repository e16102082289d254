/** One claimed episode: whatever ingestion does, its row leaves `processing`. */
module Worker {
  import opened Options
  import opened QueueTables
  import opened QueueSteps
  import opened QueueMeaning
  import opened EpisodeQueue

  /** How an attempt ended; `fatal` marks the exceptions no retry can mend. */
  datatype Attempt = Blank | Ingested | Failing(fatal: bool, error: string)

  predicate ShouldRetry(attempts: nat, fatal: bool, maxAttempts: int) {
    attempts + 1 < maxAttempts && !fatal
  }

  /** How an attempt at the record ends, told by the tables before and after. */
  ghost predicate Handled(t: Tables, u: Tables, id: string, attempts: nat, ingestedAs: Option<string>, attempt: Attempt, maxAttempts: int,
                          now: nat)
    requires id in t.episodes
  {
    && id in u.episodes && OthersStay(t, u, id)
    && var a, b := t.episodes[id], u.episodes[id];
       if ingestedAs.Some? && ingestedAs.value != id then
         Ended(a, b, Skipped, 0, Some("skipped: payload already ingested as " + ingestedAs.value), now) && u.deadLetter == t.deadLetter
       else if !attempt.Failing? then
         && Ended(a, b, Done, 0, a.lastError, now) && (id in u.deadLetter <==> id in t.deadLetter)
         && (id in t.deadLetter ==> ClosedIfOpen(t.deadLetter[id], u.deadLetter[id], now))
       else if !attempt.fatal && attempts + 1 < maxAttempts then
         Ended(a, b, Failed, 1, Some(attempt.error), now) && u.deadLetter == t.deadLetter
       else
         && Ended(a, b, Aborted, 1, Some(attempt.error), now)
         && id in u.deadLetter && u.deadLetter[id] == DeadLetter(attempt.error, a.attempts + 1, now, None)
  }

  lemma IngestedIsHandled(t: Tables, id: string, attempts: nat, ingestedAs: Option<string>, maxAttempts: int, checkpointAt: nat, now: nat)
    requires id in t.episodes && !(ingestedAs.Some? && ingestedAs.value != id)
    ensures Handled(t, Next(Next(t, Touched(id, checkpointAt)), MarkedDone(id, now)), id, attempts, ingestedAs, Ingested, maxAttempts, now)
  {
    var touched := Next(t, Touched(id, checkpointAt));
    TouchMeans(t, id, checkpointAt);
    DoneMeans(touched, id, now);
    OthersStayTwice(t, touched, Next(touched, MarkedDone(id, now)), id);
  }

  lemma FailingIsHandled(t: Tables, id: string, attempts: nat, ingestedAs: Option<string>, attempt: Attempt, maxAttempts: int,
                         checkpointAt: nat, now: nat)
    requires id in t.episodes && attempt.Failing? && !(ingestedAs.Some? && ingestedAs.value != id)
    ensures
      var touched := Next(t, Touched(id, checkpointAt));
      Handled(t, if ShouldRetry(attempts, attempt.fatal, maxAttempts) then Next(touched, MarkedFailed(id, attempt.error, now))
                 else Next(touched, MarkedAborted(id, attempt.error, now)), id, attempts, ingestedAs, attempt, maxAttempts, now)
  {
    var touched := Next(t, Touched(id, checkpointAt));
    TouchMeans(t, id, checkpointAt);
    FailedMeans(touched, id, attempt.error, now);
    AbortedMeans(touched, id, attempt.error, now);
    OthersStayTwice(t, touched, Next(touched, MarkedFailed(id, attempt.error, now)), id);
    OthersStayTwice(t, touched, Next(touched, MarkedAborted(id, attempt.error, now)), id);
  }

  /**
   Ends one attempt at the claimed record, whose row had `attempts` failures when it was claimed. Whatever
   has become of the row since, it ends skipped when its payload is in the graph under another id; done
   when there was nothing to ingest or it was ingested; failed when the failure can be mended and the
   ceiling is not reached by the attempts of the record; and aborted, with a letter, otherwise.
   */
  method ProcessRecord(q: Queue, id: string, attempts: nat, ingestedAs: Option<string>, attempt: Attempt, maxAttempts: int,
                       checkpointAt: nat, now: nat) returns (ok: bool)
    requires q.Valid() && id in q.episodes
    modifies q
    ensures q.Valid() && id in q.episodes && !Active(q.episodes[id].status)
    ensures ok <==> (ingestedAs.Some? && ingestedAs.value != id) || !attempt.Failing?
    ensures q.episodes[id].status == Skipped <==> ingestedAs.Some? && ingestedAs.value != id
    ensures q.episodes[id].status == Done <==> ok && !(ingestedAs.Some? && ingestedAs.value != id)
    ensures q.episodes[id].status == Failed <==> !ok && !attempt.fatal && attempts + 1 < maxAttempts
    ensures q.episodes[id].status == Aborted <==> !ok && (attempt.fatal || attempts + 1 >= maxAttempts)
    ensures Handled(old(q.Contents()), q.Contents(), id, attempts, ingestedAs, attempt, maxAttempts, now)
  {
    ghost var t := q.Contents();
    if ingestedAs.Some? && ingestedAs.value != id {
      SkippedMeans(t, id, ingestedAs.value, now);
      q.MarkAsSkipped(id, ingestedAs.value, now);
      return true;
    }
    if attempt.Blank? {
      DoneMeans(t, id, now);
      q.MarkAsDone(id, now);
      return true;
    }
    q.UpdateCheckpoint(id, checkpointAt);
    if attempt.Ingested? {
      IngestedIsHandled(t, id, attempts, ingestedAs, maxAttempts, checkpointAt, now);
      q.MarkAsDone(id, now);
      return true;
    }
    FailingIsHandled(t, id, attempts, ingestedAs, attempt, maxAttempts, checkpointAt, now);
    if ShouldRetry(attempts, attempt.fatal, maxAttempts) {
      q.MarkAsFailed(id, attempt.error, now);
    } else {
      q.MarkAsAborted(id, attempt.error, now);
    }
    return false;
  }
}
