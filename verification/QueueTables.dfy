/** The two tables of the episode queue, the statements that change them, and what they promise. */
module QueueTables {
  import opened Options
  import opened Similarity

  datatype Status = Queued | Processing | Done | Failed | Aborted | Skipped

  /** Under which gate a row was written; rows from before the gate carry none. */
  datatype Gate = Ungated | Off | Observe | Enforce

  datatype Episode = Episode(
    status: Status,
    attempts: nat,
    enqueuedAt: nat,
    startedAt: Option<nat>,
    updatedAt: nat,
    createdAt: nat,
    lastError: Option<string>,
    payloadHash: Option<string>,
    canonicalHash: Option<string>,
    gate: Gate)

  datatype Recovery = Recovery(at: nat, attempts: nat)

  datatype DeadLetter = DeadLetter(lastError: string, attempts: nat, failedAt: nat, recovered: Option<Recovery>)

  datatype Tables = Tables(episodes: map<string, Episode>, deadLetter: map<string, DeadLetter>)

  // ---------------------------------------------------------------------------------------------
  // The partial UNIQUE index

  predicate Active(s: Status) {
    s == Queued || s == Processing
  }

  predicate Covered(e: Episode) {
    e.canonicalHash.Some? && e.gate == Enforce && Active(e.status)
  }

  /** Writing `e` under `id` would put a second row with its hash under the index. */
  predicate Blocked(t: Tables, id: string, e: Episode) {
    Covered(e) && exists o | o in t.episodes :: o != id && Covered(t.episodes[o]) && t.episodes[o].canonicalHash == e.canonicalHash
  }

  ghost predicate IndexHolds(t: Tables) {
    forall a, b | a in t.episodes && b in t.episodes && Covered(t.episodes[a]) && Covered(t.episodes[b])
                  && t.episodes[a].canonicalHash == t.episodes[b].canonicalHash :: a == b
  }

  function Put(t: Tables, id: string, e: Episode): Tables {
    t.(episodes := t.episodes[id := e])
  }

  lemma PutKeepsIndex(t: Tables, id: string, e: Episode)
    requires IndexHolds(t) && !Blocked(t, id, e)
    ensures IndexHolds(Put(t, id, e))
  {
  }

  /** Exactly the blocked writes would break the index. */
  lemma BlockedIff(t: Tables, id: string, e: Episode)
    requires IndexHolds(t)
    ensures Blocked(t, id, e) <==> !IndexHolds(Put(t, id, e))
  {
    var u := Put(t, id, e);
    if Blocked(t, id, e) {
      var o :| o in t.episodes && o != id && Covered(t.episodes[o]) && t.episodes[o].canonicalHash == e.canonicalHash;
      assert u.episodes[o] == t.episodes[o] && u.episodes[id] == e;
    }
  }

  /** An active row is already under the index, so rewriting it as an active row cannot be blocked. */
  lemma ActiveIsNotBlocked(t: Tables, id: string, e: Episode)
    requires IndexHolds(t) && id in t.episodes && Active(t.episodes[id].status)
    requires e.canonicalHash == t.episodes[id].canonicalHash && e.gate == t.episodes[id].gate
    ensures !Blocked(t, id, e)
  {
  }

  // ---------------------------------------------------------------------------------------------
  // Dead letters

  predicate OpenLetter(t: Tables, id: string) {
    id in t.deadLetter && t.deadLetter[id].recovered.None?
  }

  /** The index holds, every aborted episode has an open dead letter, and no finished one has. */
  ghost predicate Sound(t: Tables) {
    && IndexHolds(t)
    && (forall id | id in t.episodes && t.episodes[id].status == Aborted :: OpenLetter(t, id))
    && (forall id | id in t.episodes && t.episodes[id].status == Done :: !OpenLetter(t, id))
  }

  function Close(t: Tables, id: string, now: nat): Tables {
    if id in t.deadLetter
    then t.(deadLetter := t.deadLetter[id := t.deadLetter[id].(recovered := Some(Recovery(now, t.deadLetter[id].attempts)))])
    else t
  }

  // ---------------------------------------------------------------------------------------------
  // What the worker writes

  function MarkDone(t: Tables, id: string, now: nat): Tables {
    var u := if id in t.episodes then Put(t, id, t.episodes[id].(status := Done, updatedAt := now)) else t;
    if OpenLetter(t, id) then Close(u, id, now) else u
  }

  function MarkFailed(t: Tables, id: string, error: string, now: nat): Tables {
    if id in t.episodes
    then Put(t, id, t.episodes[id].(status := Failed, attempts := t.episodes[id].attempts + 1, lastError := Some(error), updatedAt := now))
    else t
  }

  /** A dead letter is written even for an id that has no row. */
  function MarkAborted(t: Tables, id: string, error: string, now: nat): Tables {
    var attempts := (if id in t.episodes then t.episodes[id].attempts else 0) + 1;
    var u := if id in t.episodes
             then Put(t, id, t.episodes[id].(status := Aborted, attempts := attempts, lastError := Some(error), updatedAt := now))
             else t;
    u.(deadLetter := u.deadLetter[id := DeadLetter(error, attempts, now, None)])
  }

  function MarkSkipped(t: Tables, id: string, existing: string, now: nat): Tables {
    if id in t.episodes
    then Put(t, id, t.episodes[id].(status := Skipped, updatedAt := now, lastError := Some("skipped: payload already ingested as " + existing)))
    else t
  }

  function Touch(t: Tables, id: string, now: nat): Tables {
    if id in t.episodes then Put(t, id, t.episodes[id].(updatedAt := now)) else t
  }

  function Fresh(hash: string, gate: Gate, now: nat): Episode {
    Episode(Queued, 0, now, None, now, now, None, if gate == Off then None else Some(hash), Some(hash), gate)
  }

  /** Both writers' INSERT fails on a taken id as it does on the index. */
  predicate Refused(t: Tables, id: string, e: Episode) {
    id in t.episodes || Blocked(t, id, e)
  }

  function Claim(t: Tables, ids: set<string>, now: nat): Tables {
    t.(episodes := map id | id in t.episodes ::
      if id in ids then t.episodes[id].(status := Processing, startedAt := Some(now), updatedAt := now) else t.episodes[id])
  }

  // ---------------------------------------------------------------------------------------------
  // Reaping stuck rows

  const TIMEOUT_ERROR := "Processing timeout exceeded"

  predicate Stuck(e: Episode, timeout: int, now: nat) {
    e.status == Processing && e.startedAt.Some? && now - e.startedAt.value >= timeout
  }

  function Reaped(e: Episode, maxAttempts: int, now: nat): Episode {
    if e.attempts + 1 >= maxAttempts
    then e.(status := Aborted, attempts := e.attempts + 1, lastError := Some(TIMEOUT_ERROR), updatedAt := now)
    else e.(status := Queued, attempts := e.attempts + 1, enqueuedAt := now, updatedAt := now)
  }

  function ReapRow(t: Tables, id: string, maxAttempts: int, now: nat): Tables
    requires id in t.episodes
  {
    var e := Reaped(t.episodes[id], maxAttempts, now);
    var u := Put(t, id, e);
    if e.status == Aborted then u.(deadLetter := u.deadLetter[id := DeadLetter(TIMEOUT_ERROR, e.attempts, now, None)]) else u
  }

  /** Every row of `ids` reaped, in their order. */
  function ReapRows(t: Tables, ids: seq<string>, maxAttempts: int, now: nat): Tables {
    if ids == [] then t
    else
      var u := ReapRows(t, ids[..|ids| - 1], maxAttempts, now);
      var id := ids[|ids| - 1];
      if id in u.episodes then ReapRow(u, id, maxAttempts, now) else u
  }

  // ---------------------------------------------------------------------------------------------
  // The shared retry policy

  datatype Policy = Policy(permanent: seq<string>, allowed: seq<string>, reapLimit: int, respectCeiling: bool, maxAttempts: int)

  /** `instr(lower(text), lower(code)) > 0`. */
  predicate Mentions(text: string, code: string) {
    exists i: nat | i <= |text| :: OccursAt(LowerAll(text), LowerAll(code), i)
  }

  predicate OccursAt(text: string, code: string, i: nat) {
    i + |code| <= |text| && text[i..i + |code|] == code
  }

  /** A row without an error text is never held back; an allowlist replaces the denylist, and all its codes must match. */
  predicate Allows(p: Policy, error: Option<string>) {
    error.None?
    || if p.allowed != [] then forall c | c in p.allowed :: Mentions(error.value, c)
       else forall c | c in p.permanent :: !Mentions(error.value, c)
  }

  // ---------------------------------------------------------------------------------------------
  // Requeueing

  /** `reset` is what a replay adds: a fresh attempt count and no error. */
  function Requeued(e: Episode, reset: bool, now: nat): Episode {
    var r := e.(status := Queued, enqueuedAt := now, updatedAt := now);
    if reset then r.(attempts := 0, lastError := None) else r
  }

  /** The UPDATE passes the index; on an id without a row it passes and changes nothing. */
  predicate Requeueable(t: Tables, id: string, reset: bool, now: nat) {
    id !in t.episodes || !Blocked(t, id, Requeued(t.episodes[id], reset, now))
  }

  function Requeue(t: Tables, id: string, reset: bool, now: nat): Tables {
    if id in t.episodes && Requeueable(t, id, reset, now) then Put(t, id, Requeued(t.episodes[id], reset, now)) else t
  }

  function RequeueAll(t: Tables, ids: seq<string>, reset: bool, now: nat): Tables {
    if ids == [] then t
    else Requeue(RequeueAll(t, ids[..|ids| - 1], reset, now), ids[|ids| - 1], reset, now)
  }

  predicate OwnedByReaper(t: Tables, id: string, p: Policy) {
    && id in t.episodes && (t.episodes[id].status == Failed || t.episodes[id].status == Aborted)
    && Allows(p, t.episodes[id].lastError)
    && (p.respectCeiling ==> t.episodes[id].attempts < p.maxAttempts)
    && !(t.episodes[id].status == Failed && OpenLetter(t, id))
  }

  function Reapable(t: Tables, p: Policy): set<string> {
    set id | id in t.episodes && OwnedByReaper(t, id, p)
  }

  /** `LIMIT`: negative means none. */
  function Cap(limit: int, n: nat): nat {
    if 0 <= limit < n then limit else n
  }

  /** `ORDER BY key LIMIT limit`: the lowest keys in order, ties broken however the engine likes. */
  ghost predicate Picks(ids: seq<string>, from: set<string>, key: string -> int, limit: int) {
    && |ids| == Cap(limit, |from|)
    && (forall i, j | 0 <= i < j < |ids| :: ids[i] != ids[j] && key(ids[i]) <= key(ids[j]))
    && (forall id | id in ids :: id in from)
    && (forall id, other | id in ids && other in from && other !in ids :: key(id) <= key(other))
  }

  function UpdatedAt(t: Tables): string -> int {
    (id: string) => if id in t.episodes then t.episodes[id].updatedAt else 0
  }

  function EnqueuedAt(t: Tables): string -> int {
    (id: string) => if id in t.episodes then t.episodes[id].enqueuedAt else 0
  }

  function FailedAt(t: Tables): string -> int {
    (id: string) => if id in t.deadLetter then t.deadLetter[id].failedAt else 0
  }

  function WithStatus(t: Tables, s: Status): set<string> {
    set id | id in t.episodes && t.episodes[id].status == s
  }

  // ---------------------------------------------------------------------------------------------
  // Replays

  predicate Replayable(t: Tables, id: string, p: Policy, now: nat) {
    id in t.deadLetter && Allows(p, Some(t.deadLetter[id].lastError)) && Requeueable(t, id, true, now)
  }

  function Replay(t: Tables, id: string, p: Policy, now: nat): Tables {
    if Replayable(t, id, p, now) then Close(Requeue(t, id, true, now), id, now) else t
  }

  /** `selected` is the caller's narrowing by error class and age. */
  function OpenLetters(t: Tables, selected: DeadLetter -> bool, p: Policy): set<string> {
    set id | id in t.deadLetter && OpenLetter(t, id) && selected(t.deadLetter[id]) && Allows(p, Some(t.deadLetter[id].lastError))
  }

  /** A finished or missing episode only has its letter closed. */
  function ReplayGuarded(t: Tables, id: string, now: nat): Tables {
    if id !in t.episodes || t.episodes[id].status == Done then Close(t, id, now)
    else if Requeueable(t, id, true, now) then Close(Requeue(t, id, true, now), id, now)
    else t
  }

  function ReplayAll(t: Tables, ids: seq<string>, now: nat): Tables {
    if ids == [] then t else ReplayGuarded(ReplayAll(t, ids[..|ids| - 1], now), ids[|ids| - 1], now)
  }
}
