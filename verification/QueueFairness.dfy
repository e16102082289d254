/** No eligible row waits for ever while few are held back. */
module QueueFairness {
  import opened Collections
  import opened QueueTables
  import opened QueueSteps

  // ---------------------------------------------------------------------------------------------
  // Time

  /** Everything on record was written before `now`. */
  ghost predicate Past(t: Tables, now: nat) {
    forall id | id in t.episodes ::
      t.episodes[id].updatedAt < now && (t.episodes[id].status == Queued ==> t.episodes[id].enqueuedAt < now)
  }

  ghost predicate Ticks(ts: seq<Tables>, evs: seq<Event>) {
    && Run(ts, evs) && Sound(ts[0])
    && (forall i, j | 0 <= i < j < |evs| :: evs[i].now < evs[j].now)
    && (evs != [] ==> Past(ts[0], evs[0].now))
  }

  lemma {:induction false} AlwaysPast(ts: seq<Tables>, evs: seq<Event>, i: nat)
    requires Ticks(ts, evs) && i < |evs|
    ensures Sound(ts[i]) && Past(ts[i], evs[i].now) && Enabled(ts[i], evs[i]) && ts[i + 1] == Next(ts[i], evs[i])
  {
    RunsAreSound(ts, evs, i);
    if i > 0 {
      AlwaysPast(ts, evs, i - 1);
      StepSafe(ts[i - 1], evs[i - 1]);
      assert evs[i - 1].now < evs[i].now;
    }
  }

  // ---------------------------------------------------------------------------------------------
  // Counting turns

  /** Turns among the first `n` steps. */
  function Turns(turn: nat -> bool, n: nat): nat {
    if n == 0 then 0 else Turns(turn, n - 1) + if turn(n - 1) then 1 else 0
  }

  ghost predicate DrainsAt(ahead: nat -> set<string>, turn: nat -> bool, m: nat, i: nat) {
    ahead(i + 1) <= ahead(i) && (turn(i) ==> |ahead(i + 1)| + m <= |ahead(i)|)
  }

  lemma {:induction false} TurnsDrain(ahead: nat -> set<string>, turn: nat -> bool, m: nat, n: nat)
    requires forall i: nat | i < n :: DrainsAt(ahead, turn, m, i)
    ensures Turns(turn, n) * m + |ahead(n)| <= |ahead(0)|
  {
    if n > 0 {
      TurnsDrain(ahead, turn, m, n - 1);
      assert DrainsAt(ahead, turn, m, n - 1);
      SubsetSize(ahead(n), ahead(n - 1));
      OneMore(Turns(turn, n - 1), m);
    }
  }

  lemma OneMore(x: nat, m: nat)
    ensures (x + 1) * m == x * m + m
  {
  }

  /** A set that never grows, and loses at least `m` at every turn, limits the number of turns. */
  lemma FewTurns(ahead: nat -> set<string>, turn: nat -> bool, m: nat, n: nat)
    requires m > 0 && forall i: nat | i < n :: DrainsAt(ahead, turn, m, i)
    ensures Turns(turn, n) <= |ahead(0)| / m
  {
    TurnsDrain(ahead, turn, m, n);
    Quotient(Turns(turn, n), m, |ahead(0)|);
  }

  lemma Quotient(turns: nat, m: nat, a: nat)
    requires turns * m <= a && m > 0
    ensures turns <= a / m
  {
    assert a == a / m * m + a % m;
    Monotone(a / m + 1, turns, m);
  }

  lemma Monotone(x: nat, y: nat, m: nat)
    ensures x <= y ==> x * m <= y * m
  {
  }

  /** A pick that leaves out an item is full, and picks nothing that ranks behind it. */
  lemma PickPassesOver(ids: seq<string>, from: set<string>, key: string -> int, limit: int, r: string)
    requires Picks(ids, from, key, limit) && limit > 0 && r in from && r !in ids
    ensures |Elements(ids)| == limit && forall id | id in ids :: id in from && key(id) <= key(r)
  {
    CountElements(ids);
    if |ids| == |from| {
      SameSize(Elements(ids), from);
    }
  }

  lemma SameSize(a: set<string>, b: set<string>)
    requires a <= b && |a| == |b|
    ensures a == b
  {
    assert b == a + (b - a);
  }

  // ---------------------------------------------------------------------------------------------
  // Reaping failed rows

  /** The other eligible rows that are not behind `r`. */
  ghost function Ahead(t: Tables, p: Policy, r: string): set<string> {
    set x | x in Reapable(t, p) && x != r && UpdatedAt(t)(x) <= UpdatedAt(t)(r)
  }

  ghost predicate SameRow(a: Tables, b: Tables, r: string) {
    r in a.episodes && r in b.episodes && a.episodes[r] == b.episodes[r]
  }

  lemma NoneOvertakes(t: Tables, ev: Event, p: Policy, r: string)
    requires Sound(t) && Past(t, ev.now) && Enabled(t, ev) && SameRow(t, Next(t, ev), r)
    ensures Ahead(Next(t, ev), p, r) <= Ahead(t, p, r)
  {
    StepSafe(t, ev);
    var u := Next(t, ev);
    forall x | x in Ahead(u, p, r)
      ensures x in Ahead(t, p, r)
    {
      assert u.episodes[x].updatedAt < ev.now;
      assert x in t.episodes && t.episodes[x] == u.episodes[x];
    }
  }

  /** Queueing the row would put a second one with its hash under the index. */
  predicate KeptOut(t: Tables, id: string, now: nat) {
    id in t.episodes && Blocked(t, id, Requeued(t.episodes[id], false, now))
  }

  /** Rows a reap picked and the index held back: another row is under it with their hash. */
  ghost function HeldBack(t: Tables, ev: Event): set<string>
    requires ev.ReapedFailed?
  {
    set id | id in ev.ids && KeptOut(Next(t, ev), id, ev.now)
  }

  /** Exactly the picked rows the index holds back are left as they were. */
  lemma HeldBackIff(t: Tables, ev: Event, id: string)
    requires Sound(t) && ev.ReapedFailed? && Enabled(t, ev) && id in ev.ids
    ensures id in HeldBack(t, ev) <==> SameRow(t, Next(t, ev), id)
  {
    RequeueDecidesEach(t, ev.ids, false, ev.now);
    StepSafe(t, ev);
    var u := Next(t, ev);
    assert id in Reapable(t, ev.policy);
    assert RequeuedOrHeld(t, u, id, false, ev.now);
    if u.episodes[id] == Requeued(t.episodes[id], false, ev.now) {
      ActiveIsNotBlocked(u, id, Requeued(u.episodes[id], false, ev.now));
    }
  }

  ghost predicate ReapsWith(ev: Event, p: Policy, limit: nat) {
    ev.ReapedFailed? && ev.policy == p && ev.limit == limit
  }

  /** A reap that passes over `r` moves every row it requeues from before `r` to behind it. */
  lemma ReapDrains(t: Tables, ev: Event, p: Policy, limit: nat, held: nat, r: string)
    requires Sound(t) && Past(t, ev.now) && Enabled(t, ev) && ReapsWith(ev, p, limit)
    requires r in Reapable(t, p) && r !in ev.ids && held < limit && |HeldBack(t, ev)| <= held
    ensures |Ahead(Next(t, ev), p, r)| + (limit - held) <= |Ahead(t, p, r)|
  {
    PickPassesOver(ev.ids, Reapable(t, p), UpdatedAt(t), limit, r);
    PassedOver(t, ev, p, limit, r);
    NoneOvertakes(t, ev, p, r);
    var moved := Elements(ev.ids) - HeldBack(t, ev);
    AllButFew(Elements(ev.ids), HeldBack(t, ev), limit, held);
    forall id | id in moved
      ensures id in Ahead(t, p, r) && id !in Ahead(Next(t, ev), p, r)
    {
      MovedLeaves(t, ev, p, id);
    }
    Lost(Ahead(Next(t, ev), p, r), Ahead(t, p, r), moved);
  }

  lemma AllButFew(picked: set<string>, back: set<string>, limit: nat, held: nat)
    requires |picked| == limit && |back| <= held && back <= picked
    ensures |picked - back| >= limit - held
  {
    assert picked == (picked - back) + back;
  }

  lemma MovedLeaves(t: Tables, ev: Event, p: Policy, id: string)
    requires Enabled(t, ev) && ev.ReapedFailed? && ev.policy == p && id in ev.ids && id !in HeldBack(t, ev)
    ensures id in t.episodes && id !in Reapable(Next(t, ev), p)
  {
    RequeueDecidesEach(t, ev.ids, false, ev.now);
    assert id in t.episodes && RequeuedOrHeld(t, Next(t, ev), id, false, ev.now);
  }

  lemma Lost(after: set<string>, before: set<string>, gone: set<string>)
    requires after <= before && gone <= before && after !! gone
    ensures |after| + |gone| <= |before|
  {
    SubsetSize(after + gone, before);
  }

  ghost function AheadOver(ts: seq<Tables>, p: Policy, r: string): nat -> set<string> {
    (i: nat) => if i < |ts| then Ahead(ts[i], p, r) else {}
  }

  ghost function ReapAt(evs: seq<Event>, p: Policy, limit: nat): nat -> bool {
    (i: nat) => i < |evs| && ReapsWith(evs[i], p, limit)
  }

  /** `r` is eligible before every change of the run, and none of them writes it. */
  ghost predicate WaitsForReap(ts: seq<Tables>, evs: seq<Event>, p: Policy, r: string) {
    |ts| == |evs| + 1 && forall i | 0 <= i < |evs| :: WaitsAt(ts, p, r, i)
  }

  ghost predicate WaitsAt(ts: seq<Tables>, p: Policy, r: string, i: nat)
    requires i + 1 < |ts|
  {
    r in Reapable(ts[i], p) && SameRow(ts[i], ts[i + 1], r)
  }

  /** The index never holds back more than `held` rows of a reap of the run, and not `r`. */
  ghost predicate FewHeldBack(ts: seq<Tables>, evs: seq<Event>, p: Policy, limit: nat, held: nat, r: string) {
    |ts| == |evs| + 1 && forall i | 0 <= i < |evs| && ReapsWith(evs[i], p, limit) :: FewAt(ts, evs, held, r, i)
  }

  ghost predicate FewAt(ts: seq<Tables>, evs: seq<Event>, held: nat, r: string, i: nat)
    requires i < |evs| < |ts| && evs[i].ReapedFailed?
  {
    |HeldBack(ts[i], evs[i])| <= held && r !in HeldBack(ts[i], evs[i])
  }

  lemma WaitStep(ts: seq<Tables>, evs: seq<Event>, p: Policy, limit: nat, held: nat, moved: nat, r: string, i: nat)
    requires held + moved == limit && Ticks(ts, evs) && WaitsForReap(ts, evs, p, r) && FewHeldBack(ts, evs, p, limit, held, r) && held < limit && i < |evs|
    ensures DrainsAt(AheadOver(ts, p, r), ReapAt(evs, p, limit), moved, i)
  {
    AlwaysPast(ts, evs, i);
    assert WaitsAt(ts, p, r, i);
    NoneOvertakes(ts[i], evs[i], p, r);
    if ReapsWith(evs[i], p, limit) {
      assert FewAt(ts, evs, held, r, i);
      if r in evs[i].ids {
        HeldBackIff(ts[i], evs[i], r);
      }
      ReapDrains(ts[i], evs[i], p, limit, held, r);
    }
  }

  lemma {:induction false} WaitSteps(ts: seq<Tables>, evs: seq<Event>, p: Policy, limit: nat, held: nat, moved: nat, r: string, n: nat)
    requires held + moved == limit && Ticks(ts, evs)
    requires WaitsForReap(ts, evs, p, r) && FewHeldBack(ts, evs, p, limit, held, r) && held < limit && n <= |evs|
    ensures forall i: nat | i < n :: DrainsAt(AheadOver(ts, p, r), ReapAt(evs, p, limit), moved, i)
  {
    if n > 0 {
      WaitSteps(ts, evs, p, limit, held, moved, r, n - 1);
      WaitStep(ts, evs, p, limit, held, moved, r, n - 1);
    }
  }

  /**
   No starvation. While a row waits with `a` eligible rows not behind it, at most `a / (limit - held)`
   reaps go by, where `held` bounds the conflicts of one reap: without conflicts it is requeued by reap
   number `a / limit + 1`, whatever else happens in between.
   */
  lemma ReapsWhileWaiting(ts: seq<Tables>, evs: seq<Event>, p: Policy, limit: nat, held: nat, r: string)
    requires Ticks(ts, evs) && WaitsForReap(ts, evs, p, r) && FewHeldBack(ts, evs, p, limit, held, r) && held < limit
    ensures Turns(ReapAt(evs, p, limit), |evs|) <= |Ahead(ts[0], p, r)| / (limit - held)
  {
    WaitedTurns(ts, evs, p, limit, held, limit - held, r);
  }

  lemma WaitedTurns(ts: seq<Tables>, evs: seq<Event>, p: Policy, limit: nat, held: nat, moved: nat, r: string)
    requires Ticks(ts, evs) && WaitsForReap(ts, evs, p, r) && FewHeldBack(ts, evs, p, limit, held, r)
    requires held < limit && moved == limit - held
    ensures Turns(ReapAt(evs, p, limit), |evs|) <= |Ahead(ts[0], p, r)| / moved
  {
    var ahead := AheadOver(ts, p, r);
    WaitSteps(ts, evs, p, limit, held, moved, r, |evs|);
    FewTurns(ahead, ReapAt(evs, p, limit), moved, |evs|);
    assert ahead(0) == Ahead(ts[0], p, r);
  }

  /** Apart from such reaps nothing writes `r` or its dead letter. */
  ghost predicate OnlyReapsWrite(ts: seq<Tables>, evs: seq<Event>, p: Policy, limit: nat, r: string) {
    && |ts| == |evs| + 1
    && forall i | 0 <= i < |evs| && !ReapsWith(evs[i], p, limit) ::
         SameRow(ts[i], ts[i + 1], r) && (OpenLetter(ts[i + 1], r) ==> OpenLetter(ts[i], r))
  }

  lemma PassedOver(t: Tables, ev: Event, p: Policy, limit: nat, r: string)
    requires Enabled(t, ev) && ReapsWith(ev, p, limit) && r in Reapable(t, p) && r !in ev.ids
    ensures SameRow(t, Next(t, ev), r) && r in Reapable(Next(t, ev), p)
  {
    RequeueDecidesEach(t, ev.ids, false, ev.now);
    RequeueAllLetters(t, ev.ids, false, ev.now);
  }

  lemma {:induction false} NeverPickedWaits(ts: seq<Tables>, evs: seq<Event>, p: Policy, limit: nat, r: string, n: nat)
    requires Run(ts, evs) && OnlyReapsWrite(ts, evs, p, limit, r) && r in Reapable(ts[0], p) && n <= |evs|
    requires forall i | 0 <= i < |evs| && ReapsWith(evs[i], p, limit) :: r !in evs[i].ids
    ensures r in Reapable(ts[n], p)
    ensures forall i | 0 <= i < n :: WaitsAt(ts, p, r, i)
  {
    if n > 0 {
      NeverPickedWaits(ts, evs, p, limit, r, n - 1);
      if ReapsWith(evs[n - 1], p, limit) {
        PassedOver(ts[n - 1], evs[n - 1], p, limit, r);
      }
    }
  }

  ghost predicate RequeuedAt(ts: seq<Tables>, evs: seq<Event>, p: Policy, limit: nat, r: string, i: nat) {
    i < |evs| < |ts| && ReapsWith(evs[i], p, limit) && r in ts[i + 1].episodes && r in evs[i].ids && ts[i + 1].episodes[r].status == Queued
  }

  lemma PickedIsRequeued(ts: seq<Tables>, evs: seq<Event>, p: Policy, limit: nat, held: nat, r: string, i: nat)
    requires Ticks(ts, evs) && FewHeldBack(ts, evs, p, limit, held, r)
    requires i < |evs| && ReapsWith(evs[i], p, limit) && r in evs[i].ids
    ensures RequeuedAt(ts, evs, p, limit, r, i)
  {
    AlwaysPast(ts, evs, i);
    RequeueDecidesEach(ts[i], evs[i].ids, false, evs[i].now);
    assert r in ts[i].episodes && RequeuedOrHeld(ts[i], ts[i + 1], r, false, evs[i].now);
    assert FewAt(ts, evs, held, r, i);
  }

  /** An eligible row is requeued by one of the first `a / (limit - held) + 1` reaps. */
  lemma EligibleRowIsRequeued(ts: seq<Tables>, evs: seq<Event>, p: Policy, limit: nat, held: nat, r: string)
    requires Ticks(ts, evs) && r in Reapable(ts[0], p) && OnlyReapsWrite(ts, evs, p, limit, r)
    requires FewHeldBack(ts, evs, p, limit, held, r) && held < limit
    requires Turns(ReapAt(evs, p, limit), |evs|) >= |Ahead(ts[0], p, r)| / (limit - held) + 1
    ensures exists i :: RequeuedAt(ts, evs, p, limit, r, i)
  {
    if i: nat :| i < |evs| && ReapsWith(evs[i], p, limit) && r in evs[i].ids {
      PickedIsRequeued(ts, evs, p, limit, held, r, i);
    } else {
      NeverPickedWaits(ts, evs, p, limit, r, |evs|);
      ReapsWhileWaiting(ts, evs, p, limit, held, r);
      assert false;
    }
  }

  lemma {:induction false} RequeueAllLetters(t: Tables, ids: seq<string>, reset: bool, now: nat)
    ensures RequeueAll(t, ids, reset, now).deadLetter == t.deadLetter
  {
    if ids != [] {
      RequeueAllLetters(t, ids[..|ids| - 1], reset, now);
    }
  }

  // ---------------------------------------------------------------------------------------------
  // Claiming queued rows

  ghost function QueuedAhead(t: Tables, r: string): set<string> {
    set x | x in WithStatus(t, Queued) && x != r && EnqueuedAt(t)(x) <= EnqueuedAt(t)(r)
  }

  ghost predicate WaitsForClaim(ts: seq<Tables>, evs: seq<Event>, r: string) {
    && |ts| == |evs| + 1
    && forall i | 0 <= i < |evs| :: r in WithStatus(ts[i], Queued) && SameRow(ts[i], ts[i + 1], r)
  }

  lemma NoneJumpsTheQueue(t: Tables, ev: Event, r: string)
    requires Sound(t) && Past(t, ev.now) && Enabled(t, ev) && SameRow(t, Next(t, ev), r) && r in WithStatus(t, Queued)
    ensures QueuedAhead(Next(t, ev), r) <= QueuedAhead(t, r)
  {
    StepSafe(t, ev);
  }

  lemma ClaimDrains(t: Tables, ev: Event, limit: nat, r: string)
    requires Sound(t) && Past(t, ev.now) && Enabled(t, ev) && ev.Claimed? && ev.limit == limit
    requires r in WithStatus(t, Queued) && SameRow(t, Next(t, ev), r)
    ensures |QueuedAhead(Next(t, ev), r)| + limit <= |QueuedAhead(t, r)|
  {
    var u := Next(t, ev);
    PickPassesOver(ev.ids, WithStatus(t, Queued), EnqueuedAt(t), limit, r);
    NoneJumpsTheQueue(t, ev, r);
    var picked := Elements(ev.ids);
    assert forall id | id in picked :: id in QueuedAhead(t, r) && id !in QueuedAhead(u, r);
    Lost(QueuedAhead(u, r), QueuedAhead(t, r), picked);
  }

  ghost function QueuedAheadOver(ts: seq<Tables>, r: string): nat -> set<string> {
    (i: nat) => if i < |ts| then QueuedAhead(ts[i], r) else {}
  }

  ghost function ClaimAt(evs: seq<Event>, limit: nat): nat -> bool {
    (i: nat) => i < |evs| && evs[i].Claimed? && evs[i].limit == limit
  }

  lemma QueueStep(ts: seq<Tables>, evs: seq<Event>, limit: nat, r: string, i: nat)
    requires Ticks(ts, evs) && WaitsForClaim(ts, evs, r) && i < |evs|
    ensures DrainsAt(QueuedAheadOver(ts, r), ClaimAt(evs, limit), limit, i)
  {
    AlwaysPast(ts, evs, i);
    NoneJumpsTheQueue(ts[i], evs[i], r);
    if ClaimAt(evs, limit)(i) {
      ClaimDrains(ts[i], evs[i], limit, r);
    }
  }

  /** First come, first served: the same bound for a queued row, with no conflicts to allow for. */
  lemma ClaimsWhileQueued(ts: seq<Tables>, evs: seq<Event>, limit: nat, r: string)
    requires Ticks(ts, evs) && WaitsForClaim(ts, evs, r) && limit > 0
    ensures Turns(ClaimAt(evs, limit), |evs|) <= |QueuedAhead(ts[0], r)| / limit
  {
    forall i: nat | i < |evs|
      ensures DrainsAt(QueuedAheadOver(ts, r), ClaimAt(evs, limit), limit, i)
    {
      QueueStep(ts, evs, limit, r, i);
    }
    FewTurns(QueuedAheadOver(ts, r), ClaimAt(evs, limit), limit, |evs|);
  }
}
