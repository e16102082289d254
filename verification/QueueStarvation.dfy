/** When a failed row is requeued by the reaper, and when it starves behind rows the index holds back. */
module QueueStarvation {
  import opened Collections
  import opened Options
  import opened QueueTables
  import opened Similarity
  import opened QueueSteps
  import opened QueueFairness

  // ---------------------------------------------------------------------------------------------
  // What holds a row back

  /** The row would be under the index if it were queued. */
  predicate Contends(t: Tables, id: string) {
    id in t.episodes && t.episodes[id].canonicalHash.Some? && t.episodes[id].gate == Enforce
  }

  predicate HashHeld(t: Tables, hash: Option<string>) {
    exists o | o in t.episodes :: Covered(t.episodes[o]) && t.episodes[o].canonicalHash == hash
  }

  /** Another row is under the index with the hash the row would bring. */
  predicate Held(t: Tables, id: string) {
    Contends(t, id) && HashHeld(t, t.episodes[id].canonicalHash)
  }

  predicate Idle(t: Tables, id: string) {
    id in t.episodes && !Active(t.episodes[id].status)
  }

  lemma HeldIffBlocked(t: Tables, id: string, now: nat)
    requires Idle(t, id)
    ensures Held(t, id) <==> Blocked(t, id, Requeued(t.episodes[id], false, now))
  {
  }

  lemma RequeueIdle(t: Tables, id: string, now: nat)
    requires Idle(t, id)
    ensures Requeue(t, id, false, now) == if Held(t, id) then t else Put(t, id, Requeued(t.episodes[id], false, now))
  {
    HeldIffBlocked(t, id, now);
  }

  lemma {:induction false} AllHeldIsIdle(t: Tables, ids: seq<string>, now: nat)
    requires forall id | id in ids :: Idle(t, id) && Held(t, id)
    ensures RequeueAll(t, ids, false, now) == t
  {
    if ids != [] {
      AllHeldIsIdle(t, ids[..|ids| - 1], now);
      RequeueIdle(t, ids[|ids| - 1], now);
    }
  }

  /** A reap changes nothing exactly when each row it picks is held back by an active row with its hash. */
  lemma ReapIsIdleIff(t: Tables, ev: Event)
    requires ev.ReapedFailed? && Enabled(t, ev)
    ensures Next(t, ev) == t <==> forall id | id in ev.ids :: Held(t, id)
  {
    forall id | id in ev.ids
      ensures Idle(t, id)
    {
      assert id in Reapable(t, ev.policy);
    }
    if Next(t, ev) == t {
      RequeueDecidesEach(t, ev.ids, false, ev.now);
      forall id | id in ev.ids
        ensures Held(t, id)
      {
        assert RequeuedOrHeld(t, t, id, false, ev.now);
        HeldIffBlocked(t, id, ev.now);
      }
    } else if forall id | id in ev.ids :: Held(t, id) {
      AllHeldIsIdle(t, ev.ids, ev.now);
    }
  }

  // ---------------------------------------------------------------------------------------------
  // A blocked head starves what is behind it

  lemma RequeueKeepsHash(t: Tables, id: string, hash: Option<string>, now: nat)
    requires HashHeld(t, hash)
    ensures HashHeld(Requeue(t, id, false, now), hash)
  {
    var o :| o in t.episodes && Covered(t.episodes[o]) && t.episodes[o].canonicalHash == hash;
    var u := Requeue(t, id, false, now);
    assert Covered(u.episodes[o]) && u.episodes[o].canonicalHash == hash;
  }

  lemma {:induction false} HashStaysHeld(t: Tables, ids: seq<string>, hash: Option<string>, now: nat)
    requires HashHeld(t, hash)
    ensures HashHeld(RequeueAll(t, ids, false, now), hash)
  {
    if ids != [] {
      HashStaysHeld(t, ids[..|ids| - 1], hash, now);
      RequeueKeepsHash(RequeueAll(t, ids[..|ids| - 1], false, now), ids[|ids| - 1], hash, now);
    }
  }

  /** A row held back before a reap is untouched and held back after it. */
  lemma {:induction false} HeldStays(t: Tables, ids: seq<string>, id: string, now: nat)
    requires Idle(t, id) && Held(t, id)
    ensures SameRow(t, RequeueAll(t, ids, false, now), id) && Held(RequeueAll(t, ids, false, now), id)
  {
    if ids != [] {
      var u := RequeueAll(t, ids[..|ids| - 1], false, now);
      HeldStays(t, ids[..|ids| - 1], id, now);
      RequeueIdle(u, id, now);
      RequeueKeepsHash(u, ids[|ids| - 1], t.episodes[id].canonicalHash, now);
    }
  }

  /** `head` are eligible rows before `r`, each held back. */
  ghost predicate BlockedBefore(t: Tables, p: Policy, head: set<string>, r: string) {
    && r in Reapable(t, p)
    && forall x | x in head :: x in Reapable(t, p) && Held(t, x) && UpdatedAt(t)(x) < UpdatedAt(t)(r)
  }

  /** A pick takes everything that ranks strictly before anything it takes. */
  lemma PickTakesBefore(ids: seq<string>, from: set<string>, key: string -> int, limit: int, head: set<string>, r: string)
    requires Picks(ids, from, key, limit) && r in ids && head <= from && forall x | x in head :: key(x) < key(r)
    ensures head <= Elements(ids) - {r} && |head| < |ids|
  {
    forall x | x in head
      ensures x in ids
    {
      assert x !in ids ==> key(r) <= key(x);
    }
    CountElements(ids);
    SubsetSize(head + {r}, Elements(ids));
  }

  lemma BlockedReapPassesOver(t: Tables, ev: Event, p: Policy, limit: nat, head: set<string>, r: string)
    requires Enabled(t, ev) && ReapsWith(ev, p, limit) && BlockedBefore(t, p, head, r) && |head| >= limit
    ensures r !in ev.ids && SameRow(t, Next(t, ev), r) && BlockedBefore(Next(t, ev), p, head, r)
  {
    if r in ev.ids {
      PickTakesBefore(ev.ids, Reapable(t, p), UpdatedAt(t), limit, head, r);
    }
    PassedOver(t, ev, p, limit, r);
    RequeueAllLetters(t, ev.ids, false, ev.now);
    forall x | x in head
      ensures x in Reapable(Next(t, ev), p) && Held(Next(t, ev), x) && SameRow(t, Next(t, ev), x)
    {
      HeldStays(t, ev.ids, x, ev.now);
    }
  }

  /** Apart from such reaps nothing writes `r` or a row of `head`, or frees what holds the head back. */
  ghost predicate OthersKeepBlocked(ts: seq<Tables>, evs: seq<Event>, p: Policy, limit: nat, head: set<string>, r: string) {
    && |ts| == |evs| + 1
    && forall i | 0 <= i < |evs| && !ReapsWith(evs[i], p, limit) && BlockedBefore(ts[i], p, head, r) ::
         SameRow(ts[i], ts[i + 1], r) && BlockedBefore(ts[i + 1], p, head, r)
  }

  /**
   Starvation. With as many held-back rows before `r` as a reap picks, no reap of the run picks `r` or
   changes it, however many there are, and the head stays blocked.
   */
  lemma {:induction false} BlockedHeadStarves(ts: seq<Tables>, evs: seq<Event>, p: Policy, limit: nat, head: set<string>, r: string, n: nat)
    requires Run(ts, evs) && BlockedBefore(ts[0], p, head, r) && |head| >= limit && n <= |evs|
    requires OthersKeepBlocked(ts, evs, p, limit, head, r)
    ensures BlockedBefore(ts[n], p, head, r) && SameRow(ts[0], ts[n], r)
    ensures forall i | 0 <= i < n && ReapsWith(evs[i], p, limit) :: r !in evs[i].ids
  {
    if n > 0 {
      BlockedHeadStarves(ts, evs, p, limit, head, r, n - 1);
      if ReapsWith(evs[n - 1], p, limit) {
        BlockedReapPassesOver(ts[n - 1], evs[n - 1], p, limit, head, r);
      }
    }
  }

  lemma RunsJoin(ts: seq<Tables>, evs: seq<Event>, us: seq<Tables>, more: seq<Event>)
    requires Run(ts, evs) && Run(us, more) && ts[|evs|] == us[0]
    ensures Run(ts + us[1..], evs + more)
  {
    var vs, all := ts + us[1..], evs + more;
    forall i | 0 <= i < |all|
      ensures Enabled(vs[i], all[i]) && vs[i + 1] == Next(vs[i], all[i])
    {
      if i < |evs| {
        assert vs[i] == ts[i] && vs[i + 1] == ts[i + 1] && all[i] == evs[i];
      } else {
        assert vs[i] == us[i - |evs|] && vs[i + 1] == us[i - |evs| + 1] && all[i] == more[i - |evs|];
      }
    }
  }

  lemma OneStep(t: Tables, ev: Event)
    requires Enabled(t, ev)
    ensures Run([t, Next(t, ev)], [ev])
  {
  }

  ghost function TimedOut(hash: string, at: nat): Episode {
    Episode(Failed, 1, at, Some(at + 1), at + 2, at, Some("Timeout"), Some(hash), Some(hash), Enforce)
  }

  /** An episode is enqueued, claimed and fails. */
  lemma EnqueueAndFail(t: Tables, id: string, hash: string, at: nat) returns (ts: seq<Tables>, evs: seq<Event>)
    requires WithStatus(t, Queued) == {} && !Refused(t, id, Fresh(hash, Enforce, at))
    ensures Run(ts, evs) && |evs| == 3 && ts[0] == t && ts[3] == Put(t, id, TimedOut(hash, at))
  {
    var a := Put(t, id, Fresh(hash, Enforce, at));
    assert WithStatus(a, Queued) == {id};
    var b := Claim(a, {id}, at + 1);
    assert (set x | x in [id]) == {id};
    evs := [Inserted(id, hash, Enforce, at), Claimed([id], 1, at + 1), MarkedFailed(id, "Timeout", at + 2)];
    ts := [t, a, b, MarkFailed(b, id, "Timeout", at + 2)];
    assert ts[3].episodes == Put(t, id, TimedOut(hash, at)).episodes;
  }

  /** `a` and `r` have failed, and the payload of `a` has been enqueued again as `b`. */
  ghost function Resent(): Tables {
    Tables(map["a" := TimedOut("h", 1), "r" := TimedOut("g", 4), "b" := Fresh("h", Enforce, 7)], map[])
  }

  lemma ResentIsReachable() returns (ts: seq<Tables>, evs: seq<Event>)
    ensures Run(ts, evs) && ts[0] == Tables(map[], map[]) && |evs| == 7 && ts[7] == Resent()
  {
    var none := Tables(map[], map[]);
    assert WithStatus(none, Queued) == {};
    var ts1, evs1 := EnqueueAndFail(none, "a", "h", 1);
    assert ts1[3].episodes == map["a" := TimedOut("h", 1)];
    assert WithStatus(ts1[3], Queued) == {};
    var ts2, evs2 := EnqueueAndFail(ts1[3], "r", "g", 4);
    RunsJoin(ts1, evs1, ts2, evs2);
    ts, evs := ts1 + ts2[1..], evs1 + evs2;
    var ev := Inserted("b", "h", Enforce, 7);
    assert ts[6].episodes == map["a" := TimedOut("h", 1), "r" := TimedOut("g", 4)];
    OneStep(ts[6], ev);
    RunsJoin(ts, evs, [ts[6], Next(ts[6], ev)], [ev]);
    ts, evs := ts + [Next(ts[6], ev)], evs + [ev];
    assert ts[7].episodes == Resent().episodes;
  }

  const DEFAULT_POLICY := Policy(["Error code: 404", "Error code: 402"], [], 24, true, 3)

  lemma TimeoutIsAllowed()
    ensures Allows(DEFAULT_POLICY, Some("Timeout"))
  {
    forall c | c in DEFAULT_POLICY.permanent
      ensures !Mentions("Timeout", c)
    {
      assert |LowerAll(c)| == 15 && |LowerAll("Timeout")| == 7;
    }
  }

  /**
   Seven ordinary steps lead to starvation: from then on a reap of one row tries `a` and never `r`,
   although nothing holds `r` back.
   */
  lemma StarvationIsReachable() returns (ts: seq<Tables>, evs: seq<Event>)
    ensures Run(ts, evs) && ts[0] == Tables(map[], map[]) && |evs| == 7
    ensures BlockedBefore(ts[7], DEFAULT_POLICY, {"a"}, "r") && |{"a"}| >= 1 && !Held(ts[7], "r")
  {
    ts, evs := ResentIsReachable();
    TimeoutIsAllowed();
    var t := ts[7];
    assert Covered(t.episodes["b"]) && t.episodes["b"].canonicalHash == Some("h");
    assert t.episodes["a"] == TimedOut("h", 1) && t.episodes["r"] == TimedOut("g", 4);
    assert forall o | o in t.episodes :: o == "a" || o == "r" || o == "b";
  }

  // ---------------------------------------------------------------------------------------------
  // Rows that will never move: held back now, or by one another

  ghost function Uncontended(t: Tables, a: set<string>): set<string> {
    set x | x in a && !Contends(t, x)
  }

  /** Rows of `a` whose hash nobody holds yet. */
  ghost function Unheld(t: Tables, a: set<string>): set<string> {
    set x | x in a && Contends(t, x) && !Held(t, x)
  }

  ghost function HashOf(t: Tables): string -> Option<string> {
    (x: string) => if x in t.episodes then t.episodes[x].canonicalHash else None
  }

  ghost function FreeHashes(t: Tables, a: set<string>): set<Option<string>> {
    set x | x in Unheld(t, a) :: HashOf(t)(x)
  }

  /** How many rows of `a` reaps can ever move: those outside the index, and one for each free hash. */
  ghost function Movable(t: Tables, a: set<string>): nat {
    |Uncontended(t, a)| + |FreeHashes(t, a)|
  }

  /** The others stay for good. */
  ghost function Surplus(t: Tables, a: set<string>): int {
    |a| - Movable(t, a)
  }

  lemma {:induction false} ImageIsSmaller(s: set<string>, f: string -> Option<string>)
    ensures |set x | x in s :: f(x)| <= |s|
    decreases |s|
  {
    if x :| x in s {
      ImageIsSmaller(s - {x}, f);
      assert (set y | y in s :: f(y)) == (set y | y in s - {x} :: f(y)) + {f(x)};
    } else {
      assert (set y | y in s :: f(y)) == {};
    }
  }

  /** Held-back rows count as surplus. */
  lemma HeldAreSurplus(t: Tables, a: set<string>, held: set<string>)
    requires held <= a && forall x | x in held :: Held(t, x)
    ensures |held| <= Surplus(t, a)
  {
    var rest := Uncontended(t, a) + Unheld(t, a);
    ImageIsSmaller(Unheld(t, a), HashOf(t));
    assert |rest| == |Uncontended(t, a)| + |Unheld(t, a)|;
    SubsetSize(rest + held, a);
    assert rest !! held;
  }

  lemma MoveUncontended(t: Tables, u: Tables, a: set<string>, x: string, now: nat)
    requires (forall y | y in a :: Idle(t, y)) && x in a && Idle(t, x) && !Contends(t, x) && u == Put(t, x, Requeued(t.episodes[x], false, now))
    ensures Movable(u, a - {x}) == Movable(t, a) - 1
  {
    forall hash
      ensures HashHeld(u, hash) <==> HashHeld(t, hash)
    {
      if HashHeld(t, hash) {
        var o :| o in t.episodes && Covered(t.episodes[o]) && t.episodes[o].canonicalHash == hash;
        assert Covered(u.episodes[o]);
      }
    }
    assert Uncontended(u, a - {x}) == Uncontended(t, a) - {x};
    assert Unheld(u, a - {x}) == Unheld(t, a);
    assert FreeHashes(u, a - {x}) == FreeHashes(t, a);
  }

  lemma MoveUnheld(t: Tables, u: Tables, a: set<string>, x: string, now: nat)
    requires (forall y | y in a :: Idle(t, y)) && x in Unheld(t, a) && u == Put(t, x, Requeued(t.episodes[x], false, now))
    ensures Movable(u, a - {x}) == Movable(t, a) - 1
  {
    var h := t.episodes[x].canonicalHash;
    forall hash
      ensures HashHeld(u, hash) <==> HashHeld(t, hash) || hash == h
    {
      if HashHeld(t, hash) {
        var o :| o in t.episodes && Covered(t.episodes[o]) && t.episodes[o].canonicalHash == hash;
        assert Covered(u.episodes[o]);
      }
      assert Covered(u.episodes[x]);
    }
    assert Uncontended(u, a - {x}) == Uncontended(t, a);
    forall y
      ensures y in Unheld(u, a - {x}) <==> y in Unheld(t, a) && HashOf(t)(y) != h
    {
    }
    assert HashOf(t)(x) == h;
    assert FreeHashes(u, a - {x}) == FreeHashes(t, a) - {h};
  }

  /** Requeueing a row of `a` leaves the surplus of what stays as it was. */
  lemma RequeueKeepsSurplus(t: Tables, a: set<string>, x: string, now: nat)
    requires (forall y | y in a :: Idle(t, y)) && x in a
    ensures
      var u := Requeue(t, x, false, now);
      Surplus(u, if Held(t, x) then a else a - {x}) == Surplus(t, a)
  {
    RequeueIdle(t, x, now);
    var u := Requeue(t, x, false, now);
    if !Contends(t, x) {
      MoveUncontended(t, u, a, x, now);
    } else if !Held(t, x) {
      MoveUnheld(t, u, a, x, now);
    }
  }

  ghost function Unmoved(t: Tables, u: Tables, a: set<string>): set<string> {
    set x | x in a && SameRow(t, u, x)
  }

  lemma UnmovedStep(t: Tables, v: Tables, a: set<string>, x: string, now: nat)
    requires x in Unmoved(t, v, a) && Idle(v, x) && forall y | y in Unmoved(t, v, a) :: Idle(v, y)
    ensures
      var u := Requeue(v, x, false, now);
      && Unmoved(t, u, a) == (if Held(v, x) then Unmoved(t, v, a) else Unmoved(t, v, a) - {x})
      && forall y | y in Unmoved(t, u, a) :: Idle(u, y)
  {
    RequeueIdle(v, x, now);
    var u := Requeue(v, x, false, now);
    forall y
      ensures y in Unmoved(t, u, a) <==> y in Unmoved(t, v, a) && (Held(v, x) || y != x)
    {
    }
  }

  lemma {:induction false} ReapKeepsSurplus(t: Tables, a: set<string>, ids: seq<string>, now: nat)
    requires (forall x | x in a :: Idle(t, x)) && (forall x | x in ids :: x in a) && forall i, j | 0 <= i < j < |ids| :: ids[i] != ids[j]
    ensures
      var u := RequeueAll(t, ids, false, now);
      Surplus(u, Unmoved(t, u, a)) == Surplus(t, a) && forall x | x in Unmoved(t, u, a) :: Idle(u, x)
  {
    if ids == [] {
      assert Unmoved(t, t, a) == a;
    } else {
      var init, last := ids[..|ids| - 1], ids[|ids| - 1];
      assert ids == init + [last] && last !in init && last in ids;
      var v := RequeueAll(t, init, false, now);
      ReapKeepsSurplus(t, a, init, now);
      UntouchedStays(t, init, last, now);
      UnmovedStep(t, v, a, last, now);
      RequeueKeepsSurplus(v, Unmoved(t, v, a), last, now);
    }
  }

  lemma UntouchedStays(t: Tables, ids: seq<string>, id: string, now: nat)
    requires id in t.episodes && id !in ids && forall i, j | 0 <= i < j < |ids| :: ids[i] != ids[j]
    ensures SameRow(t, RequeueAll(t, ids, false, now), id)
  {
    RequeueDecidesEach(t, ids, false, now);
  }

  // ---------------------------------------------------------------------------------------------
  // Runs of reaps

  lemma AheadAreIdle(t: Tables, p: Policy, r: string)
    ensures forall x | x in Ahead(t, p, r) :: Idle(t, x)
  {
  }

  /** A reap that passes over `r` leaves ahead of it what it did not move, with the same surplus. */
  lemma PassingKeepsSurplus(t: Tables, ev: Event, p: Policy, limit: nat, r: string)
    requires Enabled(t, ev) && ReapsWith(ev, p, limit) && r in Reapable(t, p) && r !in ev.ids
    ensures Ahead(Next(t, ev), p, r) == Unmoved(t, Next(t, ev), Ahead(t, p, r))
    ensures Surplus(Next(t, ev), Ahead(Next(t, ev), p, r)) == Surplus(t, Ahead(t, p, r))
  {
    var u, a := Next(t, ev), Ahead(t, p, r);
    PickPassesOver(ev.ids, Reapable(t, p), UpdatedAt(t), limit, r);
    AheadAreIdle(t, p, r);
    ReapKeepsSurplus(t, a, ev.ids, ev.now);
    PassedOver(t, ev, p, limit, r);
    AheadIsUnmoved(t, ev, p, limit, r);
  }

  /** What the index holds back in such a reap is part of the surplus. */
  lemma HeldBackIsSurplus(t: Tables, ev: Event, p: Policy, limit: nat, r: string)
    requires Sound(t) && Enabled(t, ev) && ReapsWith(ev, p, limit) && r in Reapable(t, p) && r !in ev.ids
    ensures |HeldBack(t, ev)| <= Surplus(t, Ahead(t, p, r))
  {
    var u := Next(t, ev);
    PassingKeepsSurplus(t, ev, p, limit, r);
    AheadAreIdle(u, p, r);
    forall x | x in HeldBack(t, ev)
      ensures x in Ahead(u, p, r) && Held(u, x)
    {
      HeldBackIff(t, ev, x);
      PickedIsAhead(t, ev, p, limit, r, x);
      HeldIffBlocked(u, x, ev.now);
    }
    HeldAreSurplus(u, Ahead(u, p, r), HeldBack(t, ev));
  }

  /** A picked row that is left as it was is still ahead. */
  lemma PickedIsAhead(t: Tables, ev: Event, p: Policy, limit: nat, r: string, x: string)
    requires Enabled(t, ev) && ReapsWith(ev, p, limit) && r in Reapable(t, p) && r !in ev.ids
    requires x in ev.ids && SameRow(t, Next(t, ev), x)
    ensures x in Ahead(Next(t, ev), p, r) && Idle(Next(t, ev), x)
  {
    PickPassesOver(ev.ids, Reapable(t, p), UpdatedAt(t), limit, r);
    PassedOver(t, ev, p, limit, r);
    AheadIsUnmoved(t, ev, p, limit, r);
    assert x in Unmoved(t, Next(t, ev), Ahead(t, p, r));
  }

  /** A row that a reap does not move is eligible after it exactly when it was before. */
  lemma EligibleAfter(t: Tables, ev: Event, x: string)
    requires Enabled(t, ev) && ev.ReapedFailed?
    ensures x in Reapable(Next(t, ev), ev.policy) <==> x in Reapable(t, ev.policy) && SameRow(t, Next(t, ev), x)
  {
    RequeueDecidesEach(t, ev.ids, false, ev.now);
    RequeueAllLetters(t, ev.ids, false, ev.now);
    if x in t.episodes && x in ev.ids {
      assert RequeuedOrHeld(t, Next(t, ev), x, false, ev.now);
    }
  }

  lemma AheadIsUnmoved(t: Tables, ev: Event, p: Policy, limit: nat, r: string)
    requires Enabled(t, ev) && ReapsWith(ev, p, limit) && r in Reapable(t, p) && SameRow(t, Next(t, ev), r)
    ensures Ahead(Next(t, ev), p, r) == Unmoved(t, Next(t, ev), Ahead(t, p, r))
  {
    forall x
      ensures x in Ahead(Next(t, ev), p, r) <==> x in Unmoved(t, Next(t, ev), Ahead(t, p, r))
    {
      EligibleAfter(t, ev, x);
    }
  }

  /** No other eligible row has the same time stamp as `r`. */
  ghost predicate Untied(t: Tables, p: Policy, r: string) {
    forall x | x in Ahead(t, p, r) :: UpdatedAt(t)(x) < UpdatedAt(t)(r)
  }

  /** Nobody holds the hash of `r`, and no row ahead of it will. */
  ghost predicate Clear(t: Tables, p: Policy, r: string) {
    Contends(t, r) ==>
      !Held(t, r) && forall x | x in Ahead(t, p, r) && Contends(t, x) :: HashOf(t)(x) != HashOf(t)(r)
  }

  /** Every event of the run is such a reap. */
  ghost predicate OnlyReaps(ts: seq<Tables>, evs: seq<Event>, p: Policy, limit: nat) {
    Run(ts, evs) && forall i | 0 <= i < |evs| :: ReapsWith(evs[i], p, limit)
  }

  /** With as many rows ahead as a reap picks, all strictly before it, `r` is not picked. */
  lemma CrowdedIsPassedOver(t: Tables, ev: Event, p: Policy, limit: nat, r: string)
    requires Enabled(t, ev) && ReapsWith(ev, p, limit) && r in Reapable(t, p) && Untied(t, p, r)
    requires Surplus(t, Ahead(t, p, r)) >= limit
    ensures r !in ev.ids
  {
    if r in ev.ids {
      PickTakesBefore(ev.ids, Reapable(t, p), UpdatedAt(t), limit, Ahead(t, p, r), r);
    }
  }

  lemma {:induction false} NoHolderAppears(t: Tables, ids: seq<string>, hash: Option<string>, now: nat)
    requires !HashHeld(t, hash) && forall i, j | 0 <= i < j < |ids| :: ids[i] != ids[j]
    requires forall x | x in ids :: Idle(t, x) && (Contends(t, x) ==> t.episodes[x].canonicalHash != hash)
    ensures !HashHeld(RequeueAll(t, ids, false, now), hash)
  {
    if ids != [] {
      var init, last := ids[..|ids| - 1], ids[|ids| - 1];
      assert ids == init + [last] && last !in init && last in ids;
      NoHolderAppears(t, init, hash, now);
      UntouchedStays(t, init, last, now);
      RequeueIdle(RequeueAll(t, init, false, now), last, now);
    }
  }

  /** Once a row had its turn, somebody holds its hash. */
  lemma {:induction false} TurnTakesHash(t: Tables, ids: seq<string>, y: string, now: nat)
    requires y in ids && Idle(t, y) && Contends(t, y) && forall i, j | 0 <= i < j < |ids| :: ids[i] != ids[j]
    ensures HashHeld(RequeueAll(t, ids, false, now), t.episodes[y].canonicalHash)
  {
    var init, last := ids[..|ids| - 1], ids[|ids| - 1];
    assert ids == init + [last] && last !in init;
    var v := RequeueAll(t, init, false, now);
    if y == last {
      UntouchedStays(t, init, y, now);
      RequeueIdle(v, y, now);
      assert !Held(v, y) ==> Covered(RequeueAll(t, ids, false, now).episodes[y]);
    } else {
      TurnTakesHash(t, init, y, now);
      RequeueKeepsHash(v, last, t.episodes[y].canonicalHash, now);
    }
  }

  /** What a reap makes of a row is decided at its turn. */
  lemma {:induction false} DecidedAtTurn(t: Tables, ids: seq<string>, k: nat, now: nat)
    requires k < |ids| && ids[k] in t.episodes && forall i, j | 0 <= i < j < |ids| :: ids[i] != ids[j]
    ensures SameRow(t, RequeueAll(t, ids[..k], false, now), ids[k])
    ensures SameRow(Requeue(RequeueAll(t, ids[..k], false, now), ids[k], false, now), RequeueAll(t, ids, false, now), ids[k])
    decreases |ids|
  {
    assert ids[k] !in ids[..k];
    UntouchedStays(t, ids[..k], ids[k], now);
    var init, last := ids[..|ids| - 1], ids[|ids| - 1];
    if k < |init| {
      assert init[..k] == ids[..k];
      DecidedAtTurn(t, init, k, now);
    }
  }

  /** Whatever a pick takes before `r` ranks no later. */
  lemma PickedBefore(t: Tables, ev: Event, p: Policy, limit: nat, k: nat)
    requires Enabled(t, ev) && ReapsWith(ev, p, limit) && k < |ev.ids|
    ensures ev.ids[k] in Reapable(t, p) && forall x | x in ev.ids[..k] :: x in Ahead(t, p, ev.ids[k])
  {
    assert ev.ids[k] in ev.ids;
    forall x | x in ev.ids[..k]
      ensures x in Ahead(t, p, ev.ids[k])
    {
      var j :| 0 <= j < k && ev.ids[j] == x;
      assert x in ev.ids;
    }
  }

  /** A clear row is requeued when it is picked. */
  lemma ClearIsRequeued(t: Tables, ev: Event, p: Policy, limit: nat, r: string)
    requires Enabled(t, ev) && ReapsWith(ev, p, limit) && r in ev.ids && Clear(t, p, r)
    ensures r in Next(t, ev).episodes && Next(t, ev).episodes[r].status == Queued
  {
    var k :| 0 <= k < |ev.ids| && ev.ids[k] == r;
    PickedBefore(t, ev, p, limit, k);
    AheadAreIdle(t, p, r);
    DecidedAtTurn(t, ev.ids, k, ev.now);
    var v := RequeueAll(t, ev.ids[..k], false, ev.now);
    if Contends(t, r) {
      NoHolderAppears(t, ev.ids[..k], t.episodes[r].canonicalHash, ev.now);
    }
    RequeueIdle(v, r, ev.now);
  }

  lemma PassedStaysClear(t: Tables, ev: Event, p: Policy, limit: nat, r: string)
    requires Enabled(t, ev) && ReapsWith(ev, p, limit) && r in Reapable(t, p) && r !in ev.ids && Clear(t, p, r)
    ensures Clear(Next(t, ev), p, r)
  {
    PassedOver(t, ev, p, limit, r);
    AheadIsUnmoved(t, ev, p, limit, r);
    PickPassesOver(ev.ids, Reapable(t, p), UpdatedAt(t), limit, r);
    AheadAreIdle(t, p, r);
    if Contends(t, r) {
      NoHolderAppears(t, ev.ids, t.episodes[r].canonicalHash, ev.now);
    }
  }

  /** A row that is not clear is not requeued, picked or not, and does not become clear. */
  lemma UnclearStays(t: Tables, ev: Event, p: Policy, limit: nat, r: string)
    requires Enabled(t, ev) && ReapsWith(ev, p, limit) && r in Reapable(t, p) && Untied(t, p, r) && !Clear(t, p, r)
    ensures SameRow(t, Next(t, ev), r) && r in Reapable(Next(t, ev), p) && Untied(Next(t, ev), p, r) && !Clear(Next(t, ev), p, r)
  {
    var u, h := Next(t, ev), t.episodes[r].canonicalHash;
    if r in ev.ids {
      UnclearIsHeldAtTurn(t, ev, p, limit, r);
    } else {
      PassedOver(t, ev, p, limit, r);
    }
    RequeueAllLetters(t, ev.ids, false, ev.now);
    AheadIsUnmoved(t, ev, p, limit, r);
    if HashHeld(t, h) {
      HashStaysHeld(t, ev.ids, h, ev.now);
    } else {
      var y :| y in Ahead(t, p, r) && Contends(t, y) && HashOf(t)(y) == h;
      ContenderStaysOrTakes(t, ev, p, limit, r, y);
    }
  }

  /** A row ahead that wants the hash of `r` either still does or has just taken it. */
  lemma ContenderStaysOrTakes(t: Tables, ev: Event, p: Policy, limit: nat, r: string, y: string)
    requires Enabled(t, ev) && ReapsWith(ev, p, limit) && r in Reapable(t, p) && y in Ahead(t, p, r) && Contends(t, y)
    requires SameRow(t, Next(t, ev), r) && Untied(t, p, r)
    ensures
      var u := Next(t, ev);
      if y in Ahead(u, p, r) then Contends(u, y) && HashOf(u)(y) == HashOf(t)(y)
      else y in u.episodes && Covered(u.episodes[y]) && u.episodes[y].canonicalHash == HashOf(t)(y)
  {
    AheadIsUnmoved(t, ev, p, limit, r);
    if y !in Ahead(Next(t, ev), p, r) {
      RequeueDecidesEach(t, ev.ids, false, ev.now);
      assert y in ev.ids && RequeuedOrHeld(t, Next(t, ev), y, false, ev.now);
    }
  }

  lemma EarlierInPick(ids: seq<string>, from: set<string>, key: string -> int, limit: int, y: string, k: nat)
    requires Picks(ids, from, key, limit) && k < |ids| && y in from && key(y) < key(ids[k])
    ensures y in ids[..k]
  {
    assert ids[k] in ids;
    var j :| 0 <= j < |ids| && ids[j] == y;
    assert j < k && ids[..k][j] == y;
  }

  /** By the turn of an unclear row its hash is held: by the holder of the start, or by a row that wanted it too. */
  lemma HeldByTurn(t: Tables, ev: Event, p: Policy, limit: nat, r: string, k: nat)
    requires Enabled(t, ev) && ReapsWith(ev, p, limit) && k < |ev.ids| && ev.ids[k] == r
    requires r in Reapable(t, p) && Untied(t, p, r) && !Clear(t, p, r)
    ensures HashHeld(RequeueAll(t, ev.ids[..k], false, ev.now), HashOf(t)(r))
  {
    var h := HashOf(t)(r);
    if HashHeld(t, h) {
      HashStaysHeld(t, ev.ids[..k], h, ev.now);
    } else {
      var y :| y in Ahead(t, p, r) && Contends(t, y) && HashOf(t)(y) == h;
      EarlierInPick(ev.ids, Reapable(t, p), UpdatedAt(t), limit, y, k);
      TurnTakesHash(t, ev.ids[..k], y, ev.now);
    }
  }

  lemma UnclearIsHeldAtTurn(t: Tables, ev: Event, p: Policy, limit: nat, r: string)
    requires Enabled(t, ev) && ReapsWith(ev, p, limit) && r in ev.ids && Untied(t, p, r) && !Clear(t, p, r)
    ensures SameRow(t, Next(t, ev), r)
  {
    var k :| 0 <= k < |ev.ids| && ev.ids[k] == r;
    assert r in Reapable(t, p);
    DecidedAtTurn(t, ev.ids, k, ev.now);
    HeldByTurn(t, ev, p, limit, r, k);
    RequeueIdle(RequeueAll(t, ev.ids[..k], false, ev.now), r, ev.now);
  }

  /** While `r` is not picked it stays eligible, untied and clear, and the surplus ahead of it is constant. */
  lemma {:induction false} PassedSoFar(ts: seq<Tables>, evs: seq<Event>, p: Policy, limit: nat, r: string, n: nat)
    requires OnlyReaps(ts, evs, p, limit) && r in Reapable(ts[0], p) && n <= |evs|
    requires forall i | 0 <= i < n :: r !in evs[i].ids
    ensures r in Reapable(ts[n], p) && Surplus(ts[n], Ahead(ts[n], p, r)) == Surplus(ts[0], Ahead(ts[0], p, r))
    ensures (Untied(ts[0], p, r) ==> Untied(ts[n], p, r)) && (Clear(ts[0], p, r) ==> Clear(ts[n], p, r))
    ensures n > 0 ==> SameRow(ts[n - 1], ts[n], r)
  {
    if n > 0 {
      PassedSoFar(ts, evs, p, limit, r, n - 1);
      var t, ev := ts[n - 1], evs[n - 1];
      PassedOver(t, ev, p, limit, r);
      PassingKeepsSurplus(t, ev, p, limit, r);
      if Clear(t, p, r) {
        PassedStaysClear(t, ev, p, limit, r);
      }
    }
  }

  lemma {:induction false} CrowdedNeverPicked(ts: seq<Tables>, evs: seq<Event>, p: Policy, limit: nat, r: string, n: nat)
    requires OnlyReaps(ts, evs, p, limit) && r in Reapable(ts[0], p) && Untied(ts[0], p, r) && n <= |evs|
    requires Surplus(ts[0], Ahead(ts[0], p, r)) >= limit
    ensures forall i | 0 <= i < n :: r !in evs[i].ids
  {
    if n > 0 {
      CrowdedNeverPicked(ts, evs, p, limit, r, n - 1);
      PassedSoFar(ts, evs, p, limit, r, n - 1);
      CrowdedIsPassedOver(ts[n - 1], evs[n - 1], p, limit, r);
    }
  }

  lemma {:induction false} UnclearNeverMoves(ts: seq<Tables>, evs: seq<Event>, p: Policy, limit: nat, r: string, n: nat)
    requires OnlyReaps(ts, evs, p, limit) && r in Reapable(ts[0], p) && Untied(ts[0], p, r) && n <= |evs|
    requires !Clear(ts[0], p, r)
    ensures r in Reapable(ts[n], p) && Untied(ts[n], p, r) && !Clear(ts[n], p, r)
  {
    if n > 0 {
      UnclearNeverMoves(ts, evs, p, limit, r, n - 1);
      UnclearStays(ts[n - 1], evs[n - 1], p, limit, r);
    }
  }

  lemma {:induction false} AllTurns(turn: nat -> bool, n: nat)
    requires forall i: nat | i < n :: turn(i)
    ensures Turns(turn, n) == n
  {
    if n > 0 {
      AllTurns(turn, n - 1);
    }
  }

  lemma PassedOverAtMost(ts: seq<Tables>, evs: seq<Event>, p: Policy, limit: nat, r: string, held: nat)
    requires Ticks(ts, evs) && OnlyReaps(ts, evs, p, limit) && WaitsForReap(ts, evs, p, r) && FewHeldBack(ts, evs, p, limit, held, r)
    requires held < limit
    ensures |evs| <= |Ahead(ts[0], p, r)|
  {
    var ahead, moved: nat := |Ahead(ts[0], p, r)|, limit - held;
    WaitedTurns(ts, evs, p, limit, held, moved, r);
    AllAreTurns(ts, evs, p, limit);
    FractionIsSmaller(ahead, moved);
  }

  lemma AllAreTurns(ts: seq<Tables>, evs: seq<Event>, p: Policy, limit: nat)
    requires OnlyReaps(ts, evs, p, limit)
    ensures Turns(ReapAt(evs, p, limit), |evs|) == |evs|
  {
    AllTurns(ReapAt(evs, p, limit), |evs|);
  }

  /** `r` cannot be passed over by more reaps than there are rows ahead of it. */
  lemma SomeReapPicks(ts: seq<Tables>, evs: seq<Event>, p: Policy, limit: nat, r: string)
    requires Ticks(ts, evs) && OnlyReaps(ts, evs, p, limit) && r in Reapable(ts[0], p)
    requires Surplus(ts[0], Ahead(ts[0], p, r)) < limit && |evs| > |Ahead(ts[0], p, r)|
    ensures exists i :: 0 <= i < |evs| && r in evs[i].ids
  {
    if forall i | 0 <= i < |evs| :: r !in evs[i].ids {
      HeldAreSurplus(ts[0], Ahead(ts[0], p, r), {});
      var held: nat := Surplus(ts[0], Ahead(ts[0], p, r));
      WaitsThroughout(ts, evs, p, limit, r, held);
      PassedOverAtMost(ts, evs, p, limit, r, held);
    }
  }

  lemma WaitsThroughout(ts: seq<Tables>, evs: seq<Event>, p: Policy, limit: nat, r: string, held: nat)
    requires Ticks(ts, evs) && OnlyReaps(ts, evs, p, limit) && r in Reapable(ts[0], p)
    requires held == Surplus(ts[0], Ahead(ts[0], p, r)) && forall i | 0 <= i < |evs| :: r !in evs[i].ids
    ensures WaitsForReap(ts, evs, p, r) && FewHeldBack(ts, evs, p, limit, held, r)
  {
    forall i | 0 <= i < |evs|
      ensures WaitsAt(ts, p, r, i) && FewAt(ts, evs, held, r, i)
    {
      PassedSoFar(ts, evs, p, limit, r, i);
      PassedSoFar(ts, evs, p, limit, r, i + 1);
      AlwaysPast(ts, evs, i);
      HeldBackIsSurplus(ts[i], evs[i], p, limit, r);
    }
  }

  lemma FractionIsSmaller(a: nat, m: nat)
    requires m > 0
    ensures a / m <= a
  {
    assert a == a / m * m + a % m;
    Monotone(1, m, a / m);
  }

  lemma {:induction false} FirstPick(evs: seq<Event>, p: Policy, limit: nat, r: string, i: nat) returns (first: nat)
    requires i < |evs| && (forall j | 0 <= j < |evs| :: ReapsWith(evs[j], p, limit)) && evs[i].ReapedFailed? && r in evs[i].ids
    ensures first < |evs| && evs[first].ReapedFailed? && r in evs[first].ids
    ensures forall j | 0 <= j < first :: evs[j].ReapedFailed? && r !in evs[j].ids
  {
    if j: nat :| j < i && evs[j].ReapedFailed? && r in evs[j].ids {
      first := FirstPick(evs, p, limit, r, j);
    } else {
      first := i;
    }
  }

  /**
   Exactly which rows reaping alone ever requeues. Once there have been more reaps than rows ahead of it,
   an eligible row with a time stamp of its own has been requeued if and only if fewer than `limit` rows
   ahead of it are surplus, and neither an active row nor a row ahead of it has its hash.
   */
  lemma RequeuedIff(ts: seq<Tables>, evs: seq<Event>, p: Policy, limit: nat, r: string)
    requires Ticks(ts, evs) && OnlyReaps(ts, evs, p, limit) && r in Reapable(ts[0], p) && Untied(ts[0], p, r)
    requires |evs| > |Ahead(ts[0], p, r)|
    ensures (exists i :: RequeuedAt(ts, evs, p, limit, r, i))
      <==> Surplus(ts[0], Ahead(ts[0], p, r)) < limit && Clear(ts[0], p, r)
  {
    if Surplus(ts[0], Ahead(ts[0], p, r)) >= limit {
      CrowdedNeverPicked(ts, evs, p, limit, r, |evs|);
    } else if !Clear(ts[0], p, r) {
      forall i: nat | i < |evs|
        ensures !RequeuedAt(ts, evs, p, limit, r, i)
      {
        UnclearNeverMoves(ts, evs, p, limit, r, i + 1);
      }
    } else {
      SomeReapPicks(ts, evs, p, limit, r);
      var i: nat :| i < |evs| && r in evs[i].ids;
      var first := FirstPick(evs, p, limit, r, i);
      PassedSoFar(ts, evs, p, limit, r, first);
      ClearIsRequeued(ts[first], evs[first], p, limit, r);
      assert RequeuedAt(ts, evs, p, limit, r, first);
    }
  }
}
