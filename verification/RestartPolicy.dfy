/** The bounded-rate restart policy, under any clock that never runs backwards. */
module RestartPolicy {
  import opened Options

  /** `BudgetExhausted` is declared and documented as a stage on the way to `FatalDegraded`. */
  datatype State = Ok | CoolingDown | BudgetExhausted | FatalDegraded

  /** What `manager.start()` does. */
  datatype Start = Returned(up: bool) | Raised

  const HOUR := 3600.0

  // ---------------------------------------------------------------------------------------------
  // The guarantee about recorded restarts

  ghost predicate Ascending(s: seq<real>) {
    forall i, j | 0 <= i < j < |s| :: s[i] <= s[j]
  }

  /** Restarts that fit into one hour are at most `max` in a row. */
  ghost predicate RateBounded(s: seq<real>, max: int) {
    forall i, j | 0 <= i <= j < |s| && s[j] - s[i] <= HOUR :: j - i + 1 <= max
  }

  ghost predicate Apart(s: seq<real>, gap: real) {
    forall i, j | 0 <= i < j < |s| :: s[j] - s[i] >= gap
  }

  ghost function Within(s: seq<real>, from: real): set<int> {
    set i | 0 <= i < |s| && from <= s[i] <= from + HOUR
  }

  /** Every closed window of an hour, wherever it starts, holds at most `max` restarts. */
  lemma WindowHoldsAtMost(s: seq<real>, from: real, max: int)
    requires Ascending(s) && RateBounded(s, max) && max >= 0
    ensures |Within(s, from)| <= max
  {
    PrefixHoldsAtMost(s, from, max, |s|);
    assert Within(s[..|s|], from) == Within(s, from);
  }

  lemma {:induction false} PrefixHoldsAtMost(s: seq<real>, from: real, max: int, n: nat)
    requires RateBounded(s, max) && max >= 0 && n <= |s|
    ensures |Within(s[..n], from)| <= max
  {
    if n == 0 {
      assert Within(s[..0], from) == {};
    } else if from <= s[n - 1] <= from + HOUR {
      forall i | i in Within(s[..n], from)
        ensures n - max <= i <= n - 1
      {
        assert s[n - 1] - s[i] <= HOUR;
      }
      RangeSize(Within(s[..n], from), n - max, n - 1);
    } else {
      PrefixHoldsAtMost(s, from, max, n - 1);
      assert Within(s[..n], from) == Within(s[..n - 1], from);
    }
  }

  lemma {:induction false} RangeSize(s: set<int>, lo: int, hi: int)
    requires forall i | i in s :: lo <= i <= hi
    requires lo <= hi + 1
    ensures |s| <= hi - lo + 1
    decreases hi - lo + 1
  {
    if lo <= hi {
      RangeSize(s - {hi}, lo, hi - 1);
    } else {
      assert forall i :: i !in s;
    }
  }

  // ---------------------------------------------------------------------------------------------
  // The gates

  function Pruned(times: seq<real>, now: real): seq<real> {
    if times != [] && times[0] < now - HOUR then Pruned(times[1..], now) else times
  }

  /** No restart is refused by the window, read at `t1`, or by the cooldown, read at `t2`. */
  predicate Permitted(state: State, times: seq<real>, last: Option<real>, max: int, cooldown: real, t1: real, t2: real) {
    && state != FatalDegraded && state != BudgetExhausted
    && |Pruned(times, t1)| < max
    && (last.Some? ==> t2 - last.value >= cooldown)
  }

  /** The restarts no older than an hour at `now`. */
  ghost function Recent(restarts: seq<real>, now: real): set<int> {
    set i | 0 <= i < |restarts| && restarts[i] >= now - 3600.0
  }

  /** The cooldown since the last restart is over at `now`. */
  ghost predicate Cooled(restarts: seq<real>, cooldown: real, now: real) {
    restarts != [] ==> now - restarts[|restarts| - 1] >= cooldown
  }

  lemma RecentAppend(s: seq<real>, x: real, now: real)
    ensures |Recent(s + [x], now)| == |Recent(s, now)| + if x >= now - 3600.0 then 1 else 0
  {
    assert Recent(s + [x], now) == Recent(s, now) + if x >= now - 3600.0 then {|s|} else {};
  }

  lemma {:induction false} AllRecent(s: seq<real>, now: real)
    requires forall i | 0 <= i < |s| :: s[i] >= now - 3600.0
    ensures |Recent(s, now)| == |s|
  {
    if s == [] {
      assert Recent(s, now) == {};
    } else {
      var init, last := s[..|s| - 1], s[|s| - 1];
      AllRecent(init, now);
      RecentAppend(init, last, now);
      assert s == init + [last];
    }
  }

  /** What went before, if it is older than an hour, does not count. */
  lemma {:induction false} StaleFirst(dropped: seq<real>, times: seq<real>, now: real)
    requires Stale(dropped, now)
    ensures |Recent(dropped + times, now)| == |Recent(times, now)|
  {
    if times == [] {
      assert Recent(dropped + times, now) == {} == Recent(times, now);
    } else {
      var init, last := times[..|times| - 1], times[|times| - 1];
      StaleFirst(dropped, init, now);
      RecentAppend(dropped + init, last, now);
      RecentAppend(init, last, now);
      assert dropped + times == dropped + init + [last] && times == init + [last];
    }
  }

  lemma {:induction false} PrunedCounts(times: seq<real>, now: real)
    requires Ascending(times)
    ensures |Pruned(times, now)| == |Recent(times, now)|
  {
    if times != [] && times[0] < now - HOUR {
      PrunedCounts(times[1..], now);
      StaleFirst([times[0]], times[1..], now);
      assert [times[0]] + times[1..] == times;
    } else {
      AllRecent(times, now);
    }
  }

  /** The gates in terms of all restarts ever recorded, those dropped from the window among them. */
  lemma PermittedMeans(state: State, dropped: seq<real>, times: seq<real>, max: int, cooldown: real, t1: real, t2: real)
    requires Ascending(dropped + times) && Stale(dropped, t1)
    ensures Permitted(state, times, LastOf(dropped + times), max, cooldown, t1, t2) <==>
      && state != FatalDegraded && state != BudgetExhausted
      && |Recent(dropped + times, t1)| < max && Cooled(dropped + times, cooldown, t2)
    ensures |Pruned(times, t1)| == |Recent(dropped + times, t1)|
  {
    StaleFirst(dropped, times, t1);
    AscendingPart(dropped, times);
    PrunedCounts(times, t1);
  }

  lemma AscendingPart(dropped: seq<real>, times: seq<real>)
    requires Ascending(dropped + times)
    ensures Ascending(times)
  {
    assert forall i | 0 <= i < |times| :: (dropped + times)[|dropped| + i] == times[i];
  }

  /** What is known of the recorded restarts at a time no earlier than any of them. */
  ghost predicate Lawful(restarts: seq<real>, max: int, cooldown: real, clock: real) {
    && Ascending(restarts) && Apart(restarts, cooldown) && RateBounded(restarts, max)
    && forall i | 0 <= i < |restarts| :: restarts[i] <= clock
  }

  function LastOf(s: seq<real>): Option<real> {
    if s == [] then None else Some(s[|s| - 1])
  }

  ghost predicate Stale(dropped: seq<real>, now: real) {
    forall i | 0 <= i < |dropped| :: dropped[i] < now - HOUR
  }

  class Policy {
    const maxPerHour: int
    const cooldown: real
    var times: seq<real>
    var last: Option<real>
    var state: State
    var disabled: bool
    ghost var dropped: seq<real>
    ghost var clock: real
    ghost var alarms: nat

    /** All restarts ever recorded: those pruned and those kept. */
    ghost function Restarts(): seq<real>
      reads this
    {
      dropped + times
    }

    ghost predicate Valid()
      reads this
    {
      && Lawful(dropped + times, maxPerHour, cooldown, clock)
      && Stale(dropped, clock)
      && last == LastOf(dropped + times)
      && state != BudgetExhausted
      && alarms == (if state == FatalDegraded then 1 else 0)
    }

    constructor (maxPerHour: int, cooldown: real, now: real)
      ensures Valid() && state == Ok && Restarts() == [] && !disabled && clock == now
      ensures this.maxPerHour == maxPerHour && this.cooldown == cooldown
    {
      this.maxPerHour, this.cooldown := maxPerHour, cooldown;
      times, last, state, disabled := [], None, Ok, false;
      dropped, clock, alarms := [], now, 0;
    }

    /** Drops what is older than an hour. */
    method PruneWindow(now: real)
      requires Valid() && clock <= now
      modifies this`times, this`dropped, this`clock
      ensures Valid() && clock == now && times == Pruned(old(times), now) && Restarts() == old(Restarts())
    {
      ghost var t := times;
      ghost var all := dropped + times;
      while times != [] && times[0] < now - HOUR
        invariant Pruned(times, now) == Pruned(t, now) && dropped + times == all && Stale(dropped, now)
        decreases |times|
      {
        assert dropped + times == dropped + [times[0]] + times[1..];
        dropped, times := dropped + [times[0]], times[1..];
      }
      clock := now;
    }

    /** At any time, of any hour. */
    lemma EveryHourIsBounded(from: real)
      requires Valid()
      ensures |Within(Restarts(), from)| <= if maxPerHour < 0 then 0 else maxPerHour
    {
      if maxPerHour < 0 {
        assert forall i | 0 <= i < |Restarts()| :: Restarts()[i] - Restarts()[i] <= HOUR;
        assert Within(Restarts(), from) == {};
      } else {
        WindowHoldsAtMost(Restarts(), from, maxPerHour);
      }
    }

    method Disable()
      requires Valid()
      modifies this`disabled
      ensures Valid() && disabled
    {
      disabled := true;
    }

    /** Does not look at the operator's switch, nor at whether a manager is bound. */
    method CanRestart(t1: real, t2: real) returns (ok: bool)
      requires Valid() && clock <= t1 <= t2
      modifies this`times, this`dropped, this`clock
      ensures Restarts() == old(Restarts())
      ensures Valid() && (ok <==> state != FatalDegraded && |Recent(Restarts(), t1)| < maxPerHour && Cooled(Restarts(), cooldown, t2))
    {
      PermittedMeans(state, dropped, times, maxPerHour, cooldown, t1, t2);
      if state == FatalDegraded || state == BudgetExhausted {
        return false;
      }
      PruneWindow(t1);
      if |times| >= maxPerHour {
        return false;
      }
      if last.Some? {
        clock := t2;
        if t2 - last.value < cooldown {
          return false;
        }
      }
      return true;
    }

    /** Raises the alarm once. */
    method EnterFatalDegraded(now: real)
      requires Valid() && clock <= now
      modifies this`times, this`dropped, this`state, this`clock, this`alarms
      ensures Valid() && state == FatalDegraded && Restarts() == old(Restarts()) && clock <= now
    {
      if state == FatalDegraded {
        return;
      }
      state := FatalDegraded;
      alarms := alarms + 1;
      PruneWindow(now);
    }

    /** The gates of an attempt, in order: the cooldown, then the budget. */
    method PassGates(t1: real, t2: real, t3: real) returns (open: bool)
      requires Valid() && clock <= t1 <= t2 <= t3 && state != FatalDegraded
      modifies this`times, this`dropped, this`state, this`clock, this`alarms
      ensures Valid() && Restarts() == old(Restarts()) && clock <= t3
      ensures open <==> Permitted(old(state), old(times), last, maxPerHour, cooldown, t1, t2)
      ensures open ==> |times| < maxPerHour && Stale(dropped, t1) && state == old(state)
      ensures !open ==> state == if Cooled(Restarts(), cooldown, t2) then FatalDegraded else CoolingDown
    {
      PruneWindow(t1);
      if last.Some? {
        if t2 - last.value < cooldown {
          state := CoolingDown;
          return false;
        }
      }
      if |times| >= maxPerHour {
        EnterFatalDegraded(t3);
        return false;
      }
      return true;
    }

    method Record(ghost t1: real, t3: real)
      requires Valid() && clock <= t3 && t1 <= t3 && |times| < maxPerHour && Stale(dropped, t1)
      requires state != FatalDegraded && (last.Some? ==> t3 - last.value >= cooldown)
      modifies this`times, this`last, this`state, this`clock
      ensures Valid() && state == Ok && Restarts() == old(Restarts()) + [t3] && clock == t3
    {
      RecordedIsLawful(dropped, times, t1, t3, maxPerHour, cooldown, clock);
      times, last, state, clock := times + [t3], Some(t3), Ok, t3;
    }

    ghost predicate Admits(t1: real, t2: real)
      reads this
    {
      Permitted(state, times, last, maxPerHour, cooldown, t1, t2)
    }

    /** The part of an attempt made under the lock. */
    method AttemptLocked(bound: bool, start: Start, t1: real, t2: real, t3: real) returns (ok: bool, ghost issued: bool)
      requires Valid() && clock <= t1 <= t2 <= t3 && state != FatalDegraded
      modifies this`times, this`dropped, this`last, this`state, this`clock, this`alarms
      ensures Valid() && clock <= t3
      ensures issued <==> bound && old(Admits(t1, t2))
      ensures Restarts() == if issued && start.Returned? then old(Restarts()) + [t3] else old(Restarts())
      ensures ok <==> issued && start == Returned(true)
      ensures state == if !Cooled(old(Restarts()), cooldown, t2) then CoolingDown
                       else if !old(Admits(t1, t2)) || (issued && start.Raised?) then FatalDegraded
                       else if issued then Ok else old(state)
    {
      ok, issued := false, false;
      var open := PassGates(t1, t2, t3);
      if !open || !bound {
        return;
      }
      issued := true;
      if start.Raised? {
        EnterFatalDegraded(t3);
        return;
      }
      Record(t1, t3);
      ok := start.up;
    }

    /**
     One attempt. A restart is issued exactly when the policy is enabled and not degraded, a manager is
     bound, fewer restarts than the budget lie in the hour before, and the cooldown since the last is over;
     only then can one be recorded. The state tells which of these failed: the cooldown, looked at first,
     or for good the budget or a start that raised.
     */
    method AttemptRestart(bound: bool, start: Start, t1: real, t2: real, t3: real) returns (ok: bool, ghost issued: bool)
      requires Valid() && clock <= t1 <= t2 <= t3
      modifies this`times, this`dropped, this`last, this`state, this`clock, this`alarms
      ensures Valid() && clock <= t3
      ensures issued <==>
        && bound && !disabled && old(state) != FatalDegraded
        && |Recent(old(Restarts()), t1)| < maxPerHour && Cooled(old(Restarts()), cooldown, t2)
      ensures Restarts() == if issued && start.Returned? then old(Restarts()) + [t3] else old(Restarts())
      ensures ok <==> issued && start == Returned(true)
      ensures state == if disabled || old(state) == FatalDegraded then old(state)
                       else if !Cooled(old(Restarts()), cooldown, t2) then CoolingDown
                       else if |Recent(old(Restarts()), t1)| >= maxPerHour || (bound && start.Raised?) then FatalDegraded
                       else if bound then Ok else old(state)
    {
      PermittedMeans(state, dropped, times, maxPerHour, cooldown, t1, t2);
      if disabled || state == FatalDegraded {
        return false, false;
      }
      ok, issued := AttemptLocked(bound, start, t1, t2, t3);
    }
  }

  lemma RecordedIsBounded(dropped: seq<real>, times: seq<real>, t1: real, t3: real, max: int)
    requires RateBounded(dropped + times, max) && Stale(dropped, t1) && t1 <= t3 && |times| < max
    ensures RateBounded(dropped + times + [t3], max)
  {
    var before := dropped + times;
    var after := before + [t3];
    forall i, j | 0 <= i <= j < |after| && after[j] - after[i] <= HOUR
      ensures j - i + 1 <= max
    {
      assert i < |dropped| ==> after[i] == dropped[i];
      if j < |before| {
        assert after[i] == before[i] && after[j] == before[j];
      }
    }
  }

  lemma RecordedIsApart(before: seq<real>, t3: real, gap: real)
    requires Ascending(before) && Apart(before, gap)
    requires before == [] || t3 - before[|before| - 1] >= gap
    ensures Apart(before + [t3], gap)
  {
    var after := before + [t3];
    forall i, j | 0 <= i < j < |after|
      ensures after[j] - after[i] >= gap
    {
      if j == |before| {
        assert before[i] <= before[|before| - 1];
      }
    }
  }

  /** A restart recorded after the gates keeps every window within the budget, and its distance. */
  lemma RecordedIsLawful(dropped: seq<real>, times: seq<real>, t1: real, t3: real, max: int, cooldown: real, clock: real)
    requires Lawful(dropped + times, max, cooldown, clock) && clock <= t3 && t1 <= t3 && |times| < max && Stale(dropped, t1)
    requires LastOf(dropped + times).Some? ==> t3 - LastOf(dropped + times).value >= cooldown
    ensures Lawful(dropped + (times + [t3]), max, cooldown, t3)
    ensures LastOf(dropped + (times + [t3])) == Some(t3) && dropped + (times + [t3]) == dropped + times + [t3]
  {
    assert dropped + (times + [t3]) == dropped + times + [t3];
    RecordedIsBounded(dropped, times, t1, t3, max);
    RecordedIsApart(dropped + times, t3, cooldown);
  }
}
