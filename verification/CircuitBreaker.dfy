/** The three-state circuit breaker: when its hook fires, and after what. */
module CircuitBreaker {
  import opened Options

  datatype State = Closed | Open | HalfOpen

  /** What has been reported to the breaker, oldest first. */
  datatype Report = Success | Failure

  /** The hook fired at `at`, after a run of `failures` failures with no success in between. */
  datatype Firing = Firing(at: real, failures: nat)

  /** How many failures the reports end with. */
  function Streak(reports: seq<Report>): nat {
    if reports == [] || reports[|reports| - 1] == Success then 0 else Streak(reports[..|reports| - 1]) + 1
  }

  lemma StreakGrows(reports: seq<Report>, r: Report)
    ensures Streak(reports + [r]) == if r == Success then 0 else Streak(reports) + 1
  {
    assert (reports + [r])[..|reports|] == reports;
  }

  /** At least `n` failures have been reported since the last success. */
  lemma {:induction false} StreakMeans(reports: seq<Report>, n: nat)
    ensures Streak(reports) >= n <==> n <= |reports| && forall i | |reports| - n <= i < |reports| :: reports[i] == Failure
  {
    if reports != [] && n > 0 {
      var init := reports[..|reports| - 1];
      StreakMeans(init, n - 1);
      assert forall i | 0 <= i < |init| :: init[i] == reports[i];
    }
  }

  function Max(a: int, b: int): int {
    if a < b then b else a
  }

  /** Each firing ended a run of exactly `failures` failures, and any two are `gap` or more apart. */
  ghost predicate Spaced(firings: seq<Firing>, failures: nat, gap: real, clock: real) {
    && (forall i | 0 <= i < |firings| :: firings[i].failures == failures && firings[i].at <= clock)
    && (forall i, j | 0 <= i < j < |firings| :: firings[j].at >= firings[i].at + gap)
  }

  lemma OneMoreFiring(firings: seq<Firing>, failures: nat, gap: real, clock: real, openedAt: real, now: real)
    requires Spaced(firings, failures, gap, clock) && clock <= openedAt <= now
    requires forall i | 0 <= i < |firings| :: clock >= firings[i].at + gap
    ensures Spaced(firings + [Firing(openedAt, failures)], failures, gap, now)
    ensures forall i | 0 <= i < |firings + [Firing(openedAt, failures)]| ::
      now + gap >= (firings + [Firing(openedAt, failures)])[i].at + gap
  {
  }

  class Breaker {
    const threshold: int
    const resetTimeout: real
    var state: State
    var failures: nat
    var retryAt: Option<real>
    ghost var clock: real
    ghost var reports: seq<Report>
    ghost var firings: seq<Firing>

    /** The last firing is `resetTimeout` or more ago. */
    ghost predicate Rested(now: real)
      reads this
    {
      forall i | 0 <= i < |firings| :: now >= firings[i].at + resetTimeout
    }

    ghost predicate Valid()
      reads this
    {
      && (state == Closed ==> failures == Streak(reports) < Max(1, threshold) && Rested(clock))
      && (state == HalfOpen ==> Rested(clock))
      && (state == Open ==> retryAt.Some? && (Rested(clock) || Rested(retryAt.value)))
      && Spaced(firings, Max(1, threshold), resetTimeout, clock)
    }

    constructor (threshold: int, resetTimeout: real, now: real)
      ensures Valid() && state == Closed && firings == [] && clock == now
      ensures this.threshold == threshold && this.resetTimeout == resetTimeout
    {
      this.threshold, this.resetTimeout := threshold, resetTimeout;
      state, failures, retryAt := Closed, 0, None;
      clock, reports, firings := now, [], [];
    }

    /** While the circuit is open no probe goes out before the reset timeout has passed. */
    method AllowProbe(now: real) returns (ok: bool)
      requires Valid() && clock <= now
      modifies this`state, this`clock
      ensures Valid() && clock == now
      ensures ok <==> old(state) != Open || now >= retryAt.value
      ensures state == if old(state) == Open && ok then HalfOpen else old(state)
    {
      clock := now;
      if state == Closed {
        return true;
      }
      if state == Open {
        if retryAt.Some? && now >= retryAt.value {
          state := HalfOpen;
          return true;
        }
        return false;
      }
      return true;
    }

    method RecordSuccess(now: real)
      requires Valid() && clock <= now
      modifies this`state, this`failures, this`retryAt, this`clock, this`reports
      ensures Valid() && clock == now && reports == old(reports) + [Success]
      ensures state == if old(state) == HalfOpen then Closed else old(state)
    {
      StreakGrows(reports, Success);
      clock, reports := now, reports + [Success];
      if state == HalfOpen {
        state, failures, retryAt := Closed, 0, None;
      } else if state == Closed {
        failures := 0;
      }
    }

    /**
     The hook fires on closed to open only, never when a probe fails; `openedAt` is the reading taken for
     the transition and `now` the one the retry time is counted from.
     */
    method RecordFailure(openedAt: real, now: real) returns (ghost fired: bool)
      requires Valid() && clock <= openedAt <= now
      modifies this`state, this`failures, this`retryAt, this`clock, this`reports, this`firings
      ensures Valid() && clock == now && reports == old(reports) + [Failure]
      ensures fired <==> old(state) == Closed && Streak(reports) >= threshold
      ensures firings == if fired then old(firings) + [Firing(openedAt, Max(1, threshold))] else old(firings)
      ensures state == if old(state) == HalfOpen || fired then Open else old(state)
      ensures old(state) == HalfOpen || fired ==> retryAt == Some(now + resetTimeout)
    {
      StreakGrows(reports, Failure);
      fired := false;
      clock, reports, failures := now, reports + [Failure], failures + 1;
      if state == HalfOpen {
        state, retryAt := Open, Some(now + resetTimeout);
      } else if state == Closed {
        if failures >= threshold {
          fired := true;
          OneMoreFiring(firings, Max(1, threshold), resetTimeout, old(clock), openedAt, now);
          firings := firings + [Firing(openedAt, failures)];
          state, retryAt := Open, Some(now + resetTimeout);
        }
      }
    }
  }
}
