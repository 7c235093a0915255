/**
 The circuit breaker of internal/api/circuitbreaker.go. Its mutex makes every method one step, so any
 concurrent use is some sequence of checks and records. Times are nanoseconds.
 */
module Breaker {

  const THRESHOLD := 8
  const RESET_AFTER := 30_000_000_000

  datatype State = State(failures: nat, lastFailure: int, open: bool)

  const FRESH := State(0, 0, false)

  /** An open breaker whose last failure is long enough ago closes when it is asked. */
  function AfterCheck(s: State, now: int): State {
    if s.open && now - s.lastFailure >= RESET_AFTER then s.(open := false, failures := 0) else s
  }

  function AfterSuccess(s: State): State {
    s.(failures := 0, open := false)
  }

  function AfterFailure(s: State, now: int): State {
    State(s.failures + 1, now, s.open || s.failures + 1 >= THRESHOLD)
  }

  class CircuitBreaker {
    var failures: nat
    var lastFailure: int
    var open: bool

    ghost function Now(): State
      reads this
    {
      State(failures, lastFailure, open)
    }

    constructor ()
      ensures Now() == FRESH
    {
      failures, lastFailure, open := 0, 0, false;
    }

    /** circuitbreaker.go `IsOpen`. */
    method IsOpen(now: int) returns (rejecting: bool)
      modifies this
      ensures Now() == AfterCheck(old(Now()), now)
      ensures rejecting == open
    {
      if !open {
        return false;
      }
      if now - lastFailure >= RESET_AFTER {
        open := false;
        failures := 0;
        return false;
      }
      return true;
    }

    /** circuitbreaker.go `RecordSuccess`. */
    method RecordSuccess()
      modifies this
      ensures Now() == AfterSuccess(old(Now()))
    {
      failures := 0;
      open := false;
    }

    /** circuitbreaker.go `RecordFailure`. */
    method RecordFailure(now: int) returns (justOpened: bool)
      modifies this
      ensures Now() == AfterFailure(old(Now()), now)
      ensures justOpened <==> open && !old(open)
    {
      failures := failures + 1;
      lastFailure := now;
      if failures >= THRESHOLD && !open {
        open := true;
        return true;
      }
      return false;
    }
  }

  // ---------------------------------------------------------------- runs

  datatype Use = Check(now: int) | Success | Failure(now: int)

  function Apply(s: State, u: Use): State {
    match u
    case Check(now) => AfterCheck(s, now)
    case Success => AfterSuccess(s)
    case Failure(now) => AfterFailure(s, now)
  }

  function Run(uses: seq<Use>): State
    decreases |uses|
  {
    if uses == [] then FRESH else Apply(Run(uses[..|uses| - 1]), uses[|uses| - 1])
  }

  /** The time of the last failure recorded. */
  function LastFailure(uses: seq<Use>): int
    decreases |uses|
  {
    if uses == [] then 0
    else
      var u := uses[|uses| - 1];
      if u.Failure? then u.now else LastFailure(uses[..|uses| - 1])
  }

  /**
   The reference: how many failures were recorded since the last success, or since the last check that came
   `RESET_AFTER` after the last of a streak of at least `THRESHOLD`.
   */
  function Streak(uses: seq<Use>): nat
    decreases |uses|
  {
    if uses == [] then 0
    else
      var before := uses[..|uses| - 1];
      match uses[|uses| - 1]
      case Success => 0
      case Failure(_) => Streak(before) + 1
      case Check(now) =>
        if Streak(before) >= THRESHOLD && now - LastFailure(before) >= RESET_AFTER then 0 else Streak(before)
  }

  /** In every reachable state the counter is the streak, and the breaker is open exactly from the threshold on. */
  lemma {:induction false} BreakerCountsStreak(uses: seq<Use>)
    ensures Run(uses) == State(Streak(uses), LastFailure(uses), Streak(uses) >= THRESHOLD)
    decreases |uses|
  {
    if uses != [] {
      BreakerCountsStreak(uses[..|uses| - 1]);
    }
  }
}
