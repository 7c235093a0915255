/**
 The retrying transport of internal/api/transport.go over an arbitrary script of responses, and its use of
 the circuit breaker. Durations and times are nanoseconds in Go's int64.
 */
module Transport {
  import opened Text
  import opened Breaker

  const SECOND := 1_000_000_000
  const MAX_RETRY_429 := 3
  const MAX_RETRY_5XX := 2
  const MAX_RETRY_DELAY := 30 * SECOND
  const TWO_63 := 0x8000_0000_0000_0000

  /** The Retry-After header: missing or unreadable, a number of seconds, or a date `wait` from now. */
  datatype RetryAfter = Unreadable | Seconds(n: int) | Date(wait: int)

  datatype Reply = Broken | Response(status: int, retryAfter: RetryAfter)

  /** What happens at one attempt: the reply, the jitter drawn, whether the context ends the sleep, the time. */
  datatype Attempt = Attempt(reply: Reply, jitter: nat, cancelled: bool, at: int)

  type Script = nat -> Attempt

  /** An int64 product that wraps around. */
  function Wrap(x: int): int {
    (x + TWO_63) % (2 * TWO_63) - TWO_63
  }

  function ClampDuration(d: int): (r: int)
    ensures 0 <= r <= MAX_RETRY_DELAY
    ensures r > d ==> r == 0
    ensures r < d ==> r == MAX_RETRY_DELAY
  {
    if d <= 0 then 0 else if d > MAX_RETRY_DELAY then MAX_RETRY_DELAY else d
  }

  function Pow2(n: nat): (r: nat)
    ensures r >= 1
  {
    if n == 0 then 1 else 2 * Pow2(n - 1)
  }

  /** The jitter lies between nothing and half the base delay. */
  predicate JitterOk(jitter: nat, attempt: nat) {
    jitter <= Pow2(attempt) * SECOND / 2
  }

  /** transport.go `calculateBackoff`. */
  function CalculateBackoff(retryAfter: RetryAfter, attempt: nat, jitter: nat): (d: int)
    ensures 0 <= d <= MAX_RETRY_DELAY
  {
    if retryAfter.Seconds? && retryAfter.n > 0 then ClampDuration(Wrap(retryAfter.n * SECOND))
    else if retryAfter.Date? && retryAfter.wait > 0 then ClampDuration(retryAfter.wait)
    else ClampDuration(Pow2(attempt) * SECOND + jitter)
  }

  /** The header asks for no wait in the future. */
  predicate NoHint(retryAfter: RetryAfter) {
    match retryAfter
    case Unreadable => true
    case Seconds(n) => n <= 0
    case Date(wait) => wait <= 0
  }

  /** Up to attempt 4, where the retry budgets keep it, the exponential delay is not clamped. */
  lemma ExponentialNotClamped(retryAfter: RetryAfter, attempt: nat, jitter: nat)
    requires attempt <= 4 && JitterOk(jitter, attempt) && NoHint(retryAfter)
    ensures CalculateBackoff(retryAfter, attempt, jitter) == Pow2(attempt) * SECOND + jitter <= 24 * SECOND
  {
    assert Pow2(attempt) <= 16 by {
      assert Pow2(0) == 1 && Pow2(1) == 2 && Pow2(2) == 4 && Pow2(3) == 8 && Pow2(4) == 16;
    }
  }

  /** The longest wait that is granted to a number of seconds. */
  function Asked(n: int): int { (if n > 30 then 30 else n) * SECOND }

  /** The most seconds whose nanoseconds an int64 holds. */
  const LAST_SECOND := 9_223_372_036

  /**
   A Retry-After in seconds is honoured, up to the maximum, exactly when it is at most the maximum or its
   nanoseconds, wrapped to 64 bits, still are at least that; up to `LAST_SECOND` this always is so. It asks
   for no wait at all exactly when they wrap to nothing or below.
   */
  lemma RetryAfterHonoured(n: int, attempt: nat, jitter: nat)
    requires 0 < n < TWO_63
    ensures var d := CalculateBackoff(Seconds(n), attempt, jitter);
            && (d == Asked(n) <==> n <= 30 || Wrap(n * SECOND) >= MAX_RETRY_DELAY)
            && (n <= LAST_SECOND ==> d == Asked(n))
            && (d == 0 <==> Wrap(n * SECOND) <= 0)
  {}

  /** The next number of seconds is the first that is not honoured: it asks for no wait at all. */
  lemma FirstDishonoured(attempt: nat, jitter: nat)
    ensures CalculateBackoff(Seconds(LAST_SECOND + 1), attempt, jitter) == 0
  {}

  /** A Retry-After date is honoured up to the maximum; one that has passed leaves the exponential delay. */
  lemma DateHonoured(wait: int, attempt: nat, jitter: nat)
    ensures CalculateBackoff(Date(wait), attempt, jitter) ==
            if wait <= 0 then CalculateBackoff(Unreadable, attempt, jitter)
            else if wait > MAX_RETRY_DELAY then MAX_RETRY_DELAY else wait
  {}

  // ---------------------------------------------------------------- the retry budgets

  predicate Is429(r: Reply) { r.Response? && r.status == 429 }

  predicate Is5xx(r: Reply) { r.Response? && r.status >= 500 }

  /** How many of the first `k` replies are 429s. */
  function Count429(script: Script, k: nat): nat {
    if k == 0 then 0 else Count429(script, k - 1) + if Is429(script(k - 1).reply) then 1 else 0
  }

  function Count5xx(script: Script, k: nat): nat {
    if k == 0 then 0 else Count5xx(script, k - 1) + if Is5xx(script(k - 1).reply) then 1 else 0
  }

  /** Reply `k` is one that is tried again, given what came before it. */
  predicate Retried(script: Script, k: nat) {
    var r := script(k).reply;
    (Is429(r) && Count429(script, k) < MAX_RETRY_429) || (Is5xx(r) && Count5xx(script, k) < MAX_RETRY_5XX)
  }

  /** The first `k` attempts were all tried again, and none of the sleeps between was cancelled. */
  ghost predicate AllRetried(script: Script, k: nat) {
    forall j :: 0 <= j < k ==> Passed(script, j)
  }

  predicate Passed(script: Script, k: nat) {
    Retried(script, k) && !script(k).cancelled
  }

  /** Both budgets together bound the attempts. */
  lemma {:induction false} RetriedBound(script: Script, k: nat)
    requires AllRetried(script, k)
    ensures Count429(script, k) <= MAX_RETRY_429 && Count5xx(script, k) <= MAX_RETRY_5XX
    ensures k == Count429(script, k) + Count5xx(script, k)
  {
    if k > 0 {
      assert Passed(script, k - 1);
      RetriedBound(script, k - 1);
    }
  }

  /** Attempts that are retried are among the first five. */
  lemma RetriedEarly(script: Script, k: nat)
    requires AllRetried(script, k) && Retried(script, k)
    ensures k <= 4
  {
    RetriedBound(script, k);
  }

  /** The sleep asked for after attempt `k`, when that is retried. */
  function WaitAt(script: Script, k: nat): int {
    var a := script(k);
    if Is429(a.reply) then CalculateBackoff(a.reply.retryAfter, k, a.jitter) else (k + 1) * SECOND
  }

  // ---------------------------------------------------------------- one round trip

  datatype Outcome = Rejected | Unreplayable | Failed | Cancelled | Returned(status: int)

  function Total(waits: seq<int>): int {
    if waits == [] then 0 else Total(waits[..|waits| - 1]) + waits[|waits| - 1]
  }

  /** What a call that got past the breaker's check leaves the breaker in. */
  function Recorded(s: State, o: Outcome, at: int): State {
    match o
    case Failed => AfterFailure(s, at)
    case Returned(status) =>
      if status < 400 then AfterSuccess(s) else if status >= 500 then AfterFailure(s, at) else s
    case _ => s
  }

  /** How an outcome after `calls` attempts follows from the script. */
  ghost predicate Follows(script: Script, o: Outcome, calls: nat) {
    && 0 < calls <= 6 && AllRetried(script, calls - 1)
    && var last := script(calls - 1);
       match o
       case Failed => last.reply.Broken?
       case Cancelled => Retried(script, calls - 1) && last.cancelled
       case Returned(status) => last.reply.Response? && last.reply.status == status && !Retried(script, calls - 1)
       case _ => false
  }

  class RetryTransport {
    const cb: CircuitBreaker?

    constructor (cb: CircuitBreaker?)
      ensures this.cb == cb
    {
      this.cb := cb;
    }

    /** One turn of the attempt loop: an outcome, or a wait before the next turn. */
    method TryOnce(script: Script, attempt: nat, retries429: nat, retries5xx: nat)
      returns (o: Option<Outcome>, now429: nat, now5xx: nat, wait: int)
      requires retries429 == Count429(script, attempt) && retries5xx == Count5xx(script, attempt)
      requires retries429 <= MAX_RETRY_429 && retries5xx <= MAX_RETRY_5XX
      modifies cb
      ensures o.Some? ==> !Retried(script, attempt) && Ends(script(attempt).reply, o.value)
      ensures o.None? ==> Retried(script, attempt)
      ensures now429 == (if o.None? then Count429(script, attempt + 1) else retries429)
      ensures now5xx == (if o.None? then Count5xx(script, attempt + 1) else retries5xx)
      ensures o.None? ==> retries429 <= now429 <= MAX_RETRY_429 && retries5xx <= now5xx <= MAX_RETRY_5XX
      ensures o.None? ==> now429 + now5xx == retries429 + retries5xx + 1
      ensures o.None? ==> wait == WaitAt(script, attempt)
      ensures o.None? ==> (now5xx == retries5xx <==> Is429(script(attempt).reply))
      ensures cb != null ==>
                cb.Now() == if o.None? then old(cb.Now()) else Recorded(old(cb.Now()), o.value, script(attempt).at)
    {
      var resp := script(attempt);
      now429, now5xx, wait := retries429, retries5xx, 0;
      if resp.reply.Broken? {
        if cb != null {
          var _ := cb.RecordFailure(resp.at);
        }
        return Some(Failed), now429, now5xx, wait;
      }
      var status := resp.reply.status;
      if status < 400 {
        if cb != null {
          cb.RecordSuccess();
        }
        return Some(Returned(status)), now429, now5xx, wait;
      } else if status == 429 && retries429 < MAX_RETRY_429 {
        now429 := now429 + 1;
        wait := CalculateBackoff(resp.reply.retryAfter, attempt, resp.jitter);
      } else if status >= 500 && retries5xx < MAX_RETRY_5XX {
        now5xx := now5xx + 1;
        wait := (attempt + 1) * SECOND;
      } else {
        if cb != null && status >= 500 {
          var _ := cb.RecordFailure(resp.at);
        }
        return Some(Returned(status)), now429, now5xx, wait;
      }
      o := None;
    }

    /**
     transport.go `RoundTrip` at time `start`; `unreadable` if the request body cannot be buffered. `calls`
     counts the base round trips, `waits` are the sleeps asked for.
     */
    method RoundTrip(script: Script, start: int, unreadable: bool) returns (o: Outcome, calls: nat, waits: seq<int>)
      modifies cb
      ensures o.Rejected? <==> cb != null && AfterCheck(old(cb.Now()), start).open
      ensures o.Unreplayable? <==> !o.Rejected? && unreadable
      ensures if o.Rejected? || o.Unreplayable? then calls == 0 && waits == [] else Follows(script, o, calls)
      ensures cb != null ==>
                var end := if calls > 0 then script(calls - 1).at else start;
                cb.Now() == Recorded(AfterCheck(old(cb.Now()), start), o, end)
      ensures |waits| == if o.Cancelled? || calls == 0 then calls else calls - 1
      ensures forall j :: 0 <= j < |waits| ==> waits[j] == WaitAt(script, j)
      ensures Total(waits) <= 99 * SECOND
    {
      o, calls, waits := Rejected, 0, [];
      if cb != null {
        var rejecting := cb.IsOpen(start);
        if rejecting {
          return;
        }
      }
      if unreadable {
        o := Unreplayable;
        return;
      }
      o, calls, waits := Attempts(script);
    }

    /** The attempt loop; the code after it is never reached. */
    method Attempts(script: Script) returns (o: Outcome, calls: nat, waits: seq<int>)
      modifies cb
      ensures Follows(script, o, calls)
      ensures cb != null ==> cb.Now() == Recorded(old(cb.Now()), o, script(calls - 1).at)
      ensures |waits| == if o.Cancelled? then calls else calls - 1
      ensures forall j :: 0 <= j < |waits| ==> waits[j] == WaitAt(script, j)
      ensures Total(waits) <= 99 * SECOND
    {
      hide Count429, Count5xx, Retried, Total, CalculateBackoff;
      o, calls, waits := Cancelled, 0, [];
      NoWaits();
      RetriedBound(script, 0);
      var retries429, retries5xx := 0, 0;
      for attempt := 0 to 1 + MAX_RETRY_429 + MAX_RETRY_5XX
        invariant calls == attempt == |waits| <= 5
        invariant AllRetried(script, attempt)
        invariant retries429 == Count429(script, attempt) && retries5xx == Count5xx(script, attempt)
        invariant cb != null ==> cb.Now() == old(cb.Now())
        invariant forall j :: 0 <= j < |waits| ==> waits[j] == WaitAt(script, j)
        invariant Total(waits) <= WaitBound(retries429, retries5xx, attempt)
      {
        RetriedBound(script, attempt);
        var done, wait;
        ghost var before429, before5xx := retries429, retries5xx;
        done, retries429, retries5xx, wait := TryOnce(script, attempt, retries429, retries5xx);
        calls := calls + 1;
        if done.Some? {
          o := done.value;
          return;
        }
        TotalAppend(waits, wait);
        WaitBoundGrows(before429, before5xx, retries429, retries5xx, attempt, wait);
        waits := waits + [wait];
        if script(attempt).cancelled {
          return;
        }
        assert Passed(script, attempt);
      }
      assert false;
    }
  }

  /** The replies that end the loop with a given outcome. */
  predicate Ends(r: Reply, o: Outcome) {
    if r.Broken? then o == Failed else o == Returned(r.status)
  }

  /** The longest that the sleeps before an attempt can take, given the retries so far. */
  function WaitBound(retries429: nat, retries5xx: nat, attempt: nat): int {
    retries429 * MAX_RETRY_DELAY +
    (if retries5xx == 0 then 0 else if retries5xx == 1 then attempt else 2 * attempt - 1) * SECOND
  }

  lemma WaitBoundGrows(r429: nat, r5xx: nat, r429': nat, r5xx': nat, attempt: nat, wait: int)
    requires r429 + r5xx == attempt && r429 <= r429' <= MAX_RETRY_429 && r5xx <= r5xx' <= MAX_RETRY_5XX
    requires r429' + r5xx' == attempt + 1
    requires if r5xx' == r5xx then 0 <= wait <= MAX_RETRY_DELAY else wait == (attempt + 1) * SECOND
    ensures WaitBound(r429, r5xx, attempt) + wait <= WaitBound(r429', r5xx', attempt + 1) <= 99 * SECOND
  {}

  lemma NoWaits()
    ensures Total([]) == 0
  {}

  lemma TotalAppend(waits: seq<int>, wait: int)
    ensures Total(waits + [wait]) == Total(waits) + wait
  {
    assert (waits + [wait])[..|waits|] == waits;
  }

  // ---------------------------------------------------------------- what an outcome tells

  /** A returned 429 follows exactly three retried ones, a returned 5xx exactly two. */
  lemma ExhaustedBudgets(script: Script, o: Outcome, calls: nat)
    requires Follows(script, o, calls)
    ensures o == Returned(429) ==> Count429(script, calls - 1) == 3
    ensures o.Returned? && o.status >= 500 ==> Count5xx(script, calls - 1) == 2
  {
    RetriedBound(script, calls - 1);
  }

  /** A sleep of a round trip after a 429 without a hint is the exponential delay, and never clamped. */
  lemma SleepsAreExponential(script: Script, o: Outcome, calls: nat, j: nat)
    requires Follows(script, o, calls) && j < if o.Cancelled? then calls else calls - 1
    requires Is429(script(j).reply) && NoHint(script(j).reply.retryAfter) && JitterOk(script(j).jitter, j)
    ensures j <= 4 && WaitAt(script, j) == Pow2(j) * SECOND + script(j).jitter <= 24 * SECOND
  {
    hide Retried, CalculateBackoff;
    assert j < calls - 1 ==> Passed(script, j);
    RetriedEarly(script, j);
    ExponentialNotClamped(script(j).reply.retryAfter, j, script(j).jitter);
  }

  /** A sleep after a server error is one second for each attempt so far, so at most five. */
  lemma ServerErrorSleeps(script: Script, o: Outcome, calls: nat, j: nat)
    requires Follows(script, o, calls) && j < if o.Cancelled? then calls else calls - 1
    requires Is5xx(script(j).reply)
    ensures WaitAt(script, j) == (j + 1) * SECOND <= 5 * SECOND
  {
    hide Retried, CalculateBackoff;
    assert j < calls - 1 ==> Passed(script, j);
    RetriedEarly(script, j);
  }

  /** The script determines the outcome and the number of base calls. */
  lemma OutcomeIsDetermined(script: Script, o: Outcome, calls: nat, o': Outcome, calls': nat)
    requires Follows(script, o, calls) && Follows(script, o', calls')
    ensures o == o' && calls == calls'
  {
    LastNotPassed(script, o, calls);
    LastNotPassed(script, o', calls');
  }

  lemma LastNotPassed(script: Script, o: Outcome, calls: nat)
    requires Follows(script, o, calls)
    ensures !Passed(script, calls - 1) && forall j :: 0 <= j < calls - 1 ==> Passed(script, j)
  {}

  // ---------------------------------------------------------------- calls one after the other

  /** A round trip as the breaker sees it: when it starts, and how and when it ends if it is let through. */
  datatype Call = Call(start: int, outcome: Outcome, at: int)

  predicate LetThrough(s: State, c: Call) {
    !AfterCheck(s, c.start).open
  }

  function AfterCall(s: State, c: Call): State {
    var checked := AfterCheck(s, c.start);
    if checked.open then checked else Recorded(checked, c.outcome, c.at)
  }

  function AfterCalls(s: State, calls: seq<Call>): State
    decreases |calls|
  {
    if calls == [] then s else AfterCall(AfterCalls(s, calls[..|calls| - 1]), calls[|calls| - 1])
  }

  predicate IsFailure(o: Outcome) {
    o.Failed? || (o.Returned? && o.status >= 500)
  }

  /** How many of the calls were let through and failed. */
  function Failures(s: State, calls: seq<Call>): nat
    decreases |calls|
  {
    if calls == [] then 0
    else
      var before, c := AfterCalls(s, calls[..|calls| - 1]), calls[|calls| - 1];
      Failures(s, calls[..|calls| - 1]) + if LetThrough(before, c) && IsFailure(c.outcome) then 1 else 0
  }

  /** While the breaker is open and its last failure is recent, calls are turned away and change nothing. */
  lemma OpenTurnsAway(s: State, c: Call)
    requires s.open && c.start - s.lastFailure < 30 * SECOND
    ensures !LetThrough(s, c) && AfterCall(s, c) == s
  {}

  predicate IsSuccess(o: Outcome) {
    o.Returned? && o.status < 400
  }

  /** A call that was let through and succeeded resets the counter; one that neither succeeded nor failed leaves it. */
  lemma OtherCallsDoNotCount(s: State, c: Call)
    requires LetThrough(s, c) && !IsFailure(c.outcome)
    ensures IsSuccess(c.outcome) ==> AfterCall(s, c).failures == 0 && !AfterCall(s, c).open
    ensures !IsSuccess(c.outcome) ==> AfterCall(s, c) == AfterCheck(s, c.start)
  {}

  /** What a closed breaker counts: `n` failed calls in a row, of which the eighth opens it. */
  lemma {:induction false} FailuresInARow(s: State, calls: seq<Call>)
    requires !s.open && s.failures < 8 && s.failures + |calls| <= 8
    requires forall i :: 0 <= i < |calls| ==> IsFailure(calls[i].outcome)
    ensures var after := AfterCalls(s, calls);
            && after.failures == s.failures + |calls| && (after.open <==> after.failures == 8)
            && after.lastFailure == if calls == [] then s.lastFailure else calls[|calls| - 1].at
    decreases |calls|
  {
    if calls != [] {
      FailuresInARow(s, calls[..|calls| - 1]);
    }
  }

  /** So eight failed calls in a row open a fresh breaker, and a ninth within 30 seconds is turned away. */
  lemma EightFailuresOpen(calls: seq<Call>, next: Call)
    requires |calls| == 8 && forall i :: 0 <= i < |calls| ==> IsFailure(calls[i].outcome)
    requires next.start - calls[7].at < 30 * SECOND
    ensures AfterCalls(FRESH, calls).failures == 8 && AfterCalls(FRESH, calls).open
    ensures !LetThrough(AfterCalls(FRESH, calls), next)
  {
    FailuresInARow(FRESH, calls);
  }

  /** What a call that was let through records. */
  function RecordOf(c: Call): seq<Use> {
    if IsFailure(c.outcome) then [Use.Failure(c.at)] else if IsSuccess(c.outcome) then [Success] else []
  }

  /** The uses of the breaker by a sequence of calls: each checks it, and those that find no streak of eight record. */
  function UsesOf(calls: seq<Call>): seq<Use>
    decreases |calls|
  {
    if calls == [] then []
    else
      var c := calls[|calls| - 1];
      var checked := UsesOf(calls[..|calls| - 1]) + [Check(c.start)];
      checked + if Streak(checked) >= 8 then [] else RecordOf(c)
  }

  lemma RunMore(uses: seq<Use>, u: Use)
    ensures Run(uses + [u]) == Apply(Run(uses), u)
  {
    assert (uses + [u])[..|uses|] == uses;
  }

  /**
   Over any sequence of calls the breaker is what its reference makes of their checks and records: its counter is
   the streak of failures, and calls are turned away exactly while that is eight or more.
   */
  lemma {:induction false} CallsCountStreak(calls: seq<Call>)
    ensures AfterCalls(FRESH, calls) == Run(UsesOf(calls))
    ensures AfterCalls(FRESH, calls).failures == Streak(UsesOf(calls))
    ensures forall c :: LetThrough(AfterCalls(FRESH, calls), c) <==> Streak(UsesOf(calls) + [Check(c.start)]) < 8
    decreases |calls|
  {
    hide Streak, Run;
    if calls != [] {
      var before, c := calls[..|calls| - 1], calls[|calls| - 1];
      CallsCountStreak(before);
      OneCallMore(UsesOf(before), c);
    } else {
      NoUses();
    }
    BreakerCountsStreak(UsesOf(calls));
    forall c ensures LetThrough(AfterCalls(FRESH, calls), c) <==> Streak(UsesOf(calls) + [Check(c.start)]) < 8 {
      RunMore(UsesOf(calls), Check(c.start));
      BreakerCountsStreak(UsesOf(calls) + [Check(c.start)]);
    }
  }

  lemma NoUses()
    ensures Run([]) == FRESH
  {}

  lemma OneCallMore(uses: seq<Use>, c: Call)
    ensures var checked := uses + [Check(c.start)];
            AfterCall(Run(uses), c) == Run(checked + if Streak(checked) >= 8 then [] else RecordOf(c))
  {
    hide Streak, Run;
    var checked := uses + [Check(c.start)];
    RunMore(uses, Check(c.start));
    BreakerCountsStreak(checked);
    if Streak(checked) < 8 && RecordOf(c) != [] {
      RunMore(checked, RecordOf(c)[0]);
      assert RecordOf(c) == [RecordOf(c)[0]];
    } else {
      assert checked + [] == checked;
    }
  }

  /** From a closed breaker with no failures, opening takes eight failed calls. */
  lemma {:induction false} OpeningTakesEight(s: State, calls: seq<Call>)
    requires s.failures == 0 && !s.open
    ensures AfterCalls(s, calls).failures <= Failures(s, calls)
    ensures AfterCalls(s, calls).open ==> AfterCalls(s, calls).failures >= 8
    ensures AfterCalls(s, calls).open ==> Failures(s, calls) >= 8
    decreases |calls|
  {
    if calls != [] {
      OpeningTakesEight(s, calls[..|calls| - 1]);
    }
  }

  /** After the waiting time the first call is let through, and reopening takes eight fresh failures from there on. */
  lemma ReopeningTakesEight(s: State, first: Call, calls: seq<Call>)
    requires s.open && first.start - s.lastFailure >= 30 * SECOND
    ensures LetThrough(s, first)
    ensures var r := AfterCheck(s, first.start);
            AfterCalls(s, [first] + calls) == AfterCalls(r, [first] + calls)
            && (AfterCalls(s, [first] + calls).open ==> Failures(r, [first] + calls) >= 8)
  {
    var r := AfterCheck(s, first.start);
    SameFromFirst(s, r, first, calls);
    OpeningTakesEight(r, [first] + calls);
  }

  lemma {:induction false} SameFromFirst(s: State, r: State, first: Call, calls: seq<Call>)
    requires r == AfterCheck(s, first.start)
    ensures AfterCalls(s, [first] + calls) == AfterCalls(r, [first] + calls)
    decreases |calls|
  {
    var all := [first] + calls;
    if calls == [] {
      assert all[..0] == [];
    } else {
      assert all[..|all| - 1] == [first] + calls[..|calls| - 1];
      SameFromFirst(s, r, first, calls[..|calls| - 1]);
    }
  }
}
