/**
 BatchAppendValues (internal/api/sheets_batch.go lines 38-106) as a transition system. Here the caller
 itself acquires the semaphore before it starts the goroutine of an entry, and on cancellation signs the
 entry off at the wait group before it sends the failure. Safety rests on the closer starting only behind
 that loop.
 */
module SheetsBatch {
  import opened Sums
  import opened Fanout

  /** Where an entry is: not reached, in its goroutine, or turned down by the caller itself. */
  datatype Phase =
    | Unborn
    | Holding
    | Appended(ok: bool)
    | SentHolding(ok: bool)
    | Leaving(ok: bool)
    | Gone(ok: bool)
    | Turned

  /** Where the caller's loop is: before entry `i`, at the select, signing it off, sending its failure, or through. */
  datatype Caller = At(i: nat) | Select(i: nat) | SignOffFor(i: nat) | ReportFor(i: nat) | Collecting | Returned

  datatype State = State(
    workers: seq<Phase>, caller: Caller, sem: nat, wg: nat,
    queue: seq<Sent>, closed: bool, succeeded: seq<Item>, failed: seq<Item>, cancelled: bool)

  datatype Job = Job(ranges: seq<Item>, concurrency: int) {
    function Limit(): int { ClampConcurrency(concurrency, MAX_CONCURRENCY) }
  }

  function Init(job: Job): State {
    State(seq(|job.ranges|, _ => Unborn), At(0), 0, 0, [], false, [], [], false)
  }

  predicate Holds(p: Phase) { p.Holding? || p.Appended? || p.SentHolding? }

  predicate Live(p: Phase) { Holds(p) || p.Leaving? }

  /** This outcome was sent for the entry. */
  predicate Filed(p: Phase, ok: bool) {
    ((p.SentHolding? || p.Leaving? || p.Gone?) && p.ok == ok) || (p.Turned? && !ok)
  }

  predicate HasSent(p: Phase) { Filed(p, true) || Filed(p, false) }

  /** A send neither blocks nor panics. */
  predicate SendOk(job: Job, s: State) { |s.queue| < |job.ranges| && !s.closed }

  predicate Shaped(job: Job, s: State) { |s.workers| == |job.ranges| }

  // ---------------------------------------------------------------- steps of the caller

  /** `wg.Add(1)` for the next entry. */
  predicate Add(job: Job, s: State, s': State) {
    && s.caller.At? && s.caller.i < |job.ranges|
    && s' == s.(caller := Select(s.caller.i), wg := s.wg + 1)
  }

  /** The select takes a semaphore slot and the goroutine starts. */
  predicate Start(job: Job, s: State, s': State) {
    && Shaped(job, s) && s.caller.Select? && s.caller.i < |s.workers| && s.sem < job.Limit()
    && s' == s.(caller := At(s.caller.i + 1), sem := s.sem + 1, workers := s.workers[s.caller.i := Holding])
  }

  /** The select sees the cancellation. */
  predicate TurnDown(s: State, s': State) {
    && s.caller.Select? && s.cancelled
    && s' == s.(caller := SignOffFor(s.caller.i))
  }

  predicate SignOffEntry(s: State, s': State) {
    && s.caller.SignOffFor? && s.wg > 0
    && s' == s.(caller := ReportFor(s.caller.i), wg := s.wg - 1)
  }

  predicate ReportEntry(job: Job, s: State, s': State) {
    && Shaped(job, s) && s.caller.ReportFor? && s.caller.i < |s.workers| && SendOk(job, s)
    && s' == s.(caller := At(s.caller.i + 1), workers := s.workers[s.caller.i := Turned],
                queue := s.queue + [Sent(job.ranges[s.caller.i], false)])
  }

  /** Behind the loop the closer is started and the caller collects. */
  predicate EndLoop(job: Job, s: State, s': State) {
    && s.caller == At(|job.ranges|)
    && s' == s.(caller := Collecting)
  }

  predicate Receive(s: State, s': State) {
    && s.caller.Collecting? && s.queue != []
    && var r := s.queue[0];
       s' == s.(queue := s.queue[1..],
                succeeded := if r.ok then s.succeeded + [r.item] else s.succeeded,
                failed := if r.ok then s.failed else s.failed + [r.item])
  }

  predicate Return(s: State, s': State) {
    && s.caller.Collecting? && s.closed && s.queue == []
    && s' == s.(caller := Returned)
  }

  // ---------------------------------------------------------------- steps of the goroutines

  predicate Append(job: Job, s: State, s': State, i: nat, ok: bool) {
    && Shaped(job, s) && i < |s.workers| && s.workers[i].Holding?
    && s' == s.(workers := s.workers[i := Appended(ok)])
  }

  predicate Send(job: Job, s: State, s': State, i: nat) {
    && Shaped(job, s) && i < |s.workers| && s.workers[i].Appended? && SendOk(job, s)
    && s' == s.(workers := s.workers[i := SentHolding(s.workers[i].ok)],
                queue := s.queue + [Sent(job.ranges[i], s.workers[i].ok)])
  }

  predicate Release(job: Job, s: State, s': State, i: nat) {
    && Shaped(job, s) && i < |s.workers| && s.workers[i].SentHolding? && s.sem > 0
    && s' == s.(workers := s.workers[i := Leaving(s.workers[i].ok)], sem := s.sem - 1)
  }

  predicate SignOff(job: Job, s: State, s': State, i: nat) {
    && Shaped(job, s) && i < |s.workers| && s.workers[i].Leaving? && s.wg > 0
    && s' == s.(workers := s.workers[i := Gone(s.workers[i].ok)], wg := s.wg - 1)
  }

  /** The closer. */
  predicate Close(s: State, s': State) {
    && (s.caller.Collecting? || s.caller.Returned?) && s.wg == 0 && !s.closed
    && s' == s.(closed := true)
  }

  predicate Cancel(s: State, s': State) {
    !s.cancelled && s' == s.(cancelled := true)
  }

  /** The moves of a goroutine that do not touch the result channel. */
  ghost predicate QuietStep(job: Job, s: State, s': State, i: nat) {
    || Append(job, s, s', i, true) || Append(job, s, s', i, false)
    || Release(job, s, s', i) || SignOff(job, s, s', i)
  }

  ghost predicate WorkerStep(job: Job, s: State, s': State, i: nat) {
    QuietStep(job, s, s', i) || Send(job, s, s', i)
  }

  ghost predicate CallerStep(job: Job, s: State, s': State) {
    || Add(job, s, s') || Start(job, s, s') || TurnDown(s, s') || SignOffEntry(s, s') || ReportEntry(job, s, s')
    || EndLoop(job, s, s') || Receive(s, s') || Return(s, s')
  }

  ghost predicate Next(job: Job, s: State, s': State) {
    || CallerStep(job, s, s') || (exists i: nat :: WorkerStep(job, s, s', i)) || Close(s, s') || Cancel(s, s')
  }

  ghost predicate IsRun(job: Job, states: seq<State>) {
    && states != [] && states[0] == Init(job)
    && forall k :: 0 <= k < |states| - 1 ==> Next(job, states[k], states[k + 1])
  }

  // ---------------------------------------------------------------- the invariant

  function Holder(p: Phase): nat { if Holds(p) then 1 else 0 }

  function Signed(p: Phase): nat { if Live(p) then 1 else 0 }

  /** The caller's own sign-on for the entry it is at. */
  function CallerSigned(c: Caller): nat { if c.Select? || c.SignOffFor? then 1 else 0 }

  /** How many entries the caller is through with. */
  function Reached(job: Job, c: Caller): nat {
    match c
    case At(i) => i
    case Select(i) => i
    case SignOffFor(i) => i
    case ReportFor(i) => i
    case _ => |job.ranges|
  }

  function Marks(workers: seq<Phase>, ok: bool): (r: seq<bool>)
    ensures |r| == |workers| && forall i :: 0 <= i < |r| ==> r[i] == Filed(workers[i], ok)
  {
    seq(|workers|, i requires 0 <= i < |workers| => Filed(workers[i], ok))
  }

  /** Everything that was sent with an outcome and where it is now: in the channel or in the list for it. */
  function Delivered(s: State, ok: bool): multiset<Item> {
    ItemsOf(s.queue, ok) + multiset(if ok then s.succeeded else s.failed)
  }

  /** That is the ranges for which this outcome was sent. */
  ghost predicate InPlace(job: Job, s: State, ok: bool) {
    Shaped(job, s) && Delivered(s, ok) == Tally(Marks(s.workers, ok), job.ranges)
  }

  /** The caller's position is sensible: inside the loop it is at an entry of the list. */
  predicate CallerOk(job: Job, c: Caller) {
    && Reached(job, c) <= |job.ranges|
    && (c.Select? || c.SignOffFor? || c.ReportFor? ==> c.i < |job.ranges|)
  }

  ghost predicate Inv(job: Job, s: State) {
    && Shaped(job, s) && CallerOk(job, s.caller)
    && (forall i :: 0 <= i < |s.workers| ==> (s.workers[i].Unborn? <==> Reached(job, s.caller) <= i))
    && s.sem == Sum(Holder, s.workers) <= job.Limit()
    && s.wg == Sum(Signed, s.workers) + CallerSigned(s.caller)
    && InPlace(job, s, true) && InPlace(job, s, false)
    && (s.closed ==> (s.caller.Collecting? || s.caller.Returned?) && s.wg == 0)
    && (s.caller.Returned? ==> s.closed && s.queue == [])
  }

  lemma InitInv(job: Job)
    ensures Inv(job, Init(job))
  {
    SumConstant(Holder, Init(job).workers, 0);
    SumConstant(Signed, Init(job).workers, 0);
    TallyNone(Marks(Init(job).workers, true), job.ranges);
    TallyNone(Marks(Init(job).workers, false), job.ranges);
  }

  /** What a change of one entry's phase does to the counts. */
  lemma Moved(job: Job, s: State, i: nat, p: Phase)
    requires Shaped(job, s) && i < |s.workers|
    ensures var workers := s.workers[i := p];
            && Sum(Holder, workers) + Holder(s.workers[i]) == Sum(Holder, s.workers) + Holder(p)
            && Sum(Signed, workers) + Signed(s.workers[i]) == Sum(Signed, s.workers) + Signed(p)
  {
    SumUpdate(Holder, s.workers, i, p);
    SumUpdate(Signed, s.workers, i, p);
  }

  /** And to the tally of the ranges with an outcome. */
  lemma Tallied(job: Job, s: State, i: nat, p: Phase, ok: bool)
    requires Shaped(job, s) && i < |s.workers| && (Filed(s.workers[i], ok) ==> Filed(p, ok))
    ensures Tally(Marks(s.workers[i := p], ok), job.ranges) ==
            Tally(Marks(s.workers, ok), job.ranges) +
            if Filed(p, ok) && !Filed(s.workers[i], ok) then multiset{job.ranges[i]} else multiset{}
  {
    var before, after := Marks(s.workers, ok), Marks(s.workers[i := p], ok);
    if Filed(p, ok) && !Filed(s.workers[i], ok) {
      assert after == before[i := true];
      TallyMark(before, job.ranges, i);
    } else {
      assert after == before;
    }
  }

  /** A step that sends nothing leaves everything in its place. */
  lemma StaysInPlace(job: Job, s: State, s': State, i: nat, ok: bool)
    requires InPlace(job, s, ok) && i < |s.workers| == |s'.workers|
    requires s'.workers == s.workers[i := s'.workers[i]] && Filed(s.workers[i], ok) == Filed(s'.workers[i], ok)
    requires s'.queue == s.queue && s'.succeeded == s.succeeded && s'.failed == s.failed
    ensures InPlace(job, s', ok)
  {
    hide Tally, Marks, ItemsOf, Filed;
    Tallied(job, s, i, s'.workers[i], ok);
  }

  /** Sending an outcome for entry `i` keeps everything in its place. */
  lemma SentStaysInPlace(job: Job, s: State, s': State, i: nat, sent: bool, ok: bool)
    requires InPlace(job, s, ok) && i < |s.workers| == |s'.workers| && !HasSent(s.workers[i])
    requires s'.workers == s.workers[i := s'.workers[i]] && Filed(s'.workers[i], ok) == (sent == ok)
    requires s'.queue == s.queue + [Sent(job.ranges[i], sent)]
    requires s'.succeeded == s.succeeded && s'.failed == s.failed
    ensures InPlace(job, s', ok)
  {
    hide Tally, Marks, ItemsOf;
    Tallied(job, s, i, s'.workers[i], ok);
    ItemsOfAppend(s.queue, Sent(job.ranges[i], sent), ok);
  }

  lemma StartKeepsInv(job: Job, s: State, s': State)
    requires Inv(job, s) && Start(job, s, s')
    ensures Inv(job, s')
  {
    hide InPlace, Sum;
    Moved(job, s, s.caller.i, Holding);
    StaysInPlace(job, s, s', s.caller.i, true);
    StaysInPlace(job, s, s', s.caller.i, false);
  }

  lemma ReportKeepsInv(job: Job, s: State, s': State)
    requires Inv(job, s) && ReportEntry(job, s, s')
    ensures Inv(job, s')
  {
    hide InPlace, Sum;
    Moved(job, s, s.caller.i, Turned);
    SentStaysInPlace(job, s, s', s.caller.i, false, true);
    SentStaysInPlace(job, s, s', s.caller.i, false, false);
  }

  lemma ReceiveStaysInPlace(job: Job, s: State, s': State, ok: bool)
    requires InPlace(job, s, ok) && Receive(s, s')
    ensures InPlace(job, s', ok)
  {
    hide Tally, Marks;
  }

  lemma ReceiveKeepsInv(job: Job, s: State, s': State)
    requires Inv(job, s) && Receive(s, s')
    ensures Inv(job, s')
  {
    hide InPlace, Sum;
    ReceiveStaysInPlace(job, s, s', true);
    ReceiveStaysInPlace(job, s, s', false);
  }

  /** The steps that change no entry, no queue and no list. */
  ghost predicate Aside(job: Job, s: State, s': State) {
    || Add(job, s, s') || TurnDown(s, s') || SignOffEntry(s, s') || EndLoop(job, s, s') || Return(s, s')
    || Close(s, s') || Cancel(s, s')
  }

  lemma AsideStaysInPlace(job: Job, s: State, s': State, ok: bool)
    requires InPlace(job, s, ok) && Aside(job, s, s')
    ensures InPlace(job, s', ok)
  {
    hide InPlace;
    SameInPlace(job, s, s', ok);
  }

  lemma SameInPlace(job: Job, s: State, s': State, ok: bool)
    requires InPlace(job, s, ok) && s'.workers == s.workers
    requires s'.queue == s.queue && s'.succeeded == s.succeeded && s'.failed == s.failed
    ensures InPlace(job, s', ok)
  {
    hide Tally, Marks, ItemsOf;
  }

  lemma AsideKeepsInv(job: Job, s: State, s': State)
    requires Inv(job, s) && Aside(job, s, s')
    ensures Inv(job, s')
  {
    hide InPlace, Sum;
    AsideStaysInPlace(job, s, s', true);
    AsideStaysInPlace(job, s, s', false);
  }

  lemma CallerStepKeepsInv(job: Job, s: State, s': State)
    requires Inv(job, s) && CallerStep(job, s, s')
    ensures Inv(job, s')
  {
    hide Inv, Start, ReportEntry, Receive, Add, TurnDown, SignOffEntry, EndLoop, Return;
    if Start(job, s, s') {
      StartKeepsInv(job, s, s');
    } else if ReportEntry(job, s, s') {
      ReportKeepsInv(job, s, s');
    } else if Receive(s, s') {
      ReceiveKeepsInv(job, s, s');
    } else {
      AsideKeepsInv(job, s, s');
    }
  }

  lemma SendKeepsInv(job: Job, s: State, s': State, i: nat)
    requires Inv(job, s) && Send(job, s, s', i)
    ensures Inv(job, s')
  {
    hide InPlace, Sum;
    Moved(job, s, i, s'.workers[i]);
    SentStaysInPlace(job, s, s', i, s.workers[i].ok, true);
    SentStaysInPlace(job, s, s', i, s.workers[i].ok, false);
  }

  /** A quiet step changes one goroutine and keeps the semaphore and wait group in step with it. */
  lemma QuietStepShape(job: Job, s: State, s': State, i: nat)
    requires QuietStep(job, s, s', i) && s.sem <= job.Limit()
    ensures i < |s.workers| == |s'.workers| && s'.workers == s.workers[i := s'.workers[i]]
    ensures s' == s.(workers := s'.workers, sem := s'.sem, wg := s'.wg) && s'.sem <= job.Limit()
    ensures var p, p' := s.workers[i], s'.workers[i];
            && !p.Unborn? && !p'.Unborn? && (forall ok :: Filed(p, ok) == Filed(p', ok))
            && s'.sem + Holder(p) == s.sem + Holder(p') && s'.wg + Signed(p) == s.wg + Signed(p')
    ensures s'.wg <= s.wg && Signed(s.workers[i]) == 1
  {}

  lemma QuietStepKeepsInv(job: Job, s: State, s': State, i: nat)
    requires Inv(job, s) && QuietStep(job, s, s', i)
    ensures Inv(job, s')
  {
    hide InPlace, Sum, QuietStep, Filed, Holder, Signed, CallerOk, Reached, CallerSigned;
    QuietStepShape(job, s, s', i);
    Moved(job, s, i, s'.workers[i]);
    SumAtLeast(Signed, s.workers, i);
    StaysInPlace(job, s, s', i, true);
    StaysInPlace(job, s, s', i, false);
  }

  /** Every step keeps the invariant. */
  lemma NextKeepsInv(job: Job, s: State, s': State)
    requires Inv(job, s) && Next(job, s, s')
    ensures Inv(job, s')
  {
    hide Inv, QuietStep, Send, CallerStep, Close, Cancel;
    if CallerStep(job, s, s') {
      CallerStepKeepsInv(job, s, s');
    } else if i: nat :| WorkerStep(job, s, s', i) {
      if Send(job, s, s', i) {
        SendKeepsInv(job, s, s', i);
      } else {
        QuietStepKeepsInv(job, s, s', i);
      }
    } else {
      AsideKeepsInv(job, s, s');
    }
  }

  lemma {:induction false} RunInv(job: Job, states: seq<State>, k: nat)
    requires IsRun(job, states) && k < |states|
    ensures Inv(job, states[k])
  {
    if k == 0 {
      InitInv(job);
    } else {
      RunInv(job, states, k - 1);
      assert Next(job, states[k - 1], states[k - 1 + 1]);
      NextKeepsInv(job, states[k - 1], states[k]);
    }
  }

  // ---------------------------------------------------------------- safety

  /** At most `min(max(concurrency, 1), 5)` appends hold the semaphore at any time. */
  lemma BoundedConcurrency(job: Job, states: seq<State>, k: nat)
    requires IsRun(job, states) && k < |states|
    ensures Sum(Holder, states[k].workers) <= job.Limit() <= 5
  {
    RunInv(job, states, k);
  }

  /** Somebody is about to send: the caller for a cancelled entry, or the goroutine of entry `i`. */
  predicate AboutToSend(s: State, i: nat) {
    s.caller == ReportFor(i) || (i < |s.workers| && s.workers[i].Appended?)
  }

  /** Although the caller has signed its entry off before it sends, the channel is open and has room. */
  lemma SendIsOk(job: Job, s: State, i: nat)
    requires Inv(job, s) && AboutToSend(s, i)
    ensures SendOk(job, s)
  {
    hide Tally, Sum, ItemsOf;
    if s.caller != ReportFor(i) {
      SumAtLeast(Signed, s.workers, i);
    }
    var a, b := Marks(s.workers, true), Marks(s.workers, false);
    assert i < |s.workers| && !a[i] && !b[i];
    TallyTwo(a, b, job.ranges);
    QueueSize(s.queue);
    assert |Delivered(s, true)| + |Delivered(s, false)| == |s.queue| + |s.succeeded| + |s.failed|;
  }

  lemma SendNeverBlocks(job: Job, states: seq<State>, k: nat, i: nat)
    requires IsRun(job, states) && k < |states| && AboutToSend(states[k], i)
    ensures SendOk(job, states[k])
  {
    RunInv(job, states, k);
    SendIsOk(job, states[k], i);
  }

  /**
   When the caller returns, every range is in exactly one of the two lists: in `succeeded` those for which a
   success was sent, in `failed` those for which a failure was.
   */
  lemma ReturnedIsComplete(job: Job, states: seq<State>, k: nat)
    requires IsRun(job, states) && k < |states| && states[k].caller.Returned?
    ensures var s := states[k];
            && Shaped(job, s) && forall i :: 0 <= i < |s.workers| ==> s.workers[i].Gone? || s.workers[i].Turned?
    ensures var s := states[k];
            && multiset(s.succeeded) == Tally(Marks(s.workers, true), job.ranges)
            && multiset(s.failed) == Tally(Marks(s.workers, false), job.ranges)
            && multiset(s.succeeded) + multiset(s.failed) == multiset(job.ranges)
            && |s.succeeded| + |s.failed| == |job.ranges|
  {
    hide Tally, Sum;
    var s := states[k];
    RunInv(job, states, k);
    forall i | 0 <= i < |s.workers| ensures s.workers[i].Gone? || s.workers[i].Turned? {
      SumAtLeast(Signed, s.workers, i);
    }
    TallyTwo(Marks(s.workers, true), Marks(s.workers, false), job.ranges);
    assert |multiset(s.succeeded) + multiset(s.failed)| == |multiset(job.ranges)|;
  }

  /** The outcome of an entry is known, sent or not. */
  predicate Knows(p: Phase, ok: bool) { (p.Appended? && p.ok == ok) || Filed(p, ok) }

  /** In this step the append of entry `i` ends so, or the caller turns the entry down for the cancellation. */
  ghost predicate Decides(job: Job, s: State, s': State, i: nat, ok: bool) {
    Append(job, s, s', i, ok) || (!ok && ReportEntry(job, s, s') && s.caller.i == i)
  }

  lemma OwnStep(job: Job, s: State, s': State, i: nat, ok: bool)
    requires WorkerStep(job, s, s', i) && Knows(s'.workers[i], ok)
    ensures Knows(s.workers[i], ok) || Decides(job, s, s', i, ok)
  {}

  lemma OtherStep(job: Job, s: State, s': State, j: nat)
    requires WorkerStep(job, s, s', j)
    ensures Shaped(job, s) && j < |s.workers| == |s'.workers|
    ensures forall i :: 0 <= i < |s.workers| && i != j ==> s'.workers[i] == s.workers[i]
  {}

  lemma CallersStep(job: Job, s: State, s': State, i: nat, ok: bool)
    requires CallerStep(job, s, s') && i < |s'.workers| && Knows(s'.workers[i], ok)
    ensures |s.workers| == |s'.workers| && (Knows(s.workers[i], ok) || Decides(job, s, s', i, ok))
  {}

  lemma OutcomeStep(job: Job, s: State, s': State, i: nat, ok: bool)
    requires Next(job, s, s') && Shaped(job, s') && i < |s'.workers| && Knows(s'.workers[i], ok)
    ensures Shaped(job, s) && (Knows(s.workers[i], ok) || Decides(job, s, s', i, ok))
  {
    hide WorkerStep, CallerStep, Decides;
    if CallerStep(job, s, s') {
      CallersStep(job, s, s', i, ok);
    } else if j: nat :| WorkerStep(job, s, s', j) {
      OtherStep(job, s, s', j);
      if i == j {
        OwnStep(job, s, s', i, ok);
      }
    }
  }

  /** An outcome that was sent is that of the entry's own append, or a turning down, earlier in the run. */
  lemma {:induction false} OutcomeIsReal(job: Job, states: seq<State>, k: nat, i: nat, ok: bool) returns (j: nat)
    requires IsRun(job, states) && k < |states| && i < |states[k].workers| && Knows(states[k].workers[i], ok)
    ensures j < k && Decides(job, states[j], states[j + 1], i, ok)
  {
    hide Next, Knows, Decides;
    RunInv(job, states, k);
    if k == 0 {
      NobodyKnows(job, i, ok);
      assert false;
    }
    assert Next(job, states[k - 1], states[k - 1 + 1]);
    OutcomeStep(job, states[k - 1], states[k], i, ok);
    if Decides(job, states[k - 1], states[k], i, ok) {
      j := k - 1;
    } else {
      j := OutcomeIsReal(job, states, k - 1, i, ok);
    }
  }

  lemma NobodyKnows(job: Job, i: nat, ok: bool)
    requires i < |job.ranges|
    ensures !Knows(Init(job).workers[i], ok)
  {}

  // ---------------------------------------------------------------- progress

  function Rank(p: Phase): nat {
    match p
    case Unborn => 9
    case Holding => 5
    case Appended(_) => 4
    case SentHolding(_) => 2
    case Leaving(_) => 1
    case Gone(_) => 0
    case Turned => 0
  }

  /** What the caller still has to do for the entry it is at, beyond its rank. */
  function CallerRank(c: Caller): nat {
    match c
    case At(_) => 5
    case Select(_) => 4
    case SignOffFor(_) => 3
    case ReportFor(_) => 2
    case Collecting => 1
    case Returned => 0
  }

  function Measure(s: State): nat {
    Sum(Rank, s.workers) + CallerRank(s.caller) + |s.queue| + (if s.closed then 0 else 1)
    + (if s.cancelled then 0 else 1)
  }

  lemma WorkerDecreases(job: Job, s: State, s': State, i: nat)
    requires WorkerStep(job, s, s', i)
    ensures Measure(s') < Measure(s)
  {
    hide Sum;
    SumUpdate(Rank, s.workers, i, s'.workers[i]);
  }

  lemma CallerDecreases(job: Job, s: State, s': State)
    requires Inv(job, s) && CallerStep(job, s, s')
    ensures Measure(s') < Measure(s)
  {
    hide Sum, Tally, Marks, ItemsOf;
    if Start(job, s, s') {
      SumUpdate(Rank, s.workers, s.caller.i, Holding);
    } else if ReportEntry(job, s, s') {
      SumUpdate(Rank, s.workers, s.caller.i, Turned);
    }
  }

  lemma NextDecreases(job: Job, s: State, s': State)
    requires Inv(job, s) && Next(job, s, s')
    ensures Measure(s') < Measure(s)
  {
    hide Sum, Inv, WorkerStep, CallerStep;
    if CallerStep(job, s, s') {
      CallerDecreases(job, s, s');
    } else if i: nat :| WorkerStep(job, s, s', i) {
      WorkerDecreases(job, s, s', i);
    }
  }

  /** Until the caller returns, something can move, even without a cancellation. */
  lemma NeverStuck(job: Job, s: State) returns (s': State)
    requires Inv(job, s) && !s.caller.Returned?
    ensures Next(job, s, s') && s'.cancelled == s.cancelled
  {
    if s.caller.Collecting? {
      s' := CollectorMoves(job, s);
    } else if s.caller.Select? && s.sem == job.Limit() {
      var i := SumWitness(Holder, s.workers);
      s' := WorkerMoves(job, s, i);
    } else {
      s' := LoopMoves(job, s);
    }
  }

  lemma LoopMoves(job: Job, s: State) returns (s': State)
    requires Inv(job, s) && !s.caller.Returned? && !s.caller.Collecting?
    requires s.caller.Select? ==> s.sem < job.Limit()
    ensures Next(job, s, s') && s'.cancelled == s.cancelled
  {
    hide Sum, Tally, Marks, ItemsOf;
    var c := s.caller;
    if c.Select? {
      s' := s.(caller := At(c.i + 1), sem := s.sem + 1, workers := s.workers[c.i := Holding]);
    } else if c.SignOffFor? {
      s' := s.(caller := ReportFor(c.i), wg := s.wg - 1);
    } else if c.ReportFor? {
      SendIsOk(job, s, c.i);
      s' := s.(caller := At(c.i + 1), workers := s.workers[c.i := Turned],
               queue := s.queue + [Sent(job.ranges[c.i], false)]);
    } else if c.i < |job.ranges| {
      s' := s.(caller := Select(c.i), wg := s.wg + 1);
    } else {
      s' := s.(caller := Collecting);
    }
    assert CallerStep(job, s, s');
  }

  lemma CollectorMoves(job: Job, s: State) returns (s': State)
    requires Inv(job, s) && s.caller.Collecting?
    ensures Next(job, s, s') && s'.cancelled == s.cancelled
  {
    if s.queue != [] {
      var r := s.queue[0];
      s' := s.(queue := s.queue[1..],
               succeeded := if r.ok then s.succeeded + [r.item] else s.succeeded,
               failed := if r.ok then s.failed else s.failed + [r.item]);
      assert Receive(s, s');
    } else if s.closed {
      s' := s.(caller := Returned);
      assert Return(s, s');
    } else if s.wg == 0 {
      s' := s.(closed := true);
      assert Close(s, s');
    } else {
      var i := SumWitness(Signed, s.workers);
      s' := WorkerMoves(job, s, i);
    }
  }

  lemma WorkerMoves(job: Job, s: State, i: nat) returns (s': State)
    requires Inv(job, s) && i < |s.workers| && Live(s.workers[i])
    ensures Next(job, s, s') && s'.cancelled == s.cancelled
  {
    SumAtLeast(Holder, s.workers, i);
    SumAtLeast(Signed, s.workers, i);
    var p := s.workers[i];
    if p.Holding? {
      s' := s.(workers := s.workers[i := Appended(true)]);
    } else if p.SentHolding? {
      s' := s.(workers := s.workers[i := Leaving(p.ok)], sem := s.sem - 1);
    } else if p.Leaving? {
      s' := s.(workers := s.workers[i := Gone(p.ok)], wg := s.wg - 1);
    } else {
      SendIsOk(job, s, i);
      s' := s.(workers := s.workers[i := SentHolding(p.ok)], queue := s.queue + [Sent(job.ranges[i], p.ok)]);
    }
    assert WorkerStep(job, s, s', i);
  }

  /** Every run is over after a bounded number of steps. */
  lemma {:induction false} RunsAreShort(job: Job, states: seq<State>, k: nat)
    requires IsRun(job, states) && k < |states|
    ensures Measure(states[k]) + k <= 9 * |job.ranges| + 7
  {
    if k == 0 {
      SumConstant(Rank, Init(job).workers, 9);
    } else {
      RunsAreShort(job, states, k - 1);
      RunInv(job, states, k - 1);
      assert Next(job, states[k - 1], states[k - 1 + 1]);
      NextDecreases(job, states[k - 1], states[k]);
    }
  }

  ghost predicate Over(job: Job, s: State) {
    forall s' :: !Next(job, s, s')
  }

  /** So every run that cannot go on has returned, and with a complete result. */
  lemma EveryRunReturns(job: Job, states: seq<State>)
    requires IsRun(job, states) && Over(job, states[|states| - 1])
    ensures var s := states[|states| - 1];
            s.caller.Returned? && multiset(s.succeeded) + multiset(s.failed) == multiset(job.ranges)
  {
    var k := |states| - 1;
    RunInv(job, states, k);
    if !states[k].caller.Returned? {
      var s' := NeverStuck(job, states[k]);
      assert false;
    }
    ReturnedIsComplete(job, states, k);
  }

  /**
   The order matters: were the closer allowed to run during the loop, it could find the wait group at zero
   between the sign-off of a cancelled entry and the send of its failure, which would then meet a closed channel.
   */
  lemma EarlyCloserWouldBreak(job: Job)
    requires |job.ranges| == 1
    ensures exists states: seq<State> :: IsRun(job, states) &&
              var s := states[|states| - 1]; s.wg == 0 && s.caller == ReportFor(0)
  {
    var s0 := Init(job);
    var s1 := s0.(cancelled := true);
    var s2 := s1.(caller := Select(0), wg := 1);
    var s3 := s2.(caller := SignOffFor(0));
    var s4 := s3.(caller := ReportFor(0), wg := 0);
    var states := [s0, s1, s2, s3, s4];
    assert Cancel(s0, s1) && Add(job, s1, s2) && TurnDown(s2, s3) && SignOffEntry(s3, s4);
    assert IsRun(job, states);
  }
}
