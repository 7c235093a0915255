/**
 BatchUploadFiles (internal/api/drive_batch.go lines 57-126) as a transition system: one goroutine per
 path, a semaphore channel, a result channel with room for every path, a closer that waits for the wait
 group, and the collecting caller. Cancellation may come at any time.
 */
module DriveBatch {
  import opened Sums
  import opened Fanout

  /** Where the goroutine of a path is. Deferred calls run last-in first-out: release, then sign off. */
  datatype Phase =
    | Unborn
    | Waiting
    | Holding
    | Uploaded(ok: bool)
    | Refused
    | SentHolding(ok: bool)
    | Leaving(ok: bool)
    | Gone(ok: bool)

  datatype State = State(
    workers: seq<Phase>, spawned: nat, sem: nat, wg: nat,
    queue: seq<Sent>, closed: bool,
    succeeded: seq<Item>, failed: seq<Item>, finished: bool, cancelled: bool)

  datatype Job = Job(paths: seq<Item>, concurrency: int) {
    function Limit(): int { ClampConcurrency(concurrency, MAX_CONCURRENCY) }
  }

  function Init(job: Job): State {
    State(seq(|job.paths|, _ => Unborn), 0, 0, 0, [], false, [], [], false, false)
  }

  predicate Holds(p: Phase) { p.Holding? || p.Uploaded? || p.SentHolding? }

  predicate Live(p: Phase) { !p.Unborn? && !p.Gone? }

  /** The goroutine has sent this outcome. */
  predicate Filed(p: Phase, ok: bool) { (p.SentHolding? || p.Leaving? || p.Gone?) && p.ok == ok }

  predicate HasSent(p: Phase) { Filed(p, true) || Filed(p, false) }

  /** The goroutine is at a send on the result channel. */
  predicate Sending(p: Phase) { p.Uploaded? || p.Refused? }

  /** A send neither blocks nor panics. */
  predicate SendOk(job: Job, s: State) { |s.queue| < |job.paths| && !s.closed }

  // ---------------------------------------------------------------- steps

  predicate Shaped(job: Job, s: State) { |s.workers| == |job.paths| }

  predicate Spawn(job: Job, s: State, s': State) {
    && Shaped(job, s) && s.spawned < |job.paths|
    && s' == s.(workers := s.workers[s.spawned := Waiting], spawned := s.spawned + 1, wg := s.wg + 1)
  }

  predicate Acquire(job: Job, s: State, s': State, i: nat) {
    && Shaped(job, s) && i < |s.workers| && s.workers[i].Waiting? && s.sem < job.Limit()
    && s' == s.(workers := s.workers[i := Holding], sem := s.sem + 1)
  }

  predicate Refuse(job: Job, s: State, s': State, i: nat) {
    && Shaped(job, s) && i < |s.workers| && s.workers[i].Waiting? && s.cancelled
    && s' == s.(workers := s.workers[i := Refused])
  }

  predicate Upload(job: Job, s: State, s': State, i: nat, ok: bool) {
    && Shaped(job, s) && i < |s.workers| && s.workers[i].Holding?
    && s' == s.(workers := s.workers[i := Uploaded(ok)])
  }

  predicate Send(job: Job, s: State, s': State, i: nat) {
    && Shaped(job, s) && i < |s.workers| && Sending(s.workers[i]) && SendOk(job, s)
    && var p := s.workers[i];
       s' == s.(workers := s.workers[i := if p.Refused? then Leaving(false) else SentHolding(p.ok)],
                queue := s.queue + [Sent(job.paths[i], p.Uploaded? && p.ok)])
  }

  predicate Release(job: Job, s: State, s': State, i: nat) {
    && Shaped(job, s) && i < |s.workers| && s.workers[i].SentHolding? && s.sem > 0
    && s' == s.(workers := s.workers[i := Leaving(s.workers[i].ok)], sem := s.sem - 1)
  }

  predicate SignOff(job: Job, s: State, s': State, i: nat) {
    && Shaped(job, s) && i < |s.workers| && s.workers[i].Leaving? && s.wg > 0
    && s' == s.(workers := s.workers[i := Gone(s.workers[i].ok)], wg := s.wg - 1)
  }

  /** The closer, started behind the spawn loop. */
  predicate Close(job: Job, s: State, s': State) {
    && s.spawned == |job.paths| && s.wg == 0 && !s.closed
    && s' == s.(closed := true)
  }

  predicate Receive(job: Job, s: State, s': State) {
    && s.spawned == |job.paths| && s.queue != [] && !s.finished
    && var r := s.queue[0];
       s' == s.(queue := s.queue[1..],
                succeeded := if r.ok then s.succeeded + [r.item] else s.succeeded,
                failed := if r.ok then s.failed else s.failed + [r.item])
  }

  /** The range over the closed, drained channel ends and the result is returned. */
  predicate Finish(job: Job, s: State, s': State) {
    && s.spawned == |job.paths| && s.closed && s.queue == [] && !s.finished
    && s' == s.(finished := true)
  }

  predicate Cancel(s: State, s': State) {
    !s.cancelled && s' == s.(cancelled := true)
  }

  /** The moves of a goroutine that do not touch the result channel. */
  ghost predicate QuietStep(job: Job, s: State, s': State, i: nat) {
    || Acquire(job, s, s', i) || Refuse(job, s, s', i)
    || Upload(job, s, s', i, true) || Upload(job, s, s', i, false)
    || Release(job, s, s', i) || SignOff(job, s, s', i)
  }

  ghost predicate WorkerStep(job: Job, s: State, s': State, i: nat) {
    QuietStep(job, s, s', i) || Send(job, s, s', i)
  }

  ghost predicate Next(job: Job, s: State, s': State) {
    || Spawn(job, s, s') || (exists i: nat :: WorkerStep(job, s, s', i))
    || Close(job, s, s') || Receive(job, s, s') || Finish(job, s, s') || Cancel(s, s')
  }

  ghost predicate IsRun(job: Job, states: seq<State>) {
    && states != [] && states[0] == Init(job)
    && forall k :: 0 <= k < |states| - 1 ==> Next(job, states[k], states[k + 1])
  }

  // ---------------------------------------------------------------- the invariant

  function Holder(p: Phase): nat { if Holds(p) then 1 else 0 }

  function Signed(p: Phase): nat { if Live(p) then 1 else 0 }

  function Marks(workers: seq<Phase>, ok: bool): (r: seq<bool>)
    ensures |r| == |workers| && forall i :: 0 <= i < |r| ==> r[i] == Filed(workers[i], ok)
  {
    seq(|workers|, i requires 0 <= i < |workers| => Filed(workers[i], ok))
  }

  /** Everything that was sent with an outcome and where it is now: in the channel or in the list for it. */
  function Delivered(s: State, ok: bool): multiset<Item> {
    ItemsOf(s.queue, ok) + multiset(if ok then s.succeeded else s.failed)
  }

  /** That is the paths whose goroutines sent this outcome. */
  ghost predicate InPlace(job: Job, s: State, ok: bool) {
    Shaped(job, s) && Delivered(s, ok) == Tally(Marks(s.workers, ok), job.paths)
  }

  ghost predicate Inv(job: Job, s: State) {
    && Shaped(job, s) && s.spawned <= |job.paths|
    && (forall i :: 0 <= i < |s.workers| ==> (s.workers[i].Unborn? <==> s.spawned <= i))
    && s.sem == Sum(Holder, s.workers) <= job.Limit()
    && s.wg == Sum(Signed, s.workers)
    && InPlace(job, s, true) && InPlace(job, s, false)
    && (s.closed ==> s.spawned == |job.paths| && s.wg == 0)
    && (s.finished ==> s.closed && s.queue == [])
  }

  lemma InitInv(job: Job)
    ensures Inv(job, Init(job))
  {
    SumConstant(Holder, Init(job).workers, 0);
    SumConstant(Signed, Init(job).workers, 0);
    TallyNone(Marks(Init(job).workers, true), job.paths);
    TallyNone(Marks(Init(job).workers, false), job.paths);
  }

  /** What one goroutine's move does to the counts. */
  lemma Moved(job: Job, s: State, i: nat, p: Phase)
    requires Shaped(job, s) && i < |s.workers|
    ensures var workers := s.workers[i := p];
            && Sum(Holder, workers) + Holder(s.workers[i]) == Sum(Holder, s.workers) + Holder(p)
            && Sum(Signed, workers) + Signed(s.workers[i]) == Sum(Signed, s.workers) + Signed(p)
  {
    SumUpdate(Holder, s.workers, i, p);
    SumUpdate(Signed, s.workers, i, p);
  }

  /** And to the tally of the paths with an outcome. */
  lemma Tallied(job: Job, s: State, i: nat, p: Phase, ok: bool)
    requires Shaped(job, s) && i < |s.workers| && (Filed(s.workers[i], ok) ==> Filed(p, ok))
    ensures Tally(Marks(s.workers[i := p], ok), job.paths) ==
            Tally(Marks(s.workers, ok), job.paths) +
            if Filed(p, ok) && !Filed(s.workers[i], ok) then multiset{job.paths[i]} else multiset{}
  {
    var before, after := Marks(s.workers, ok), Marks(s.workers[i := p], ok);
    if Filed(p, ok) && !Filed(s.workers[i], ok) {
      assert after == before[i := true];
      TallyMark(before, job.paths, i);
    } else {
      assert after == before;
    }
  }

  /** A move that sends nothing leaves everything in its place. */
  lemma StaysInPlace(job: Job, s: State, s': State, i: nat, ok: bool)
    requires InPlace(job, s, ok) && i < |s.workers| == |s'.workers|
    requires s'.workers == s.workers[i := s'.workers[i]] && Filed(s.workers[i], ok) == Filed(s'.workers[i], ok)
    requires s'.queue == s.queue && s'.succeeded == s.succeeded && s'.failed == s.failed
    ensures InPlace(job, s', ok)
  {
    hide Tally, Marks, ItemsOf, Filed;
    Tallied(job, s, i, s'.workers[i], ok);
  }

  lemma SendStaysInPlace(job: Job, s: State, s': State, i: nat, ok: bool)
    requires InPlace(job, s, ok) && Send(job, s, s', i)
    ensures InPlace(job, s', ok)
  {
    hide Tally, Marks, ItemsOf;
    Tallied(job, s, i, s'.workers[i], ok);
    ItemsOfAppend(s.queue, Sent(job.paths[i], s.workers[i].Uploaded? && s.workers[i].ok), ok);
  }

  lemma SendKeepsInv(job: Job, s: State, s': State, i: nat)
    requires Inv(job, s) && Send(job, s, s', i)
    ensures Inv(job, s')
  {
    hide Sum, InPlace;
    Moved(job, s, i, s'.workers[i]);
    SumAtLeast(Signed, s.workers, i);
    SendStaysInPlace(job, s, s', i, true);
    SendStaysInPlace(job, s, s', i, false);
  }

  /** A quiet step changes one goroutine and keeps the semaphore and wait group in step with it. */
  lemma QuietStepShape(job: Job, s: State, s': State, i: nat)
    requires QuietStep(job, s, s', i) && s.sem <= job.Limit()
    ensures i < |s.workers| == |s'.workers| && s'.workers == s.workers[i := s'.workers[i]]
    ensures s' == s.(workers := s'.workers, sem := s'.sem, wg := s'.wg) && s'.sem <= job.Limit()
    ensures var p, p' := s.workers[i], s'.workers[i];
            && !p.Unborn? && !p'.Unborn? && (forall ok :: Filed(p, ok) == Filed(p', ok))
            && s'.sem + Holder(p) == s.sem + Holder(p') && s'.wg + Signed(p) == s.wg + Signed(p')
    ensures s'.wg <= s.wg && Signed(s.workers[i]) == 1
  {}

  lemma QuietStepKeepsInv(job: Job, s: State, s': State, i: nat)
    requires Inv(job, s) && QuietStep(job, s, s', i)
    ensures Inv(job, s')
  {
    hide Sum, InPlace, QuietStep, Filed, Holder, Signed;
    QuietStepShape(job, s, s', i);
    Moved(job, s, i, s'.workers[i]);
    SumAtLeast(Signed, s.workers, i);
    StaysInPlace(job, s, s', i, true);
    StaysInPlace(job, s, s', i, false);
  }

  lemma SpawnKeepsInv(job: Job, s: State, s': State)
    requires Inv(job, s) && Spawn(job, s, s')
    ensures Inv(job, s')
  {
    hide Sum, InPlace;
    Moved(job, s, s.spawned, Waiting);
    StaysInPlace(job, s, s', s.spawned, true);
    StaysInPlace(job, s, s', s.spawned, false);
  }

  lemma ReceiveStaysInPlace(job: Job, s: State, s': State, ok: bool)
    requires InPlace(job, s, ok) && Receive(job, s, s')
    ensures InPlace(job, s', ok)
  {
    hide Tally, Marks;
  }

  lemma ReceiveKeepsInv(job: Job, s: State, s': State)
    requires Inv(job, s) && Receive(job, s, s')
    ensures Inv(job, s')
  {
    hide Sum, InPlace;
    ReceiveStaysInPlace(job, s, s', true);
    ReceiveStaysInPlace(job, s, s', false);
  }

  /** The closer, the return and a cancellation leave workers, channel and lists alone. */
  lemma RestStaysInPlace(job: Job, s: State, s': State, ok: bool)
    requires InPlace(job, s, ok) && (Close(job, s, s') || Finish(job, s, s') || Cancel(s, s'))
    ensures InPlace(job, s', ok)
  {
    hide Tally, Marks, ItemsOf;
  }

  /** Every step keeps the invariant. */
  lemma NextKeepsInv(job: Job, s: State, s': State)
    requires Inv(job, s) && Next(job, s, s')
    ensures Inv(job, s')
  {
    hide InPlace, Sum, Send, QuietStep, Spawn, Receive;
    if i: nat :| WorkerStep(job, s, s', i) {
      if Send(job, s, s', i) {
        SendKeepsInv(job, s, s', i);
      } else {
        QuietStepKeepsInv(job, s, s', i);
      }
    } else if Spawn(job, s, s') {
      SpawnKeepsInv(job, s, s');
    } else if Receive(job, s, s') {
      ReceiveKeepsInv(job, s, s');
    } else {
      RestStaysInPlace(job, s, s', true);
      RestStaysInPlace(job, s, s', false);
    }
  }

  lemma {:induction false} RunInv(job: Job, states: seq<State>, k: nat)
    requires IsRun(job, states) && k < |states|
    ensures Inv(job, states[k])
  {
    if k == 0 {
      InitInv(job);
    } else {
      RunInv(job, states, k - 1);
      assert Next(job, states[k - 1], states[k - 1 + 1]);
      NextKeepsInv(job, states[k - 1], states[k]);
    }
  }

  // ---------------------------------------------------------------- safety

  /** At most `min(max(concurrency, 1), 5)` goroutines hold the semaphore at any time. */
  lemma BoundedConcurrency(job: Job, states: seq<State>, k: nat)
    requires IsRun(job, states) && k < |states|
    ensures Sum(Holder, states[k].workers) <= job.Limit() <= 5
  {
    RunInv(job, states, k);
  }

  /** A goroutine about to send finds room in the channel, and finds it open. */
  lemma SendIsOk(job: Job, s: State, i: nat)
    requires Inv(job, s) && i < |s.workers| && Sending(s.workers[i])
    ensures SendOk(job, s)
  {
    hide Tally, Sum, ItemsOf;
    SumAtLeast(Signed, s.workers, i);
    var a, b := Marks(s.workers, true), Marks(s.workers, false);
    assert !a[i] && !b[i];
    TallyTwo(a, b, job.paths);
    QueueSize(s.queue);
    assert |Delivered(s, true)| + |Delivered(s, false)| == |s.queue| + |s.succeeded| + |s.failed|;
  }

  lemma SendNeverBlocks(job: Job, states: seq<State>, k: nat, i: nat)
    requires IsRun(job, states) && k < |states| && i < |states[k].workers| && Sending(states[k].workers[i])
    ensures SendOk(job, states[k])
  {
    RunInv(job, states, k);
    SendIsOk(job, states[k], i);
  }

  /**
   When the caller returns, every path is in exactly one of the two lists: in `succeeded` those whose goroutine
   sent a success, in `failed` those whose goroutine sent a failure.
   */
  lemma FinishedIsComplete(job: Job, states: seq<State>, k: nat)
    requires IsRun(job, states) && k < |states| && states[k].finished
    ensures var s := states[k];
            && Shaped(job, s) && forall i :: 0 <= i < |s.workers| ==> s.workers[i].Gone?
    ensures var s := states[k];
            && multiset(s.succeeded) == Tally(Marks(s.workers, true), job.paths)
            && multiset(s.failed) == Tally(Marks(s.workers, false), job.paths)
            && multiset(s.succeeded) + multiset(s.failed) == multiset(job.paths)
            && |s.succeeded| + |s.failed| == |job.paths|
  {
    hide Tally, Sum;
    var s := states[k];
    RunInv(job, states, k);
    forall i | 0 <= i < |s.workers| ensures s.workers[i].Gone? {
      SumAtLeast(Signed, s.workers, i);
    }
    TallyTwo(Marks(s.workers, true), Marks(s.workers, false), job.paths);
    assert |multiset(s.succeeded) + multiset(s.failed)| == |multiset(job.paths)|;
  }

  /** The goroutine knows its outcome, sent or not. */
  predicate Knows(p: Phase, ok: bool) {
    (p.Uploaded? && p.ok == ok) || (p.Refused? && !ok) || Filed(p, ok)
  }

  /** In this step the upload of path `i` ends so, or is refused for the cancellation. */
  ghost predicate Decides(job: Job, s: State, s': State, i: nat, ok: bool) {
    Upload(job, s, s', i, ok) || (!ok && Refuse(job, s, s', i))
  }

  lemma OwnStep(job: Job, s: State, s': State, i: nat, ok: bool)
    requires WorkerStep(job, s, s', i) && Knows(s'.workers[i], ok)
    ensures Knows(s.workers[i], ok) || Decides(job, s, s', i, ok)
  {}

  lemma OtherStep(job: Job, s: State, s': State, j: nat)
    requires WorkerStep(job, s, s', j)
    ensures Shaped(job, s) && j < |s.workers| == |s'.workers|
    ensures forall i :: 0 <= i < |s.workers| && i != j ==> s'.workers[i] == s.workers[i]
  {}

  lemma OutcomeStep(job: Job, s: State, s': State, i: nat, ok: bool)
    requires Next(job, s, s') && Shaped(job, s') && i < |s'.workers| && Knows(s'.workers[i], ok)
    ensures Shaped(job, s) && (Knows(s.workers[i], ok) || Decides(job, s, s', i, ok))
  {
    hide WorkerStep, Decides;
    if j: nat :| WorkerStep(job, s, s', j) {
      OtherStep(job, s, s', j);
      if i == j {
        OwnStep(job, s, s', i, ok);
      }
    }
  }

  /** An outcome that was sent is that of the goroutine's own upload, or a refusal, earlier in the run. */
  lemma {:induction false} OutcomeIsReal(job: Job, states: seq<State>, k: nat, i: nat, ok: bool) returns (j: nat)
    requires IsRun(job, states) && k < |states| && i < |states[k].workers| && Knows(states[k].workers[i], ok)
    ensures j < k && Decides(job, states[j], states[j + 1], i, ok)
  {
    hide Next, Knows, Decides;
    RunInv(job, states, k);
    if k == 0 {
      NobodyKnows(job, i, ok);
      assert false;
    }
    assert Next(job, states[k - 1], states[k - 1 + 1]);
    OutcomeStep(job, states[k - 1], states[k], i, ok);
    if Decides(job, states[k - 1], states[k], i, ok) {
      j := k - 1;
    } else {
      j := OutcomeIsReal(job, states, k - 1, i, ok);
    }
  }

  lemma NobodyKnows(job: Job, i: nat, ok: bool)
    requires i < |job.paths|
    ensures !Knows(Init(job).workers[i], ok)
  {}

  // ---------------------------------------------------------------- progress

  function Rank(p: Phase): nat {
    match p
    case Unborn => 7
    case Waiting => 6
    case Holding => 5
    case Uploaded(_) => 4
    case Refused => 3
    case SentHolding(_) => 2
    case Leaving(_) => 1
    case Gone(_) => 0
  }

  function Measure(s: State): nat {
    Sum(Rank, s.workers) + |s.queue| + (if s.closed then 0 else 1) + (if s.finished then 0 else 1)
    + (if s.cancelled then 0 else 1)
  }

  lemma WorkerDecreases(job: Job, s: State, s': State, i: nat)
    requires WorkerStep(job, s, s', i)
    ensures Measure(s') < Measure(s)
  {
    hide Sum;
    SumUpdate(Rank, s.workers, i, s'.workers[i]);
  }

  lemma NextIsUnborn(job: Job, s: State)
    requires Inv(job, s) && s.spawned < |job.paths|
    ensures |s.workers| == |job.paths| && s.workers[s.spawned].Unborn?
  {}

  lemma NextDecreases(job: Job, s: State, s': State)
    requires Inv(job, s) && Next(job, s, s')
    ensures Measure(s') < Measure(s)
  {
    hide Sum, Inv, WorkerStep;
    if i: nat :| WorkerStep(job, s, s', i) {
      WorkerDecreases(job, s, s', i);
    } else if Spawn(job, s, s') {
      NextIsUnborn(job, s);
      SumUpdate(Rank, s.workers, s.spawned, Waiting);
    }
  }

  /** Until the caller returns, some goroutine, the closer or the caller can move. */
  lemma NeverStuck(job: Job, s: State) returns (s': State)
    requires Inv(job, s) && !s.finished
    ensures Next(job, s, s') && s'.cancelled == s.cancelled
  {
    if s.spawned < |job.paths| {
      s' := s.(workers := s.workers[s.spawned := Waiting], spawned := s.spawned + 1, wg := s.wg + 1);
      assert Spawn(job, s, s');
    } else if s.wg > 0 {
      var i := SumWitness(Signed, s.workers);
      if s.workers[i].Waiting? && s.sem == job.Limit() {
        i := SumWitness(Holder, s.workers);
      }
      s' := WorkerMoves(job, s, i);
    } else if s.queue != [] {
      var r := s.queue[0];
      s' := s.(queue := s.queue[1..],
               succeeded := if r.ok then s.succeeded + [r.item] else s.succeeded,
               failed := if r.ok then s.failed else s.failed + [r.item]);
      assert Receive(job, s, s');
    } else if s.closed {
      s' := s.(finished := true);
      assert Finish(job, s, s');
    } else {
      s' := s.(closed := true);
      assert Close(job, s, s');
    }
  }

  lemma WorkerMoves(job: Job, s: State, i: nat) returns (s': State)
    requires Inv(job, s) && i < |s.workers| && Live(s.workers[i])
    requires s.workers[i].Waiting? ==> s.sem < job.Limit()
    ensures Next(job, s, s') && s'.cancelled == s.cancelled
  {
    SumAtLeast(Holder, s.workers, i);
    SumAtLeast(Signed, s.workers, i);
    var p := s.workers[i];
    if p.Waiting? {
      s' := s.(workers := s.workers[i := Holding], sem := s.sem + 1);
    } else if p.Holding? {
      s' := s.(workers := s.workers[i := Uploaded(true)]);
    } else if p.SentHolding? {
      s' := s.(workers := s.workers[i := Leaving(p.ok)], sem := s.sem - 1);
    } else if p.Leaving? {
      s' := s.(workers := s.workers[i := Gone(p.ok)], wg := s.wg - 1);
    } else {
      SendIsOk(job, s, i);
      s' := s.(workers := s.workers[i := if p.Refused? then Leaving(false) else SentHolding(p.ok)],
               queue := s.queue + [Sent(job.paths[i], p.Uploaded? && p.ok)]);
    }
    assert WorkerStep(job, s, s', i);
  }

  /** Every run is over after a bounded number of steps. */
  lemma {:induction false} RunsAreShort(job: Job, states: seq<State>, k: nat)
    requires IsRun(job, states) && k < |states|
    ensures Measure(states[k]) + k <= 7 * |job.paths| + 3
  {
    if k == 0 {
      SumConstant(Rank, Init(job).workers, 7);
    } else {
      RunsAreShort(job, states, k - 1);
      RunInv(job, states, k - 1);
      assert Next(job, states[k - 1], states[k - 1 + 1]);
      NextDecreases(job, states[k - 1], states[k]);
    }
  }

  ghost predicate Over(job: Job, s: State) {
    forall s' :: !Next(job, s, s')
  }

  /** So every run that cannot go on has returned, and with a complete result. */
  lemma EveryRunReturns(job: Job, states: seq<State>)
    requires IsRun(job, states) && Over(job, states[|states| - 1])
    ensures var s := states[|states| - 1];
            s.finished && multiset(s.succeeded) + multiset(s.failed) == multiset(job.paths)
  {
    var k := |states| - 1;
    RunInv(job, states, k);
    if !states[k].finished {
      var s' := NeverStuck(job, states[k]);
      assert false;
    }
    FinishedIsComplete(job, states, k);
  }
}
