/**
 The goroutines of a parallel batch (engine.go lines 123-179), interleaved in every possible way:
 each copies the snapshot, renders its arguments, calls its tool, writes its slot of `results` and
 signs off at the wait group; the merge waits for all of them.
 */
module Schedule {
  import opened Text
  import opened Template
  import opened Engine
  import opened Sums

  /** Where one goroutine is; it carries its local store and what it has computed so far. */
  datatype Pc =
    | Start
    | Copied(local: Store)
    | Rendered(local: Store, args: ArgsOutcome)
    | Called(run: StepRun)
    | Written
    | Finished

  datatype Slot = Empty | Filled(report: Report, aborted: bool)

  datatype State = State(threads: seq<Pc>, results: seq<Slot>, wg: nat, merged: Option<Ran>)

  /** The batch, the inputs and the snapshot that all goroutines share and none writes. */
  datatype Job = Job(w: World, inputs: map<string, string>, batch: seq<Step>, snapshot: Store) {
    ghost function Exec(): Exec { Execute(w, inputs) }
  }

  function Init(job: Job): State {
    State(seq(|job.batch|, _ => Start), seq(|job.batch|, _ => Empty), |job.batch|, None)
  }

  /** The next point of goroutine `i`; None when it is finished, or hangs in a template that never ends. */
  ghost function Advance(job: Job, i: nat, pc: Pc): Option<Pc>
    requires i < |job.batch|
  {
    var step := job.batch[i];
    match pc
    case Start => Some(Copied(job.snapshot))
    case Copied(local) =>
      var args := RenderAll(job.w.show, Env(job.inputs, local, None), step.args);
      if args.ArgsHang? then None else Some(Rendered(local, args))
    case Rendered(local, args) =>
      (match args
       case ArgsHang => None
       case ArgsBad => Some(Called(Failed(step, BadArgs, local)))
       case ArgsGood(rendered) => Some(Called(Call(job.w, step, rendered, local))))
    case Called(_) => Some(Written)
    case Written => Some(Finished)
    case Finished => None
  }

  /** One move of goroutine `i`. */
  ghost predicate Moves(job: Job, s: State, s': State, i: nat) {
    && i < |job.batch| == |s.threads| == |s.results|
    && var pc := s.threads[i];
       var next := Advance(job, i, pc);
       && next.Some?
       && (pc.Called? ==> pc.run.Done?)
       && (pc.Written? ==> s.wg > 0)
       && s' == s.(threads := s.threads[i := next.value],
                   results := if pc.Called? then s.results[i := Filled(pc.run.report, pc.run.aborted)] else s.results,
                   wg := if pc.Written? then s.wg - 1 else s.wg)
  }

  ghost predicate AllFilled(results: seq<Slot>) {
    forall i :: 0 <= i < |results| ==> results[i].Filled?
  }

  /** The merge of lines 154-178, in index order. */
  ghost function Merged(batch: seq<Step>, snapshot: Store, results: seq<Slot>): Ran
    requires AllFilled(results)
  {
    var reports := seq(|results|, i requires 0 <= i < |results| => results[i].report);
    Ran(reports, exists i :: 0 <= i < |results| && results[i].aborted, Merge(batch, reports, snapshot))
  }

  /** It runs once the wait group is down to zero. */
  ghost predicate Merges(job: Job, s: State, s': State) {
    && s.wg == 0 && s.merged.None? && AllFilled(s.results)
    && s' == s.(merged := Some(Merged(job.batch, job.snapshot, s.results)))
  }

  ghost predicate Next(job: Job, s: State, s': State) {
    (exists i: nat :: Moves(job, s, s', i)) || Merges(job, s, s')
  }

  /** A schedule: any interleaving of the goroutines and the merge, from the start. */
  ghost predicate IsSchedule(job: Job, states: seq<State>) {
    && states != [] && states[0] == Init(job)
    && forall k :: 0 <= k < |states| - 1 ==> Next(job, states[k], states[k + 1])
  }

  // ---------------------------------------------------------------- the invariant

  /** What goroutine `i` has computed is what its step makes of the snapshot. */
  ghost predicate Consistent(job: Job, i: nat, pc: Pc, slot: Slot)
    requires i < |job.batch|
  {
    var run := job.Exec()(job.batch[i], job.snapshot);
    match pc
    case Start => slot.Empty?
    case Copied(local) => slot.Empty? && local == job.snapshot
    case Rendered(local, args) =>
      && slot.Empty? && local == job.snapshot && !args.ArgsHang?
      && args == RenderAll(job.w.show, Env(job.inputs, local, None), job.batch[i].args)
    case Called(r) => slot.Empty? && r == run && r.Done?
    case _ => run.Done? && slot == Filled(run.report, run.aborted)
  }

  function Open(pc: Pc): nat { if pc.Finished? then 0 else 1 }

  ghost predicate Inv(job: Job, s: State) {
    && |s.threads| == |s.results| == |job.batch|
    && (forall i :: 0 <= i < |job.batch| ==> Consistent(job, i, s.threads[i], s.results[i]))
    && s.wg == Sum(Open, s.threads)
    && (s.merged.Some? ==> s.wg == 0 && s.merged.value == RunBatch(job.Exec(), job.batch, job.snapshot))
  }

  /** What the parser guarantees: a step cannot be both `parallel` and `each`. */
  predicate NoEach(batch: seq<Step>) {
    forall i :: 0 <= i < |batch| ==> batch[i].each == ""
  }

  lemma InitInv(job: Job)
    ensures Inv(job, Init(job))
  {
    SumConstant(Open, Init(job).threads, 1);
  }

  lemma AdvanceConsistent(job: Job, i: nat, pc: Pc, slot: Slot)
    requires i < |job.batch| && job.batch[i].each == ""
    requires Consistent(job, i, pc, slot) && Advance(job, i, pc).Some?
    ensures Consistent(job, i, Advance(job, i, pc).value,
                       if pc.Called? then Filled(pc.run.report, pc.run.aborted) else slot)
  {}

  lemma MoveKeepsInv(job: Job, s: State, s': State, i: nat)
    requires NoEach(job.batch) && Inv(job, s) && Moves(job, s, s', i)
    ensures Inv(job, s')
  {
    AdvanceConsistent(job, i, s.threads[i], s.results[i]);
    SumUpdate(Open, s.threads, i, s'.threads[i]);
    SumAtLeast(Open, s.threads, i);
  }

  lemma MergeKeepsInv(job: Job, s: State, s': State)
    requires Inv(job, s) && Merges(job, s, s')
    ensures Inv(job, s')
  {
    AllWritten(job, s);
    forall i | 0 <= i < |job.batch|
      ensures var run := job.Exec()(job.batch[i], job.snapshot);
              run.Done? && s.results[i] == Filled(run.report, run.aborted)
    {
      assert Consistent(job, i, s.threads[i], s.results[i]);
    }
    MergedIsBatch(job.Exec(), job.batch, job.snapshot, s.results);
  }

  lemma MergedIsBatch(exec: Exec, batch: seq<Step>, snapshot: Store, results: seq<Slot>)
    requires |results| == |batch|
    requires forall i :: 0 <= i < |batch| ==>
               var run := exec(batch[i], snapshot); run.Done? && results[i] == Filled(run.report, run.aborted)
    ensures AllFilled(results) && Merged(batch, snapshot, results) == RunBatch(exec, batch, snapshot)
  {
    var runs := Outcomes(exec, batch, snapshot);
    assert forall i :: 0 <= i < |batch| ==> runs[i].Done? && results[i] == Filled(runs[i].report, runs[i].aborted);
    assert Merged(batch, snapshot, results).reports == ReportsOf(runs);
    assert (exists i :: 0 <= i < |runs| && runs[i].aborted) <==> exists i :: 0 <= i < |results| && results[i].aborted;
  }

  /** At the merge every slot has been written. */
  lemma AllWritten(job: Job, s: State)
    requires Inv(job, s) && s.wg == 0
    ensures forall i :: 0 <= i < |job.batch| ==> s.threads[i].Finished? && s.results[i].Filled?
  {
    forall i | 0 <= i < |job.batch| ensures s.threads[i].Finished? && s.results[i].Filled? {
      SumAtLeast(Open, s.threads, i);
      assert Consistent(job, i, s.threads[i], s.results[i]);
    }
  }

  lemma {:induction false} ScheduleInv(job: Job, states: seq<State>, k: nat)
    requires NoEach(job.batch) && IsSchedule(job, states) && k < |states|
    ensures Inv(job, states[k])
  {
    if k == 0 {
      InitInv(job);
    } else {
      ScheduleInv(job, states, k - 1);
      var s, s' := states[k - 1], states[k - 1 + 1];
      assert Next(job, s, s');
      if i: nat :| Moves(job, s, s', i) {
        MoveKeepsInv(job, s, s', i);
      } else {
        MergeKeepsInv(job, s, s');
      }
    }
  }

  /**
   Scheduling cannot change the result: whatever the interleaving, a merged batch has the reports, abort
   flag and store of running every step on the snapshot and merging left to right.
   */
  lemma ScheduleIndependent(job: Job, states: seq<State>)
    requires NoEach(job.batch) && IsSchedule(job, states)
    ensures var last := states[|states| - 1];
            last.merged.Some? ==> last.merged.value == RunBatch(job.Exec(), job.batch, job.snapshot)
  {
    ScheduleInv(job, states, |states| - 1);
  }

  // ---------------------------------------------------------------- termination

  function Rank(pc: Pc): nat {
    match pc
    case Start => 5
    case Copied(_) => 4
    case Rendered(_, _) => 3
    case Called(_) => 2
    case Written => 1
    case Finished => 0
  }

  function Measure(s: State): nat {
    Sum(Rank, s.threads) + if s.merged.None? then 1 else 0
  }

  /** Every move uses up exactly one unit. */
  lemma NextDecreases(job: Job, s: State, s': State)
    requires Next(job, s, s')
    ensures Measure(s') == Measure(s) - 1
  {
    if i: nat :| Moves(job, s, s', i) {
      SumUpdate(Rank, s.threads, i, s'.threads[i]);
    }
  }

  /** So every schedule is over after five moves per step and the merge. */
  lemma {:induction false} ScheduleLength(job: Job, states: seq<State>, k: nat)
    requires IsSchedule(job, states) && k < |states|
    ensures Measure(states[k]) == 5 * |job.batch| + 1 - k
  {
    if k == 0 {
      SumConstant(Rank, Init(job).threads, 5);
    } else {
      ScheduleLength(job, states, k - 1);
      assert Next(job, states[k - 1], states[k - 1 + 1]);
      NextDecreases(job, states[k - 1], states[k]);
    }
  }

  /** Until the merge some move is possible, as long as no step of the batch hangs. */
  lemma NeverStuck(job: Job, s: State) returns (s': State)
    requires NoEach(job.batch) && Inv(job, s) && s.merged.None?
    requires !RunBatch(job.Exec(), job.batch, job.snapshot).NeverEnds?
    ensures Next(job, s, s')
  {
    if s.wg == 0 {
      AllWritten(job, s);
      s' := s.(merged := Some(Merged(job.batch, job.snapshot, s.results)));
      assert Merges(job, s, s');
    } else {
      var i := SumWitness(Open, s.threads);
      var pc := s.threads[i];
      assert Consistent(job, i, pc, s.results[i]);
      assert Outcomes(job.Exec(), job.batch, job.snapshot)[i].Done?;
      var next := Advance(job, i, pc);
      s' := s.(threads := s.threads[i := next.value],
               results := if pc.Called? then s.results[i := Filled(pc.run.report, pc.run.aborted)] else s.results,
               wg := if pc.Written? then s.wg - 1 else s.wg);
      assert Moves(job, s, s', i);
    }
  }

  /** No move is left. */
  ghost predicate Over(job: Job, s: State) {
    forall s' :: !Next(job, s, s')
  }

  /** A schedule that cannot be continued has merged, after exactly that many moves, with the right result. */
  lemma EverySchedule(job: Job, states: seq<State>)
    requires NoEach(job.batch) && IsSchedule(job, states)
    requires !RunBatch(job.Exec(), job.batch, job.snapshot).NeverEnds?
    requires Over(job, states[|states| - 1])
    ensures |states| == 5 * |job.batch| + 2
    ensures states[|states| - 1].merged == Some(RunBatch(job.Exec(), job.batch, job.snapshot))
  {
    var last := states[|states| - 1];
    ScheduleInv(job, states, |states| - 1);
    ScheduleLength(job, states, |states| - 1);
    if last.merged.None? {
      var s' := NeverStuck(job, last);
      assert false;
    }
    AllWritten(job, last);
    SumConstant(Rank, last.threads, 0);
  }
}
