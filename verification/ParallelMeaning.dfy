/**
 Parallel execution preserves the meaning of sequential execution: clearing every `parallel` flag of a
 skill changes nothing in a run that is not aborted, and cuts the reports of an aborted run after the
 first step that aborts, provided no step of a batch reads what an earlier step of the batch stores.
 */
module ParallelMeaning {
  import opened Text
  import opened Rescan
  import opened Template
  import opened Engine
  import opened RunShape

  function Sequential(steps: seq<Step>): (r: seq<Step>)
    ensures |r| == |steps|
    ensures forall i :: 0 <= i < |steps| ==> r[i] == steps[i].(parallel := false)
  {
    seq(|steps|, i requires 0 <= i < |steps| => steps[i].(parallel := false))
  }

  /** What the parser guarantees of the steps: distinct ids, and no `parallel` step with `each`. */
  ghost predicate Validated(steps: seq<Step>) {
    DistinctIds(steps) && forall i :: 0 <= i < |steps| && steps[i].parallel ==> steps[i].each == ""
  }

  /** The reports up to and including the first one that aborts a sequential run. */
  function Cut(steps: seq<Step>, i: nat, reports: seq<Report>): seq<Report>
    requires i + |reports| <= |steps|
    decreases |reports|
  {
    if reports == [] then []
    else if Aborting(steps[i], reports[0]) then [reports[0]]
    else [reports[0]] + Cut(steps, i + 1, reports[1..])
  }

  ghost predicate NoneAborts(steps: seq<Step>, i: nat, reports: seq<Report>)
    requires i + |reports| <= |steps|
    decreases |reports|
  {
    reports != [] ==> !Aborting(steps[i], reports[0]) && NoneAborts(steps, i + 1, reports[1..])
  }

  lemma NoneAbortsBehind(steps: seq<Step>, j: nat, r: Report, later: seq<Report>)
    requires j + 1 + |later| <= |steps| && !Aborting(steps[j], r)
    ensures NoneAborts(steps, j, [r] + later) <==> NoneAborts(steps, j + 1, later)
  {
    assert ([r] + later)[1..] == later;
  }

  /** Report `k` of those of the steps from `i` on aborts. */
  predicate AbortsAt(steps: seq<Step>, i: nat, reports: seq<Report>, k: nat) {
    i + k < |steps| && k < |reports| && Aborting(steps[i + k], reports[k])
  }

  lemma {:induction false} NoneAbortsEach(steps: seq<Step>, i: nat, reports: seq<Report>)
    requires i + |reports| <= |steps|
    ensures NoneAborts(steps, i, reports) <==> forall k: nat :: !AbortsAt(steps, i, reports, k)
    decreases |reports|
  {
    hide Aborting;
    if reports != [] {
      var rest, i' := reports[1..], i + 1;
      NoneAbortsEach(steps, i', rest);
      assert AbortsAt(steps, i, reports, 0) <==> Aborting(steps[i], reports[0]);
      if k: nat :| AbortsAt(steps, i, reports, k) {
        if k > 0 {
          assert AbortsAt(steps, i', rest, k - 1);
        }
      }
      if k: nat :| AbortsAt(steps, i', rest, k) {
        var next := k + 1;
        assert AbortsAt(steps, i, reports, next);
      }
    }
  }

  /** Reports without an abort are not cut, and the cut goes on behind them. */
  lemma {:induction false} CutBehind(steps: seq<Step>, i: nat, first: seq<Report>, rest: seq<Report>)
    requires i + |first| + |rest| <= |steps| && NoneAborts(steps, i, first)
    ensures Cut(steps, i, first + rest) == first + Cut(steps, i + |first|, rest)
    decreases |first|
  {
    hide Aborting, Cut, NoneAborts;
    if first == [] {
      assert first + rest == rest;
    } else {
      var r, later := first[0], first[1..];
      assert first == [r] + later && first + rest == [r] + (later + rest);
      FirstGoesOn(steps, i, first);
      NoneAbortsBehind(steps, i, r, later);
      CutBehind(steps, i + 1, later, rest);
      CutOn(steps, i, r, later + rest);
    }
  }

  lemma FirstGoesOn(steps: seq<Step>, i: nat, reports: seq<Report>)
    requires reports != [] && i + |reports| <= |steps| && NoneAborts(steps, i, reports)
    ensures !Aborting(steps[i], reports[0])
  {}

  lemma CutOn(steps: seq<Step>, i: nat, r: Report, later: seq<Report>)
    requires i + 1 + |later| <= |steps| && !Aborting(steps[i], r)
    ensures Cut(steps, i, [r] + later) == [r] + Cut(steps, i + 1, later)
  {
    assert ([r] + later)[1..] == later;
  }

  // ---------------------------------------------------------------- one batch

  /** The store seen by step `j` of a batch when its steps run one after the other. */
  function After(batch: seq<Step>, reports: seq<Report>, j: nat, store: Store): Store
    requires j <= |reports|
  {
    Merge(batch, reports[..j], store)
  }

  /** Running earlier steps of the batch changes only their own keys. */
  lemma {:induction false} MergeFrame(batch: seq<Step>, reports: seq<Report>, j: nat, store: Store, key: string)
    requires DistinctIds(batch) && j <= |batch| && |reports| == |batch|
    requires forall k :: 0 <= k < |batch| ==> reports[k].id == batch[k].id
    requires forall k :: 0 <= k < j ==> batch[k].Key() != key
    ensures SameAt(store, After(batch, reports, j, store), key)
  {
    if j > 0 {
      MergeFrame(batch, reports, j - 1, store, key);
      MergeNext(batch, reports, j - 1, store);
    } else {
      assert reports[..0] == [];
    }
  }

  /** On the store left by the earlier steps, step `j` does what it did on the snapshot. */
  ghost predicate FollowsSnapshot(exec: Exec, batch: seq<Step>, reports: seq<Report>, j: nat, store: Store)
    requires j < |batch| == |reports|
  {
    var run := exec(batch[j], After(batch, reports, j, store));
    run.Done? && run.report == reports[j]
  }

  /** Steps of the batch can run one after the other without noticing the difference. */
  ghost predicate Insulated(exec: Exec, batch: seq<Step>, store: Store) {
    var run := RunBatch(exec, batch, store);
    run.Ran? ==>
      |run.reports| == |batch| &&
      forall j :: 0 <= j < |batch| ==> FollowsSnapshot(exec, batch, run.reports, j, store)
  }

  /** Every batch that the run from position `i` reaches is insulated. */
  ghost predicate InsulatedRun(exec: Exec, steps: seq<Step>, i: nat, store: Store)
    requires i <= |steps|
    decreases |steps| - i
  {
    i == |steps| ||
    (var turn := Turn(exec, steps, i, store);
     && (steps[i].parallel ==> Insulated(exec, steps[i..BatchEnd(steps, i)], store))
     && (turn.Ran? && !turn.aborted ==> InsulatedRun(exec, steps, Next(steps, i), turn.store)))
  }

  /** A step semantics that ignores the `parallel` flag of steps without `each`. */
  ghost predicate FlagBlind(exec: Exec) {
    forall step: Step, store: Store :: step.each == "" ==> exec(step.(parallel := false), store) == exec(step, store)
  }

  /** How a run `run` from step `j` with reports `rs` ends in, or goes on to, the run `rest` behind them. */
  ghost predicate Continues(steps: seq<Step>, j: nat, rs: seq<Report>, run: Ran, rest: Ran)
    requires j + |rs| <= |steps|
  {
    if NoneAborts(steps, j, rs) then run == Prepend(rs, rest)
    else run.Ran? && run.aborted && run.reports == Cut(steps, j, rs)
  }

  /** One more report in front. */
  lemma ContinuesBehind(steps: seq<Step>, j: nat, rs: seq<Report>, run: Ran, rest: Ran)
    requires rs != [] && j + |rs| <= |steps| && !Aborting(steps[j], rs[0])
    requires Continues(steps, j + 1, rs[1..], run, rest)
    ensures Continues(steps, j, rs, Prepend([rs[0]], run), rest)
  {
    assert rs == [rs[0]] + rs[1..];
    NoneAbortsBehind(steps, j, rs[0], rs[1..]);
    PrependTwice([rs[0]], rs[1..], rest);
  }

  lemma ContinuesAborted(steps: seq<Step>, j: nat, rs: seq<Report>, run: Ran, rest: Ran)
    requires rs != [] && j + |rs| <= |steps| && Aborting(steps[j], rs[0])
    requires run.Ran? && run.aborted && run.reports == [rs[0]]
    ensures Continues(steps, j, rs, run, rest)
  {
    assert steps[j + 0] == steps[j];
  }

  /** The sequential run of step `j` reports `r` and, unless that aborts, turns `store` into `next`. */
  ghost predicate Executes(exec: Exec, steps: seq<Step>, j: nat, store: Store, r: Report, next: Store)
    requires j < |steps|
  {
    var turn := Turn(exec, Sequential(steps), j, store);
    && turn.Ran? && turn.reports == [r] && turn.aborted == Aborting(steps[j], r)
    && (!turn.aborted ==> turn.store == next)
  }

  /** `stores` are the stores between sequential steps that report `rs`. */
  ghost predicate Chain(exec: Exec, steps: seq<Step>, j: nat, rs: seq<Report>, stores: seq<Store>) {
    && j + |rs| <= |steps| && |stores| == |rs| + 1
    && forall k :: 0 <= k < |rs| ==> Link(exec, steps, j, rs, stores, k)
  }

  ghost predicate Link(exec: Exec, steps: seq<Step>, j: nat, rs: seq<Report>, stores: seq<Store>, k: nat)
    requires j + |rs| <= |steps| && |stores| == |rs| + 1 && k < |rs|
  {
    Executes(exec, steps, j + k, stores[k], rs[k], stores[k + 1])
  }

  /** Steps that execute one after the other make up the sequential run. */
  lemma {:induction false} ChainContinues(exec: Exec, steps: seq<Step>, j: nat, rs: seq<Report>, stores: seq<Store>)
    requires Chain(exec, steps, j, rs, stores)
    ensures Continues(steps, j, rs, RunFrom(exec, Sequential(steps), j, stores[0]),
                      RunFrom(exec, Sequential(steps), j + |rs|, stores[|rs|]))
    decreases |rs|
  {
    var rest := RunFrom(exec, Sequential(steps), j + |rs|, stores[|rs|]);
    if rs == [] {
      PrependNothing(rest);
    } else {
      assert Link(exec, steps, j, rs, stores, 0);
      var run := RunFrom(exec, Sequential(steps), j, stores[0]);
      if Aborting(steps[j], rs[0]) {
        ContinuesAborted(steps, j, rs, run, rest);
      } else {
        var n, tail, after := j + 1, rs[1..], stores[1..];
        forall k | 0 <= k < |tail| ensures Link(exec, steps, n, tail, after, k) {
          assert Link(exec, steps, j, rs, stores, k + 1);
        }
        ChainContinues(exec, steps, n, tail, after);
        ContinuesBehind(steps, j, rs, RunFrom(exec, Sequential(steps), j + 1, stores[1]), rest);
      }
    }
  }

  /** The batch `steps[i..e]`, run from `store`, ended with these reports and is insulated. */
  ghost predicate BatchRan(exec: Exec, steps: seq<Step>, i: nat, e: nat, store: Store, reports: seq<Report>) {
    && i <= e <= |steps| && |reports| == e - i && Validated(steps)
    && (forall k :: i <= k < e ==> steps[k].parallel)
    && RunBatch(exec, steps[i..e], store).Ran? && RunBatch(exec, steps[i..e], store).reports == reports
    && Insulated(exec, steps[i..e], store)
  }

  /** Behind the earlier steps of its batch, a step executes as it reported. */
  lemma StepInSequence(exec: Exec, steps: seq<Step>, i: nat, e: nat, k: nat, store: Store, reports: seq<Report>)
    requires WellBehaved(exec) && FlagBlind(exec)
    requires BatchRan(exec, steps, i, e, store, reports) && k < e - i
    ensures Executes(exec, steps, i + k, After(steps[i..e], reports, k, store), reports[k],
                     After(steps[i..e], reports, k + 1, store))
  {
    var batch := steps[i..e];
    var now := After(batch, reports, k, store);
    assert batch[k] == steps[i + k] && steps[i + k].each == "";
    assert FollowsSnapshot(exec, batch, reports, k, store);
    assert GoodRun(batch[k], now, exec(batch[k], now));
    MergeNext(batch, reports, k, store);
  }

  /** A batch executed sequentially: its reports cut at the first abort, or the run behind it. */
  lemma BatchInSequence(exec: Exec, steps: seq<Step>, i: nat, e: nat, store: Store, reports: seq<Report>)
    requires WellBehaved(exec) && FlagBlind(exec)
    requires BatchRan(exec, steps, i, e, store, reports)
    ensures Continues(steps, i, reports, RunFrom(exec, Sequential(steps), i, store),
                      RunFrom(exec, Sequential(steps), e, Merge(steps[i..e], reports, store)))
  {
    hide Stores, Executes, Continues, WellBehaved, FlagBlind;
    var stores := Stores(steps[i..e], reports, store);
    forall k | 0 <= k < e - i ensures Link(exec, steps, i, reports, stores, k) {
      StepInSequence(exec, steps, i, e, k, store, reports);
    }
    ChainContinues(exec, steps, i, reports, stores);
  }

  /** The stores between the steps of a batch run one after the other. */
  function Stores(batch: seq<Step>, reports: seq<Report>, store: Store): (r: seq<Store>)
    ensures |r| == |reports| + 1
    ensures forall k :: 0 <= k <= |reports| ==> r[k] == After(batch, reports, k, store)
    ensures r[0] == store && r[|reports|] == Merge(batch, reports, store)
  {
    assert reports[..0] == [] && reports[..|reports|] == reports;
    seq(|reports| + 1, k requires 0 <= k <= |reports| => After(batch, reports, k, store))
  }

  lemma PrependNothing(run: Ran)
    ensures Prepend([], run) == run
  {
    if run.Ran? {
      assert [] + run.reports == run.reports;
    }
  }

  // ---------------------------------------------------------------- whole runs

  /** How the sequential run `s` relates to the parallel run `p` of the same steps from position `i`. */
  ghost predicate Preserved(steps: seq<Step>, i: nat, p: Ran, s: Ran) {
    p.Ran? ==>
      && s.Ran? && s.aborted == p.aborted
      && i + |p.reports| <= |steps| && s.reports == Cut(steps, i, p.reports)
      && (!p.aborted ==> s == p)
  }

  lemma PreservedBehind(steps: seq<Step>, i: nat, reports: seq<Report>, p: Ran, s: Ran)
    requires i + |reports| <= |steps| && NoneAborts(steps, i, reports)
    requires Preserved(steps, i + |reports|, p, s)
    ensures Preserved(steps, i, Prepend(reports, p), Prepend(reports, s))
  {
    if p.Ran? {
      CutBehind(steps, i, reports, p.reports);
    }
  }

  /** One turn of the parallel run, executed sequentially. */
  lemma BatchPreserved(exec: Exec, steps: seq<Step>, i: nat, store: Store)
    requires WellBehaved(exec) && FlagBlind(exec)
    requires Validated(steps) && i < |steps| && steps[i].parallel
    requires Insulated(exec, steps[i..BatchEnd(steps, i)], store)
    ensures var turn, s := Turn(exec, steps, i, store), RunFrom(exec, Sequential(steps), i, store);
            turn.Ran? ==>
              && i + |turn.reports| == Next(steps, i)
              && if turn.aborted then Preserved(steps, i, turn, s)
                 else && NoneAborts(steps, i, turn.reports)
                      && s == Prepend(turn.reports, RunFrom(exec, Sequential(steps), Next(steps, i), turn.store))
  {
    var e := BatchEnd(steps, i);
    var turn := Turn(exec, steps, i, store);
    BatchReports(exec, steps[i..e], store);
    if turn.Ran? {
      BatchInSequence(exec, steps, i, e, store, turn.reports);
      BatchAborts(steps, i, e, turn.reports);
      NoneAbortsEach(steps, i, turn.reports);
    }
  }

  lemma BatchAborts(steps: seq<Step>, i: nat, e: nat, reports: seq<Report>)
    requires i <= e <= |steps| && |reports| == e - i
    ensures (exists k :: 0 <= k < e - i && Aborting(steps[i..e][k], reports[k])) <==>
            (exists k: nat :: AbortsAt(steps, i, reports, k))
  {
    hide Aborting;
    if k :| 0 <= k < e - i && Aborting(steps[i..e][k], reports[k]) {
      assert AbortsAt(steps, i, reports, k);
    }
    if k: nat :| AbortsAt(steps, i, reports, k) {
      assert steps[i..e][k] == steps[i + k];
    }
  }

  lemma SinglePreserved(exec: Exec, steps: seq<Step>, i: nat, store: Store)
    requires WellBehaved(exec) && i < |steps| && !steps[i].parallel
    ensures var turn := Turn(exec, steps, i, store);
            && Turn(exec, Sequential(steps), i, store) == turn
            && (turn.Ran? ==>
                 && |turn.reports| == 1
                 && (turn.aborted ==> Preserved(steps, i, turn, turn))
                 && (!turn.aborted ==> NoneAborts(steps, i, turn.reports)))
  {
    assert Sequential(steps)[i] == steps[i];
    assert GoodRun(steps[i], store, exec(steps[i], store));
    assert steps[i + 0] == steps[i];
  }

  lemma NothingPreserved(steps: seq<Step>, store: Store)
    ensures Preserved(steps, |steps|, Ran([], false, store), Ran([], false, store))
  {}

  /** The theorem for an arbitrary step semantics whose batches are insulated. */
  lemma {:induction false} InsulatedRunPreserved(exec: Exec, steps: seq<Step>, i: nat, store: Store)
    requires WellBehaved(exec) && FlagBlind(exec)
    requires Validated(steps) && i <= |steps|
    requires InsulatedRun(exec, steps, i, store)
    ensures Preserved(steps, i, RunFrom(exec, steps, i, store), RunFrom(exec, Sequential(steps), i, store))
    decreases |steps| - i
  {
    hide Turn, NoneAborts, Insulated, Validated, WellBehaved, FlagBlind;
    if i == |steps| {
      NothingPreserved(steps, store);
    } else {
      var turn, n := Turn(exec, steps, i, store), Next(steps, i);
      if steps[i].parallel {
        BatchPreserved(exec, steps, i, store);
      } else {
        SinglePreserved(exec, steps, i, store);
      }
      if turn.Ran? && !turn.aborted {
        InsulatedRunPreserved(exec, steps, n, turn.store);
        PreservedBehind(steps, i, turn.reports, RunFrom(exec, steps, n, turn.store),
                        RunFrom(exec, Sequential(steps), n, turn.store));
      }
    }
  }

  // ---------------------------------------------------------------- the engine's steps

  /** No step of the batch, rendered on `snapshot`, looks up the store key of an earlier step of the batch. */
  ghost predicate Independent(w: World, inputs: map<string, string>, batch: seq<Step>, snapshot: Store) {
    forall i, j :: 0 <= i < j < |batch| ==>
      !ArgsUse(w.show, Env(inputs, snapshot, None), batch[j].args, batch[i].Key())
  }

  /** Every batch that the run from position `i` reaches is independent. */
  ghost predicate IndependentRun(w: World, inputs: map<string, string>, steps: seq<Step>, i: nat, store: Store)
    requires i <= |steps|
    decreases |steps| - i
  {
    i == |steps| ||
    (var turn := Turn(Execute(w, inputs), steps, i, store);
     && (steps[i].parallel ==> Independent(w, inputs, steps[i..BatchEnd(steps, i)], store))
     && (turn.Ran? && !turn.aborted ==> IndependentRun(w, inputs, steps, Next(steps, i), turn.store)))
  }

  /**
   Independence can be read off the templates: where the values of mixed ones bring in no `{{`, it is enough
   that no argument names, in its own text, the store key of an earlier step of the batch.
   */
  lemma NamingSuffices(w: World, inputs: map<string, string>, batch: seq<Step>, snapshot: Store)
    requires forall j, k :: 0 <= j < |batch| && k in batch[j].args ==>
               IsSingle(batch[j].args[k]) || CleanPass(Expand(w.show, Env(inputs, snapshot, None)), batch[j].args[k])
    requires forall i, j, k :: 0 <= i < j < |batch| && k in batch[j].args ==>
               !Names(w.show, Env(inputs, snapshot, None), batch[j].args[k], batch[i].Key())
    ensures Independent(w, inputs, batch, snapshot)
  {
    var env := Env(inputs, snapshot, None);
    forall i, j | 0 <= i < j < |batch| ensures !ArgsUse(w.show, env, batch[j].args, batch[i].Key()) {
      if k :| k in batch[j].args && Uses(w.show, env, batch[j].args[k], batch[i].Key()) {
        CleanUsesAreNamed(w.show, env, batch[j].args[k], batch[i].Key());
      }
    }
  }

  lemma IndependentIsInsulated(w: World, inputs: map<string, string>, batch: seq<Step>, store: Store)
    requires DistinctIds(batch) && forall j :: 0 <= j < |batch| ==> batch[j].each == ""
    requires Independent(w, inputs, batch, store)
    ensures Insulated(Execute(w, inputs), batch, store)
  {
    var exec := Execute(w, inputs);
    ExecuteIsWellBehaved(w, inputs);
    BatchReports(exec, batch, store);
    var run := RunBatch(exec, batch, store);
    if run.Ran? {
      forall j | 0 <= j < |batch| ensures FollowsSnapshot(exec, batch, run.reports, j, store) {
        var before := After(batch, run.reports, j, store);
        forall k | ArgsUse(w.show, Env(inputs, store, None), batch[j].args, k) ensures SameAt(store, before, k) {
          MergeFrame(batch, run.reports, j, store, k);
        }
        SameReport(w, inputs, batch[j], store, before);
        assert exec(batch[j], store) == Outcomes(exec, batch, store)[j];
      }
    }
  }

  /** A step reports the same on any store that agrees on what its arguments look up. */
  lemma SameReport(w: World, inputs: map<string, string>, step: Step, store: Store, other: Store)
    requires step.each == ""
    requires forall k :: ArgsUse(w.show, Env(inputs, store, None), step.args, k) ==> SameAt(store, other, k)
    ensures var a, b := Execute(w, inputs)(step, store), Execute(w, inputs)(step, other);
            a.Done? ==> b.Done? && b.report == a.report
  {
    var env := Env(inputs, store, None);
    RenderAllFrame(w.show, env, other, step.args);
    assert env.(store := other) == Env(inputs, other, None);
  }

  lemma BatchIsValid(steps: seq<Step>, i: nat, e: nat)
    requires Validated(steps) && i <= e <= |steps| && forall k :: i <= k < e ==> steps[k].parallel
    ensures DistinctIds(steps[i..e]) && forall j :: 0 <= j < e - i ==> steps[i..e][j].each == ""
  {
    assert forall j :: 0 <= j < e - i ==> steps[i..e][j] == steps[i + j];
  }

  lemma {:induction false} IndependentRunIsInsulated(w: World, inputs: map<string, string>, steps: seq<Step>,
                                                     i: nat, store: Store)
    requires Validated(steps) && i <= |steps|
    requires IndependentRun(w, inputs, steps, i, store)
    ensures InsulatedRun(Execute(w, inputs), steps, i, store)
    decreases |steps| - i
  {
    hide Insulated, Independent, Validated, Turn, Execute;
    if i < |steps| {
      if steps[i].parallel {
        BatchIsValid(steps, i, BatchEnd(steps, i));
        IndependentIsInsulated(w, inputs, steps[i..BatchEnd(steps, i)], store);
      }
      var turn := Turn(Execute(w, inputs), steps, i, store);
      if turn.Ran? && !turn.aborted {
        IndependentRunIsInsulated(w, inputs, steps, Next(steps, i), turn.store);
      }
    }
  }

  lemma ExecuteIsFlagBlind(w: World, inputs: map<string, string>)
    ensures FlagBlind(Execute(w, inputs))
  {
    hide RenderAll, Call;
    forall step: Step, store: Store | step.each == ""
      ensures Execute(w, inputs)(step.(parallel := false), store) == Execute(w, inputs)(step, store)
    {
      CallIsFlagBlind(w, step, inputs, store);
    }
  }

  lemma CallIsFlagBlind(w: World, step: Step, inputs: map<string, string>, store: Store)
    ensures RunPlain(w, step.(parallel := false), inputs, store, None) == RunPlain(w, step, inputs, store, None)
  {
    hide RenderAll;
  }

  /**
   Parallel execution preserves meaning. If the run of a validated, independent skill ends, so does the
   run with every `parallel` flag cleared; the two abort together; without an abort they are equal; and
   when they abort, the sequential reports are the parallel ones cut after the first aborting step.
   */
  lemma ParallelPreservesMeaning(w: World, inputs: map<string, string>, steps: seq<Step>, store: Store)
    requires Validated(steps) && IndependentRun(w, inputs, steps, 0, store)
    ensures Preserved(steps, 0, RunFrom(Execute(w, inputs), steps, 0, store),
                      RunFrom(Execute(w, inputs), Sequential(steps), 0, store))
  {
    ExecuteIsWellBehaved(w, inputs);
    ExecuteIsFlagBlind(w, inputs);
    IndependentRunIsInsulated(w, inputs, steps, 0, store);
    InsulatedRunPreserved(Execute(w, inputs), steps, 0, store);
  }

  // ---------------------------------------------------------------- whole skills

  /** The answer of a skill and the answer of the same skill with every `parallel` flag cleared. */
  lemma SkillPreserved(w: World, skill: Skill, supplied: map<string, string>)
    requires Validated(skill.steps)
    requires var filled := FillInputs(skill.inputs, supplied);
             filled.Ok? ==> IndependentRun(w, filled.value, skill.steps, 0, map[])
    ensures var p, s := RunSkill(w, skill, supplied), RunSkill(w, skill.(steps := Sequential(skill.steps)), supplied);
            p.Some? ==>
              if p.value.Answer? && !p.value.success then
                && s.Some? && s.value.Answer? && !s.value.success
                && |p.value.steps| <= |skill.steps| && s.value.steps == Cut(skill.steps, 0, p.value.steps)
              else s == p
  {
    var filled := FillInputs(skill.inputs, supplied);
    if filled.Ok? {
      ParallelPreservesMeaning(w, filled.value, skill.steps, map[]);
      AbortedReports(Execute(w, filled.value), Sequential(skill.steps), 0, map[]);
    }
  }
}
