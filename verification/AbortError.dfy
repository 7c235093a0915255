/**
 Whether an aborted run names its error. The engine takes the error of the last report (engine.go lines
 67-83), and in a parallel batch the last step need not be the one that failed.
 */
module AbortError {
  import opened Text
  import opened Json
  import opened Template
  import opened Engine
  import opened RunShape

  /** A failure of step `k` can be followed, in its own batch, by the report of another step. */
  predicate Masked(steps: seq<Step>, k: nat) {
    k + 1 < |steps| && steps[k].parallel && steps[k + 1].parallel && steps[k].onFail != "skip"
  }

  /** If the run was aborted, its last report is a failure. */
  ghost predicate EndsInFailure(run: Ran) {
    run.Ran? && run.aborted ==> run.reports != [] && !run.reports[|run.reports| - 1].Success()
  }

  /** However the steps behave. */
  ghost predicate AlwaysNamesError(steps: seq<Step>) {
    forall exec: Exec, store: Store :: WellBehaved(exec) ==> EndsInFailure(RunFrom(exec, steps, 0, store))
  }

  // ---------------------------------------------------------------- without masked steps

  lemma UnmaskedBatch(exec: Exec, steps: seq<Step>, i: nat, e: nat, store: Store)
    requires WellBehaved(exec) && i < e <= |steps| && forall k :: i <= k < e ==> steps[k].parallel
    requires forall k: nat :: !Masked(steps, k)
    ensures EndsInFailure(RunBatch(exec, steps[i..e], store))
  {
    var batch := steps[i..e];
    var run := RunBatch(exec, batch, store);
    BatchReports(exec, batch, store);
    if run.Ran? && run.aborted {
      var k :| 0 <= k < |batch| && Aborting(batch[k], run.reports[k]);
      assert batch[k] == steps[i + k] && !Masked(steps, i + k);
    }
  }

  lemma {:induction false} UnmaskedRun(exec: Exec, steps: seq<Step>, i: nat, store: Store)
    requires WellBehaved(exec) && i <= |steps| && forall k: nat :: !Masked(steps, k)
    ensures EndsInFailure(RunFrom(exec, steps, i, store))
    decreases |steps| - i
  {
    if i < |steps| {
      var turn := Turn(exec, steps, i, store);
      if steps[i].parallel {
        UnmaskedBatch(exec, steps, i, BatchEnd(steps, i), store);
      } else {
        assert GoodRun(steps[i], store, exec(steps[i], store));
      }
      if turn.Ran? && !turn.aborted {
        UnmaskedRun(exec, steps, Next(steps, i), turn.store);
      }
    }
  }

  // ---------------------------------------------------------------- with a masked step

  /** Every step succeeds but the one with the id. */
  function FailsAt(id: string): Exec {
    (step: Step, store: Store) => if step.id == id then Failed(step, NotAList, store) else Succeeded(step, Null, store)
  }

  lemma FailsAtIsWellBehaved(id: string)
    ensures WellBehaved(FailsAt(id))
  {
    forall step: Step, store: Store ensures GoodRun(step, store, FailsAt(id)(step, store)) {}
  }

  /** A batch of such steps ends, fails at that id only, and aborts unless that failure is skipped. */
  lemma FailsAtRuns(id: string, batch: seq<Step>, store: Store)
    ensures var run := RunBatch(FailsAt(id), batch, store);
            && run.Ran? && |run.reports| == |batch|
            && (forall j :: 0 <= j < |batch| ==> run.reports[j].Success() == (batch[j].id != id))
            && (run.aborted <==> exists j :: 0 <= j < |batch| && FailsHere(id, batch[j]))
  {
    hide Merge;
    var runs := Outcomes(FailsAt(id), batch, store);
    assert forall j :: 0 <= j < |batch| ==> runs[j].Done? && runs[j].aborted == FailsHere(id, batch[j]);
  }

  predicate FailsHere(id: string, step: Step) { step.id == id && step.onFail != "skip" }

  /** The batch of a masked step is aborted, and its last report is a success. */
  lemma MaskedBatch(steps: seq<Step>, i: nat, k: nat, store: Store)
    requires i < |steps| && i <= k < BatchEnd(steps, i) && DistinctIds(steps) && Masked(steps, k)
    ensures var run := RunBatch(FailsAt(steps[k].id), steps[i..BatchEnd(steps, i)], store);
            run.Ran? && run.aborted && !EndsInFailure(run)
  {
    hide FailsAt, RunBatch;
    var e := BatchEnd(steps, i);
    var batch := steps[i..e];
    FailsAtRuns(steps[k].id, batch, store);
    assert FailsHere(steps[k].id, batch[k - i]);
    assert batch[e - i - 1] == steps[e - 1];
  }

  /** Until it comes to the masked step, the run goes on. */
  lemma QuietTurn(steps: seq<Step>, i: nat, k: nat, store: Store)
    requires DistinctIds(steps) && i < |steps| && k < |steps| && Next(steps, i) <= k
    ensures var turn := Turn(FailsAt(steps[k].id), steps, i, store); turn.Ran? && !turn.aborted
  {
    var exec := FailsAt(steps[k].id);
    if steps[i].parallel {
      var e := BatchEnd(steps, i);
      var runs := Outcomes(exec, steps[i..e], store);
      forall j | 0 <= j < e - i ensures runs[j].Done? && !runs[j].aborted {
        assert steps[i..e][j] == steps[i + j];
      }
    }
  }

  lemma {:induction false} MaskedRun(steps: seq<Step>, i: nat, k: nat, store: Store)
    requires DistinctIds(steps) && i <= k && Masked(steps, k)
    ensures !EndsInFailure(RunFrom(FailsAt(steps[k].id), steps, i, store))
    decreases |steps| - i
  {
    hide FailsAt;
    var turn := Turn(FailsAt(steps[k].id), steps, i, store);
    if Next(steps, i) <= k {
      QuietTurn(steps, i, k, store);
      var rest := RunFrom(FailsAt(steps[k].id), steps, Next(steps, i), turn.store);
      MaskedRun(steps, Next(steps, i), k, turn.store);
      assert !EndsInFailure(Prepend(turn.reports, rest)) by {
        EndsBehind(turn.reports, rest, FailsAt(steps[k].id), steps, Next(steps, i), turn.store);
      }
    } else {
      MaskedBatch(steps, i, k, store);
    }
  }

  /** The last report of a run is the last one of its end. */
  lemma EndsBehind(reports: seq<Report>, rest: Ran, exec: Exec, steps: seq<Step>, i: nat, store: Store)
    requires i <= |steps| && rest == RunFrom(exec, steps, i, store)
    ensures EndsInFailure(Prepend(reports, rest)) <==> EndsInFailure(rest)
  {
    AbortedReports(exec, steps, i, store);
  }

  // ---------------------------------------------------------------- the exact condition

  /** An aborted run names its error, however its steps behave, exactly when no step is masked. */
  lemma AbortNamesErrorExact(steps: seq<Step>)
    requires DistinctIds(steps)
    ensures AlwaysNamesError(steps) <==> forall k: nat :: !Masked(steps, k)
  {
    hide EndsInFailure;
    if k: nat :| Masked(steps, k) {
      var exec, store: Store := FailsAt(steps[k].id), map[];
      FailsAtIsWellBehaved(steps[k].id);
      MaskedRun(steps, 0, k, store);
      assert !EndsInFailure(RunFrom(exec, steps, 0, store));
    } else {
      forall exec: Exec, store: Store | WellBehaved(exec) ensures EndsInFailure(RunFrom(exec, steps, 0, store)) {
        UnmaskedRun(exec, steps, 0, store);
      }
    }
  }

  /** So the answer of a skill without masked steps says why it failed. */
  lemma UnmaskedSkillNamesError(w: World, skill: Skill, supplied: map<string, string>)
    requires forall k: nat :: !Masked(skill.steps, k)
    ensures var a := RunSkill(w, skill, supplied);
            a.Some? && a.value.Answer? && !a.value.success ==> a.value.error.Some?
  {
    var filled := FillInputs(skill.inputs, supplied);
    if filled.Ok? {
      var exec := Execute(w, filled.value);
      ExecuteIsWellBehaved(w, filled.value);
      UnmaskedRun(exec, skill.steps, 0, map[]);
      AbortedReports(exec, skill.steps, 0, map[]);
    }
  }

  /**
   So an aborted parallel batch can answer without an error: a failing step followed in the batch by
   one that succeeds aborts the run, yet the last report, whose error is taken, carries none.
   */
  lemma ParallelAbortCanLoseItsError(w: World, a: Step, b: Step)
    requires a.parallel && b.parallel && a.each == b.each == "" && a.args == b.args == map[]
    requires a.onFail != "skip" && w.tool(a.tool, map[]).Err? && w.tool(b.tool, map[]).Ok?
    ensures var answer := RunSkill(w, Skill([], [a, b], ""), map[]);
            answer.Some? && answer.value.Answer? && !answer.value.success && answer.value.error.None?
  {
    var exec, steps := Execute(w, map[]), [a, b];
    var runs := Outcomes(exec, steps, map[]);
    assert BatchEnd(steps, 0) == 2 && steps[0..2] == steps;
    NoArguments(w, map[], map[]);
    assert runs[0].aborted && runs[1].Done? && runs[1].report.Success();
    var turn := Turn(exec, steps, 0, map[]);
    assert turn.Ran? && turn.aborted && turn.reports[1] == runs[1].report;
  }

  lemma NoArguments(w: World, inputs: map<string, string>, store: Store)
    ensures RenderAll(w.show, Env(inputs, store, None), map[]) == ArgsGood(map[])
  {
    assert RenderAll(w.show, Env(inputs, store, None), map[]).args == map[];
  }
}
