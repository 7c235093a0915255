/**
 What the answer of a skill says: which inputs its tools were given, what its reports are, when it is a success,
 and where its output comes from.
 */
module SkillAnswer {
  import opened Text
  import opened Json
  import opened Rescan
  import opened Template
  import opened Reference
  import opened Interpolation
  import opened Engine
  import opened RunShape
  import opened StepMeaning

  /** The skill ends with this answer on these inputs, which are complete. */
  ghost predicate Answers(w: World, skill: Skill, supplied: map<string, string>, inputs: map<string, string>,
                          answer: Answer)
  {
    && DistinctIds(skill.steps) && FillInputs(skill.inputs, supplied) == Ok(inputs)
    && RunSkill(w, skill, supplied) == Some(answer)
  }

  /** The store behind the first `k` steps, as the reports tell it. */
  function StoreAfter(skill: Skill, answer: Answer, k: nat): Store
    requires answer.Answer? && k <= |answer.steps| <= |skill.steps|
  {
    Replay(skill.steps, 0, answer.steps[..k], map[])
  }

  lemma AnswerIsARun(w: World, skill: Skill, supplied: map<string, string>, inputs: map<string, string>, answer: Answer)
    requires Answers(w, skill, supplied, inputs, answer)
    ensures var run := RunFrom(Execute(w, inputs), skill.steps, 0, map[]);
            && run.Ran? && answer.Answer? && answer.steps == run.reports && answer.success == !run.aborted
            && ReportsMatch(skill.steps, 0, answer.steps)
            && (answer.success ==> |answer.steps| == |skill.steps|
                                   && run.store == StoreAfter(skill, answer, |skill.steps|))
  {
    hide RunFrom, Render, DistinctIds, Replay;
    AbortedReports(Execute(w, inputs), skill.steps, 0, map[]);
    ExecuteIsWellBehaved(w, inputs);
    RunHasShape(Execute(w, inputs), skill.steps, 0, map[]);
    var run := RunFrom(Execute(w, inputs), skill.steps, 0, map[]);
    assert run.Ran?;
    assert run.reports[..|run.reports|] == run.reports;
  }

  /**
   Every report of an answer is what its step makes of the filled inputs and the store that the reports before its
   batch of parallel steps tell of.
   */
  lemma EveryReportIsTrue(w: World, skill: Skill, supplied: map<string, string>, inputs: map<string, string>,
                          answer: Answer, k: nat)
    requires Answers(w, skill, supplied, inputs, answer) && answer.Answer? && k < |answer.steps| <= |skill.steps|
    ensures var before := StoreAfter(skill, answer, BatchStart(skill.steps, k));
            var run := RunSingle(w, skill.steps[k], inputs, before, None);
            run.Done? && run.report == answer.steps[k]
  {
    hide RunFrom, DistinctIds, Replay, RunSkill, RunSingle;
    AnswerIsARun(w, skill, supplied, inputs, answer);
    ExecuteIsWellBehaved(w, inputs);
    ReportsAreExplained(Execute(w, inputs), skill.steps, 0, map[]);
    assert Explained(Execute(w, inputs), skill.steps, 0, map[], answer.steps, k);
  }

  /** So it is the answer of the step's tool to the arguments rendered there. */
  lemma ReportIsTheToolsAnswer(w: World, skill: Skill, supplied: map<string, string>, inputs: map<string, string>,
                               answer: Answer, k: nat, args: map<string, Value>)
    requires Answers(w, skill, supplied, inputs, answer) && answer.Answer? && k < |answer.steps| <= |skill.steps|
    requires var before := StoreAfter(skill, answer, BatchStart(skill.steps, k));
             skill.steps[k].each == "" && RenderTo(w, skill.steps[k], Env(inputs, before, None), args)
    ensures var said := w.tool(skill.steps[k].tool, args);
            answer.steps[k].outcome == (if said.Ok? then Ok(Normalise(w.parse, said.value))
                                        else Err(ToolError(said.error)))
  {
    hide Answers, RenderTo, RunSingle, StoreAfter;
    EveryReportIsTrue(w, skill, supplied, inputs, answer, k);
    ToolGetsItsArguments(w, skill.steps[k], inputs, StoreAfter(skill, answer, BatchStart(skill.steps, k)), None, args);
  }

  // ---------------------------------------------------------------- success

  /** Some report is a failure that stops a run. */
  ghost predicate SomeAborting(steps: seq<Step>, i: nat, reports: seq<Report>)
    requires i + |reports| <= |steps|
  {
    exists k :: 0 <= k < |reports| && AbortingAt(steps, i, reports, k)
  }

  predicate AbortingAt(steps: seq<Step>, i: nat, reports: seq<Report>, k: nat)
    requires k < |reports| && i + |reports| <= |steps|
  {
    Aborting(steps[i + k], reports[k])
  }

  lemma TurnAbortsExactly(exec: Exec, steps: seq<Step>, i: nat, store: Store)
    requires WellBehaved(exec) && i < |steps| && DistinctIds(steps) && Turn(exec, steps, i, store).Ran?
    ensures var turn := Turn(exec, steps, i, store);
            i + |turn.reports| == Next(steps, i) && (turn.aborted <==> SomeAborting(steps, i, turn.reports))
  {
    hide DistinctIds, Merge, Replay;
    TurnShape(exec, steps, i, store);
    var turn := Turn(exec, steps, i, store);
    if steps[i].parallel {
      var batch := steps[i..BatchEnd(steps, i)];
      BatchReports(exec, batch, store);
      forall k | 0 <= k < |turn.reports|
        ensures Aborting(batch[k], turn.reports[k]) <==> AbortingAt(steps, i, turn.reports, k)
      {
        assert batch[k] == steps[i + k];
      }
    } else {
      assert GoodRun(steps[i], store, exec(steps[i], store));
      assert turn.aborted <==> AbortingAt(steps, i, turn.reports, 0);
    }
  }

  lemma SomeAbortingAppend(steps: seq<Step>, i: nat, first: seq<Report>, rest: seq<Report>)
    requires i + |first| + |rest| <= |steps|
    ensures SomeAborting(steps, i, first + rest) <==>
            SomeAborting(steps, i, first) || SomeAborting(steps, i + |first|, rest)
  {
    hide Aborting;
    var all, n, m := first + rest, |first|, i + |first|;
    if k :| 0 <= k < |all| && AbortingAt(steps, i, all, k) {
      if k < n {
        assert AbortingAt(steps, i, first, k);
      } else {
        assert AbortingAt(steps, m, rest, k - n);
      }
    }
    if k :| 0 <= k < n && AbortingAt(steps, i, first, k) {
      assert AbortingAt(steps, i, all, k);
    }
    if k :| 0 <= k < |rest| && AbortingAt(steps, m, rest, k) {
      assert AbortingAt(steps, i, all, n + k);
    }
  }

  /** A run is aborted exactly when some step that is not skipped reports a failure. */
  lemma {:induction false} AbortedExactly(exec: Exec, steps: seq<Step>, i: nat, store: Store)
    requires WellBehaved(exec) && i <= |steps| && DistinctIds(steps) && RunFrom(exec, steps, i, store).Ran?
    ensures var run := RunFrom(exec, steps, i, store);
            i + |run.reports| <= |steps| && (run.aborted <==> SomeAborting(steps, i, run.reports))
    decreases |steps| - i
  {
    hide DistinctIds, Turn, WellBehaved, SomeAborting;
    if i == |steps| {
      NoneAborting(steps);
    } else {
      TurnAbortsExactly(exec, steps, i, store);
      var turn := Turn(exec, steps, i, store);
      if !turn.aborted {
        var rest := RunFrom(exec, steps, Next(steps, i), turn.store);
        AbortedExactly(exec, steps, Next(steps, i), turn.store);
        SomeAbortingAppend(steps, i, turn.reports, rest.reports);
      }
    }
  }

  lemma NoneAborting(steps: seq<Step>)
    ensures !SomeAborting(steps, |steps|, [])
  {}

  /**
   An answer is a success exactly when no step that is not skipped failed; then every step has a report and no
   error is given. Otherwise the error is that of the last report and there is no output.
   */
  lemma SuccessExactly(w: World, skill: Skill, supplied: map<string, string>, inputs: map<string, string>,
                       answer: Answer)
    requires Answers(w, skill, supplied, inputs, answer) && answer.Answer?
    ensures |answer.steps| <= |skill.steps| && (answer.success <==> !SomeAborting(skill.steps, 0, answer.steps))
    ensures answer.success ==> |answer.steps| == |skill.steps| && answer.error == None
    ensures !answer.success ==>
              answer.steps != [] && answer.output == Null && answer.error == answer.steps[|answer.steps| - 1].Error()
  {
    hide RunFrom, DistinctIds, SomeAborting, Render;
    AnswerIsARun(w, skill, supplied, inputs, answer);
    ExecuteIsWellBehaved(w, inputs);
    AbortedExactly(Execute(w, inputs), skill.steps, 0, map[]);
    AbortedReports(Execute(w, inputs), skill.steps, 0, map[]);
  }

  // ---------------------------------------------------------------- the output

  /** Without an output template, a success gives the output of its last step. */
  lemma DefaultOutput(w: World, skill: Skill, supplied: map<string, string>, inputs: map<string, string>,
                      answer: Answer)
    requires Answers(w, skill, supplied, inputs, answer) && answer.Answer? && answer.success && skill.output == ""
    ensures |answer.steps| == |skill.steps|
    ensures answer.output == if answer.steps == [] then Null else answer.steps[|answer.steps| - 1].Output()
  {
    hide RunFrom, DistinctIds;
    AnswerIsARun(w, skill, supplied, inputs, answer);
  }

  /** With one, what it renders to on the filled inputs and the final store, or else that store. */
  lemma TemplateOutput(w: World, skill: Skill, supplied: map<string, string>, inputs: map<string, string>,
                       answer: Answer)
    requires Answers(w, skill, supplied, inputs, answer) && answer.Answer? && answer.success && skill.output != ""
    ensures |answer.steps| == |skill.steps|
    ensures var final := StoreAfter(skill, answer, |skill.steps|);
            var v := Render(w.show, Env(inputs, final, None), skill.output);
            !v.Hang? && answer.output == if v.Good? then v.value else Obj(final)
  {
    hide RunFrom, DistinctIds, Render, StoreAfter;
    AnswerIsARun(w, skill, supplied, inputs, answer);
  }

  /** A template that asks for the output under one key gives the last successful one stored there. */
  lemma StepAsOutput(w: World, skill: Skill, supplied: map<string, string>, inputs: map<string, string>,
                     answer: Answer, key: string)
    requires Answers(w, skill, supplied, inputs, answer) && answer.Answer? && answer.success
    requires skill.output == "{{" + (".steps." + key) + "}}"
    requires '.' !in key && Braceless(key) && (key != "" ==> !IsSpace(key[|key| - 1]))
    ensures |answer.steps| == |skill.steps|
    ensures var k := LastStored(skill.steps, 0, answer.steps, key);
            answer.output == if k == -1 then Obj(StoreAfter(skill, answer, |skill.steps|)) else answer.steps[k].Output()
  {
    hide Answers, Render, Resolve, Replay, LastStored, Wraps, Braceless;
    TemplateOutput(w, skill, supplied, inputs, answer);
    var final := StoreAfter(skill, answer, |skill.steps|);
    assert answer.steps[..|skill.steps|] == answer.steps;
    ReplayHolds(skill.steps, 0, answer.steps, map[], key);
    KeyReference(key);
    RenderSingle(w.show, Env(inputs, final, None), skill.output, ".steps." + key);
    StepOutput(key, Env(inputs, final, None));
  }

  lemma KeyReference(key: string)
    requires Braceless(key) && (key != "" ==> !IsSpace(key[|key| - 1]))
    ensures var body := ".steps." + key;
            TrimSpace(body) == body && Wraps(TrimSpace("{{" + body + "}}"), body)
  {
    hide TrimSpace;
    var body := ".steps." + key;
    var tmpl := "{{" + body + "}}";
    assert body[0] == '.' && body[|body| - 1] == (if key == "" then '.' else key[|key| - 1]);
    assert Trimmed(body);
    assert tmpl[0] == '{' && tmpl[|tmpl| - 1] == '}';
    assert Trimmed(tmpl);
    forall j ensures !PairAt(body, '{', j) {
      assert 7 <= j < |body| ==> body[j] == key[j - 7];
    }
  }
}
