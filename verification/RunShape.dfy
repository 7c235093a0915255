/**
 What every run of the engine looks like: one report per step in step order, an abort leaves a prefix,
 and the store holds exactly the keys of the steps reported successful.
 */
module RunShape {
  import opened Text
  import opened Json
  import opened Template
  import opened Engine

  /** The failures that stop a run. */
  predicate Aborting(step: Step, r: Report) {
    !r.Success() && step.onFail != "skip"
  }

  /** What the parser guarantees of a skill's steps and this module needs. */
  ghost predicate DistinctIds(steps: seq<Step>) {
    forall i, j :: 0 <= i < j < |steps| ==> steps[i].id != steps[j].id
  }

  /** The store after a step that did not abort. */
  function Stored(step: Step, r: Report, store: Store): Store {
    if r.Success() then store[step.Key() := r.Output()] else store
  }

  ghost predicate GoodRun(step: Step, store: Store, run: StepRun) {
    run.Done? ==>
      && run.report.id == step.id && run.report.tool == step.tool
      && run.aborted == Aborting(step, run.report)
      && (!run.aborted ==> run.store == Stored(step, run.report, store))
      && forall k :: k != step.Key() ==> SameAt(store, run.store, k)
  }

  lemma PlainEffect(w: World, step: Step, inputs: map<string, string>, store: Store, item: Option<map<string, Value>>)
    ensures GoodRun(step, store, RunPlain(w, step, inputs, store, item))
  {}

  /** The outputs that items leave under the step's key are overwritten by the collected list. */
  lemma AfterItem(step: Step, r: Report, store: Store, rest: StepRun)
    requires GoodRun(step, Stored(step, r, store), rest)
    requires rest.Done? ==> (rest.aborted <==> !rest.report.Success())
    ensures GoodRun(step, store, rest)
  {
    if rest.Done? {
      forall k | k != step.Key() ensures SameAt(store, rest.store, k) {
        assert SameAt(Stored(step, r, store), rest.store, k);
      }
    }
    if rest.Done? && !rest.aborted {
      var key, v := step.Key(), rest.report.Output();
      assert Stored(step, r, store)[key := v] == store[key := v];
    }
  }

  lemma {:induction false} EachEffect(w: World, step: Step, inputs: map<string, string>, items: seq<Value>,
                                      outputs: seq<Value>, store: Store)
    ensures GoodRun(step, store, EachLoop(w, step, inputs, items, outputs, store))
    ensures var run := EachLoop(w, step, inputs, items, outputs, store);
            run.Done? ==> (run.aborted <==> !run.report.Success())
    decreases |items|
  {
    if items != [] {
      var run := RunPlain(w, step, inputs, store, ToMap(items[0]));
      PlainEffect(w, step, inputs, store, ToMap(items[0]));
      if run.Done? && !run.aborted {
        var outputs' := if run.report.Success() then outputs + [run.report.Output()] else outputs;
        EachEffect(w, step, inputs, items[1..], outputs', run.store);
        AfterItem(step, run.report, store, EachLoop(w, step, inputs, items[1..], outputs', run.store));
      }
    }
  }

  /**
   Running a step reports under its own id, aborts exactly on an unskipped failure, touches no store
   key but its own, and without an abort leaves there the reported output, or nothing when it failed.
   */
  lemma StepEffect(w: World, step: Step, inputs: map<string, string>, store: Store, item: Option<map<string, Value>>)
    ensures GoodRun(step, store, RunSingle(w, step, inputs, store, item))
  {
    if step.each == "" {
      PlainEffect(w, step, inputs, store, item);
    } else {
      var v := Render(w.show, Env(inputs, store, None), step.each);
      if v.Good? && ToSlice(v.value).Some? {
        EachEffect(w, step, inputs, ToSlice(v.value).value, [], store);
      }
    }
  }

  /** The same of an arbitrary step semantics. */
  ghost predicate WellBehaved(exec: Exec) {
    forall step, store {:trigger GoodRun(step, store, exec(step, store))} :: GoodRun(step, store, exec(step, store))
  }

  lemma ExecuteIsWellBehaved(w: World, inputs: map<string, string>)
    ensures WellBehaved(Execute(w, inputs))
  {
    forall step: Step, store: Store ensures GoodRun(step, store, Execute(w, inputs)(step, store)) {
      StepEffect(w, step, inputs, store, None);
    }
  }

  // ---------------------------------------------------------------- each

  /** The reports of the single items of an `each` step, each run on the store the previous one left. */
  ghost function ItemReports(w: World, step: Step, inputs: map<string, string>, items: seq<Value>,
                             store: Store): seq<Report>
    decreases |items|
  {
    if items == [] then []
    else
      match RunPlain(w, step, inputs, store, ToMap(items[0]))
      case StepHang => []
      case Done(r, _, store') => [r] + ItemReports(w, step, inputs, items[1..], store')
  }

  function Outputs(reports: seq<Report>): seq<Value> {
    if reports == [] then []
    else if reports[0].Success() then [reports[0].Output()] + Outputs(reports[1..])
    else Outputs(reports[1..])
  }

  /** An `each` step that is not aborted has run every item and collects one output per success, in item order. */
  lemma {:induction false} EachCollects(w: World, step: Step, inputs: map<string, string>, items: seq<Value>,
                                        outputs: seq<Value>, store: Store)
    ensures var run := EachLoop(w, step, inputs, items, outputs, store);
            var reports := ItemReports(w, step, inputs, items, store);
            run.Done? && !run.aborted ==>
              |reports| == |items| && run.report.outcome == Ok(Appended(outputs + Outputs(reports)))
    decreases |items|
  {
    hide RunPlain, ToMap, Appended;
    if items == [] {
      assert outputs + [] == outputs;
    } else {
      var run := RunPlain(w, step, inputs, store, ToMap(items[0]));
      PlainEffect(w, step, inputs, store, ToMap(items[0]));
      if run.Done? && !run.aborted {
        var outputs' := if run.report.Success() then outputs + [run.report.Output()] else outputs;
        EachCollects(w, step, inputs, items[1..], outputs', run.store);
        var rest := ItemReports(w, step, inputs, items[1..], run.store);
        assert ([run.report] + rest)[1..] == rest;
        assert outputs + [run.report.Output()] + Outputs(rest) == outputs + ([run.report.Output()] + Outputs(rest));
      }
    }
  }

  // ---------------------------------------------------------------- batches

  lemma {:induction false} KeyForOwn(batch: seq<Step>, i: nat)
    requires DistinctIds(batch) && i < |batch|
    ensures KeyFor(batch, batch[i].id) == Some(batch[i].Key())
  {
    if i > 0 {
      assert batch[0].id != batch[i].id;
      assert batch[i] == batch[1..][i - 1];
      KeyForOwn(batch[1..], i - 1);
    }
  }

  /** Merging one more report of the batch stores its output under its own step's key. */
  lemma MergeNext(batch: seq<Step>, reports: seq<Report>, j: nat, store: Store)
    requires DistinctIds(batch) && j < |batch| && |reports| == |batch|
    requires reports[j].id == batch[j].id
    ensures Merge(batch, reports[..j + 1], store) == Stored(batch[j], reports[j], Merge(batch, reports[..j], store))
  {
    KeyForOwn(batch, j);
    assert reports[..j + 1][..j] == reports[..j];
  }

  /** A batch that ends gives one report per step, in step order. */
  lemma BatchReports(exec: Exec, batch: seq<Step>, store: Store)
    requires WellBehaved(exec)
    ensures var run := RunBatch(exec, batch, store);
            run.Ran? ==>
              && |run.reports| == |batch|
              && (forall k :: 0 <= k < |batch| ==>
                    run.reports[k].id == batch[k].id && run.reports[k].tool == batch[k].tool)
              && (run.aborted <==> exists k :: 0 <= k < |batch| && Aborting(batch[k], run.reports[k]))
  {
    var runs := Outcomes(exec, batch, store);
    var run := RunBatch(exec, batch, store);
    assert forall k :: 0 <= k < |batch| ==> GoodRun(batch[k], store, runs[k]);
    if run.Ran? {
      assert forall k :: 0 <= k < |batch| ==> runs[k].aborted == Aborting(batch[k], run.reports[k]);
    }
  }

  // ---------------------------------------------------------------- whole runs

  /** The store after the outputs of the successful reports have been written, one after the other. */
  function Replay(steps: seq<Step>, i: nat, reports: seq<Report>, store: Store): Store
    requires i + |reports| <= |steps|
    decreases |reports|
  {
    if reports == [] then store
    else
      var last := |reports| - 1;
      Stored(steps[i + last], reports[last], Replay(steps, i, reports[..last], store))
  }

  lemma {:induction false} ReplayAppend(steps: seq<Step>, i: nat, first: seq<Report>, rest: seq<Report>, store: Store)
    requires i + |first| + |rest| <= |steps|
    ensures Replay(steps, i, first + rest, store) ==
            Replay(steps, i + |first|, rest, Replay(steps, i, first, store))
    decreases |rest|
  {
    if rest == [] {
      assert first + rest == first;
    } else {
      var last := |rest| - 1;
      ReplayAppend(steps, i, first, rest[..last], store);
      assert (first + rest)[..|first| + last] == first + rest[..last];
    }
  }

  /** The merge of a batch, with its search for the step of each report, is a replay. */
  lemma {:induction false} MergeIsReplay(steps: seq<Step>, i: nat, e: nat, reports: seq<Report>, j: nat, store: Store)
    requires DistinctIds(steps) && i <= e <= |steps| && |reports| == e - i && j <= e - i
    requires forall k :: 0 <= k < e - i ==> reports[k].id == steps[i..e][k].id
    ensures Merge(steps[i..e], reports[..j], store) == Replay(steps, i, reports[..j], store)
  {
    if j > 0 {
      MergeIsReplay(steps, i, e, reports, j - 1, store);
      MergeNext(steps[i..e], reports, j - 1, store);
      assert reports[..j][..j - 1] == reports[..j - 1];
    }
  }

  /** One report per step, under that step's id and tool, for the steps that ran. */
  ghost predicate ReportsMatch(steps: seq<Step>, i: nat, reports: seq<Report>) {
    i + |reports| <= |steps| &&
    forall k :: 0 <= k < |reports| ==> reports[k].id == steps[i + k].id && reports[k].tool == steps[i + k].tool
  }

  /** The reports match the steps, and without an abort the store is what the reports make of it. */
  ghost predicate Shape(steps: seq<Step>, i: nat, store: Store, run: Ran) {
    run.Ran? ==>
      && ReportsMatch(steps, i, run.reports)
      && (!run.aborted ==> run.store == Replay(steps, i, run.reports, store))
  }

  lemma BatchShape(exec: Exec, steps: seq<Step>, i: nat, store: Store)
    requires WellBehaved(exec) && i < |steps| && DistinctIds(steps)
    ensures var e := BatchEnd(steps, i);
            var run := RunBatch(exec, steps[i..e], store);
            Shape(steps, i, store, run) && (run.Ran? ==> i + |run.reports| == e)
  {
    hide DistinctIds, Aborting, WellBehaved, Merge, Replay;
    var e := BatchEnd(steps, i);
    var run := RunBatch(exec, steps[i..e], store);
    BatchReports(exec, steps[i..e], store);
    if run.Ran? {
      MergeIsReplay(steps, i, e, run.reports, e - i, store);
      assert run.reports[..e - i] == run.reports;
      assert forall k {:trigger steps[i + k]} :: 0 <= k < e - i ==> steps[i..e][k] == steps[i + k];
    }
  }

  lemma TurnShape(exec: Exec, steps: seq<Step>, i: nat, store: Store)
    requires WellBehaved(exec) && i < |steps| && DistinctIds(steps)
    ensures var turn := Turn(exec, steps, i, store);
            Shape(steps, i, store, turn) && (turn.Ran? ==> i + |turn.reports| == Next(steps, i))
  {
    hide DistinctIds, RunBatch, Replay, ReportsMatch;
    if steps[i].parallel {
      BatchShape(exec, steps, i, store);
    } else {
      var run := exec(steps[i], store);
      assert GoodRun(steps[i], store, run);
      if run.Done? {
        OneReport(steps, i, run.report, store);
      }
    }
  }

  lemma OneReport(steps: seq<Step>, i: nat, r: Report, store: Store)
    requires i < |steps|
    ensures Replay(steps, i, [r], store) == Stored(steps[i], r, store)
    ensures r.id == steps[i].id && r.tool == steps[i].tool ==> ReportsMatch(steps, i, [r])
  {
    assert [r][..0] == [] && steps[i + 0] == steps[i];
  }

  lemma ShapeAppend(steps: seq<Step>, i: nat, store: Store, first: Ran, rest: Ran)
    requires first.Ran? && !first.aborted && Shape(steps, i, store, first)
    requires Shape(steps, i + |first.reports|, first.store, rest)
    ensures Shape(steps, i, store, Prepend(first.reports, rest))
  {
    if rest.Ran? {
      var all := first.reports + rest.reports;
      forall k | 0 <= k < |all| ensures all[k].id == steps[i + k].id && all[k].tool == steps[i + k].tool {
        if k >= |first.reports| {
          assert rest.reports[k - |first.reports|].id == steps[i + |first.reports| + (k - |first.reports|)].id;
        }
      }
      ReplayAppend(steps, i, first.reports, rest.reports, store);
    }
  }

  /**
   Every run reports on a prefix of its steps, one report each, in step order. A run that is not
   aborted reports on all of them, and its final store is what writing the outputs of the successful
   reports, in step order, makes of the first one.
   */
  lemma {:induction false} RunHasShape(exec: Exec, steps: seq<Step>, i: nat, store: Store)
    requires WellBehaved(exec) && i <= |steps| && DistinctIds(steps)
    ensures var run := RunFrom(exec, steps, i, store);
            && Shape(steps, i, store, run)
            && (run.Ran? && !run.aborted ==> i + |run.reports| == |steps|)
    decreases |steps| - i
  {
    if i < |steps| {
      TurnShape(exec, steps, i, store);
      var turn := Turn(exec, steps, i, store);
      if turn.Ran? && !turn.aborted {
        RunHasShape(exec, steps, Next(steps, i), turn.store);
        ShapeAppend(steps, i, store, turn, RunFrom(exec, steps, Next(steps, i), turn.store));
      }
    }
  }

  /** The last successful report whose step stores under `key`, or -1. */
  function LastStored(steps: seq<Step>, i: nat, reports: seq<Report>, key: string): (k: int)
    requires i + |reports| <= |steps|
    ensures -1 <= k < |reports|
    ensures k >= 0 ==> reports[k].Success() && steps[i + k].Key() == key
    ensures forall m :: k < m < |reports| ==> !(reports[m].Success() && steps[i + m].Key() == key)
    decreases |reports|
  {
    var last := |reports| - 1;
    if last < 0 || (reports[last].Success() && steps[i + last].Key() == key) then last
    else LastStored(steps, i, reports[..last], key)
  }

  /** A replayed store holds, under each key, the output of the last success for it, or what it held before. */
  lemma {:induction false} ReplayHolds(steps: seq<Step>, i: nat, reports: seq<Report>, store: Store, key: string)
    requires i + |reports| <= |steps|
    ensures var final, k := Replay(steps, i, reports, store), LastStored(steps, i, reports, key);
            if k == -1 then SameAt(store, final, key) else key in final && final[key] == reports[k].Output()
    decreases |reports|
  {
    if reports != [] {
      ReplayHolds(steps, i, reports[..|reports| - 1], store, key);
    }
  }

  /** The same for a whole skill run that starts with an empty store. */
  lemma RunStore(w: World, inputs: map<string, string>, steps: seq<Step>, key: string)
    requires DistinctIds(steps)
    ensures var run := RunFrom(Execute(w, inputs), steps, 0, map[]);
            run.Ran? && !run.aborted ==>
              && |run.reports| == |steps|
              && var k := LastStored(steps, 0, run.reports, key);
                 if k == -1 then key !in run.store else key in run.store && run.store[key] == run.reports[k].Output()
  {
    ExecuteIsWellBehaved(w, inputs);
    RunHasShape(Execute(w, inputs), steps, 0, map[]);
    var run := RunFrom(Execute(w, inputs), steps, 0, map[]);
    if run.Ran? && !run.aborted {
      ReplayHolds(steps, 0, run.reports, map[], key);
    }
  }

  // ---------------------------------------------------------------- inputs

  /** The default declared for an input, by the first declaration that has one. */
  function FirstDefault(decls: seq<Input>, name: string): Option<string> {
    if decls == [] then None
    else if decls[0].name == name && decls[0].dflt != "" then Some(decls[0].dflt)
    else FirstDefault(decls[1..], name)
  }

  /** The value an input has in a run. */
  function InputValue(decls: seq<Input>, supplied: map<string, string>, name: string): Option<string> {
    if name in supplied then Some(supplied[name]) else FirstDefault(decls, name)
  }

  /** Supplied inputs stay, missing ones get their default and nothing else is added; required ones are there. */
  ghost predicate Filled(decls: seq<Input>, supplied: map<string, string>, inputs: map<string, string>) {
    && (forall name :: if name in inputs then InputValue(decls, supplied, name) == Some(inputs[name])
                       else InputValue(decls, supplied, name) == None)
    && forall i :: 0 <= i < |decls| && decls[i].required ==> decls[i].name in inputs
  }

  /** Input `i` is required, and neither supplied nor given a default up to its declaration. */
  predicate Lacking(decls: seq<Input>, supplied: map<string, string>, i: nat)
    requires i < |decls|
  {
    && decls[i].required && decls[i].dflt == ""
    && InputValue(decls[..i], supplied, decls[i].name) == None
  }

  predicate FirstLacking(decls: seq<Input>, supplied: map<string, string>, i: nat) {
    i < |decls| && Lacking(decls, supplied, i) && forall j :: 0 <= j < i ==> !Lacking(decls, supplied, j)
  }

  /** Behind a declaration that is met, the others lack what they lack with its default supplied. */
  lemma LackingBehind(decls: seq<Input>, supplied: map<string, string>, rest: map<string, string>, i: nat)
    requires i + 1 < |decls|
    requires var d := decls[0];
             rest == if d.name !in supplied && d.dflt != "" then supplied[d.name := d.dflt] else supplied
    ensures Lacking(decls, supplied, i + 1) <==> Lacking(decls[1..], rest, i)
  {
    assert decls[..i + 1][1..] == decls[1..][..i] && decls[..i + 1][0] == decls[0];
  }

  /** The inputs are filled and none is lacking, or the one that is named is the first that is. */
  ghost predicate FilledOrLacking(decls: seq<Input>, supplied: map<string, string>) {
    match FillInputs(decls, supplied)
    case Ok(inputs) =>
      Filled(decls, supplied, inputs) && forall i :: 0 <= i < |decls| ==> !Lacking(decls, supplied, i)
    case Err(name) => exists i: nat :: FirstLacking(decls, supplied, i) && decls[i].name == name
  }

  lemma {:induction false} InputsAreFilled(decls: seq<Input>, supplied: map<string, string>)
    ensures FilledOrLacking(decls, supplied)
  {
    hide Lacking;
    if decls != [] {
      var d := decls[0];
      var rest := if d.name !in supplied && d.dflt != "" then supplied[d.name := d.dflt] else supplied;
      FirstDeclaration(decls, supplied);
      forall i: nat | i + 1 < |decls| ensures Lacking(decls, supplied, i + 1) <==> Lacking(decls[1..], rest, i) {
        LackingBehind(decls, supplied, rest, i);
      }
      if Lacking(decls, supplied, 0) {
        assert FirstLacking(decls, supplied, 0);
      } else {
        InputsAreFilled(decls[1..], rest);
        OneMoreFilled(decls, supplied, rest);
      }
    }
  }

  lemma FirstDeclaration(decls: seq<Input>, supplied: map<string, string>)
    requires decls != []
    ensures var d := decls[0];
            Lacking(decls, supplied, 0) <==> d.name !in supplied && d.required && d.dflt == ""
  {
    assert decls[..0] == [];
  }

  /** One declaration more, which is met. */
  lemma OneMoreFilled(decls: seq<Input>, supplied: map<string, string>, rest: map<string, string>)
    requires decls != [] && !Lacking(decls, supplied, 0)
    requires var d := decls[0];
             rest == if d.name !in supplied && d.dflt != "" then supplied[d.name := d.dflt] else supplied
    requires forall i: nat :: i + 1 < |decls| ==> (Lacking(decls, supplied, i + 1) <==> Lacking(decls[1..], rest, i))
    requires FilledOrLacking(decls[1..], rest)
    ensures FilledOrLacking(decls, supplied)
  {
    hide Lacking;
    FirstDeclaration(decls, supplied);
    var r := FillInputs(decls[1..], rest);
    if r.Err? {
      var i: nat :| FirstLacking(decls[1..], rest, i) && decls[1..][i].name == r.error;
      forall j | 0 <= j < i + 1 ensures !Lacking(decls, supplied, j) {
        if j > 0 {
          assert !Lacking(decls[1..], rest, j - 1);
          assert j - 1 + 1 < |decls|;
        }
      }
      assert FirstLacking(decls, supplied, i + 1) && decls[i + 1].name == r.error;
    } else {
      forall i | 0 <= i < |decls|
        ensures !Lacking(decls, supplied, i) && (decls[i].required ==> decls[i].name in r.value)
      {
        if i > 0 {
          assert decls[1..][i - 1] == decls[i] && !Lacking(decls[1..], rest, i - 1);
        }
      }
    }
  }

  /** Declaration `i` is the one that the input loop stops at, with the ones before it filled in. */
  predicate StopsAt(decls: seq<Input>, supplied: map<string, string>, left: map<string, string>, i: nat) {
    && i < |decls| && FillInputs(decls[..i], supplied) == Ok(left)
    && decls[i].name !in left && decls[i].required && decls[i].dflt == ""
  }

  /** When a required input is missing, the defaults declared before it have been written all the same. */
  lemma {:induction false} DefaultsBeforeMissing(decls: seq<Input>, supplied: map<string, string>) returns (i: nat)
    requires FillInputs(decls, supplied).Err?
    ensures StopsAt(decls, supplied, Defaulted(decls, supplied), i)
    ensures FillInputs(decls, supplied) == Err(decls[i].name)
  {
    var d := decls[0];
    if d.name !in supplied && d.required && d.dflt == "" {
      i := 0;
    } else {
      var rest := if d.name !in supplied && d.dflt != "" then supplied[d.name := d.dflt] else supplied;
      var n := DefaultsBeforeMissing(decls[1..], rest);
      i := n + 1;
      assert decls[..i][1..] == decls[1..][..n] && decls[..i][0] == d;
    }
  }
}
