/**
 The engine as the program runs it: the store is one mutable map, passed by reference and updated by
 every step. Each method is tied to the meaning given in module Engine.
 */
module Runner {
  import opened Text
  import opened Json
  import opened Template
  import opened Engine

  /** The map that `Run` makes and the step methods write to. */
  class StoreMap {
    var entries: Store

    constructor (entries: Store)
      ensures this.entries == entries
    {
      this.entries := entries;
    }
  }

  /** This argument of the step cannot be rendered, with this error. */
  ghost predicate Fails(w: World, step: Step, env: Env, bad: ArgError) {
    bad.arg in step.args && Render(w.show, env, step.args[bad.arg]) == Bad(bad.error)
  }

  /**
   engine.go `runSingleStep`; its slice of reports always has one element, returned here as such. `named` is the
   argument that the report of a bad argument names.
   */
  method RunSingleStep(w: World, step: Step, inputs: map<string, string>, store: StoreMap,
                       item: Option<map<string, Value>>)
    returns (report: Report, aborted: bool, named: Option<ArgError>)
    requires !RunSingle(w, step, inputs, store.entries, item).StepHang?
    modifies store
    ensures RunSingle(w, step, inputs, old(store.entries), item) == Done(report, aborted, store.entries)
    ensures named.Some? <==> report.outcome == Err(BadArgs)
    ensures step.each == "" && named.Some? ==> Fails(w, step, Env(inputs, old(store.entries), item), named.value)
    decreases if step.each == "" then 0 else 2
  {
    if step.each != "" {
      report, aborted, named := RunEachStep(w, step, inputs, store);
      return;
    }
    var args := RenderArgs(w.show, Env(inputs, store.entries, item), step.args);
    if args.Err? {
      return Report(step.id, step.tool, Err(BadArgs)), step.onFail != "skip", Some(args.error);
    }
    var out := w.tool(step.tool, args.value);
    if out.Err? {
      return Report(step.id, step.tool, Err(ToolError(out.error))), step.onFail != "skip", None;
    }
    var normalised := Normalise(w.parse, out.value);
    var storeKey := if step.store == "" then step.id else step.store;
    store.entries := store.entries[storeKey := normalised];
    return Report(step.id, step.tool, Ok(normalised)), false, None;
  }

  /** engine.go `runEachStep`. */
  method RunEachStep(w: World, step: Step, inputs: map<string, string>, store: StoreMap)
    returns (report: Report, aborted: bool, named: Option<ArgError>)
    requires !RunEach(w, step, inputs, store.entries).StepHang?
    modifies store
    ensures RunEach(w, step, inputs, old(store.entries)) == Done(report, aborted, store.entries)
    ensures named.Some? <==> report.outcome == Err(BadArgs)
    decreases 1
  {
    var listVal := RenderValueWithItem(w.show, Env(inputs, store.entries, None), step.each);
    if listVal.Err? {
      return Report(step.id, step.tool, Err(BadEach(listVal.error))), step.onFail != "skip", None;
    }
    var items := ToSlice(listVal.value);
    if items.None? {
      return Report(step.id, step.tool, Err(NotAList)), step.onFail != "skip", None;
    }
    report, aborted, named := RunItems(w, step, inputs, items.value, store);
  }

  /** The loop of `runEachStep` over the items. */
  method RunItems(w: World, step: Step, inputs: map<string, string>, items: seq<Value>, store: StoreMap)
    returns (report: Report, aborted: bool, named: Option<ArgError>)
    requires !EachLoop(w, step, inputs, items, [], store.entries).StepHang?
    modifies store
    ensures EachLoop(w, step, inputs, items, [], old(store.entries)) == Done(report, aborted, store.entries)
    ensures named.Some? <==> report.outcome == Err(BadArgs)
    decreases 1, 0
  {
    var results: seq<Value> := [];
    ghost var meaning := EachLoop(w, step, inputs, items, [], store.entries);
    for i := 0 to |items|
      invariant meaning == EachLoop(w, step, inputs, items[i..], results, store.entries)
    {
      assert items[i..][1..] == items[i + 1..];
      var iterStep := step.(each := "");
      SameWithoutEach(w, step, inputs, store.entries, ToMap(items[i]));
      var r, stop, bad := RunSingleStep(w, iterStep, inputs, store, ToMap(items[i]));
      if r.Success() {
        results := results + [r.Output()];
      }
      if stop {
        if step.onFail != "skip" {
          return Report(step.id, step.tool, Err(r.outcome.error)), true, bad;
        }
      }
    }
    var normalised := Appended(results);
    var storeKey := if step.store == "" then step.id else step.store;
    store.entries := store.entries[storeKey := normalised];
    return Report(step.id, step.tool, Ok(normalised)), false, None;
  }

  /** Clearing `each` on the copy used for one item does not change what the execution means. */
  lemma SameWithoutEach(w: World, step: Step, inputs: map<string, string>, store: Store,
                        item: Option<map<string, Value>>)
    ensures RunSingle(w, step.(each := ""), inputs, store, item) == RunPlain(w, step, inputs, store, item)
  {}

  /** engine.go `collectParallelBatch`. */
  method CollectParallelBatch(steps: seq<Step>, i: nat) returns (batch: seq<Step>)
    requires i <= |steps|
    ensures batch == steps[i..BatchEnd(steps, i)]
  {
    batch := [];
    var j := i;
    while j < |steps| && steps[j].parallel
      invariant i <= j <= |steps| && batch == steps[i..j]
      invariant BatchEnd(steps, j) == BatchEnd(steps, i)
    {
      OneMore(steps, i, j);
      batch := batch + [steps[j]];
      j := j + 1;
    }
  }

  lemma OneMore<T>(s: seq<T>, i: nat, j: nat)
    requires i <= j < |s|
    ensures s[i..j] + [s[j]] == s[i..j + 1]
  {}

  function Indices(n: nat): (r: set<nat>)
    ensures forall i :: i in r <==> 0 <= i < n
  {
    if n == 0 then {} else Indices(n - 1) + {n - 1}
  }

  datatype Slot = Empty | Filled(report: Report, aborted: bool)

  /**
   engine.go `runParallelBatch`, the goroutines run whole in an arbitrary order; module Schedule
   interleaves them.
   */
  method RunParallelBatch(w: World, batch: seq<Step>, inputs: map<string, string>, store: StoreMap)
    returns (reports: seq<Report>, aborted: bool)
    requires !RunBatch(Execute(w, inputs), batch, store.entries).NeverEnds?
    modifies store
    ensures RunBatch(Execute(w, inputs), batch, old(store.entries)) == Ran(reports, aborted, store.entries)
  {
    var snapshot := store.entries;
    ghost var runs := Outcomes(Execute(w, inputs), batch, snapshot);
    var results := new Slot[|batch|](_ => Empty);
    var waiting := Indices(|batch|);
    while waiting != {}
      invariant fresh(results) && results.Length == |batch|
      invariant store.entries == snapshot
      invariant waiting <= Indices(|batch|)
      invariant forall i :: 0 <= i < |batch| && i !in waiting ==> results[i] == Filled(runs[i].report, runs[i].aborted)
    {
      var i :| i in waiting;
      var localStore := new StoreMap(snapshot);
      var r, stop, _ := RunSingleStep(w, batch[i], inputs, localStore, None);
      results[i] := Filled(r, stop);
      waiting := waiting - {i};
    }
    reports, aborted := MergeResults(batch, results, runs, store);
  }

  /** The merge of `runParallelBatch`, in index order. */
  method MergeResults(batch: seq<Step>, results: array<Slot>, ghost runs: seq<StepRun>, store: StoreMap)
    returns (reports: seq<Report>, aborted: bool)
    requires results.Length == |batch| == |runs|
    requires forall i :: 0 <= i < |runs| ==> runs[i].Done?
    requires forall i :: 0 <= i < |batch| ==> results[i] == Filled(runs[i].report, runs[i].aborted)
    modifies store
    ensures reports == ReportsOf(runs)
    ensures aborted <==> exists i :: 0 <= i < |runs| && runs[i].aborted
    ensures store.entries == Merge(batch, reports, old(store.entries))
  {
    reports, aborted := [], false;
    ghost var entry := store.entries;
    for i := 0 to |batch|
      invariant |reports| == i && forall k :: 0 <= k < i ==> reports[k] == runs[k].report
      invariant aborted <==> exists k :: 0 <= k < i && runs[k].aborted
      invariant store.entries == Merge(batch, reports, entry)
    {
      var r := results[i].report;
      ghost var sofar := reports;
      reports := reports + [r];
      assert reports[..i] == sofar;
      if results[i].aborted {
        aborted := true;
      }
      if r.Success() {
        var key := FindKey(batch, r.id);
        if key.Some? {
          store.entries := store.entries[key.value := r.Output()];
        }
      }
    }
  }

  /** The search for the reporting step among the steps of its batch. */
  method FindKey(batch: seq<Step>, id: string) returns (key: Option<string>)
    ensures key == KeyFor(batch, id)
  {
    for i := 0 to |batch|
      invariant KeyFor(batch, id) == KeyFor(batch[i..], id)
    {
      if batch[i].id == id {
        return Some(if batch[i].store == "" then batch[i].id else batch[i].store);
      }
    }
    return None;
  }

  /** The map of inputs, which belongs to the caller of `Run`. */
  class InputMap {
    var entries: map<string, string>

    constructor (entries: map<string, string>)
      ensures this.entries == entries
    {
      this.entries := entries;
    }
  }

  /** The input loop of `Run`: it writes the defaults into the caller's map. */
  method PrepareInputs(decls: seq<Input>, inputs: InputMap) returns (missing: Option<string>)
    modifies inputs
    ensures inputs.entries == Defaulted(decls, old(inputs.entries))
    ensures FillInputs(decls, old(inputs.entries)) ==
            match missing case None => Ok(inputs.entries) case Some(name) => Err(name)
  {
    ghost var supplied := inputs.entries;
    for i := 0 to |decls|
      invariant FillInputs(decls, supplied) == FillInputs(decls[i..], inputs.entries)
      invariant Defaulted(decls, supplied) == Defaulted(decls[i..], inputs.entries)
    {
      assert decls[i..][1..] == decls[i + 1..];
      if decls[i].name !in inputs.entries {
        if decls[i].required && decls[i].dflt == "" {
          return Some(decls[i].name);
        }
        if decls[i].dflt != "" {
          inputs.entries := inputs.entries[decls[i].name := decls[i].dflt];
        }
      }
    }
    return None;
  }

  /** engine.go `Run`. */
  method Run(w: World, skill: Skill, supplied: InputMap) returns (answer: Answer)
    requires RunSkill(w, skill, supplied.entries).Some?
    modifies supplied
    ensures RunSkill(w, skill, old(supplied.entries)) == Some(answer)
    ensures supplied.entries == Defaulted(skill.inputs, old(supplied.entries))
  {
    var missing := PrepareInputs(skill.inputs, supplied);
    if missing.Some? {
      return MissingInput(missing.value);
    }
    var inputs := supplied.entries;
    var store := new StoreMap(map[]);
    AbortedReports(Execute(w, inputs), skill.steps, 0, map[]);
    var done, aborted := RunSteps(w, skill.steps, inputs, store);
    if aborted {
      return Answer(false, done[|done| - 1].Error(), done, Null);
    }
    if skill.output != "" {
      var rendered := RenderValueWithItem(w.show, Env(inputs, store.entries, None), skill.output);
      match rendered {
        case Err(_) => return Answer(true, None, done, Obj(store.entries));
        case Ok(v) => return Answer(true, None, done, v);
      }
    }
    return Answer(true, None, done, if |done| > 0 then done[|done| - 1].Output() else Null);
  }

  /** The main loop of `Run`. */
  method RunSteps(w: World, steps: seq<Step>, inputs: map<string, string>, store: StoreMap)
    returns (done: seq<Report>, aborted: bool)
    requires !RunFrom(Execute(w, inputs), steps, 0, store.entries).NeverEnds?
    modifies store
    ensures RunFrom(Execute(w, inputs), steps, 0, old(store.entries)) == Ran(done, aborted, store.entries)
  {
    done, aborted := [], false;
    ghost var meaning := RunFrom(Execute(w, inputs), steps, 0, store.entries);
    var i := 0;
    while i < |steps|
      invariant 0 <= i <= |steps| && !aborted
      invariant meaning == Prepend(done, RunFrom(Execute(w, inputs), steps, i, store.entries))
    {
      var reports, next;
      reports, aborted, next := RunNext(w, steps, i, inputs, store);
      PrependTwice(done, reports, RunFrom(Execute(w, inputs), steps, next, store.entries));
      done := done + reports;
      if aborted {
        return;
      }
      i := next;
    }
    assert done + [] == done;
  }

  /** One turn of that loop: a whole batch or one sequential step. */
  method RunNext(w: World, steps: seq<Step>, i: nat, inputs: map<string, string>, store: StoreMap)
    returns (reports: seq<Report>, aborted: bool, next: nat)
    requires i < |steps| && !RunFrom(Execute(w, inputs), steps, i, store.entries).NeverEnds?
    modifies store
    ensures next == Next(steps, i)
    ensures RunFrom(Execute(w, inputs), steps, i, old(store.entries)) ==
            if aborted then Ran(reports, true, store.entries)
            else Prepend(reports, RunFrom(Execute(w, inputs), steps, next, store.entries))
  {
    if steps[i].parallel {
      var batch := CollectParallelBatch(steps, i);
      reports, aborted := RunParallelBatch(w, batch, inputs, store);
      next := i + |batch|;
    } else {
      var report, stop, _ := RunSingleStep(w, steps[i], inputs, store, None);
      aborted := stop;
      reports, next := [report], i + 1;
    }
  }
}
