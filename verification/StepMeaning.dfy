/**
 What the reports of a run say: each one is the answer of the step's tool to the arguments rendered on the store
 at that point, and what a tool answers is what later references give.
 */
module StepMeaning {
  import opened Text
  import opened Json
  import opened Rescan
  import opened Template
  import opened Reference
  import opened Interpolation
  import opened Engine
  import opened RunShape

  // ---------------------------------------------------------------- one tool call

  /** The arguments of the step render to these values. */
  ghost predicate RenderTo(w: World, step: Step, env: Env, args: map<string, Value>) {
    args.Keys == step.args.Keys && forall k :: k in args ==> Render(w.show, env, step.args[k]) == Good(args[k])
  }

  lemma RenderedArgs(w: World, step: Step, env: Env, args: map<string, Value>)
    requires RenderTo(w, step, env, args)
    ensures RenderAll(w.show, env, step.args) == ArgsGood(args)
  {
    assert args == map k | k in step.args :: Render(w.show, env, step.args[k]).value;
  }

  /**
   A step without `each` whose arguments render calls its tool with just these: it reports the tool's error, or
   its output in the form that is stored under the step's key.
   */
  lemma ToolGetsItsArguments(w: World, step: Step, inputs: map<string, string>, store: Store,
                             item: Option<map<string, Value>>, args: map<string, Value>)
    requires step.each == "" && RenderTo(w, step, Env(inputs, store, item), args)
    ensures var run, answer := RunSingle(w, step, inputs, store, item), w.tool(step.tool, args);
            && run.Done?
            && run.report.outcome == (if answer.Ok? then Ok(Normalise(w.parse, answer.value))
                                      else Err(ToolError(answer.error)))
            && var key := if step.store != "" then step.store else step.id;
               run.store == if answer.Ok? then store[key := Normalise(w.parse, answer.value)] else store
  {
    RenderedArgs(w, step, Env(inputs, store, item), args);
  }

  /** When an argument cannot be rendered, and rendering ends, the step fails whatever its tool would answer. */
  lemma BadArgumentFails(w: World, step: Step, inputs: map<string, string>, store: Store,
                         item: Option<map<string, Value>>, arg: string)
    requires step.each == "" && arg in step.args && Render(w.show, Env(inputs, store, item), step.args[arg]).Bad?
    requires forall k :: k in step.args ==> !Render(w.show, Env(inputs, store, item), step.args[k]).Hang?
    ensures RunSingle(w, step, inputs, store, item) ==
            Done(Report(step.id, step.tool, Err(BadArgs)), step.onFail != "skip", store)
  {}

  /** What a path gives of an output: a text that is a JSON object counts as that object. */
  function FieldsOfOutput(w: World, out: Value, names: seq<string>): Result<Value, Error>
    requires names != []
  {
    if out.Str? && w.parse(out.s).Some? then Along(w.parse(out.s).value, names) else Along(out, names)
  }

  /**
   What the tool answered is what later references give: an object its fields, a text that is JSON the fields of
   the decoded object, another text no fields.
   */
  lemma LaterStepsSeeTheOutput(w: World, step: Step, inputs: map<string, string>, store: Store,
                               item: Option<map<string, Value>>, args: map<string, Value>, names: seq<string>)
    requires step.each == "" && RenderTo(w, step, Env(inputs, store, item), args) && '.' !in step.Key()
    requires w.tool(step.tool, args).Ok? && names != [] && DotFree(names)
    ensures var run, out := RunSingle(w, step, inputs, store, item), w.tool(step.tool, args).value;
            && run.Done? && run.report.outcome == Ok(if out.Null? then NilMap
                                                     else if out.Str? && w.parse(out.s).Some? then w.parse(out.s).value
                                                     else out)
            && Resolve(".steps." + step.Key(), Env(inputs, run.store, None)) == Ok(run.report.outcome.value)
            && Resolve(".steps." + step.Key() + "." + JoinDots(names), Env(inputs, run.store, None)) ==
               FieldsOfOutput(w, out, names)
  {
    hide Resolve, JoinDots, RunSingle, Walk, RenderTo;
    ToolGetsItsArguments(w, step, inputs, store, item, args);
    var env := Env(inputs, RunSingle(w, step, inputs, store, item).store, None);
    StepOutput(step.Key(), env);
    StepField(step.Key(), names, env);
  }

  // ---------------------------------------------------------------- each

  /** What references give inside an `each` step: the fields of an object, the value of anything else. */
  lemma ItemIsSeen(v: Value, names: seq<string>, inputs: map<string, string>, store: Store)
    requires names != [] && DotFree(names)
    ensures var env := Env(inputs, store, ToMap(v));
            if v.Obj? then Resolve(".item", env) == Ok(v) && Resolve(".item." + JoinDots(names), env) == Walk(v, names)
            else if v.Null? || v.NilMap? || v.NilList? then
              Resolve(".item." + JoinDots(names), env) == Err(ItemOutsideEach)
            else Resolve(".item.value", env) == Ok(v)
  {
    hide Resolve, JoinDots;
    var env := Env(inputs, store, ToMap(v));
    ItemAndInput("", env);
    ItemField(names, env);
    if !v.Obj? && env.item.Some? {
      ValueField(v, env);
    }
  }

  lemma ValueField(v: Value, env: Env)
    requires env.item == Some(map["value" := v])
    ensures Resolve(".item.value", env) == Ok(v)
  {
    hide Resolve;
    var names := ["value"];
    assert DotFree(names);
    ItemField(names, env);
    assert ".item." + JoinDots(names) == ".item.value";
    assert Walk(v, names[1..]) == Ok(v);
  }

  /** The store that the item behind these reports runs on. */
  function ItemStore(step: Step, reports: seq<Report>, store: Store): Store {
    if reports == [] then store
    else Stored(step, reports[|reports| - 1], ItemStore(step, reports[..|reports| - 1], store))
  }

  lemma {:induction false} ItemStoreFrom(step: Step, first: Report, rest: seq<Report>, store: Store)
    ensures ItemStore(step, [first] + rest, store) == ItemStore(step, rest, Stored(step, first, store))
    decreases |rest|
  {
    var all := [first] + rest;
    if rest == [] {
      assert all[..0] == [];
    } else {
      assert all[..|all| - 1] == [first] + rest[..|rest| - 1];
      ItemStoreFrom(step, first, rest[..|rest| - 1], store);
    }
  }

  /** Report `k` is that of the step on item `k`, on the store that the items before left. */
  ghost predicate ItemReported(w: World, step: Step, inputs: map<string, string>, items: seq<Value>, store: Store,
                               reports: seq<Report>, k: nat)
    requires k < |items| && k < |reports|
  {
    var run := RunSingle(w, step.(each := ""), inputs, ItemStore(step, reports[..k], store), ToMap(items[k]));
    run.Done? && run.report == reports[k]
  }

  /** Every report is so. */
  ghost predicate ItemsReported(w: World, step: Step, inputs: map<string, string>, items: seq<Value>, store: Store,
                                reports: seq<Report>)
  {
    |reports| <= |items| &&
    forall k :: 0 <= k < |reports| ==> ItemReported(w, step, inputs, items, store, reports, k)
  }

  /** The items that ran: all of them, or up to the first that stops the loop. */
  predicate RanThrough(step: Step, items: seq<Value>, reports: seq<Report>) {
    && (forall k :: 0 <= k < |reports| - 1 ==> !Aborting(step, reports[k]))
    && (if reports != [] && Aborting(step, reports[|reports| - 1]) then true else |reports| == |items|)
  }

  /** The report of the loop: the failure that stopped it, or the outputs in item order. */
  function Gathered(step: Step, reports: seq<Report>, before: seq<Value>): Result<Value, Failure> {
    if reports != [] && Aborting(step, reports[|reports| - 1]) then reports[|reports| - 1].outcome
    else
      var outputs := before + Outputs(reports);
      Ok(if outputs == [] then NilList else List(outputs))
  }

  /**
   The loop of an `each` step runs its items in order, each on the store that the one before left, up to the first
   that fails unskipped, whose failure it reports; otherwise it reports the outputs of those that succeeded.
   */
  lemma {:induction false} ItemsRunInOrder(w: World, step: Step, inputs: map<string, string>, items: seq<Value>,
                                           outputs: seq<Value>, store: Store) returns (reports: seq<Report>)
    requires EachLoop(w, step, inputs, items, outputs, store).Done?
    ensures ItemsReported(w, step, inputs, items, store, reports) && RanThrough(step, items, reports)
    ensures EachLoop(w, step, inputs, items, outputs, store).report.outcome == Gathered(step, reports, outputs)
    decreases |items|
  {
    hide ToMap, RunPlain, ItemReported;
    reports := [];
    if items == [] {
      assert outputs + [] == outputs;
    } else {
      var run := RunPlain(w, step, inputs, store, ToMap(items[0]));
      PlainEffect(w, step, inputs, store, ToMap(items[0]));
      FirstItem(w, step, inputs, items, store);
      if run.aborted {
        reports := [run.report];
      } else {
        var outputs' := if run.report.Success() then outputs + [run.report.Output()] else outputs;
        var rest := ItemsRunInOrder(w, step, inputs, items[1..], outputs', run.store);
        reports := [run.report] + rest;
        ItemsBehind(w, step, inputs, items, store, run.report, rest);
        GatheredBehind(step, run.report, rest, outputs);
      }
    }
  }

  lemma FirstItem(w: World, step: Step, inputs: map<string, string>, items: seq<Value>, store: Store)
    requires items != [] && RunPlain(w, step, inputs, store, ToMap(items[0])).Done?
    ensures ItemsReported(w, step, inputs, items, store, [RunPlain(w, step, inputs, store, ToMap(items[0])).report])
  {
    hide ToMap, Render;
    var reports := [RunPlain(w, step, inputs, store, ToMap(items[0])).report];
    assert reports[..0] == [];
    assert RunSingle(w, step.(each := ""), inputs, store, ToMap(items[0])) ==
           RunPlain(w, step, inputs, store, ToMap(items[0]));
  }

  lemma ItemsBehind(w: World, step: Step, inputs: map<string, string>, items: seq<Value>, store: Store,
                    first: Report, rest: seq<Report>)
    requires items != [] && ItemsReported(w, step, inputs, items, store, [first])
    requires ItemsReported(w, step, inputs, items[1..], Stored(step, first, store), rest)
    ensures ItemsReported(w, step, inputs, items, store, [first] + rest)
  {
    hide ToMap, RunSingle, ItemStore, Stored;
    var all := [first] + rest;
    forall k | 0 <= k < |all| ensures ItemReported(w, step, inputs, items, store, all, k) {
      if k == 0 {
        assert ItemReported(w, step, inputs, items, store, [first], 0);
        assert all[..0] == [first][..0];
      } else {
        assert ItemReported(w, step, inputs, items[1..], Stored(step, first, store), rest, k - 1);
        assert all[..k] == [first] + rest[..k - 1];
        ItemStoreFrom(step, first, rest[..k - 1], store);
      }
    }
  }

  lemma GatheredBehind(step: Step, first: Report, rest: seq<Report>, outputs: seq<Value>)
    requires !Aborting(step, first)
    ensures var outputs' := if first.Success() then outputs + [first.Output()] else outputs;
            Gathered(step, [first] + rest, outputs) == Gathered(step, rest, outputs')
  {
    var all := [first] + rest;
    assert all[1..] == rest;
    assert outputs + [first.Output()] + Outputs(rest) == outputs + ([first.Output()] + Outputs(rest));
    assert rest != [] ==> all[|all| - 1] == rest[|rest| - 1];
  }

  /** An `each` step fails unless its expression gives a list, and otherwise runs the loop over the list. */
  lemma EachRunsItsList(w: World, step: Step, inputs: map<string, string>, store: Store,
                        item: Option<map<string, Value>>)
    requires step.each != "" && !Render(w.show, Env(inputs, store, None), step.each).Hang?
    ensures var run := RunSingle(w, step, inputs, store, item);
            var list := Render(w.show, Env(inputs, store, None), step.each);
            && (list.Bad? ==> run == Failed(step, BadEach(list.error), store))
            && (list.Good? && !list.value.List? ==> run == Failed(step, NotAList, store))
            && (list.Good? && list.value.List? ==> run == EachLoop(w, step, inputs, list.value.items, [], store))
  {
    hide Render, EachLoop;
  }

  /** So an `each` without double braces, which the parser refuses, could only fail. */
  lemma BareEachFails(w: World, step: Step, inputs: map<string, string>, store: Store, item: Option<map<string, Value>>)
    requires step.each != "" && FindPair(step.each, '{', 0) == -1
    ensures RunSingle(w, step, inputs, store, item) == Failed(step, NotAList, store)
  {
    RenderPlain(w.show, Env(inputs, store, None), step.each);
    EachRunsItsList(w, step, inputs, store, item);
  }

  // ---------------------------------------------------------------- the reports of a run

  /** Where the run of parallel steps around step `k` begins; a sequential step is on its own. */
  function BatchStart(steps: seq<Step>, k: nat): (b: nat)
    requires k < |steps|
    ensures b <= k
  {
    if k > 0 && steps[k].parallel && steps[k - 1].parallel then BatchStart(steps, k - 1) else k
  }

  /** The main loop comes to a turn at `i`. */
  predicate TurnAt(steps: seq<Step>, i: nat) { i <= |steps| && (i < |steps| ==> BatchStart(steps, i) == i) }

  lemma {:induction false} StartsWithin(steps: seq<Step>, i: nat, k: nat)
    requires TurnAt(steps, i) && i <= k < |steps|
    ensures i <= BatchStart(steps, k)
  {
    if k > i && steps[k].parallel && steps[k - 1].parallel {
      StartsWithin(steps, i, k - 1);
    }
  }

  lemma {:induction false} StartOfBatch(steps: seq<Step>, i: nat, k: nat)
    requires TurnAt(steps, i) && i <= k < |steps| && (forall j :: i <= j <= k ==> steps[j].parallel)
    ensures BatchStart(steps, k) == i
  {
    if k > i {
      assert steps[k].parallel && steps[k - 1].parallel;
      StartOfBatch(steps, i, k - 1);
    }
  }

  /** Report `k` is that of step `i + k` on what the reports before its batch make of the store. */
  ghost predicate Explained(exec: Exec, steps: seq<Step>, i: nat, store: Store, reports: seq<Report>, k: nat)
    requires k < |reports| && i + |reports| <= |steps|
  {
    var b := BatchStart(steps, i + k);
    i <= b && exec(steps[i + k], Replay(steps, i, reports[..b - i], store)).Done? &&
    exec(steps[i + k], Replay(steps, i, reports[..b - i], store)).report == reports[k]
  }

  ghost predicate AllExplained(exec: Exec, steps: seq<Step>, i: nat, store: Store, reports: seq<Report>) {
    i + |reports| <= |steps| && forall k :: 0 <= k < |reports| ==> Explained(exec, steps, i, store, reports, k)
  }

  lemma TurnIsExplained(exec: Exec, steps: seq<Step>, i: nat, store: Store)
    requires WellBehaved(exec) && i < |steps| && DistinctIds(steps) && TurnAt(steps, i)
    requires Turn(exec, steps, i, store).Ran?
    ensures AllExplained(exec, steps, i, store, Turn(exec, steps, i, store).reports)
  {
    hide DistinctIds, Merge, Replay;
    var turn := Turn(exec, steps, i, store);
    TurnShape(exec, steps, i, store);
    NothingReplayed(steps, i, store, turn.reports);
    forall k | 0 <= k < |turn.reports| ensures Explained(exec, steps, i, store, turn.reports, k) {
      if steps[i].parallel {
        StartOfBatch(steps, i, i + k);
        assert steps[i..BatchEnd(steps, i)][k] == steps[i + k];
      }
    }
  }

  lemma NothingReplayed(steps: seq<Step>, i: nat, store: Store, reports: seq<Report>)
    requires i <= |steps|
    ensures Replay(steps, i, reports[..0], store) == store
  {}

  lemma {:induction false} NextIsATurn(steps: seq<Step>, i: nat)
    requires i < |steps|
    ensures TurnAt(steps, Next(steps, i))
  {}

  lemma ExplainedBehind(exec: Exec, steps: seq<Step>, i: nat, store: Store, first: seq<Report>, rest: seq<Report>)
    requires AllExplained(exec, steps, i, store, first) && TurnAt(steps, i + |first|)
    requires AllExplained(exec, steps, i + |first|, Replay(steps, i, first, store), rest)
    ensures AllExplained(exec, steps, i, store, first + rest)
  {
    hide TurnAt, BatchStart, Explained, Replay;
    var all, n := first + rest, |first|;
    forall k | 0 <= k < |all| ensures Explained(exec, steps, i, store, all, k) {
      if k < n {
        ExplainedInFront(exec, steps, i, store, first, rest, k);
      } else {
        assert Explained(exec, steps, i + n, Replay(steps, i, first, store), rest, k - n);
        ExplainedLater(exec, steps, i, store, first, rest, k - n);
      }
    }
  }

  lemma ExplainedInFront(exec: Exec, steps: seq<Step>, i: nat, store: Store, first: seq<Report>, rest: seq<Report>,
                         k: nat)
    requires k < |first| && i + |first| + |rest| <= |steps| && Explained(exec, steps, i, store, first, k)
    ensures Explained(exec, steps, i, store, first + rest, k)
  {
    hide BatchStart, Replay;
    var b := BatchStart(steps, i + k);
    assert (first + rest)[..b - i] == first[..b - i];
  }

  lemma ExplainedLater(exec: Exec, steps: seq<Step>, i: nat, store: Store, first: seq<Report>, rest: seq<Report>,
                       k: nat)
    requires k < |rest| && i + |first| + |rest| <= |steps|
    requires Explained(exec, steps, i + |first|, Replay(steps, i, first, store), rest, k)
    ensures Explained(exec, steps, i, store, first + rest, |first| + k)
  {
    hide BatchStart, Replay;
    var b := BatchStart(steps, i + |first| + k);
    var behind := rest[..b - (i + |first|)];
    assert (first + rest)[..b - i] == first + behind;
    ReplayAppend(steps, i, first, behind, store);
  }

  /**
   Every report of every run, aborted or not, is what its step makes of the store at that point: what the outputs
   of all steps before its own batch of parallel steps have made of the first one.
   */
  lemma {:induction false} ReportsAreExplained(exec: Exec, steps: seq<Step>, i: nat, store: Store)
    requires WellBehaved(exec) && DistinctIds(steps) && i <= |steps| && TurnAt(steps, i)
    requires RunFrom(exec, steps, i, store).Ran?
    ensures AllExplained(exec, steps, i, store, RunFrom(exec, steps, i, store).reports)
    decreases |steps| - i
  {
    hide DistinctIds, TurnAt, Turn, Explained, Replay, ReportsMatch, WellBehaved;
    if i < |steps| {
      TurnIsExplained(exec, steps, i, store);
      TurnShape(exec, steps, i, store);
      var turn := Turn(exec, steps, i, store);
      if !turn.aborted {
        NextIsATurn(steps, i);
        ReportsAreExplained(exec, steps, Next(steps, i), turn.store);
        ExplainedBehind(exec, steps, i, store, turn.reports, RunFrom(exec, steps, Next(steps, i), turn.store).reports);
      }
    }
  }
}
