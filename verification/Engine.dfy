/**
 The skill engine (internal/skill/engine.go): steps run in order, maximal runs of `parallel` steps
 run on a snapshot of the store and are merged by index, `each` steps iterate over a list.

 Tools are an arbitrary function of their name and arguments; a run whose templates never finish
 expanding has no result, written `NeverEnds`.
 */
module Engine {
  import opened Text
  import opened Json
  import opened Rescan
  import opened Template

  type Store = map<string, Value>

  datatype Step = Step(
    id: string, tool: string, args: map<string, string>, store: string,
    onFail: string, parallel: bool, each: string)
  {
    function Key(): string { if store == "" then id else store }
  }

  datatype World = World(
    tool: (string, map<string, Value>) -> Result<Value, string>,
    show: Show,
    parse: string -> Option<Value>)

  datatype Failure = BadArgs | ToolError(text: string) | BadEach(error: Error) | NotAList

  datatype Report = Report(id: string, tool: string, outcome: Result<Value, Failure>) {
    predicate Success() { outcome.Ok? }
    function Output(): Value { if outcome.Ok? then outcome.value else Null }
    function Error(): Option<Failure> { if outcome.Ok? then None else Some(outcome.error) }
  }

  /** What running one step amounts to. */
  datatype StepRun = StepHang | Done(report: Report, aborted: bool, store: Store)

  /** What running a list of steps amounts to. */
  datatype Ran = NeverEnds | Ran(reports: seq<Report>, aborted: bool, store: Store)

  function Failed(step: Step, cause: Failure, store: Store): StepRun {
    Done(Report(step.id, step.tool, Err(cause)), step.onFail != "skip", store)
  }

  function Succeeded(step: Step, output: Value, store: Store): StepRun {
    Done(Report(step.id, step.tool, Ok(output)), false, store[step.Key() := output])
  }

  // ---------------------------------------------------------------- one step

  /** The tool call of a step whose arguments have been rendered. */
  function Call(w: World, step: Step, args: map<string, Value>, store: Store): StepRun {
    match w.tool(step.tool, args)
    case Err(text) => Failed(step, ToolError(text), store)
    case Ok(out) => Succeeded(step, Normalise(w.parse, out), store)
  }

  /** One execution of a step: render the arguments, call the tool, store the output. */
  ghost function RunPlain(w: World, step: Step, inputs: map<string, string>, store: Store,
                          item: Option<map<string, Value>>): StepRun
  {
    match RenderAll(w.show, Env(inputs, store, item), step.args)
    case ArgsHang => StepHang
    case ArgsBad => Failed(step, BadArgs, store)
    case ArgsGood(args) => Call(w, step, args, store)
  }

  /** The iterations of an `each` step; `outputs` are those collected so far. */
  ghost function EachLoop(w: World, step: Step, inputs: map<string, string>, items: seq<Value>,
                          outputs: seq<Value>, store: Store): StepRun
    decreases |items|
  {
    if items == [] then Succeeded(step, Appended(outputs), store)
    else
      match RunPlain(w, step, inputs, store, ToMap(items[0]))
      case StepHang => StepHang
      case Done(r, aborted, store') =>
        if aborted && step.onFail != "skip" then Failed(step, r.outcome.error, store')
        else EachLoop(w, step, inputs, items[1..],
                      if r.Success() then outputs + [r.Output()] else outputs, store')
  }

  ghost function RunEach(w: World, step: Step, inputs: map<string, string>, store: Store): StepRun {
    match Render(w.show, Env(inputs, store, None), step.each)
    case Hang => StepHang
    case Bad(e) => Failed(step, BadEach(e), store)
    case Good(v) =>
      match ToSlice(v)
      case None => Failed(step, NotAList, store)
      case Some(items) => EachLoop(w, step, inputs, items, [], store)
  }

  ghost function RunSingle(w: World, step: Step, inputs: map<string, string>, store: Store,
                           item: Option<map<string, Value>>): StepRun
  {
    if step.each != "" then RunEach(w, step, inputs, store) else RunPlain(w, step, inputs, store, item)
  }

  /** What the engine needs to know of a step: its effect on a store. */
  type Exec = (Step, Store) -> StepRun

  ghost function Execute(w: World, inputs: map<string, string>): Exec {
    (step, store) => RunSingle(w, step, inputs, store, None)
  }

  // ---------------------------------------------------------------- a parallel batch

  /** The end of the maximal run of parallel steps from position `i`. */
  function BatchEnd(steps: seq<Step>, i: nat): (e: nat)
    requires i <= |steps|
    ensures i <= e <= |steps|
    ensures forall k :: i <= k < e ==> steps[k].parallel
    ensures e < |steps| ==> !steps[e].parallel
    ensures i < |steps| && steps[i].parallel ==> i < e
    decreases |steps| - i
  {
    if i < |steps| && steps[i].parallel then BatchEnd(steps, i + 1) else i
  }

  /** The store key of the first step of the batch with this id. */
  function KeyFor(batch: seq<Step>, id: string): Option<string> {
    if batch == [] then None
    else if batch[0].id == id then Some(batch[0].Key())
    else KeyFor(batch[1..], id)
  }

  function MergeOne(batch: seq<Step>, r: Report, store: Store): Store {
    if r.Success() && KeyFor(batch, r.id).Some? then store[KeyFor(batch, r.id).value := r.Output()]
    else store
  }

  /** Writing the successful reports into the store, in index order. */
  function Merge(batch: seq<Step>, reports: seq<Report>, store: Store): Store
    decreases |reports|
  {
    if reports == [] then store
    else
      var last := |reports| - 1;
      MergeOne(batch, reports[last], Merge(batch, reports[..last], store))
  }

  /** Every step of the batch run on the store as it was on entry. */
  ghost function Outcomes(exec: Exec, batch: seq<Step>, snapshot: Store): (r: seq<StepRun>)
    ensures |r| == |batch|
    ensures forall i :: 0 <= i < |batch| ==> r[i] == exec(batch[i], snapshot)
  {
    seq(|batch|, i requires 0 <= i < |batch| => exec(batch[i], snapshot))
  }

  ghost function ReportsOf(runs: seq<StepRun>): (r: seq<Report>)
    requires forall i :: 0 <= i < |runs| ==> runs[i].Done?
    ensures |r| == |runs|
    ensures forall i :: 0 <= i < |runs| ==> r[i] == runs[i].report
  {
    seq(|runs|, i requires 0 <= i < |runs| => runs[i].report)
  }

  ghost function RunBatch(exec: Exec, batch: seq<Step>, store: Store): Ran {
    var runs := Outcomes(exec, batch, store);
    if exists i :: 0 <= i < |runs| && runs[i].StepHang? then NeverEnds
    else
      var reports := ReportsOf(runs);
      Ran(reports, exists i :: 0 <= i < |runs| && runs[i].aborted, Merge(batch, reports, store))
  }

  // ---------------------------------------------------------------- a whole run

  /** `first` followed by `rest`, unless `first` aborted or never ended. */
  function Prepend(reports: seq<Report>, rest: Ran): Ran {
    match rest
    case NeverEnds => NeverEnds
    case Ran(rs, aborted, store) => Ran(reports + rs, aborted, store)
  }

  lemma PrependTwice(a: seq<Report>, b: seq<Report>, run: Ran)
    ensures Prepend(a, Prepend(b, run)) == Prepend(a + b, run)
  {
    if run.Ran? {
      assert a + (b + run.reports) == a + b + run.reports;
    }
  }

  /** Where the main loop goes after the turn at position `i`. */
  function Next(steps: seq<Step>, i: nat): (n: nat)
    requires i < |steps|
    ensures i < n <= |steps|
  {
    if steps[i].parallel then BatchEnd(steps, i) else i + 1
  }

  /** One turn of the main loop: a whole batch of parallel steps, or one sequential step. */
  ghost function Turn(exec: Exec, steps: seq<Step>, i: nat, store: Store): Ran
    requires i < |steps|
  {
    if steps[i].parallel then RunBatch(exec, steps[i..BatchEnd(steps, i)], store)
    else
      match exec(steps[i], store)
      case StepHang => NeverEnds
      case Done(r, aborted, store') => Ran([r], aborted, store')
  }

  ghost function RunFrom(exec: Exec, steps: seq<Step>, i: nat, store: Store): Ran
    requires i <= |steps|
    decreases |steps| - i
  {
    if i == |steps| then Ran([], false, store)
    else
      var turn := Turn(exec, steps, i, store);
      if turn.NeverEnds? || turn.aborted then turn
      else Prepend(turn.reports, RunFrom(exec, steps, Next(steps, i), turn.store))
  }

  datatype Input = Input(name: string, kind: string, required: bool, dflt: string)

  datatype Skill = Skill(inputs: seq<Input>, steps: seq<Step>, output: string)

  /** What `Run` returns to its caller. */
  datatype Answer =
    | MissingInput(name: string)
    | Answer(success: bool, error: Option<Failure>, steps: seq<Report>, output: Value)

  /** Defaults for the inputs that were not supplied, or the first required one that is missing. */
  function FillInputs(decls: seq<Input>, inputs: map<string, string>): Result<map<string, string>, string> {
    if decls == [] then Ok(inputs)
    else if decls[0].name in inputs then FillInputs(decls[1..], inputs)
    else if decls[0].dflt != "" then FillInputs(decls[1..], inputs[decls[0].name := decls[0].dflt])
    else if decls[0].required then Err(decls[0].name)
    else FillInputs(decls[1..], inputs)
  }

  /** What the input loop leaves in the caller's map, also when it stops at a missing input. */
  function Defaulted(decls: seq<Input>, inputs: map<string, string>): (m: map<string, string>)
    ensures FillInputs(decls, inputs).Ok? ==> m == FillInputs(decls, inputs).value
  {
    if decls == [] then inputs
    else
      var d := decls[0];
      if d.name !in inputs && d.dflt != "" then Defaulted(decls[1..], inputs[d.name := d.dflt])
      else if d.name !in inputs && d.required then inputs
      else Defaulted(decls[1..], inputs)
  }

  /** The answer made from a finished run; None when the output template never finishes expanding. */
  ghost function Conclude(w: World, output: string, inputs: map<string, string>, run: Ran): Option<Answer>
    requires run.Ran? && (run.aborted ==> run.reports != [])
  {
    var rs := run.reports;
    if run.aborted then Some(Answer(false, rs[|rs| - 1].Error(), rs, Null))
    else if output == "" then
      Some(Answer(true, None, rs, if rs == [] then Null else rs[|rs| - 1].Output()))
    else
      match Render(w.show, Env(inputs, run.store, None), output)
      case Hang => None
      case Bad(_) => Some(Answer(true, None, rs, Obj(run.store)))
      case Good(v) => Some(Answer(true, None, rs, v))
  }

  lemma {:induction false} AbortedReports(exec: Exec, steps: seq<Step>, i: nat, store: Store)
    requires i <= |steps|
    ensures var run := RunFrom(exec, steps, i, store);
            run.Ran? && run.aborted ==> run.reports != []
    decreases |steps| - i
  {
    if i < |steps| {
      var turn := Turn(exec, steps, i, store);
      if turn.Ran? && !turn.aborted {
        AbortedReports(exec, steps, Next(steps, i), turn.store);
      }
    }
  }

  /** The answer of a skill whose inputs are complete. */
  ghost function Answering(w: World, exec: Exec, skill: Skill, inputs: map<string, string>): Option<Answer> {
    AbortedReports(exec, skill.steps, 0, map[]);
    match RunFrom(exec, skill.steps, 0, map[])
    case NeverEnds => None
    case Ran(rs, aborted, store) => Conclude(w, skill.output, inputs, Ran(rs, aborted, store))
  }

  ghost function RunSkill(w: World, skill: Skill, inputs: map<string, string>): Option<Answer> {
    match FillInputs(skill.inputs, inputs)
    case Err(name) => Some(MissingInput(name))
    case Ok(filled) => Answering(w, Execute(w, filled), skill, filled)
  }
}
