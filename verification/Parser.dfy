/**
 Validation of a parsed skill file (internal/skill/parser.go): default ids and on_fail are filled in
 place, and the first violation found is reported.
 */
module Parser {
  import opened Text
  import opened Engine
  import opened RunShape
  import opened ParallelMeaning

  datatype Violation =
    | NoName
    | NoSteps
    | DuplicateId(id: string)
    | NoTool(id: string)
    | ParallelEach(id: string)
    | EachNotTemplate(id: string)
    | TransformWithoutInput(id: string)
    | InputWithoutName
    | InputType(name: string, kind: string)

  /** The skill as unmarshalled from YAML; `validate` writes to its steps. */
  class SkillFile {
    const name: string
    const steps: array<Step>
    const inputs: seq<Input>

    constructor (name: string, steps: array<Step>, inputs: seq<Input>)
      ensures this.name == name && this.steps == steps && this.inputs == inputs
    {
      this.name, this.steps, this.inputs := name, steps, inputs;
    }
  }

  // ---------------------------------------------------------------- what is accepted

  function DefaultId(i: nat): (id: string)
    ensures id != ""
  {
    "step_" + Decimal(i + 1)
  }

  function IdOf(step: Step, i: nat): (id: string)
    ensures id != ""
  {
    if step.id == "" then DefaultId(i) else step.id
  }

  function Completed(step: Step, i: nat): Step {
    step.(id := IdOf(step, i), onFail := if step.onFail == "" then "abort" else step.onFail)
  }

  function CompletedAll(steps: seq<Step>): (r: seq<Step>)
    ensures |r| == |steps|
    ensures forall i :: 0 <= i < |steps| ==> r[i] == Completed(steps[i], i)
  {
    seq(|steps|, i requires 0 <= i < |steps| => Completed(steps[i], i))
  }

  predicate WellFormed(step: Step) {
    && step.tool != ""
    && !(step.parallel && step.each != "")
    && (step.each != "" ==> FindPair(step.each, '{', 0) != -1)
    && (step.tool == "transform" ==> "input" in step.args && step.args["input"] != "")
  }

  const KINDS: set<string> := {"", "string", "int", "bool"}

  predicate InputOk(input: Input) {
    input.name != "" && input.kind in KINDS
  }

  /** The condition on the file under which the parser accepts it. */
  ghost predicate Acceptable(name: string, steps: seq<Step>, inputs: seq<Input>) {
    && name != "" && steps != []
    && DistinctIds(CompletedAll(steps))
    && (forall i :: 0 <= i < |steps| ==> WellFormed(steps[i]))
    && (forall i :: 0 <= i < |inputs| ==> InputOk(inputs[i]))
  }

  /** Only empty ids and empty on_fail values differ. */
  predicate OnlyDefaults(before: Step, after: Step, i: nat) {
    && after == before.(id := after.id, onFail := after.onFail)
    && (after.id == before.id || after.id == IdOf(before, i))
    && (after.onFail == before.onFail || after.onFail == Completed(before, i).onFail)
  }

  /** A step before `i` has the id of step `i`. */
  ghost predicate Clash(all: seq<Step>, i: nat)
    requires i < |all|
  {
    exists k :: 0 <= k < i && all[k].id == all[i].id
  }

  predicate EachBare(st: Step) { st.each != "" && FindPair(st.each, '{', 0) == -1 }

  predicate InputMissing(st: Step) { st.tool == "transform" && !("input" in st.args && st.args["input"] != "") }

  /** The first complaint about a step that does not clash and has a tool. */
  predicate LateViolation(v: Violation, st: Step, id: string) {
    match v
    case ParallelEach(n) => n == id && st.parallel && st.each != ""
    case EachNotTemplate(n) => n == id && !(st.parallel && st.each != "") && EachBare(st)
    case TransformWithoutInput(n) => n == id && !(st.parallel && st.each != "") && !EachBare(st) && InputMissing(st)
    case _ => false
  }

  /** The first complaint about a step; `clash` if its id is taken. */
  predicate StepViolation(v: Violation, st: Step, id: string, clash: bool) {
    if clash then v == DuplicateId(id) else if st.tool == "" then v == NoTool(id) else LateViolation(v, st, id)
  }

  predicate InputViolation(v: Violation, input: Input) {
    if input.name == "" then v == InputWithoutName
    else v == InputType(input.name, input.kind) && input.kind !in KINDS
  }

  /** Nothing is wrong with the first `n` steps. */
  ghost predicate StepsFine(steps: seq<Step>, n: nat)
    requires n <= |steps|
  {
    DistinctIds(CompletedAll(steps)[..n]) && forall k :: 0 <= k < n ==> WellFormed(steps[k])
  }

  /** Step `i` is the first with something wrong, and `v` is the first thing wrong with it. */
  ghost predicate FirstAtStep(v: Violation, steps: seq<Step>, i: nat) {
    && i < |steps| && StepsFine(steps, i)
    && StepViolation(v, steps[i], CompletedAll(steps)[i].id, Clash(CompletedAll(steps), i))
  }

  ghost predicate FirstAtInput(v: Violation, inputs: seq<Input>, i: nat) {
    i < |inputs| && (forall k :: 0 <= k < i ==> InputOk(inputs[k])) && InputViolation(v, inputs[i])
  }

  /** `v` is the first violation of the file: its name, the presence of steps, the steps, the inputs. */
  ghost predicate First(v: Violation, name: string, steps: seq<Step>, inputs: seq<Input>) {
    if name == "" then v == NoName
    else if steps == [] then v == NoSteps
    else if StepsFine(steps, |steps|) then exists i: nat :: FirstAtInput(v, inputs, i)
    else exists i: nat :: FirstAtStep(v, steps, i)
  }

  /** A step at which something is wrong ends the part of the file where nothing is. */
  lemma ViolationIsNotFine(v: Violation, steps: seq<Step>, i: nat, n: nat)
    requires FirstAtStep(v, steps, i) && i < n <= |steps|
    ensures !StepsFine(steps, n)
  {
    var all := CompletedAll(steps);
    if Clash(all, i) {
      var k :| 0 <= k < i && all[k].id == all[i].id;
      assert all[..n][k].id == all[..n][i].id;
    } else {
      assert !WellFormed(steps[i]);
    }
  }

  lemma StepViolationIsUnique(v: Violation, w: Violation, st: Step, id: string, clash: bool)
    requires StepViolation(v, st, id, clash) && StepViolation(w, st, id, clash)
    ensures v == w
  {
    hide EachBare, InputMissing;
  }

  lemma FirstStepIsUnique(v: Violation, w: Violation, steps: seq<Step>, i: nat, j: nat)
    requires FirstAtStep(v, steps, i) && FirstAtStep(w, steps, j)
    ensures v == w
  {
    hide StepViolation;
    if i < j {
      ViolationIsNotFine(v, steps, i, j);
    } else if j < i {
      ViolationIsNotFine(w, steps, j, i);
    } else {
      StepViolationIsUnique(v, w, steps[i], CompletedAll(steps)[i].id, Clash(CompletedAll(steps), i));
    }
  }

  lemma FirstInputIsUnique(v: Violation, w: Violation, inputs: seq<Input>, i: nat, j: nat)
    requires FirstAtInput(v, inputs, i) && FirstAtInput(w, inputs, j)
    ensures v == w
  {
    assert !InputOk(inputs[i]) && !InputOk(inputs[j]);
  }

  /** The first violation is unique, so the parser's report is determined by the file. */
  lemma FirstIsUnique(v: Violation, w: Violation, name: string, steps: seq<Step>, inputs: seq<Input>)
    requires First(v, name, steps, inputs) && First(w, name, steps, inputs)
    ensures v == w
  {
    hide StepsFine, FirstAtStep, FirstAtInput;
    if name != "" && steps != [] {
      if StepsFine(steps, |steps|) {
        var i: nat :| FirstAtInput(v, inputs, i);
        var j: nat :| FirstAtInput(w, inputs, j);
        FirstInputIsUnique(v, w, inputs, i, j);
      } else {
        var i: nat :| FirstAtStep(v, steps, i);
        var j: nat :| FirstAtStep(w, steps, j);
        FirstStepIsUnique(v, w, steps, i, j);
      }
    }
  }

  // ---------------------------------------------------------------- validate

  /** The last three checks on one step; `id` is its completed id. */
  method CheckStep(st: Step, id: string) returns (v: Option<Violation>)
    requires st.tool != ""
    ensures v.None? <==> WellFormed(st)
    ensures v.Some? ==> LateViolation(v.value, st, id)
  {
    if st.parallel && st.each != "" {
      return Some(ParallelEach(id));
    }
    if st.each != "" && FindPair(st.each, '{', 0) == -1 {
      return Some(EachNotTemplate(id));
    }
    if st.tool == "transform" && !("input" in st.args && st.args["input"] != "") {
      return Some(TransformWithoutInput(id));
    }
    return None;
  }

  method CheckInputs(inputs: seq<Input>) returns (v: Option<Violation>)
    ensures v.None? <==> forall i :: 0 <= i < |inputs| ==> InputOk(inputs[i])
    ensures v.Some? ==> exists i: nat :: FirstAtInput(v.value, inputs, i)
  {
    for i := 0 to |inputs|
      invariant forall k :: 0 <= k < i ==> InputOk(inputs[k])
    {
      if inputs[i].name == "" {
        v := Some(InputWithoutName);
        assert FirstAtInput(v.value, inputs, i);
        return;
      }
      if inputs[i].kind !in KINDS {
        v := Some(InputType(inputs[i].name, inputs[i].kind));
        assert FirstAtInput(v.value, inputs, i);
        return;
      }
    }
    return None;
  }

  /** parser.go `validate`: accepts exactly the acceptable files, and completes those it accepts. */
  method Validate(s: SkillFile) returns (v: Option<Violation>)
    modifies s.steps
    ensures v.None? <==> Acceptable(s.name, old(s.steps[..]), s.inputs)
    ensures v.Some? ==> First(v.value, s.name, old(s.steps[..]), s.inputs)
    ensures v.None? ==> s.steps[..] == CompletedAll(old(s.steps[..])) && Validated(s.steps[..])
    ensures forall i :: 0 <= i < s.steps.Length ==> OnlyDefaults(old(s.steps[i]), s.steps[i], i)
  {
    hide StepsFine, FirstAtStep, FirstAtInput, WellFormed, InputOk, DistinctIds;
    ghost var before := s.steps[..];
    FineIsAcceptable(before);
    if s.name == "" {
      return Some(NoName);
    }
    if s.steps.Length == 0 {
      return Some(NoSteps);
    }
    v := ValidateSteps(s.steps);
    if v.Some? {
      return;
    }
    v := CheckInputs(s.inputs);
    AcceptedIsValidated(before);
  }

  lemma AcceptedIsValidated(steps: seq<Step>)
    requires StepsFine(steps, |steps|)
    ensures Validated(CompletedAll(steps))
  {
    FineIsAcceptable(steps);
  }

  /** One turn of the step loop; `ids` are the ids of the steps before. */
  method CompleteStep(steps: array<Step>, i: nat, ids: set<string>) returns (v: Option<Violation>)
    requires i < steps.Length
    modifies steps
    ensures forall k :: 0 <= k < steps.Length && k != i ==> steps[k] == old(steps[k])
    ensures v.None? <==> IdOf(old(steps[i]), i) !in ids && WellFormed(old(steps[i]))
    ensures v.Some? ==>
              var id := IdOf(old(steps[i]), i);
              StepViolation(v.value, old(steps[i]), id, id in ids)
    ensures v.None? ==> steps[i] == Completed(old(steps[i]), i)
    ensures OnlyDefaults(old(steps[i]), steps[i], i)
  {
    var st := steps[i];
    if st.id == "" {
      steps[i] := steps[i].(id := DefaultId(i));
    }
    if steps[i].id in ids {
      return Some(DuplicateId(steps[i].id));
    }
    if st.tool == "" {
      return Some(NoTool(steps[i].id));
    }
    if st.onFail == "" {
      steps[i] := steps[i].(onFail := "abort");
    }
    v := CheckStep(st, steps[i].id);
  }

  /** The ids of the first `n` steps. */
  ghost predicate IdsBefore(all: seq<Step>, n: nat, ids: set<string>)
    requires n <= |all|
  {
    && (forall k :: 0 <= k < n ==> all[k].id in ids)
    && (forall id :: id in ids ==> exists k :: 0 <= k < n && all[k].id == id)
  }

  method ValidateSteps(steps: array<Step>) returns (v: Option<Violation>)
    modifies steps
    ensures v.None? <==> StepsFine(old(steps[..]), steps.Length)
    ensures v.Some? ==> exists i: nat :: FirstAtStep(v.value, old(steps[..]), i)
    ensures v.None? ==> steps[..] == CompletedAll(old(steps[..]))
    ensures forall i :: 0 <= i < steps.Length ==> OnlyDefaults(old(steps[i]), steps[i], i)
  {
    hide StepsFine, FirstAtStep, WellFormed, StepViolation, IdsBefore;
    ghost var before := steps[..];
    ghost var all := CompletedAll(before);
    var ids: set<string> := {};
    NothingWrongYet(before);
    for i := 0 to steps.Length
      invariant forall k :: 0 <= k < i ==> steps[k] == all[k]
      invariant forall k :: i <= k < steps.Length ==> steps[k] == before[k]
      invariant IdsBefore(all, i, ids) && StepsFine(before, i)
    {
      v := CompleteStep(steps, i, ids);
      StepDecides(before, i, ids, v);
      if v.Some? {
        return;
      }
      ids := ids + {steps[i].id};
    }
    return None;
  }

  lemma NothingWrongYet(steps: seq<Step>)
    ensures IdsBefore(CompletedAll(steps), 0, {}) && StepsFine(steps, 0)
  {}

  /** The verdict on step `i`, given that nothing is wrong before it. */
  lemma StepDecides(steps: seq<Step>, i: nat, ids: set<string>, v: Option<Violation>)
    requires i < |steps| && IdsBefore(CompletedAll(steps), i, ids) && StepsFine(steps, i)
    requires v.None? <==> IdOf(steps[i], i) !in ids && WellFormed(steps[i])
    requires v.Some? ==> StepViolation(v.value, steps[i], IdOf(steps[i], i), IdOf(steps[i], i) in ids)
    ensures v.Some? ==> FirstAtStep(v.value, steps, i) && !StepsFine(steps, |steps|)
    ensures v.None? ==> StepsFine(steps, i + 1) && IdsBefore(CompletedAll(steps), i + 1, ids + {IdOf(steps[i], i)})
  {
    hide WellFormed, LateViolation, IdOf;
    var all := CompletedAll(steps);
    NextId(all, i, ids);
    if v.Some? {
      NotFineBehind(steps, i);
    }
  }

  lemma NotFineBehind(steps: seq<Step>, i: nat)
    requires i < |steps| && (Clash(CompletedAll(steps), i) || !WellFormed(steps[i]))
    ensures !StepsFine(steps, |steps|)
  {
    hide WellFormed;
    var all := CompletedAll(steps);
    if Clash(all, i) {
      var k :| 0 <= k < i && all[k].id == all[i].id;
      assert all[..|steps|][k].id == all[..|steps|][i].id;
    }
  }

  lemma FineIsAcceptable(steps: seq<Step>)
    ensures StepsFine(steps, |steps|) <==>
            DistinctIds(CompletedAll(steps)) && forall i :: 0 <= i < |steps| ==> WellFormed(steps[i])
  {
    assert CompletedAll(steps)[..|steps|] == CompletedAll(steps);
  }

  /** Whether the next id is new decides whether the ids stay distinct. */
  lemma NextId(all: seq<Step>, i: nat, ids: set<string>)
    requires i < |all| && IdsBefore(all, i, ids) && DistinctIds(all[..i])
    ensures all[i].id !in ids ==> DistinctIds(all[..i + 1]) && IdsBefore(all, i + 1, ids + {all[i].id})
    ensures all[i].id in ids <==> Clash(all, i)
  {
    if all[i].id !in ids {
      assert forall k :: 0 <= k < i ==> all[..i][k] == all[k] == all[..i + 1][k];
      forall id | id in ids + {all[i].id} ensures exists k :: 0 <= k < i + 1 && all[k].id == id {
        if id in ids {
          var k :| 0 <= k < i && all[k].id == id;
        }
      }
    }
  }

  /** A file that was accepted is accepted again, and stays as it is. */
  lemma ValidateIsIdempotent(name: string, steps: seq<Step>, inputs: seq<Input>)
    requires Acceptable(name, steps, inputs)
    ensures CompletedAll(CompletedAll(steps)) == CompletedAll(steps)
    ensures Acceptable(name, CompletedAll(steps), inputs)
  {
    assert CompletedAll(CompletedAll(steps)) == CompletedAll(steps);
  }

  /**
   A completed step stops a run on every failure unless it was given `skip`; a step that was given nothing aborts,
   and what it was given is kept.
   */
  lemma AbortsUnlessSkipped(step: Step, i: nat, r: Report)
    ensures Aborting(Completed(step, i), r) <==> !r.Success() && step.onFail != "skip"
    ensures Completed(step, i).onFail == if step.onFail != "" then step.onFail else "abort"
  {
    assert "abort" != "skip" && "" != "skip";
  }

  /** Steps left without an id never clash with one another. */
  lemma UnnamedStepsAreDistinct(steps: seq<Step>)
    requires forall i :: 0 <= i < |steps| ==> steps[i].id == ""
    ensures DistinctIds(CompletedAll(steps))
  {
    forall i, j | 0 <= i < j < |steps| ensures DefaultId(i) != DefaultId(j) {
      DefaultIdInjective(i, j);
    }
  }

  lemma DefaultIdInjective(i: nat, j: nat)
    requires i != j
    ensures DefaultId(i) != DefaultId(j)
  {
    assert DecimalValue(Decimal(i + 1)) != DecimalValue(Decimal(j + 1));
    assert DefaultId(i)[5..] == Decimal(i + 1) && DefaultId(j)[5..] == Decimal(j + 1);
  }

  /** The given ids differ from one another, and none is the default id of a step without one. */
  ghost predicate NoNameClash(steps: seq<Step>) {
    forall i, j :: 0 <= i < |steps| && 0 <= j < |steps| && i != j && steps[i].id != "" ==>
      steps[i].id != IdOf(steps[j], j)
  }

  /** So ids are distinct after the defaults exactly when no given id clashes. */
  lemma DistinctExactly(steps: seq<Step>)
    ensures DistinctIds(CompletedAll(steps)) <==> NoNameClash(steps)
  {
    var all := CompletedAll(steps);
    if NoNameClash(steps) {
      forall i, j | 0 <= i < j < |all| ensures all[i].id != all[j].id {
        if steps[i].id == "" && steps[j].id == "" {
          DefaultIdInjective(i, j);
        }
      }
    } else {
      var i, j :| 0 <= i < |steps| && 0 <= j < |steps| && i != j
                  && steps[i].id != "" && steps[i].id == IdOf(steps[j], j);
      assert all[i].id == all[j].id;
    }
  }

  /** What is asked of a step beside its id. */
  ghost predicate StepOk(step: Step) {
    && step.tool != ""
    && (step.parallel ==> step.each == "")
    && (step.each != "" ==> exists i :: PairAt(step.each, '{', i))
    && (step.tool == "transform" ==> "input" in step.args.Keys && step.args["input"] != "")
  }

  /** A file is accepted exactly when it has a name and steps, ids do not clash, and steps and inputs are in order. */
  lemma AcceptedExactly(name: string, steps: seq<Step>, inputs: seq<Input>)
    ensures Acceptable(name, steps, inputs) <==>
            && name != "" && steps != [] && NoNameClash(steps)
            && (forall i :: 0 <= i < |steps| ==> StepOk(steps[i]))
            && (forall i :: 0 <= i < |inputs| ==> inputs[i].name != "" && IsKind(inputs[i].kind))
  {
    hide DistinctIds, NoNameClash;
    DistinctExactly(steps);
    forall i | 0 <= i < |steps| ensures WellFormed(steps[i]) <==> StepOk(steps[i]) {
      OkIsWellFormed(steps[i]);
    }
    forall i | 0 <= i < |inputs| ensures InputOk(inputs[i]) <==> inputs[i].name != "" && IsKind(inputs[i].kind) {}
  }

  predicate IsKind(kind: string) { kind == "" || kind == "string" || kind == "int" || kind == "bool" }

  lemma OkIsWellFormed(step: Step)
    ensures WellFormed(step) <==> StepOk(step)
  {
    var p := FindPair(step.each, '{', 0);
    assert p != -1 ==> PairAt(step.each, '{', p);
  }

  /** They can clash with a step that was given such a name: the file is then refused. */
  lemma GivenNameCanClash(a: Step, b: Step)
    requires a.id == "step_2" && b.id == ""
    ensures !DistinctIds(CompletedAll([a, b]))
  {
    assert Decimal(2) == "2";
    assert CompletedAll([a, b])[0].id == CompletedAll([a, b])[1].id;
  }
}
