/**
 GetOrCreateService of internal/api/client.go (lines 156-176): the double-checked table of service objects.
 The mutex is released while a factory runs, so a call is three steps: check, build, commit.
 */
module ServiceTable {
  import opened Sums
  import opened Text

  datatype Key = Key(name: string)

  /** A value of Go's `any` type; a missing map entry reads as nil. */
  datatype Service = Nil | Made(id: int)

  type Table = map<Key, Service>

  function Lookup(table: Table, key: Key): Service {
    if key in table then table[key] else Nil
  }

  /** What the second critical section leaves in the table. */
  function Committed(table: Table, key: Key, created: Service): Table {
    if Lookup(table, key) != Nil then table else table[key := created]
  }

  /** The table as the client object holds it; one method for each critical section. */
  class Client {
    var services: Table

    constructor ()
      ensures services == map[]
    {
      services := map[];
    }

    method Check(key: Key) returns (cached: Service)
      ensures cached == Lookup(services, key)
    {
      cached := if key in services then services[key] else Nil;
    }

    method Commit(key: Key, created: Service) returns (got: Service)
      modifies this
      ensures services == Committed(old(services), key, created)
      ensures got == Lookup(services, key)
    {
      var cached := Check(key);
      if cached != Nil {
        return cached;
      }
      services := services[key := created];
      got := created;
    }

    /** A call that no other call overlaps; `factory` is what the factory would return, None for an error. */
    method GetOrCreateService(key: Key, factory: Option<Service>) returns (got: Option<Service>)
      modifies this
      ensures Lookup(old(services), key) != Nil ==>
                got == Some(Lookup(old(services), key)) && services == old(services)
      ensures Lookup(old(services), key) == Nil ==>
                && got == factory
                && services == if factory.Some? then old(services)[key := factory.value] else old(services)
    {
      var cached := Check(key);
      if cached != Nil {
        return Some(cached);
      }
      if factory.None? {
        return None;
      }
      var created := Commit(key, factory.value);
      got := Some(created);
    }
  }

  // ---------------------------------------------------------------- overlapping calls

  /** One call: the key it asks for and what its factory returns, should it run. */
  datatype Call = Call(key: Key, factory: Option<Service>)

  datatype Phase = Start | Building | Committing | Done(got: Service) | Failed

  datatype State = State(table: Table, phases: seq<Phase>)

  function Init(calls: seq<Call>): State {
    State(map[], seq(|calls|, _ => Start))
  }

  predicate AtPhase(calls: seq<Call>, s: State, i: nat, p: Phase) {
    |s.phases| == |calls| && i < |s.phases| && s.phases[i] == p
  }

  predicate Check(calls: seq<Call>, s: State, s': State, i: nat) {
    && AtPhase(calls, s, i, Start)
    && var cached := Lookup(s.table, calls[i].key);
       s' == s.(phases := s.phases[i := if cached != Nil then Done(cached) else Building])
  }

  predicate Build(calls: seq<Call>, s: State, s': State, i: nat) {
    && AtPhase(calls, s, i, Building)
    && s' == s.(phases := s.phases[i := if calls[i].factory.Some? then Committing else Failed])
  }

  predicate Commit(calls: seq<Call>, s: State, s': State, i: nat) {
    && AtPhase(calls, s, i, Committing) && calls[i].factory.Some?
    && var table := Committed(s.table, calls[i].key, calls[i].factory.value);
       s' == State(table, s.phases[i := Done(Lookup(table, calls[i].key))])
  }

  ghost predicate Step(calls: seq<Call>, s: State, s': State, i: nat) {
    Check(calls, s, s', i) || Build(calls, s, s', i) || Commit(calls, s, s', i)
  }

  ghost predicate Next(calls: seq<Call>, s: State, s': State) {
    exists i: nat :: Step(calls, s, s', i)
  }

  ghost predicate IsRun(calls: seq<Call>, states: seq<State>) {
    && states != [] && states[0] == Init(calls)
    && forall k :: 0 <= k < |states| - 1 ==> Next(calls, states[k], states[k + 1])
  }

  // ---------------------------------------------------------------- an entry is written once

  /** A set entry never changes, whatever the factories return and however the calls interleave. */
  lemma {:induction false} EntryIsWrittenOnce(calls: seq<Call>, states: seq<State>, j: nat, k: nat, key: Key)
    requires IsRun(calls, states) && j <= k < |states| && Lookup(states[j].table, key) != Nil
    ensures Lookup(states[k].table, key) == Lookup(states[j].table, key)
  {
    if j < k {
      EntryIsWrittenOnce(calls, states, j, k - 1, key);
      assert Next(calls, states[k - 1], states[k - 1 + 1]);
    }
  }

  /** A call that starts when the entry is set never runs its factory and returns that entry. */
  lemma {:induction false} LaterCallsReuse(calls: seq<Call>, states: seq<State>, j: nat, k: nat, i: nat)
    requires IsRun(calls, states) && j <= k < |states| && AtPhase(calls, states[j], i, Start)
    requires Lookup(states[j].table, calls[i].key) != Nil
    ensures var entry := Lookup(states[j].table, calls[i].key);
            AtPhase(calls, states[k], i, Start) || AtPhase(calls, states[k], i, Done(entry))
  {
    if j < k {
      LaterCallsReuse(calls, states, j, k - 1, i);
      EntryIsWrittenOnce(calls, states, j, k - 1, calls[i].key);
      assert Next(calls, states[k - 1], states[k - 1 + 1]);
    }
  }

  // ---------------------------------------------------------------- what the calls return

  /** Call `i` made the entry of its key. */
  predicate Maker(calls: seq<Call>, table: Table, key: Key, i: nat) {
    i < |calls| && calls[i].key == key && calls[i].factory == Some(Lookup(table, key))
  }

  ghost predicate Sourced(calls: seq<Call>, table: Table, key: Key) {
    exists i: nat :: Maker(calls, table, key, i)
  }

  /** A call returns the entry of its key, or else the nil its own factory made. */
  predicate PhaseOk(call: Call, table: Table, p: Phase) {
    match p
    case Done(got) => got == Lookup(table, call.key) || (got == Nil && call.factory == Some(Nil))
    case Failed => call.factory == None
    case Committing => call.factory.Some?
    case _ => true
  }

  ghost predicate Inv(calls: seq<Call>, s: State) {
    && |s.phases| == |calls|
    && (forall i :: 0 <= i < |calls| ==> PhaseOk(calls[i], s.table, s.phases[i]))
    && (forall key :: Lookup(s.table, key) != Nil ==> Sourced(calls, s.table, key))
    && (forall i :: 0 <= i < |calls| && s.phases[i] == Done(Nil) ==> calls[i].factory == Some(Nil))
  }

  lemma StepKeepsInv(calls: seq<Call>, s: State, s': State, i: nat)
    requires Inv(calls, s) && Step(calls, s, s', i)
    ensures Inv(calls, s')
  {
    forall key | Lookup(s'.table, key) != Nil ensures Sourced(calls, s'.table, key) {
      if Lookup(s.table, key) != Nil {
        var m: nat :| Maker(calls, s.table, key, m);
        assert Maker(calls, s'.table, key, m);
      } else {
        assert Maker(calls, s'.table, key, i);
      }
    }
    forall j | 0 <= j < |calls| ensures PhaseOk(calls[j], s'.table, s'.phases[j]) {
      assert PhaseOk(calls[j], s.table, s.phases[j]);
    }
  }

  lemma {:induction false} RunInv(calls: seq<Call>, states: seq<State>, k: nat)
    requires IsRun(calls, states) && k < |states|
    ensures Inv(calls, states[k])
  {
    if k > 0 {
      RunInv(calls, states, k - 1);
      var s, s' := states[k - 1], states[k - 1 + 1];
      assert Next(calls, s, s');
      var i: nat :| Step(calls, s, s', i);
      StepKeepsInv(calls, s, s', i);
    }
  }

  /** Call `i` asks for `key` and has returned `got`. */
  predicate Got(calls: seq<Call>, s: State, key: Key, i: nat, got: Service) {
    AtPhase(calls, s, i, Done(got)) && calls[i].key == key
  }

  /** All calls for the key that have succeeded got the same object. */
  ghost predicate Agree(calls: seq<Call>, s: State, key: Key) {
    forall i: nat, j: nat, a, b :: Got(calls, s, key, i, a) && Got(calls, s, key, j, b) ==> a == b
  }

  ghost predicate AlwaysAgree(calls: seq<Call>, key: Key) {
    forall states: seq<State>, k: nat ::
      IsRun(calls, states) && k < |states| ==> Agree(calls, states[k], key)
  }

  predicate Makes(calls: seq<Call>, key: Key, i: nat, made: bool) {
    i < |calls| && calls[i].key == key && calls[i].factory.Some? && (calls[i].factory.value != Nil) == made
  }

  /** For this key, one factory returns nil without an error and another one an object. */
  ghost predicate Mixed(calls: seq<Call>, key: Key) {
    (exists i: nat :: Makes(calls, key, i, false)) && (exists j: nat :: Makes(calls, key, j, true))
  }

  lemma UnmixedAgree(calls: seq<Call>, s: State, key: Key)
    requires Inv(calls, s) && !Mixed(calls, key)
    ensures Agree(calls, s, key)
  {
    forall i: nat, j: nat, a, b | Got(calls, s, key, i, a) && Got(calls, s, key, j, b) && a != b
      ensures false
    {
      assert PhaseOk(calls[i], s.table, s.phases[i]) && PhaseOk(calls[j], s.table, s.phases[j]);
      assert Makes(calls, key, if a == Nil then i else j, false);
      assert Sourced(calls, s.table, key);
      var m: nat :| Maker(calls, s.table, key, m);
      assert Makes(calls, key, m, true);
    }
  }

  /** The one call after the other, each from its check to its commit. */
  lemma MixedDisagree(calls: seq<Call>, key: Key, i: nat, j: nat) returns (states: seq<State>)
    requires Makes(calls, key, i, false) && Makes(calls, key, j, true)
    ensures IsRun(calls, states) && !Agree(calls, states[|states| - 1], key)
  {
    var s0 := Init(calls);
    var s1 := s0.(phases := s0.phases[i := Building]);
    var s2 := s1.(phases := s1.phases[i := Committing]);
    var s3 := State(map[key := Nil], s2.phases[i := Done(Nil)]);
    var s4 := s3.(phases := s3.phases[j := Building]);
    var s5 := s4.(phases := s4.phases[j := Committing]);
    var made := calls[j].factory.value;
    var s6 := State(map[key := Nil][key := made], s5.phases[j := Done(made)]);
    states := [s0, s1, s2, s3, s4, s5, s6];
    assert Step(calls, s0, s1, i) && Step(calls, s1, s2, i) && Step(calls, s2, s3, i);
    assert Step(calls, s3, s4, j) && Step(calls, s4, s5, j) && Step(calls, s5, s6, j);
    assert Got(calls, s6, key, i, Nil) && Got(calls, s6, key, j, made);
  }

  /**
   All successful calls for a key agree, in every interleaving, exactly when its factories do not mix nil
   and objects; in particular when no factory returns nil without an error.
   */
  lemma AgreementIffNotMixed(calls: seq<Call>, key: Key)
    ensures AlwaysAgree(calls, key) <==> !Mixed(calls, key)
  {
    if Mixed(calls, key) {
      var i: nat :| Makes(calls, key, i, false);
      var j: nat :| Makes(calls, key, j, true);
      var states := MixedDisagree(calls, key, i, j);
      var k: nat := |states| - 1;
      assert !Agree(calls, states[k], key);
    } else {
      forall states: seq<State>, k: nat | IsRun(calls, states) && k < |states|
        ensures Agree(calls, states[k], key)
      {
        RunInv(calls, states, k);
        UnmixedAgree(calls, states[k], key);
      }
    }
  }

  /** With object-making factories, what a call returns is the entry, and some call for that key made it. */
  lemma SuccessIsTheEntry(calls: seq<Call>, states: seq<State>, k: nat, i: nat, got: Service)
    requires IsRun(calls, states) && k < |states| && AtPhase(calls, states[k], i, Done(got))
    requires forall c :: c in calls ==> c.factory != Some(Nil)
    ensures got != Nil && got == Lookup(states[k].table, calls[i].key)
    ensures Sourced(calls, states[k].table, calls[i].key)
  {
    RunInv(calls, states, k);
    assert calls[i] in calls && PhaseOk(calls[i], states[k].table, states[k].phases[i]);
  }

  // ---------------------------------------------------------------- every call returns

  function Rank(p: Phase): nat {
    match p
    case Start => 3
    case Building => 2
    case Committing => 1
    case Done(_) => 0
    case Failed => 0
  }

  lemma {:induction false} RunsAreShort(calls: seq<Call>, states: seq<State>, k: nat)
    requires IsRun(calls, states) && k < |states|
    ensures Sum(Rank, states[k].phases) + k <= 3 * |calls|
  {
    hide Sum;
    if k == 0 {
      SumConstant(Rank, Init(calls).phases, 3);
    } else {
      RunsAreShort(calls, states, k - 1);
      var s, s' := states[k - 1], states[k - 1 + 1];
      assert Next(calls, s, s');
      var i: nat :| Step(calls, s, s', i);
      SumUpdate(Rank, s.phases, i, s'.phases[i]);
    }
  }

  /** A call that has neither succeeded nor failed can take its next step, whatever the others do. */
  lemma CallCanMove(calls: seq<Call>, s: State, i: nat) returns (s': State)
    requires Inv(calls, s) && i < |calls| && !s.phases[i].Done? && !s.phases[i].Failed?
    ensures Step(calls, s, s', i)
  {
    var cached := Lookup(s.table, calls[i].key);
    if s.phases[i].Start? {
      s' := s.(phases := s.phases[i := if cached != Nil then Done(cached) else Building]);
    } else if s.phases[i].Building? {
      s' := s.(phases := s.phases[i := if calls[i].factory.Some? then Committing else Failed]);
    } else {
      assert PhaseOk(calls[i], s.table, s.phases[i]);
      var table := Committed(s.table, calls[i].key, calls[i].factory.value);
      s' := State(table, s.phases[i := Done(Lookup(table, calls[i].key))]);
    }
  }
}
