/**
 What the references of a template give (template.go lines 75-156), told from the text that is written: a name,
 or a dotted path that is followed field by field from a step's output or the current item.
 */
module Reference {
  import opened Text
  import opened Json
  import opened Rescan
  import opened Template

  // ---------------------------------------------------------------- following a path

  /** `u` is the value of the field `name` of the object `v`. */
  predicate FieldOf(v: Value, name: string, u: Value) {
    v.Obj? && name in v.fields && v.fields[name] == u
  }

  /** The values met on the way from `v` along `path`, `v` included. */
  predicate Chain(v: Value, path: seq<string>, met: seq<Value>) {
    && |met| == |path| + 1 && met[0] == v
    && forall i :: 0 <= i < |path| ==> FieldOf(met[i], path[i], met[i + 1])
  }

  /** Why the field `name` cannot be taken of `v`. */
  predicate Blocked(v: Value, name: string, e: Error) {
    if v.Obj? then name !in v.fields && e == FieldNotFound(name)
    else if v.NilMap? then e == FieldNotFound(name)
    else e == NotNavigable(name)
  }

  /** The way along `path` ends at name `k`, with this error. */
  ghost predicate EndsAt(v: Value, path: seq<string>, k: nat, e: Error) {
    k < |path| && exists met :: Chain(v, path[..k], met) && Blocked(met[k], path[k], e)
  }

  ghost predicate LeadsTo(v: Value, path: seq<string>, u: Value) {
    exists met :: Chain(v, path, met) && met[|path|] == u
  }

  ghost predicate Ends(v: Value, path: seq<string>, e: Error) {
    exists k: nat :: EndsAt(v, path, k, e)
  }

  /** A path leads to the last value of its chain of fields, or fails at the first name that blocks it. */
  lemma {:induction false} WalkIsChain(v: Value, path: seq<string>)
    ensures match Walk(v, path)
            case Ok(u) => LeadsTo(v, path, u)
            case Err(e) => Ends(v, path, e)
    decreases |path|
  {
    if path == [] {
      assert Chain(v, path, [v]);
    } else if v.Obj? && path[0] in v.fields {
      var u, rest := v.fields[path[0]], path[1..];
      WalkIsChain(u, rest);
      var r := Walk(u, rest);
      if r.Ok? {
        var met :| Chain(u, rest, met) && met[|rest|] == r.value;
        ChainFrom(v, path, met);
      } else {
        var k: nat :| EndsAt(u, rest, k, r.error);
        EndsLater(v, path, k, r.error);
      }
    } else {
      var e := if v.Obj? || v.NilMap? then FieldNotFound(path[0]) else NotNavigable(path[0]);
      assert Chain(v, path[..0], [v]) && Blocked([v][0], path[0], e);
      assert EndsAt(v, path, 0, e);
    }
  }

  lemma EndsLater(v: Value, path: seq<string>, k: nat, e: Error)
    requires path != [] && v.Obj? && path[0] in v.fields && EndsAt(v.fields[path[0]], path[1..], k, e)
    ensures EndsAt(v, path, k + 1, e)
  {
    hide Blocked, FieldOf;
    var u, rest := v.fields[path[0]], path[1..];
    var met :| Chain(u, rest[..k], met) && Blocked(met[k], rest[k], e);
    assert path[..k + 1][1..] == rest[..k];
    ChainFrom(v, path[..k + 1], met);
  }

  lemma ChainFrom(v: Value, path: seq<string>, met: seq<Value>)
    requires path != [] && v.Obj? && path[0] in v.fields && Chain(v.fields[path[0]], path[1..], met)
    ensures Chain(v, path, [v] + met) && ([v] + met)[|path|] == met[|path| - 1]
  {
    var all := [v] + met;
    forall i | 0 <= i < |path| ensures FieldOf(all[i], path[i], all[i + 1]) {
      if i > 0 {
        assert FieldOf(met[i - 1], path[1..][i - 1], met[i]);
      }
    }
  }

  // ---------------------------------------------------------------- references

  /** What a path of field names gives from an output or an item: nil values are like a nil map, texts are not maps. */
  function Along(v: Value, names: seq<string>): Result<Value, Error>
    requires names != []
  {
    match v
    case Obj(_) => Walk(v, names)
    case NilMap => Err(FieldNotFound(names[0]))
    case Null => Err(FieldNotFound(names[0]))
    case NilList => Err(FieldNotFound(names[0]))
    case _ => Err(NotAMap)
  }

  lemma DrillIsAlong(v: Value, names: seq<string>)
    requires names != [] && DotFree(names)
    ensures Drill(v, JoinDots(names)) == Along(v, names)
  {
    SplitJoined(names);
  }

  lemma ResolveSpelled(r: Ref, env: Env)
    requires Spellable(r)
    ensures Resolve(Spell(r), env) == Lookup(r, env)
  {
    hide Lookup, ParseRef, Spell, Spellable;
    ParseSpelled(r);
  }

  /** The output of a step, by the id alone. */
  lemma StepOutput(id: string, env: Env)
    requires '.' !in id
    ensures Resolve(".steps." + id, env) ==
            if id in env.store then Ok(env.store[id]) else Err(NoStepOutput(id))
  {
    hide ParseRef, Drill;
    ResolveSpelled(StepRef(id, None), env);
    assert Spell(StepRef(id, None)) == ".steps." + id;
  }

  /** A field of a step's output, by a path of names joined by dots. */
  lemma StepField(id: string, names: seq<string>, env: Env)
    requires '.' !in id && names != [] && DotFree(names)
    ensures Resolve(".steps." + id + "." + JoinDots(names), env) ==
            if id in env.store then Along(env.store[id], names) else Err(NoStepOutput(id))
  {
    hide ParseRef, Drill, Along, JoinDots;
    var path := JoinDots(names);
    ResolveSpelled(StepRef(id, Some(path)), env);
    assert Spell(StepRef(id, Some(path))) == ".steps." + id + "." + path;
    if id in env.store {
      DrillIsAlong(env.store[id], names);
    }
  }

  /** A field of the current item. */
  lemma ItemField(names: seq<string>, env: Env)
    requires names != [] && DotFree(names)
    ensures Resolve(".item." + JoinDots(names), env) ==
            if env.item.Some? then Walk(Obj(env.item.value), names) else Err(ItemOutsideEach)
  {
    hide ParseRef, Drill, JoinDots, Walk;
    var path := JoinDots(names);
    ResolveSpelled(ItemRef(path), env);
    assert Spell(ItemRef(path)) == ".item." + path;
    if env.item.Some? {
      DrillIsAlong(Obj(env.item.value), names);
    }
  }

  /** The item itself, and an input. */
  lemma ItemAndInput(name: string, env: Env)
    requires '.' !in name
    ensures Resolve(".item", env) ==
            if env.item.Some? then Ok(Obj(env.item.value)) else Err(InvalidExpr("item"))
    ensures Resolve(".input." + name, env) ==
            if name in env.inputs then Ok(Str(env.inputs[name])) else Err(UnknownInput(name))
  {
    hide ParseRef, Drill;
    ResolveSpelled(WholeItem, env);
    assert Spell(WholeItem) == ".item";
    ResolveSpelled(InputRef(name), env);
    assert Spell(InputRef(name)) == ".input." + name;
  }

  /** Nothing else resolves: neither a word without a dot, nor another namespace. */
  lemma NothingElse(space: string, rest: string, env: Env)
    requires '.' !in space
    ensures space != "item" ==> Resolve("." + space, env) == Err(InvalidExpr(space))
    ensures space != "input" && space != "steps" && space != "item" ==>
              Resolve("." + (space + "." + rest), env) == Err(UnknownNamespace(space))
  {
    hide FindChar, Drill;
    if space != "item" {
      ResolveSpelled(Malformed(space), env);
    }
    ParseCuts(space, rest);
  }
}
