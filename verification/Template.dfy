/**
 The template language of skill steps: `{{.input.x}}`, `{{.steps.id.path}}`, `{{.item.path}}`.
 */
module Template {
  import opened Text
  import opened Json
  import opened Rescan
  import opened RescanExact

  /** What an expression can see: the skill's inputs, the step store, and the current `each` item. */
  datatype Env = Env(inputs: map<string, string>, store: map<string, Value>, item: Option<map<string, Value>>)

  /** fmt.Sprintf("%v", v). */
  type Show = Value -> string

  /** Outcome of a rendering; `Hang` when the rescanning loop never ends. */
  datatype Rendered = Hang | Bad(error: Error) | Good(value: Value)

  // ---------------------------------------------------------------- field paths

  /** Following a path of field names from a value. */
  function Walk(v: Value, path: seq<string>): Result<Value, Error>
    decreases |path|
  {
    if path == [] then Ok(v)
    else match v
      case Obj(fields) =>
        if path[0] in fields then Walk(fields[path[0]], path[1..]) else Err(FieldNotFound(path[0]))
      case NilMap => Err(FieldNotFound(path[0]))
      case _ => Err(NotNavigable(path[0]))
  }

  /** The map that drillField starts from: nil values pass through JSON as a nil map. */
  function DrillRoot(v: Value): Option<Value> {
    match v
    case Obj(_) => Some(v)
    case NilMap => Some(NilMap)
    case Null => Some(NilMap)
    case NilList => Some(NilMap)
    case _ => None
  }

  function Drill(v: Value, path: string): Result<Value, Error> {
    match DrillRoot(v)
    case None => Err(NotAMap)
    case Some(root) => Walk(root, SplitDots(path))
  }

  /** Following a longer path is following its front part and then the rest from there. */
  lemma {:induction false} WalkOn(v: Value, front: seq<string>, rest: seq<string>)
    ensures Walk(v, front + rest) == match Walk(v, front) case Ok(u) => Walk(u, rest) case Err(e) => Err(e)
    decreases |front|
  {
    if front == [] {
      assert front + rest == rest;
    } else {
      assert (front + rest)[1..] == front[1..] + rest;
      if v.Obj? && front[0] in v.fields {
        WalkOn(v.fields[front[0]], front[1..], rest);
      }
    }
  }

  /** template.go `drillField`. */
  method DrillField(data: Value, path: string) returns (r: Result<Value, Error>)
    ensures r == Drill(data, path)
  {
    var root := DrillRoot(data);
    if root.None? {
      return Err(NotAMap);
    }
    var segments := SplitDots(path);
    var current := root.value;
    for i := 0 to |segments|
      invariant Walk(root.value, segments) == Walk(current, segments[i..])
    {
      match current {
        case Obj(fields) =>
          if segments[i] !in fields {
            return Err(FieldNotFound(segments[i]));
          }
          current := fields[segments[i]];
        case NilMap =>
          return Err(FieldNotFound(segments[i]));
        case _ =>
          return Err(NotNavigable(segments[i]));
      }
    }
    return Ok(current);
  }

  // ---------------------------------------------------------------- expressions

  /** What an expression asks for once its text has been taken apart. */
  datatype Ref =
    | WholeItem
    | Malformed(text: string)
    | InputRef(name: string)
    | StepRef(id: string, path: Option<string>)
    | ItemRef(field: string)
    | Unknown(space: string)

  function RefIn(space: string, rest: string): Ref {
    var cut := FindChar(rest, '.');
    if space == "input" then InputRef(rest[..cut])
    else if space == "steps" then StepRef(rest[..cut], if cut == |rest| then None else Some(rest[cut + 1..]))
    else if space == "item" then ItemRef(rest)
    else Unknown(space)
  }

  /** The cuts of resolveExprWithItem: an optional leading dot, then at most three dotted parts. */
  function ParseRef(expr: string): Ref {
    var e := if expr != "" && expr[0] == '.' then expr[1..] else expr;
    var dot := FindChar(e, '.');
    if dot == |e| then
      if e == "item" then WholeItem else Malformed(e)
    else
      RefIn(e[..dot], e[dot + 1..])
  }

  /** What can stand in a reference: names end at a dot, and only a step's path and an item's field may hold one. */
  predicate Spellable(r: Ref) {
    match r
    case WholeItem => true
    case Malformed(text) => '.' !in text && text != "item"
    case InputRef(name) => '.' !in name
    case StepRef(id, _) => '.' !in id
    case ItemRef(_) => true
    case Unknown(space) => '.' !in space && space != "input" && space != "steps" && space != "item"
  }

  /** The namespace of a reference, and what follows its dot. */
  function Spelling(r: Ref): (string, Option<string>) {
    match r
    case WholeItem => ("item", None)
    case Malformed(text) => (text, None)
    case InputRef(name) => ("input", Some(name))
    case StepRef(id, path) => ("steps", Some(if path.Some? then id + "." + path.value else id))
    case ItemRef(field) => ("item", Some(field))
    case Unknown(space) => (space, Some(""))
  }

  /** A reference as one writes it. */
  function Spell(r: Ref): string {
    var (space, rest) := Spelling(r);
    "." + if rest.Some? then space + "." + rest.value else space
  }

  lemma ParseCuts(space: string, rest: string)
    requires '.' !in space
    ensures ParseRef("." + (space + "." + rest)) == RefIn(space, rest)
  {
    var e := space + "." + rest;
    FirstDot(space, rest);
    assert ("." + e)[1..] == e;
  }

  lemma SpelledPath(r: Ref)
    requires Spellable(r) && Spelling(r).1.Some?
    ensures '.' !in Spelling(r).0 && RefIn(Spelling(r).0, Spelling(r).1.value) == r
  {
    if r.InputRef? {
      FirstDot(r.name, "");
    } else if r.StepRef? {
      FirstDot(r.id, if r.path.Some? then r.path.value else "");
    }
  }

  /** Reading a reference gives back the one that was written. */
  lemma ParseSpelled(r: Ref)
    requires Spellable(r)
    ensures ParseRef(Spell(r)) == r
  {
    hide RefIn, Spellable;
    var (space, rest) := Spelling(r);
    if rest.Some? {
      SpelledPath(r);
      ParseCuts(space, rest.value);
    } else {
      SpelledWord(r);
    }
  }

  lemma SpelledWord(r: Ref)
    requires Spellable(r) && Spelling(r).1.None?
    ensures ParseRef("." + Spelling(r).0) == r
  {
    var e := Spelling(r).0;
    assert ("." + e)[1..] == e;
    FirstDot(e, "");
  }

  lemma BeforeDot(s: string)
    ensures '.' !in s[..FindChar(s, '.')]
  {
    var dot := FindChar(s, '.');
    assert forall j :: 0 <= j < dot ==> s[..dot][j] == s[j];
  }

  lemma ReadInIsSpellable(space: string, rest: string)
    requires '.' !in space
    ensures Spellable(RefIn(space, rest))
  {
    hide FindChar;
    BeforeDot(rest);
  }

  /** Whatever is read can be written. */
  lemma ParsedIsSpellable(expr: string)
    ensures Spellable(ParseRef(expr))
  {
    hide FindChar, RefIn;
    var e := if expr != "" && expr[0] == '.' then expr[1..] else expr;
    var dot := FindChar(e, '.');
    BeforeDot(e);
    if dot < |e| {
      ReadInIsSpellable(e[..dot], e[dot + 1..]);
    } else {
      assert e[..dot] == e;
    }
  }

  function Lookup(r: Ref, env: Env): Result<Value, Error> {
    match r
    case WholeItem => if env.item.Some? then Ok(Obj(env.item.value)) else Err(InvalidExpr("item"))
    case Malformed(text) => Err(InvalidExpr(text))
    case InputRef(name) => if name in env.inputs then Ok(Str(env.inputs[name])) else Err(UnknownInput(name))
    case StepRef(id, path) =>
      if id !in env.store then Err(NoStepOutput(id))
      else if path.None? then Ok(env.store[id])
      else Drill(env.store[id], path.value)
    case ItemRef(field) => if env.item.None? then Err(ItemOutsideEach) else Drill(Obj(env.item.value), field)
    case Unknown(space) => Err(UnknownNamespace(space))
  }

  /** template.go `resolveExprWithItem`. */
  function Resolve(expr: string, env: Env): Result<Value, Error> {
    Lookup(ParseRef(expr), env)
  }

  /** The expression looks up the store key `key`. */
  predicate Reads(expr: string, key: string) {
    ParseRef(expr).StepRef? && ParseRef(expr).id == key
  }

  /** Two stores hold the same thing, or both nothing, under `key`. */
  predicate SameAt(a: map<string, Value>, b: map<string, Value>, key: string) {
    if key in a then key in b && a[key] == b[key] else key !in b
  }

  lemma ResolveFrame(expr: string, env: Env, store: map<string, Value>)
    requires forall k :: Reads(expr, k) ==> SameAt(env.store, store, k)
    ensures Resolve(expr, env.(store := store)) == Resolve(expr, env)
  {
    var r := ParseRef(expr);
    if r.StepRef? {
      assert Reads(expr, r.id);
    }
  }

  /** The text that replaces `{{raw}}`. */
  function Expand(show: Show, env: Env): Expander {
    raw => match Resolve(TrimSpace(raw), env)
           case Err(e) => Err(e)
           case Ok(v) => Ok(show(v))
  }

  // ---------------------------------------------------------------- whole values

  /** The template is one expression and nothing else, so its value keeps its type. */
  predicate IsSingle(tmpl: string) {
    var t := TrimSpace(tmpl);
    PairAt(t, '{', 0) && PairAt(t, '}', |t| - 2) && CountPairs(t, '{', 0) == 1
  }

  function SingleExpr(tmpl: string): string
    requires IsSingle(tmpl)
  {
    var t := TrimSpace(tmpl);
    TrimSpace(t[2..|t| - 2])
  }

  /** template.go `renderValueWithItem`. */
  ghost function Render(show: Show, env: Env, tmpl: string): Rendered {
    if FindPair(tmpl, '{', 0) == -1 then Good(Str(tmpl))
    else if IsSingle(tmpl) then
      match Resolve(SingleExpr(tmpl), env)
      case Err(e) => Bad(e)
      case Ok(v) => Good(v)
    else if Halts(Expand(show, env), tmpl) then
      match Meaning(Expand(show, env), tmpl)
      case Err(e) => Bad(e)
      case Ok(t) => Good(Str(t))
    else Hang
  }

  method RenderValueWithItem(show: Show, env: Env, tmpl: string) returns (r: Result<Value, Error>)
    requires !Render(show, env, tmpl).Hang?
    ensures Render(show, env, tmpl) == match r case Ok(v) => Good(v) case Err(e) => Bad(e)
  {
    if FindPair(tmpl, '{', 0) == -1 {
      return Ok(Str(tmpl));
    }
    if IsSingle(tmpl) {
      return Resolve(SingleExpr(tmpl), env);
    }
    var text := Interpolate(Expand(show, env), tmpl);
    match text {
      case Err(e) => r := Err(e);
      case Ok(t) => r := Ok(Str(t));
    }
  }

  /**
   A mixed template whose substituted values bring in no `{{` always renders, and to the
   single left-to-right pass over it.
   */
  lemma RenderIsOnePass(show: Show, env: Env, tmpl: string)
    requires FindPair(tmpl, '{', 0) != -1 && !IsSingle(tmpl)
    requires CleanPass(Expand(show, env), tmpl)
    ensures Render(show, env, tmpl) == match OnePass(Expand(show, env), tmpl)
                                       case Err(e) => Bad(e)
                                       case Ok(t) => Good(Str(t))
  {
    RescanIsOnePass(Expand(show, env), tmpl);
  }

  lemma {:induction false} TrimKeepsFirst(s: string)
    requires s != "" && !IsSpace(s[0])
    ensures TrimRight(s) != "" && TrimRight(s)[0] == s[0]
  {
    if IsSpace(s[|s| - 1]) {
      TrimKeepsFirst(s[..|s| - 1]);
    }
  }

  /** An expression that begins with a brace names nothing. */
  lemma BraceResolvesToNothing(e: string, env: Env)
    requires e != "" && e[0] == '{'
    ensures Resolve(e, env).Err?
  {
    var dot := FindChar(e, '.');
    assert dot > 0;
    if dot < |e| {
      assert e[..dot][0] == '{';
    }
  }

  lemma EngineOpensFail(show: Show, env: Env)
    ensures OpensFail(Expand(show, env))
  {
    hide Resolve;
    forall raw ensures Expand(show, env)(['{'] + raw).Err? {
      var s := ['{'] + raw;
      TrimKeepsFirst(s);
      assert TrimSpace(s) == TrimRight(s);
      BraceResolvesToNothing(TrimSpace(s), env);
    }
  }

  /** And where the pass succeeds, only then. */
  lemma RenderIsOnePassExactly(show: Show, env: Env, tmpl: string)
    requires FindPair(tmpl, '{', 0) != -1 && !IsSingle(tmpl) && OnePass(Expand(show, env), tmpl).Ok?
    ensures Render(show, env, tmpl) == Good(Str(OnePass(Expand(show, env), tmpl).value)) <==>
            CleanPass(Expand(show, env), tmpl)
  {
    EngineOpensFail(show, env);
    RescanIsOnePassExactly(Expand(show, env), tmpl);
  }

  /**
   The hypothesis is needed: an expression whose value prints as the very `{{...}}` that asks for it
   makes every turn reproduce its own text, so rendering never ends.
   */
  lemma SelfNamingHangs(show: Show, env: Env, c: char, raw: string)
    requires !IsSpace(c) && c != '{' && '}' !in raw
    requires Expand(show, env)(raw) == Ok(Braced(raw))
    ensures Render(show, env, [c] + Braced(raw)).Hang?
  {
    var t := [c] + Braced(raw);
    BracedTurn(Expand(show, env), c, raw);
    FixedTextDiverges(Expand(show, env), t);
    assert Trimmed(t);
    assert PairAt(t, '{', 1);
  }

  lemma BracedTurn(expand: Expander, c: char, raw: string)
    requires c != '{' && '}' !in raw && expand(raw) == Ok(Braced(raw))
    ensures TurnOf(expand, [c] + Braced(raw)) == Again([c] + Braced(raw))
  {
    var t := [c] + Braced(raw);
    var close := 3 + |raw|;
    assert PairAt(t, '{', 1) && !PairAt(t, '{', 0) && PairAt(t, '}', close);
    forall j | 1 <= j < close ensures !PairAt(t, '}', j) {
      assert 3 <= j ==> t[j] == raw[j - 3];
    }
    assert t[3..close] == raw;
    assert t[..1] + Braced(raw) + t[close + 2..] == t;
  }

  /** Such an expression exists: an input that holds its own reference. */
  lemma SelfNamingInput(show: Show, name: string)
    requires '.' !in name && '}' !in name && name != "" && !IsSpace(name[|name| - 1])
    requires forall s :: show(Str(s)) == s
    ensures var raw := "input" + ['.'] + name;
            Render(show, Env(map[name := Braced(raw)], map[], None), ['a'] + Braced(raw)).Hang?
  {
    hide ParseRef, RefIn, Render, Walk;
    var raw := "input" + ['.'] + name;
    var env := Env(map[name := Braced(raw)], map[], None);
    ParseInput(raw, name);
    assert raw[0] == 'i' && raw[|raw| - 1] == name[|name| - 1];
    assert Trimmed(raw);
    assert Resolve(TrimSpace(raw), env) == Ok(Str(Braced(raw)));
    assert show(Str(Braced(raw))) == Braced(raw);
    SelfNamingHangs(show, env, 'a', raw);
  }

  lemma ParseInput(e: string, name: string)
    requires e == "input" + ['.'] + name && '.' !in name
    ensures ParseRef(e) == InputRef(name)
  {
    assert e[0] == 'i' && e[5] == '.';
    assert forall j :: 0 <= j < 5 ==> e[j] == "input"[j];
    assert FindChar(e, '.') == 5;
    assert e[..5] == "input";
    assert e[6..] == name;
    assert FindChar(name, '.') == |name|;
    assert name[..|name|] == name;
  }

  // ---------------------------------------------------------------- what a rendering looks up

  /** Rendering `tmpl` looks up the store key `key`. */
  ghost predicate Uses(show: Show, env: Env, tmpl: string, key: string) {
    if FindPair(tmpl, '{', 0) == -1 then false
    else if IsSingle(tmpl) then Reads(SingleExpr(tmpl), key)
    else exists raw :: Expands(Expand(show, env), tmpl, raw) && Reads(TrimSpace(raw), key)
  }

  /** Rendering depends on the store only through the keys it looks up. */
  lemma RenderFrame(show: Show, env: Env, store: map<string, Value>, tmpl: string)
    requires forall k :: Uses(show, env, tmpl, k) ==> SameAt(env.store, store, k)
    ensures Render(show, env.(store := store), tmpl) == Render(show, env, tmpl)
  {
    if FindPair(tmpl, '{', 0) == -1 {
    } else if IsSingle(tmpl) {
      ResolveFrame(SingleExpr(tmpl), env, store);
    } else {
      var f, g := Expand(show, env), Expand(show, env.(store := store));
      forall raw | Expands(f, tmpl, raw) ensures f(raw) == g(raw) {
        forall k | Reads(TrimSpace(raw), k) ensures SameAt(env.store, store, k) {
          assert Uses(show, env, tmpl, k);
        }
        ResolveFrame(TrimSpace(raw), env, store);
      }
      MeaningFrame(f, g, tmpl);
    }
  }

  /** The text of `tmpl` itself names the store key `key` in one of its `{{...}}`. */
  ghost predicate Names(show: Show, env: Env, tmpl: string, key: string) {
    if FindPair(tmpl, '{', 0) == -1 then false
    else if IsSingle(tmpl) then Reads(SingleExpr(tmpl), key)
    else exists raw :: PassExpands(Expand(show, env), tmpl, raw) && Reads(TrimSpace(raw), key)
  }

  /**
   When a template is a single expression, or no substituted value brings in a `{{`, only keys named in the
   template's own text are used.
   */
  lemma CleanUsesAreNamed(show: Show, env: Env, tmpl: string, key: string)
    requires IsSingle(tmpl) || CleanPass(Expand(show, env), tmpl)
    requires Uses(show, env, tmpl, key)
    ensures Names(show, env, tmpl, key)
  {
    if !IsSingle(tmpl) {
      var raw :| Expands(Expand(show, env), tmpl, raw) && Reads(TrimSpace(raw), key);
      CleanRunExpands(Expand(show, env), tmpl, raw);
    }
  }

  // ---------------------------------------------------------------- step arguments

  datatype ArgError = ArgError(arg: string, error: Error)

  datatype ArgsOutcome = ArgsHang | ArgsBad | ArgsGood(args: map<string, Value>)

  /**
   Rendering every argument. Go visits the arguments in an arbitrary order and stops at the first
   error, so which failing argument is named is left open, and one hanging argument may hang all.
   */
  ghost function RenderAll(show: Show, env: Env, raw: map<string, string>): ArgsOutcome {
    if exists k :: k in raw && Render(show, env, raw[k]).Hang? then ArgsHang
    else if exists k :: k in raw && Render(show, env, raw[k]).Bad? then ArgsBad
    else ArgsGood(map k | k in raw :: Render(show, env, raw[k]).value)
  }

  /** template.go `renderArgs` and engine.go `renderArgsWithItem`. */
  method RenderArgs(show: Show, env: Env, raw: map<string, string>) returns (r: Result<map<string, Value>, ArgError>)
    requires !RenderAll(show, env, raw).ArgsHang?
    ensures r.Ok? ==> RenderAll(show, env, raw) == ArgsGood(r.value)
    ensures r.Err? ==> RenderAll(show, env, raw).ArgsBad? && r.error.arg in raw &&
                       Render(show, env, raw[r.error.arg]) == Bad(r.error.error)
  {
    var out: map<string, Value> := map[];
    var left := raw.Keys;
    while left != {}
      invariant left <= raw.Keys && out.Keys == raw.Keys - left
      invariant forall k :: k in out ==> Render(show, env, raw[k]) == Good(out[k])
    {
      var k :| k in left;
      var value := RenderValueWithItem(show, env, raw[k]);
      match value {
        case Err(e) => return Err(ArgError(k, e));
        case Ok(v) => out := out[k := v];
      }
      left := left - {k};
    }
    assert out == map k | k in raw :: Render(show, env, raw[k]).value;
    return Ok(out);
  }

  /** Rendering some argument looks up the store key `key`. */
  ghost predicate ArgsUse(show: Show, env: Env, raw: map<string, string>, key: string) {
    exists k :: k in raw && Uses(show, env, raw[k], key)
  }

  lemma RenderAllFrame(show: Show, env: Env, store: map<string, Value>, raw: map<string, string>)
    requires forall k :: ArgsUse(show, env, raw, k) ==> SameAt(env.store, store, k)
    ensures RenderAll(show, env.(store := store), raw) == RenderAll(show, env, raw)
  {
    var env' := env.(store := store);
    forall k | k in raw ensures Render(show, env', raw[k]) == Render(show, env, raw[k]) {
      forall u | Uses(show, env, raw[k], u) ensures SameAt(env.store, store, u) {
        assert ArgsUse(show, env, raw, u);
      }
      RenderFrame(show, env, store, raw[k]);
    }
  }
}
