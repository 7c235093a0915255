/**
 The interpolation loop of template.go lines 52-71: find the first `{{`, the first `}}` after it,
 replace what lies between, and rescan the whole text. What an expression expands to is a parameter.
 */
module Rescan {
  import opened Text

  /** Why a template cannot be rendered. */
  datatype Error =
    | Unclosed
    | InvalidExpr(expr: string)
    | UnknownInput(name: string)
    | NoStepOutput(id: string)
    | ItemOutsideEach
    | UnknownNamespace(name: string)
    | FieldNotFound(name: string)
    | NotNavigable(name: string)
    | NotAMap

  /** The text substituted for the (untrimmed) inside of a `{{...}}`, or the error that stops the loop. */
  type Expander = string -> Result<string, Error>

  /** What one turn of the loop does: finish, fail, or rewrite the text. */
  datatype Rewrite = Stop | Fail(error: Error) | Again(text: string)

  /** Where the first `{{...}}` of a text is. */
  datatype Site = NoSite | OpenSite | Site(start: nat, close: nat)

  function Find(text: string): (site: Site)
    ensures site.NoSite? <==> forall j :: !PairAt(text, '{', j)
    ensures !site.NoSite? ==> |text| > 0
    ensures site.Site? ==> site.start + 2 <= site.close && site.close + 2 <= |text|
  {
    var start := FindPair(text, '{', 0);
    if start == -1 then NoSite
    else
      var close := FindPair(text, '}', start);
      if close == -1 then OpenSite else Site(start, close)
  }

  function Inner(text: string, site: Site): string
    requires site.Site? && site.start + 2 <= site.close <= |text|
  {
    text[site.start + 2..site.close]
  }

  function TurnOf(expand: Expander, text: string): Rewrite {
    match Find(text)
    case NoSite => Stop
    case OpenSite => Fail(Unclosed)
    case Site(start, close) =>
      match expand(Inner(text, Find(text)))
      case Err(e) => Fail(e)
      case Ok(v) => Again(text[..start] + v + text[close + 2..])
  }

  /** The loop's result if it ends within `n` turns. */
  function Loop(expand: Expander, text: string, n: nat): Option<Result<string, Error>>
    decreases n
  {
    if n == 0 then None
    else match TurnOf(expand, text)
      case Stop => Some(Ok(text))
      case Fail(e) => Some(Err(e))
      case Again(t) => Loop(expand, t, n - 1)
  }

  /** `raw` is the inside of a `{{...}}` expanded in the first `n` turns. */
  predicate ExpandsWithin(expand: Expander, text: string, n: nat, raw: string)
    decreases n
  {
    n > 0 && Find(text).Site? &&
    (raw == Inner(text, Find(text)) ||
     (TurnOf(expand, text).Again? && ExpandsWithin(expand, TurnOf(expand, text).text, n - 1, raw)))
  }

  ghost predicate Halts(expand: Expander, text: string) {
    exists n: nat :: Loop(expand, text, n).Some?
  }

  /** The value of a loop that ends. */
  ghost function Meaning(expand: Expander, text: string): Result<string, Error>
    requires Halts(expand, text)
  {
    var n: nat :| Loop(expand, text, n).Some?;
    Loop(expand, text, n).value
  }

  /** Once the loop has ended, more turns change nothing. */
  lemma {:induction false} LoopStable(expand: Expander, text: string, n: nat, m: nat)
    requires n <= m && Loop(expand, text, n).Some?
    ensures Loop(expand, text, m) == Loop(expand, text, n)
    decreases n
  {
    hide TurnOf;
    var turn := TurnOf(expand, text);
    if turn.Again? {
      LoopStable(expand, turn.text, n - 1, m - 1);
    }
  }

  /** Any bound within which the loop ends gives its value. */
  lemma LoopGives(expand: Expander, text: string, n: nat)
    requires Loop(expand, text, n).Some?
    ensures Halts(expand, text) && Meaning(expand, text) == Loop(expand, text, n).value
  {
    var m: nat :| Loop(expand, text, m).Some? && Meaning(expand, text) == Loop(expand, text, m).value;
    if m <= n {
      LoopStable(expand, text, m, n);
    } else {
      LoopStable(expand, text, n, m);
    }
  }

  /** template.go lines 52-71, run on a text whose expansion ends. */
  method Interpolate(expand: Expander, tmpl: string) returns (r: Result<string, Error>)
    requires Halts(expand, tmpl)
    ensures r == Meaning(expand, tmpl)
  {
    ghost var bound: nat :| Loop(expand, tmpl, bound).Some?;
    LoopGives(expand, tmpl, bound);
    ghost var fuel := bound;
    var text := tmpl;
    while true
      invariant Loop(expand, text, fuel) == Loop(expand, tmpl, bound)
      decreases fuel
    {
      var start := FindPair(text, '{', 0);
      if start == -1 {
        return Ok(text);
      }
      var close := FindPair(text, '}', start);
      if close == -1 {
        return Err(Unclosed);
      }
      var value := expand(text[start + 2..close]);
      match value {
        case Err(e) => return Err(e);
        case Ok(v) => text := text[..start] + v + text[close + 2..];
      }
      fuel := fuel - 1;
    }
  }

  // ---------------------------------------------------------------- one left-to-right pass

  /** The reference meaning: replace each `{{...}}` once, left to right, never looking back. */
  function OnePass(expand: Expander, text: string): Result<string, Error>
    decreases |text|
  {
    match Find(text)
    case NoSite => Ok(text)
    case OpenSite => Err(Unclosed)
    case Site(start, close) =>
      match expand(Inner(text, Find(text)))
      case Err(e) => Err(e)
      case Ok(v) => Behind(text[..start] + v, OnePass(expand, text[close + 2..]))
  }

  /** The outcome with `p` written in front of its text. */
  function Behind(p: string, outcome: Result<string, Error>): Result<string, Error> {
    match outcome
    case Ok(t) => Ok(p + t)
    case Err(_) => outcome
  }

  /** No `{{` begins in `p` when `t` follows it. */
  predicate Settled(p: string, t: string) {
    forall i :: 0 <= i < |p| ==> !PairAt(p + t, '{', i)
  }

  /** No text substituted by the single pass brings in a `{{`, neither inside nor where the text goes on behind it. */
  predicate CleanPass(expand: Expander, text: string)
    decreases |text|
  {
    var site := Find(text);
    !site.Site? ||
    match expand(Inner(text, site))
    case Err(_) => true
    case Ok(v) =>
      var rest := text[site.close + 2..];
      Settled(v, rest) && CleanPass(expand, rest)
  }

  function Shift(site: Site, n: nat): Site {
    match site
    case Site(start, close) => Site(n + start, n + close)
    case _ => site
  }

  lemma PairBehind(p: string, t: string, c: char, j: int)
    requires j >= |p|
    ensures PairAt(p + t, c, j) <==> PairAt(t, c, j - |p|)
  {}

  /** Behind settled text the search for a pair of opening braces finds what it finds in the rest alone. */
  lemma OpeningBehind(p: string, t: string)
    requires Settled(p, t)
    ensures FindPair(p + t, '{', 0) == var i := FindPair(t, '{', 0); if i == -1 then -1 else |p| + i
  {
    var i, k := FindPair(t, '{', 0), FindPair(p + t, '{', 0);
    if i != -1 {
      PairBehind(p, t, '{', |p| + i);
    }
    if k != -1 {
      PairBehind(p, t, '{', k);
    }
  }

  lemma ClosingBehind(p: string, t: string, i: nat)
    requires i <= |t|
    ensures FindPair(p + t, '}', |p| + i) == var j := FindPair(t, '}', i); if j == -1 then -1 else |p| + j
  {
    var j, k := FindPair(t, '}', i), FindPair(p + t, '}', |p| + i);
    if j != -1 {
      PairBehind(p, t, '}', |p| + j);
    }
    if k != -1 {
      PairBehind(p, t, '}', k);
    }
  }

  lemma FindBehind(p: string, t: string)
    requires Settled(p, t)
    ensures Find(p + t) == Shift(Find(t), |p|)
  {
    hide Settled;
    OpeningBehind(p, t);
    var i := FindPair(t, '{', 0);
    if i != -1 {
      ClosingBehind(p, t, i);
    }
  }

  /** The search goes on in the rest exactly when no pair has formed before it, or finds one that is never closed. */
  lemma FindBehindExact(p: string, t: string)
    requires !Find(p + t).OpenSite?
    ensures Settled(p, t) <==> Find(p + t) == Shift(Find(t), |p|)
  {
    if Settled(p, t) {
      FindBehind(p, t);
    } else {
      var i :| 0 <= i < |p| && PairAt(p + t, '{', i);
      assert FindPair(p + t, '{', 0) <= i;
    }
  }

  /** What stands before the first site and settled text make settled text again, whatever the site was. */
  lemma SettledGrows(p: string, t: string, v: string, rest: string)
    requires Settled(p, t) && Find(t).Site? && Settled(v, rest)
    ensures Settled(p + (t[..Find(t).start] + v), rest)
  {
    var start := Find(t).start;
    var head, q := p + t[..start], p + (t[..start] + v);
    assert start == FindPair(t, '{', 0) && PairAt(t, '{', start);
    assert q + rest == head + (v + rest);
    forall i | 0 <= i < |q| ensures !PairAt(q + rest, '{', i) {
      if i >= |head| {
        PairBehind(head, v + rest, '{', i);
      } else {
        HeadHasNoPair(p, t, start, i);
        assert (q + rest)[i] == (p + t)[i];
        if i + 1 < |head| {
          assert (q + rest)[i + 1] == (p + t)[i + 1];
        }
      }
    }
  }

  /** Before the first pair of braces nothing is one, nor ends in the first of two. */
  lemma HeadHasNoPair(p: string, t: string, start: nat, i: nat)
    requires Settled(p, t) && start == FindPair(t, '{', 0) && i < |p| + start
    ensures !PairAt(p + t, '{', i) && (i + 1 == |p| + start ==> (p + t)[i] != '{')
  {
    if i >= |p| {
      PairBehind(p, t, '{', i);
    }
    PairBehind(p, t, '{', |p| + start);
  }

  /** The text cut at a site that lies behind `p`. */
  lemma CutBehind(p: string, t: string, start: nat, close: nat)
    requires start + 2 <= close && close + 2 <= |t|
    ensures (p + t)[|p| + start + 2..|p| + close] == t[start + 2..close]
    ensures (p + t)[..|p| + start] == p + t[..start] && (p + t)[|p| + close + 2..] == t[close + 2..]
  {}

  lemma Regroup(a: string, b: string, c: string, d: string)
    ensures a + (b + c + d) == a + (b + c) + d == (a + b) + c + d
  {}

  lemma InnerBehind(p: string, t: string)
    requires Settled(p, t)
    ensures Find(p + t) == Shift(Find(t), |p|)
    ensures Find(t).Site? ==> Inner(p + t, Find(p + t)) == Inner(t, Find(t))
  {
    hide Settled, Find;
    FindBehind(p, t);
    var site := Find(t);
    if site.Site? {
      SiteIsInside(t);
      CutBehind(p, t, site.start, site.close);
    }
  }

  /** One turn behind settled text does what it does on the rest. */
  lemma TurnBehind(expand: Expander, p: string, t: string)
    requires Settled(p, t)
    ensures TurnOf(expand, p + t) == match TurnOf(expand, t) case Again(u) => Again(p + u) case turn => turn
  {
    hide Settled, Find, Inner;
    InnerBehind(p, t);
    var site := Find(t);
    if site.Site? {
      SiteIsInside(t);
      var value := expand(Inner(t, site));
      if value.Ok? {
        SpliceBehind(p, t, site.start, site.close, value.value);
      }
    }
  }

  lemma SpliceBehind(p: string, t: string, start: nat, close: nat, v: string)
    requires start + 2 <= close && close + 2 <= |t|
    ensures (p + t)[..|p| + start] + v + (p + t)[|p| + close + 2..] == p + (t[..start] + v + t[close + 2..])
  {
    CutBehind(p, t, start, close);
    Regroup(p, t[..start], v, t[close + 2..]);
  }

  lemma SiteIsInside(t: string)
    requires Find(t).Site?
    ensures Find(t).start + 2 <= Find(t).close && Find(t).close + 2 <= |t|
  {}

  /** A turn leaves behind what stood before the site and its value; it may or may not be settled. */
  lemma TurnOn(expand: Expander, p: string, t: string) returns (q: string, v: string, rest: string)
    requires Settled(p, t) && TurnOf(expand, t).Again?
    ensures Find(t).Site? && rest == t[Find(t).close + 2..] && |rest| < |t|
    ensures Ok(v) == expand(Inner(t, Find(t))) && q == p + (t[..Find(t).start] + v)
    ensures TurnOf(expand, p + t) == Again(q + rest)
    ensures Behind(p, OnePass(expand, t)) == Behind(q, OnePass(expand, rest))
  {
    hide Settled, Find;
    var site := Find(t);
    SiteIsInside(t);
    v := expand(Inner(t, site)).value;
    var head := t[..site.start] + v;
    q, rest := p + head, t[site.close + 2..];
    TurnBehind(expand, p, t);
    Regroup(p, t[..site.start], v, rest);
    BehindBehind(p, head, OnePass(expand, rest));
  }

  /** A clean turn moves the scan on: what it leaves behind is settled, the rest is shorter and clean. */
  lemma CleanTurn(expand: Expander, p: string, t: string) returns (q: string, rest: string)
    requires Settled(p, t) && CleanPass(expand, t) && TurnOf(expand, t).Again?
    ensures Settled(q, rest) && CleanPass(expand, rest) && |rest| < |t|
    ensures TurnOf(expand, p + t) == Again(q + rest)
    ensures Behind(p, OnePass(expand, t)) == Behind(q, OnePass(expand, rest))
    ensures rest == t[Find(t).close + 2..]
  {
    hide Settled, Find;
    var v;
    q, v, rest := TurnOn(expand, p, t);
    SettledGrows(p, t, v, rest);
  }

  /**
   Behind settled text the rescanning loop and the single pass agree, errors included, and the
   loop needs at most one turn per character left.
   */
  lemma {:induction false} LoopIsOnePass(expand: Expander, p: string, t: string)
    requires Settled(p, t) && CleanPass(expand, t)
    ensures Loop(expand, p + t, |t| + 1) == Some(Behind(p, OnePass(expand, t)))
    decreases |t|
  {
    if TurnOf(expand, t).Again? {
      var q, rest := CleanTurn(expand, p, t);
      LoopIsOnePass(expand, q, rest);
      LoopStable(expand, q + rest, |rest| + 1, |t|);
    } else {
      TurnBehind(expand, p, t);
    }
  }

  lemma BehindBehind(p: string, q: string, outcome: Result<string, Error>)
    ensures Behind(p, Behind(q, outcome)) == Behind(p + q, outcome)
  {
    if outcome.Ok? {
      assert p + (q + outcome.value) == p + q + outcome.value;
    }
  }

  /**
   If no substituted text brings in a `{{`, the rescanning loop terminates and means exactly the
   single left-to-right pass, including which error is reported first. A lone brace does no harm.
   */
  lemma RescanIsOnePass(expand: Expander, tmpl: string)
    requires CleanPass(expand, tmpl)
    ensures Halts(expand, tmpl) && Meaning(expand, tmpl) == OnePass(expand, tmpl)
  {
    assert "" + tmpl == tmpl;
    LoopIsOnePass(expand, "", tmpl);
    BehindNothing(OnePass(expand, tmpl));
    LoopGives(expand, tmpl, |tmpl| + 1);
  }

  lemma BehindNothing(outcome: Result<string, Error>)
    ensures Behind("", outcome) == outcome
  {
    if outcome.Ok? {
      assert "" + outcome.value == outcome.value;
    }
  }

  function Braced(raw: string): string {
    ['{', '{'] + raw + ['}', '}']
  }

  /** A text that a turn reproduces is rescanned forever. */
  lemma FixedTextDiverges(expand: Expander, text: string)
    requires TurnOf(expand, text) == Again(text)
    ensures !Halts(expand, text)
  {
    forall n: nat ensures Loop(expand, text, n).None? {
      FixedTextLoops(expand, text, n);
    }
  }

  lemma {:induction false} FixedTextLoops(expand: Expander, text: string, n: nat)
    requires TurnOf(expand, text) == Again(text)
    ensures Loop(expand, text, n).None?
  {
    if n > 0 {
      FixedTextLoops(expand, text, n - 1);
    }
  }

  // ---------------------------------------------------------------- frame

  /** The loop depends on the expander only through the insides it expands. */
  lemma {:induction false} LoopFrame(f: Expander, g: Expander, text: string, n: nat)
    requires forall raw :: ExpandsWithin(f, text, n, raw) ==> f(raw) == g(raw)
    ensures Loop(f, text, n) == Loop(g, text, n)
    decreases n
  {
    if n > 0 && Find(text).Site? {
      var raw := Inner(text, Find(text));
      assert ExpandsWithin(f, text, n, raw);
      var turn := TurnOf(f, text);
      if turn.Again? {
        assert forall r :: ExpandsWithin(f, turn.text, n - 1, r) ==> ExpandsWithin(f, text, n, r);
        LoopFrame(f, g, turn.text, n - 1);
      }
    }
  }

  /** A whole run expands `raw` at some turn. */
  ghost predicate Expands(expand: Expander, text: string, raw: string) {
    exists n: nat :: ExpandsWithin(expand, text, n, raw)
  }

  lemma MeaningFrame(f: Expander, g: Expander, text: string)
    requires forall raw :: Expands(f, text, raw) ==> f(raw) == g(raw)
    ensures Halts(f, text) <==> Halts(g, text)
    ensures Halts(f, text) ==> Meaning(f, text) == Meaning(g, text)
  {
    forall n: nat ensures Loop(f, text, n) == Loop(g, text, n) {
      assert forall raw :: ExpandsWithin(f, text, n, raw) ==> Expands(f, text, raw);
      LoopFrame(f, g, text, n);
    }
    if Halts(f, text) {
      var n: nat :| Loop(f, text, n).Some?;
      LoopGives(f, text, n);
      LoopGives(g, text, n);
    }
  }

  /** `raw` is the inside of a `{{...}}` that the single pass meets, in the text itself. */
  predicate PassExpands(expand: Expander, text: string, raw: string)
    decreases |text|
  {
    var site := Find(text);
    site.Site? &&
    (raw == Inner(text, site) ||
     (expand(Inner(text, site)).Ok? && PassExpands(expand, text[site.close + 2..], raw)))
  }

  lemma {:induction false} CleanExpands(expand: Expander, p: string, t: string, n: nat, raw: string)
    requires Settled(p, t) && CleanPass(expand, t)
    requires ExpandsWithin(expand, p + t, n, raw)
    ensures PassExpands(expand, t, raw)
    decreases n
  {
    InnerBehind(p, t);
    if raw != Inner(t, Find(t)) {
      TurnBehind(expand, p, t);
      var q, rest := CleanTurn(expand, p, t);
      CleanExpands(expand, q, rest, n - 1, raw);
    }
  }

  /** On a clean text the whole run expands only what stands between braces in the text itself. */
  lemma CleanRunExpands(expand: Expander, tmpl: string, raw: string)
    requires CleanPass(expand, tmpl) && Expands(expand, tmpl, raw)
    ensures PassExpands(expand, tmpl, raw)
  {
    var n: nat :| ExpandsWithin(expand, tmpl, n, raw);
    assert "" + tmpl == tmpl;
    CleanExpands(expand, "", tmpl, n, raw);
  }
}
