/**
 What a template renders to, told from the pieces it is written with: texts with references in double braces
 between them (template.go lines 35-72).
 */
module Interpolation {
  import opened Text
  import opened Json
  import opened Rescan
  import opened Template

  /** Texts and, in double braces between them, expressions. */
  function Written(texts: seq<string>, exprs: seq<string>): string
    requires |texts| == |exprs| + 1
  {
    if exprs == [] then texts[0] else texts[0] + ("{{" + exprs[0] + "}}" + Written(texts[1..], exprs[1..]))
  }

  predicate Braceless(s: string) { '{' !in s && '}' !in s }

  /** No piece holds a brace that could be taken for another one. */
  predicate Plain(texts: seq<string>, exprs: seq<string>) {
    && |texts| == |exprs| + 1
    && (forall i :: 0 <= i < |texts| ==> '{' !in texts[i])
    && (forall i :: 0 <= i < |exprs| ==> Braceless(exprs[i]))
  }

  /** The texts with the values in the places of their expressions, or the first error. */
  function Substituted(expand: Expander, texts: seq<string>, exprs: seq<string>): Result<string, Error>
    requires |texts| == |exprs| + 1
  {
    if exprs == [] then Ok(texts[0])
    else
      match expand(exprs[0])
      case Err(e) => Err(e)
      case Ok(v) => Behind(texts[0] + v, Substituted(expand, texts[1..], exprs[1..]))
  }

  /** The values hold no opening brace. */
  ghost predicate PlainValues(expand: Expander, exprs: seq<string>) {
    forall i :: 0 <= i < |exprs| && expand(exprs[i]).Ok? ==> '{' !in expand(exprs[i]).value
  }

  /** The first place to expand is the first expression. */
  lemma FirstPlace(text: string, expr: string, rest: string)
    requires '{' !in text && Braceless(expr)
    ensures var t := text + ("{{" + expr + "}}" + rest);
            && Find(t) == Site(|text|, |text| + 2 + |expr|)
            && Inner(t, Find(t)) == expr && t[..|text|] == text && t[|text| + 4 + |expr|..] == rest
  {
    var t := text + ("{{" + expr + "}}" + rest);
    var n, close := |text|, |text| + 2 + |expr|;
    assert PairAt(t, '{', n) && PairAt(t, '}', close);
    assert t[n + 2..close] == expr && t[..n] == text && t[close + 2..] == rest;
    forall j | 0 <= j < n ensures !PairAt(t, '{', j) {
      assert t[j] == text[j];
    }
    assert FindPair(t, '{', 0) == n;
    forall j | n <= j < close ensures !PairAt(t, '}', j) {
      if j >= n + 2 {
        assert t[j] == expr[j - (n + 2)];
      }
    }
    assert FindPair(t, '}', n) == close;
  }

  /** The single pass over what is written puts the values in the places of the expressions. */
  lemma {:induction false} PassSubstitutes(expand: Expander, texts: seq<string>, exprs: seq<string>)
    requires Plain(texts, exprs)
    ensures OnePass(expand, Written(texts, exprs)) == Substituted(expand, texts, exprs)
  {
    hide Find, Inner, Braceless;
    if exprs == [] {
      NoPlace(texts[0]);
    } else {
      PassFrom(expand, texts[0], exprs[0], Written(texts[1..], exprs[1..]));
      PassSubstitutes(expand, texts[1..], exprs[1..]);
    }
  }

  lemma PassFrom(expand: Expander, text: string, expr: string, rest: string)
    requires '{' !in text && Braceless(expr)
    ensures var r, v := OnePass(expand, text + ("{{" + expr + "}}" + rest)), expand(expr);
            r == if v.Ok? then Behind(text + v.value, OnePass(expand, rest)) else Err(v.error)
  {
    hide Find, Inner, Braceless;
    FirstPlace(text, expr, rest);
  }

  lemma NoPlace(text: string)
    requires '{' !in text
    ensures Find(text) == NoSite
  {}

  /** No pair forms behind a value without opening braces when what follows begins with none, or with its own pair. */
  lemma {:induction false} PlainIsClean(expand: Expander, texts: seq<string>, exprs: seq<string>)
    requires Plain(texts, exprs) && PlainValues(expand, exprs)
    ensures CleanPass(expand, Written(texts, exprs))
  {
    hide Find, Inner, Braceless, Settled;
    if exprs == [] {
      NoPlace(texts[0]);
    } else {
      var rest := Written(texts[1..], exprs[1..]);
      FirstPlace(texts[0], exprs[0], rest);
      if expand(exprs[0]).Ok? {
        PlainSettles(expand(exprs[0]).value, rest);
        forall i | 0 <= i < |exprs[1..]| && expand(exprs[1..][i]).Ok?
          ensures '{' !in expand(exprs[1..][i]).value
        {
          assert exprs[1..][i] == exprs[i + 1];
        }
        PlainIsClean(expand, texts[1..], exprs[1..]);
      }
    }
  }

  lemma PlainSettles(p: string, t: string)
    requires '{' !in p
    ensures Settled(p, t)
  {
    forall i | 0 <= i < |p| ensures !PairAt(p + t, '{', i) {
      assert (p + t)[i] == p[i];
    }
  }

  /**
   A template of texts and references renders to the texts with the printed values in the places of the
   references, or fails with the first one that does, when the values print without opening braces.
   */
  lemma RenderSubstitutes(show: Show, env: Env, texts: seq<string>, exprs: seq<string>)
    requires Plain(texts, exprs) && exprs != [] && !IsSingle(Written(texts, exprs))
    requires PlainValues(Expand(show, env), exprs)
    ensures Render(show, env, Written(texts, exprs)) ==
            match Substituted(Expand(show, env), texts, exprs)
            case Err(e) => Bad(e)
            case Ok(t) => Good(Str(t))
  {
    hide IsSingle, Substituted, OnePass, CleanPass, Braceless;
    FirstPlace(texts[0], exprs[0], Written(texts[1..], exprs[1..]));
    PlainIsClean(Expand(show, env), texts, exprs);
    PassSubstitutes(Expand(show, env), texts, exprs);
    RenderIsOnePass(show, env, Written(texts, exprs));
  }

  /** White space inside the braces does not matter. */
  lemma PaddedExpression(show: Show, env: Env, before: string, expr: string, after: string)
    requires AllSpace(before) && AllSpace(after) && Trimmed(expr) && expr != ""
    ensures var v := Resolve(expr, env);
            Expand(show, env)(before + expr + after) == if v.Ok? then Ok(show(v.value)) else Err(v.error)
  {
    hide Resolve, TrimSpace;
    TrimPadded(before, expr, after);
  }

  /** A single expression is closed behind its first pair of opening braces. */
  lemma SingleIsClosed(tmpl: string)
    requires IsSingle(tmpl)
    ensures FindPair(tmpl, '{', 0) != -1 && FindPair(tmpl, '}', FindPair(tmpl, '{', 0)) != -1
  {
    hide TrimSpace;
    var before, after := TrimCutsSpace(tmpl);
    var t, n := TrimSpace(tmpl), |before|;
    assert tmpl[n..n + |t|] == t;
    assert PairAt(tmpl, '{', n) && PairAt(tmpl, '}', n + |t| - 2);
  }

  /** A template whose first pair of opening braces is not closed fails. */
  lemma UnclosedFails(show: Show, env: Env, text: string, rest: string)
    requires '{' !in text && forall i :: !PairAt(rest, '}', i)
    ensures Render(show, env, text + "{{" + rest) == Bad(Unclosed)
  {
    var tmpl := text + "{{" + rest;
    OpenPlace(text, rest);
    if IsSingle(tmpl) {
      SingleIsClosed(tmpl);
    }
    assert TurnOf(Expand(show, env), tmpl) == Fail(Unclosed);
    LoopGives(Expand(show, env), tmpl, 1);
  }

  lemma OpenPlace(text: string, rest: string)
    requires '{' !in text && forall i :: !PairAt(rest, '}', i)
    ensures var tmpl := text + "{{" + rest;
            FindPair(tmpl, '{', 0) == |text| && FindPair(tmpl, '}', |text|) == -1
  {
    var tmpl, n := text + "{{" + rest, |text|;
    assert PairAt(tmpl, '{', n);
    forall j | 0 <= j < n ensures !PairAt(tmpl, '{', j) {
      assert tmpl[j] == text[j];
    }
    forall j | n <= j ensures !PairAt(tmpl, '}', j) {
      assert j >= n + 2 && PairAt(tmpl, '}', j) ==> PairAt(rest, '}', j - (n + 2));
    }
  }

  // ---------------------------------------------------------------- single expressions

  /** `s` is one pair of double braces around `body`, which holds no pair of opening ones. */
  predicate Wraps(s: string, body: string) {
    s == "{{" + body + "}}" && FindPair(body, '{', 0) == -1
  }

  lemma PairsInside(s: string, body: string)
    requires s == "{{" + body + "}}"
    ensures FindPair(s, '{', 0) == 0 && PairAt(s, '}', |s| - 2)
    ensures CountPairs(s, '{', 0) == 1 <==> FindPair(body, '{', 0) == -1
  {
    hide CountPairs;
    CountFromFirst(s);
    assert PairAt(s, '{', 0) && PairAt(s, '}', |s| - 2);
    assert forall j :: 0 <= j < |body| ==> s[j + 2] == body[j];
    var i, j := FindPair(s, '{', 2), FindPair(body, '{', 0);
    if i != -1 {
      assert PairAt(body, '{', i - 2);
    }
    if j != -1 {
      assert PairAt(s, '{', j + 2);
    }
  }

  lemma CountFromFirst(s: string)
    requires PairAt(s, '{', 0)
    ensures CountPairs(s, '{', 0) == 1 <==> FindPair(s, '{', 2) == -1
  {
    assert CountPairs(s, '{', 0) == 1 + CountPairs(s, '{', 2);
  }

  /**
   A template is a single expression exactly when, trimmed, it is one pair of double braces around a text without
   a pair of opening ones; the expression is that text, trimmed.
   */
  lemma SingleExactly(tmpl: string)
    ensures IsSingle(tmpl) <==> exists body :: Wraps(TrimSpace(tmpl), body)
    ensures forall body :: Wraps(TrimSpace(tmpl), body) ==> IsSingle(tmpl) && SingleExpr(tmpl) == TrimSpace(body)
  {
    hide TrimSpace;
    var s := TrimSpace(tmpl);
    if IsSingle(tmpl) {
      var body := s[2..|s| - 2];
      assert s == "{{" + body + "}}";
      PairsInside(s, body);
      assert Wraps(s, body);
    }
    forall body | Wraps(s, body) ensures IsSingle(tmpl) && SingleExpr(tmpl) == TrimSpace(body) {
      PairsInside(s, body);
      assert s[2..|s| - 2] == body;
    }
  }

  /** Such a template has the value of its expression, with its type; a text without double braces stands for itself. */
  lemma RenderSingle(show: Show, env: Env, tmpl: string, body: string)
    requires Wraps(TrimSpace(tmpl), body)
    ensures Render(show, env, tmpl) == match Resolve(TrimSpace(body), env) case Err(e) => Bad(e) case Ok(v) => Good(v)
  {
    hide Resolve, Wraps;
    SingleExactly(tmpl);
    SingleIsClosed(tmpl);
  }

  lemma RenderPlain(show: Show, env: Env, text: string)
    requires forall i :: !PairAt(text, '{', i)
    ensures Render(show, env, text) == Good(Str(text))
  {}
}
