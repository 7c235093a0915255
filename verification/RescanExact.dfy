/**
 When the rescanning loop of template.go (lines 52-71) means the single left-to-right pass: where the pass
 succeeds, exactly when no substituted text brings in a `{{`. What is asked of the expressions is that none
 resolves that begins with a brace.
 */
module RescanExact {
  import opened Text
  import opened Rescan

  ghost predicate OpensFail(expand: Expander) {
    forall raw :: expand(['{'] + raw).Err?
  }

  ghost predicate HasPair(s: string) { exists i :: PairAt(s, '{', i) }

  /** A text that the loop has finished holds no pair of opening braces. */
  lemma {:induction false} FinishedHasNoPair(expand: Expander, text: string, n: nat, r: string)
    requires Loop(expand, text, n) == Some(Ok(r))
    ensures !HasPair(r)
    decreases n
  {
    var turn := TurnOf(expand, text);
    if turn.Again? {
      FinishedHasNoPair(expand, turn.text, n - 1, r);
    }
  }

  lemma PairStays(a: string, v: string, w: string, i: int)
    requires PairAt(v + w, '{', i)
    ensures HasPair(a + v + w)
  {
    assert a + v + w == a + (v + w);
    assert PairAt(a + v + w, '{', |a| + i);
  }

  /** The single pass keeps a first character that opens nothing. */
  lemma PassKeepsFirst(expand: Expander, t: string)
    requires t != "" && !PairAt(t, '{', 0) && OnePass(expand, t).Ok?
    ensures OnePass(expand, t).value != "" && OnePass(expand, t).value[0] == t[0]
  {}

  // ---------------------------------------------------------------- the three ways to bring in a pair

  /** A pair inside the substituted text stays in the result of the pass. */
  lemma PairInside(expand: Expander, a: string, v: string, rest: string, i: int)
    requires PairAt(v, '{', i) && OnePass(expand, rest).Ok?
    ensures HasPair(a + v + OnePass(expand, rest).value)
  {
    var w := OnePass(expand, rest).value;
    assert PairAt(v + w, '{', i);
    PairStays(a, v, w, i);
  }

  /** So does one that a last brace forms with a first one that opens nothing. */
  lemma PairAcross(expand: Expander, a: string, v: string, rest: string)
    requires v != "" && PairAt(v + rest, '{', |v| - 1) && !PairAt(rest, '{', 0) && OnePass(expand, rest).Ok?
    ensures HasPair(a + v + OnePass(expand, rest).value)
  {
    var w := OnePass(expand, rest).value;
    PassKeepsFirst(expand, rest);
    assert PairAt(v + w, '{', |v| - 1);
    PairStays(a, v, w, |v| - 1);
  }

  /** With one brace more in front, a text that opens with a pair asks for an expression that begins with a brace. */
  lemma ThreeBracesFail(expand: Expander, rest: string)
    requires OpensFail(expand) && PairAt(rest, '{', 0) && OnePass(expand, rest).Ok?
    ensures TurnOf(expand, ['{'] + rest).Fail?
  {
    var u := ['{'] + rest;
    assert PairAt(u, '{', 0) && FindPair(rest, '{', 0) == 0;
    var close := FindPair(rest, '}', 0);
    assert close != -1 && close > 1;
    ClosingBehindBrace(rest);
    assert u[2..close + 1] == ['{'] + rest[2..close];
  }

  lemma ClosingBehindBrace(rest: string)
    ensures FindPair(['{'] + rest, '}', 0) ==
            var close := FindPair(rest, '}', 0); if close == -1 then -1 else close + 1
  {
    var u := ['{'] + rest;
    assert forall j :: PairAt(u, '}', j) <==> j >= 1 && PairAt(rest, '}', j - 1);
    var close, k := FindPair(rest, '}', 0), FindPair(u, '}', 0);
    if close != -1 {
      assert PairAt(u, '}', close + 1);
    }
  }

  /** So does the loop, when such a brace stands at the end of the substituted text. */
  lemma BraceBeforePairFails(expand: Expander, p: string, t: string, v: string, rest: string)
    requires OpensFail(expand) && Settled(p, t) && Find(t).Site? && OnePass(expand, rest).Ok?
    requires v != "" && v[|v| - 1] == '{' && PairAt(rest, '{', 0)
    requires forall i :: !PairAt(v, '{', i)
    ensures TurnOf(expand, p + (t[..Find(t).start] + v) + rest).Fail?
  {
    var v', tail := v[..|v| - 1], ['{'] + rest;
    LastBrace(v, rest);
    SettledGrows(p, t, v', tail);
    var q := p + (t[..Find(t).start] + v');
    TurnBehind(expand, q, tail);
    ThreeBracesFail(expand, rest);
    assert v == v' + ['{'];
    assert p + (t[..Find(t).start] + v) + rest == q + tail;
  }

  lemma LastBrace(v: string, rest: string)
    requires v != "" && v[|v| - 1] == '{' && forall i :: !PairAt(v, '{', i)
    ensures Settled(v[..|v| - 1], ['{'] + rest)
  {
    var v', tail := v[..|v| - 1], ['{'] + rest;
    assert v' + tail == v + rest;
    forall i | 0 <= i < |v'| ensures !PairAt(v' + tail, '{', i) {
      assert !PairAt(v, '{', i);
    }
  }

  // ---------------------------------------------------------------- the exact condition

  /** A substituted text that brings in a pair keeps the loop from the result of the pass. */
  lemma UnsettledSpoils(expand: Expander, p: string, t: string, n: nat)
    requires OpensFail(expand) && Settled(p, t) && TurnOf(expand, t).Again? && OnePass(expand, t).Ok?
    requires !Settled(expand(Inner(t, Find(t))).value, t[Find(t).close + 2..])
    ensures Loop(expand, p + t, n) != Some(Behind(p, OnePass(expand, t)))
  {
    hide Find;
    var q, v, rest := TurnOn(expand, p, t);
    var a := p + t[..Find(t).start];
    assert OnePass(expand, rest).Ok?;
    var w := OnePass(expand, rest).value;
    assert q == a + v && Behind(p, OnePass(expand, t)) == Ok(a + v + w);
    var i :| 0 <= i < |v| && PairAt(v + rest, '{', i);
    if j :| PairAt(v, '{', j) {
      PairInside(expand, a, v, rest, j);
    } else {
      assert i + 1 < |v| ==> PairAt(v, '{', i);
      if PairAt(rest, '{', 0) {
        BraceBeforePairFails(expand, p, t, v, rest);
      } else {
        PairAcross(expand, a, v, rest);
      }
    }
    if Loop(expand, p + t, n) == Some(Ok(a + v + w)) {
      FinishedHasNoPair(expand, p + t, n, a + v + w);
    }
  }

  lemma {:induction false} UncleanSpoils(expand: Expander, p: string, t: string, n: nat)
    requires OpensFail(expand) && Settled(p, t) && OnePass(expand, t).Ok? && !CleanPass(expand, t)
    ensures Loop(expand, p + t, n) != Some(Behind(p, OnePass(expand, t)))
    decreases |t|
  {
    hide Settled, Find;
    SiteIsInside(t);
    var v, rest := expand(Inner(t, Find(t))).value, t[Find(t).close + 2..];
    if Settled(v, rest) {
      var q, v', rest' := TurnOn(expand, p, t);
      SettledGrows(p, t, v, rest);
      if n > 0 {
        UncleanSpoils(expand, q, rest, n - 1);
      }
    } else {
      UnsettledSpoils(expand, p, t, n);
    }
  }

  /**
   Where the single pass succeeds, the loop ends and means it exactly when no substituted text brings in a
   `{{`, neither inside nor with what follows it.
   */
  lemma RescanIsOnePassExactly(expand: Expander, tmpl: string)
    requires OpensFail(expand) && OnePass(expand, tmpl).Ok?
    ensures (Halts(expand, tmpl) && Meaning(expand, tmpl) == OnePass(expand, tmpl)) <==> CleanPass(expand, tmpl)
  {
    if CleanPass(expand, tmpl) {
      RescanIsOnePass(expand, tmpl);
    } else if Halts(expand, tmpl) {
      var n: nat :| Loop(expand, tmpl, n).Some?;
      LoopGives(expand, tmpl, n);
      assert "" + tmpl == tmpl;
      UncleanSpoils(expand, "", tmpl, n);
      BehindNothing(OnePass(expand, tmpl));
    }
  }

  // ---------------------------------------------------------------- where the pass fails

  lemma BracedTurnOn(expand: Expander, raw: string, v: string, t: string)
    requires '}' !in raw && expand(raw) == Ok(v)
    ensures Find(Braced(raw) + t) == Site(0, |raw| + 2) && TurnOf(expand, Braced(raw) + t) == Again(v + t)
    ensures (Braced(raw) + t)[|raw| + 4..] == t && Inner(Braced(raw) + t, Site(0, |raw| + 2)) == raw
  {
    var u, close := Braced(raw) + t, |raw| + 2;
    assert PairAt(u, '{', 0) && PairAt(u, '}', close);
    forall j | 0 <= j < close ensures !PairAt(u, '}', j) {
      assert j >= 2 ==> u[j] == raw[j - 2];
    }
    assert u[2..close] == raw && u[close + 2..] == t;
    assert u[..0] + v + t == v + t;
  }

  lemma LoopAgain(expand: Expander, u: string, t: string, n: nat)
    requires TurnOf(expand, u) == Again(t)
    ensures Loop(expand, u, n + 1) == Loop(expand, t, n)
  {}

  lemma PassFails(expand: Expander, t: string)
    requires TurnOf(expand, t).Fail?
    ensures OnePass(expand, t) == Err(TurnOf(expand, t).error) && Loop(expand, t, 1) == Some(OnePass(expand, t))
  {}

  lemma PassOn(expand: Expander, raw: string, v: string, t: string)
    requires '}' !in raw && expand(raw) == Ok(v) && OnePass(expand, t).Err?
    ensures OnePass(expand, Braced(raw) + t) == OnePass(expand, t)
    ensures CleanPass(expand, Braced(raw) + t) ==> Settled(v, t)
  {
    hide Find;
    BracedTurnOn(expand, raw, v, t);
  }

  /**
   A pass that fails tells less: a pair that is brought in, and expands away, leaves the failure behind it as
   it is.
   */
  lemma FailingPassCanAgree(expand: Expander, a: string, b: string, t: string)
    requires '}' !in a && '}' !in b && expand(a) == Ok(Braced(b)) && expand(b) == Ok("")
    requires TurnOf(expand, t).Fail?
    ensures OnePass(expand, Braced(a) + t).Err? && !CleanPass(expand, Braced(a) + t)
    ensures Halts(expand, Braced(a) + t) && Meaning(expand, Braced(a) + t) == OnePass(expand, Braced(a) + t)
  {
    hide TurnOf, Loop, OnePass, CleanPass;
    var u := Braced(a) + t;
    PassFails(expand, t);
    PassOn(expand, a, Braced(b), t);
    assert !Settled(Braced(b), t) by {
      assert PairAt(Braced(b) + t, '{', 0);
    }
    BracedTurnOn(expand, a, Braced(b), t);
    BracedTurnOn(expand, b, "", t);
    assert "" + t == t;
    LoopAgain(expand, Braced(b) + t, t, 1);
    LoopAgain(expand, u, Braced(b) + t, 2);
    LoopGives(expand, u, 3);
  }
}
