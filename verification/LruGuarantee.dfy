/**
 What a user of the cache can rely on over a whole run: an entry goes only when it was invalidated, when
 it expired, or after at least as many distinct other keys were touched since as the cache has room for.
 */
module LruGuarantee {
  import opened Text
  import opened Lru

  /**
   What has happened to one key so far: its last Set that was not invalidated since, and the other keys
   touched (set, or found by a lookup) since it was last touched itself.
   */
  datatype Past<V> = Past(last: Option<Entry<V>>, since: set<Key>)

  function Remember<V>(p: Past<V>, s: seq<Entry<V>>, op: Op<V>, k: Key): Past<V> {
    match op
    case Get(key, now) =>
      if !Hit(s, key, now) then p
      else if key == k then p.(since := {})
      else p.(since := p.since + {key})
    case Set(e) => if e.key == k then Past(Some(e), {}) else p.(since := p.since + {e.key})
    case Invalidate(key) => if key == k then Past(None, {}) else p
    case InvalidatePrefix(prefix) => if prefix <= k.text then Past(None, {}) else p
  }

  /** The contents after a run that starts empty. */
  function Run<V>(ops: seq<Op<V>>, cap: nat): seq<Entry<V>>
    requires cap > 0
    decreases |ops|
  {
    if ops == [] then [] else Apply(Run(ops[..|ops| - 1], cap), ops[|ops| - 1], cap)
  }

  function History<V>(ops: seq<Op<V>>, cap: nat, k: Key): Past<V>
    requires cap > 0
    decreases |ops|
  {
    if ops == [] then Past(None, {})
    else
      var before := ops[..|ops| - 1];
      Remember(History(before, cap, k), Run(before, cap), ops[|ops| - 1], k)
  }

  /** The time of the last lookup, for a run whose clock never goes back. */
  function Clock<V>(ops: seq<Op<V>>, start: int): int
    decreases |ops|
  {
    if ops == [] then start
    else
      var op := ops[|ops| - 1];
      if op.Get? then op.now else Clock(ops[..|ops| - 1], start)
  }

  ghost predicate Monotone<V>(ops: seq<Op<V>>, start: int)
    decreases |ops|
  {
    ops == [] ||
    (var before, op := ops[..|ops| - 1], ops[|ops| - 1];
     Monotone(before, start) && (op.Get? ==> Clock(before, start) <= op.now))
  }

  // ---------------------------------------------------------------- the invariant

  /** The keys in front of position `i`. */
  function Ahead<V>(s: seq<Entry<V>>, i: nat): set<Key>
    requires i <= |s|
  {
    if i == 0 then {} else Ahead(s, i - 1) + {s[i - 1].key}
  }

  lemma {:induction false} AheadKey<V>(s: seq<Entry<V>>, i: nat, key: Key) returns (j: nat)
    requires i <= |s| && key in Ahead(s, i)
    ensures j < i && s[j].key == key
  {
    if s[i - 1].key == key {
      j := i - 1;
    } else {
      j := AheadKey(s, i - 1, key);
    }
  }

  lemma {:induction false} AheadSize<V>(s: seq<Entry<V>>, i: nat)
    requires Distinct(s) && i <= |s|
    ensures |Ahead(s, i)| == i
  {
    if i > 0 {
      AheadSize(s, i - 1);
      NextIsNotAhead(s, i - 1);
    }
  }

  lemma NextIsNotAhead<V>(s: seq<Entry<V>>, i: nat)
    requires Distinct(s) && i < |s|
    ensures s[i].key !in Ahead(s, i)
  {
    hide Ahead;
    if s[i].key in Ahead(s, i) {
      var j := AheadKey(s, i, s[i].key);
      assert false;
    }
  }

  lemma {:induction false} SubsetSize(a: set<Key>, b: set<Key>)
    requires a <= b
    ensures |a| <= |b|
  {
    if a != {} {
      var x :| x in a;
      SubsetSize(a - {x}, b - {x});
    }
  }

  /** The keys in front of `k` have all been touched since `k` was. */
  ghost predicate Covered<V>(s: seq<Entry<V>>, p: Past<V>, i: nat) {
    i <= |s| && forall j :: 0 <= j < i ==> s[j].key in p.since
  }

  /** How the list, the history of `k` and the clock fit together. */
  ghost predicate Inv<V>(s: seq<Entry<V>>, p: Past<V>, k: Key, cap: nat, clock: int) {
    && Distinct(s) && |s| <= cap && k !in p.since
    && var i := Index(s, k);
       if i < |s| then p.last == Some(s[i]) && Covered(s, p, i)
       else p.last.None? || |p.since| >= cap || p.last.value.expiresAt < clock
  }

  /** More than `i` keys have been touched if all those in front of position `i` were, and one more. */
  lemma CoveredSize<V>(s: seq<Entry<V>>, p: Past<V>, i: nat, key: Key)
    requires Distinct(s) && Covered(s, p, i) && key in p.since
    requires forall j :: 0 <= j < |s| ==> s[j].key != key
    ensures |p.since| >= i + 1
  {
    hide Ahead;
    var ahead := Ahead(s, i);
    AheadSize(s, i);
    forall k | k in ahead ensures k in p.since && k != key {
      var j := AheadKey(s, i, k);
    }
    SubsetSize(ahead + {key}, p.since);
  }

  /** What is left of `s` has the same entry for `k`, if any, and leaves it covered. */
  ghost predicate StillCovered<V>(s: seq<Entry<V>>, r: seq<Entry<V>>, p: Past<V>, k: Key) {
    && (Index(s, k) == |s| <==> Index(r, k) == |r|)
    && (Index(s, k) < |s| ==> r[Index(r, k)] == s[Index(s, k)])
    && (Index(s, k) < |s| && Covered(s, p, Index(s, k)) ==> Covered(r, p, Index(r, k)))
  }

  lemma NothingCovered<V>(s: seq<Entry<V>>, p: Past<V>)
    ensures Covered(s, p, 0)
  {}

  /** Taking out another entry leaves `k` covered. */
  lemma WithoutOther<V>(s: seq<Entry<V>>, p: Past<V>, k: Key, i: nat)
    requires Distinct(s) && i < |s| && s[i].key != k
    ensures StillCovered(s, Without(s, i), p, k)
  {
    WithoutKeeps(s, i);
    var r, m := Without(s, i), Index(s, k);
    if m < |s| {
      var n := if m < i then m else m - 1;
      assert r[n] == s[m];
      IndexAt(r, k, n);
    } else {
      assert forall j :: 0 <= j < |r| ==> r[j].key != k;
    }
  }

  /** Putting another, touched entry in front leaves `k` covered. */
  lemma ConsOther<V>(e: Entry<V>, r: seq<Entry<V>>, p: Past<V>, k: Key)
    requires Distinct([e] + r) && e.key != k && e.key in p.since
    ensures var s := [e] + r;
            && Index(s, k) == Index(r, k) + 1
            && (Index(r, k) < |r| && Covered(r, p, Index(r, k)) ==> Covered(s, p, Index(s, k)))
  {
    ConsCovered(e, r, p, k);
  }

  lemma CoveredMore<V>(s: seq<Entry<V>>, p: Past<V>, i: nat, key: Key)
    requires Covered(s, p, i)
    ensures Covered(s, p.(since := p.since + {key}), i)
  {}

  lemma GetInv<V>(s: seq<Entry<V>>, p: Past<V>, k: Key, cap: nat, clock: int, key: Key, now: int)
    requires cap > 0 && Inv(s, p, k, cap, clock) && clock <= now
    ensures Inv(AfterGet(s, key, now), Remember(p, s, Op<V>.Get(key, now), k), k, cap, now)
  {
    GetKeeps(s, key, now);
    var i := Index(s, key);
    if i < |s| && key == k {
      WithoutKeeps(s, i);
    } else if i < |s| {
      WithoutOther(s, p, k, i);
      if Hit(s, key, now) {
        var p' := p.(since := p.since + {key});
        SubsetSize(p.since, p'.since);
        if Index(s, k) < |s| {
          CoveredMore(Without(s, i), p, Index(Without(s, i), k), key);
        }
        ToFrontKeeps(s, i, s[i]);
        ConsOther(s[i], Without(s, i), p', k);
      }
    }
  }

  /** The entries that a Set of `key` puts its entry in front of. */
  function Room<V>(s: seq<Entry<V>>, key: Key, cap: nat): seq<Entry<V>>
    requires cap > 0
  {
    var i := Index(s, key);
    if i < |s| then Without(s, i) else if |s| >= cap then s[..|s| - 1] else s
  }

  /** Making room for another key leaves `k` covered, or pushes it out behind `cap` touched keys. */
  lemma MakeRoom<V>(s: seq<Entry<V>>, p: Past<V>, k: Key, cap: nat, key: Key)
    requires cap > 0 && Distinct(s) && |s| <= cap && key != k && key in p.since
    requires Index(s, k) < |s| ==> Covered(s, p, Index(s, k))
    ensures var r := Room(s, key, cap);
            && (Index(s, k) == |s| ==> Index(r, k) == |r|)
            && (Index(s, k) < |s| ==>
                  || (Index(r, k) < |r| && r[Index(r, k)] == s[Index(s, k)] && Covered(r, p, Index(r, k)))
                  || (Index(r, k) == |r| && |p.since| >= cap))
  {
    var i, r := Index(s, key), Room(s, key, cap);
    if i < |s| {
      WithoutOther(s, p, k, i);
    } else if |s| >= cap && Index(s, k) < |s| {
      if Index(s, k) == |s| - 1 {
        CoveredSize(s, p, |s| - 1, key);
      } else {
        IndexAt(r, k, Index(s, k));
      }
    }
  }

  lemma SetIsInFront<V>(s: seq<Entry<V>>, e: Entry<V>, cap: nat)
    requires cap > 0
    ensures AfterSet(s, e, cap) == [e] + Room(s, e.key, cap)
  {}

  lemma SetInv<V>(s: seq<Entry<V>>, p: Past<V>, k: Key, cap: nat, clock: int, e: Entry<V>)
    requires cap > 0 && Inv(s, p, k, cap, clock)
    ensures Inv(AfterSet(s, e, cap), Remember(p, s, Op<V>.Set(e), k), k, cap, clock)
  {
    hide Covered, Distinct, AfterSet, Room;
    SetKeeps(s, e, cap);
    SetIsInFront(s, e, cap);
    if e.key == k {
      NothingCovered(AfterSet(s, e, cap), Past(Some(e), {}));
    } else {
      var p', r := p.(since := p.since + {e.key}), Room(s, e.key, cap);
      SubsetSize(p.since, p'.since);
      if Index(s, k) < |s| {
        CoveredMore(s, p, Index(s, k), e.key);
      }
      MakeRoom(s, p', k, cap, e.key);
      ConsOther(e, r, p', k);
    }
  }

  lemma InvalidateInv<V>(s: seq<Entry<V>>, p: Past<V>, k: Key, cap: nat, clock: int, key: Key)
    requires cap > 0 && Inv(s, p, k, cap, clock)
    ensures Inv(AfterInvalidate(s, key), Remember(p, s, Op<V>.Invalidate(key), k), k, cap, clock)
  {
    var i := Index(s, key);
    if i < |s| {
      WithoutKeeps(s, i);
      if key != k {
        WithoutOther(s, p, k, i);
      }
    }
  }

  /** Dropping a prefix keeps the other entries, and their order, so `k` stays covered. */
  lemma {:induction false} PrefixOther<V>(s: seq<Entry<V>>, p: Past<V>, k: Key, prefix: string)
    requires Distinct(s) && !(prefix <= k.text)
    ensures StillCovered(s, AfterInvalidatePrefix(s, prefix), p, k)
  {
    hide Distinct, StillCovered;
    if s == [] || s[0].key == k {
      FrontCovered(s, AfterInvalidatePrefix(s, prefix), p, k);
    } else {
      TailDistinct(s);
      PrefixOther(s[1..], p, k, prefix);
      if prefix <= s[0].key.text {
        TailIsCovered(s, AfterInvalidatePrefix(s[1..], prefix), p, k);
      } else {
        FirstStays(s, AfterInvalidatePrefix(s[1..], prefix), p, k);
      }
    }
  }

  lemma FrontCovered<V>(s: seq<Entry<V>>, r: seq<Entry<V>>, p: Past<V>, k: Key)
    requires if s == [] then r == [] else s[0].key == k && r != [] && r[0] == s[0]
    ensures StillCovered(s, r, p, k)
  {}

  lemma TailIsCovered<V>(s: seq<Entry<V>>, r: seq<Entry<V>>, p: Past<V>, k: Key)
    requires s != [] && s[0].key != k && StillCovered(s[1..], r, p, k)
    ensures StillCovered(s, r, p, k)
  {
    hide Covered;
    TailCovered(s, p, k);
  }

  lemma FirstStays<V>(s: seq<Entry<V>>, r: seq<Entry<V>>, p: Past<V>, k: Key)
    requires s != [] && s[0].key != k && StillCovered(s[1..], r, p, k)
    ensures StillCovered(s, [s[0]] + r, p, k)
  {
    hide Covered;
    TailCovered(s, p, k);
    ConsCovered(s[0], r, p, k);
  }

  lemma TailDistinct<V>(s: seq<Entry<V>>)
    requires s != [] && Distinct(s)
    ensures Distinct(s[1..])
  {
    assert forall i :: 0 <= i < |s| - 1 ==> s[1..][i] == s[i + 1];
  }

  lemma TailCovered<V>(s: seq<Entry<V>>, p: Past<V>, k: Key)
    requires s != [] && s[0].key != k
    ensures Index(s, k) == Index(s[1..], k) + 1
    ensures Covered(s, p, Index(s, k)) ==> s[0].key in p.since && Covered(s[1..], p, Index(s[1..], k))
  {
    assert forall j :: 0 <= j < |s| - 1 ==> s[1..][j] == s[j + 1];
  }

  lemma ConsCovered<V>(e: Entry<V>, r: seq<Entry<V>>, p: Past<V>, k: Key)
    requires e.key != k
    ensures Index([e] + r, k) == Index(r, k) + 1
    ensures e.key in p.since && Covered(r, p, Index(r, k)) ==> Covered([e] + r, p, Index([e] + r, k))
  {
    assert ([e] + r)[1..] == r;
  }

  lemma PrefixInv<V>(s: seq<Entry<V>>, p: Past<V>, k: Key, cap: nat, clock: int, prefix: string)
    requires cap > 0 && Inv(s, p, k, cap, clock)
    ensures Inv(AfterInvalidatePrefix(s, prefix), Remember(p, s, Op<V>.InvalidatePrefix(prefix), k), k, cap, clock)
  {
    PrefixKeeps(s, prefix);
    if prefix <= k.text {
      var r := AfterInvalidatePrefix(s, prefix);
      forall i | 0 <= i < |r| ensures r[i].key != k {
        var n := PrefixSurvivor(s, prefix, i);
      }
    } else {
      PrefixOther(s, p, k, prefix);
    }
  }

  /** Every run keeps the list, the history of any key and the clock together. */
  lemma {:induction false} RunInv<V>(ops: seq<Op<V>>, cap: nat, k: Key, start: int)
    requires cap > 0 && Monotone(ops, start)
    ensures Inv(Run(ops, cap), History(ops, cap, k), k, cap, Clock(ops, start))
    decreases |ops|
  {
    if ops != [] {
      var before, op := ops[..|ops| - 1], ops[|ops| - 1];
      RunInv(before, cap, k, start);
      var s, p, clock := Run(before, cap), History(before, cap, k), Clock(before, start);
      match op
      case Get(key, now) => GetInv(s, p, k, cap, clock, key, now);
      case Set(e) => SetInv(s, p, k, cap, clock, e);
      case Invalidate(key) => InvalidateInv(s, p, k, cap, clock, key);
      case InvalidatePrefix(prefix) => PrefixInv(s, p, k, cap, clock, prefix);
    }
  }

  // ---------------------------------------------------------------- the guarantees

  /**
   After any run, a lookup finds a key whose last set value has not been invalidated and not expired, unless
   at least `cap` distinct other keys were touched since the key was; what it finds is that value.
   */
  lemma LookupGuarantee<V>(ops: seq<Op<V>>, cap: nat, k: Key, now: int, start: int)
    requires cap > 0 && Monotone(ops, start) && Clock(ops, start) <= now
    ensures var p := History(ops, cap, k);
            && (p.last.Some? && now <= p.last.value.expiresAt && |p.since| < cap ==>
                  Lookup(Run(ops, cap), k, now) == Some(p.last.value.value))
            && (Lookup(Run(ops, cap), k, now).Some? ==>
                  p.last.Some? && now <= p.last.value.expiresAt &&
                  Lookup(Run(ops, cap), k, now) == Some(p.last.value.value))
  {
    RunInv(ops, cap, k, start);
  }

  /** A Set that pushes out `k` is at least the `cap`-th distinct other key touched since `k` was. */
  lemma EvictionGuarantee<V>(ops: seq<Op<V>>, cap: nat, k: Key, e: Entry<V>, start: int)
    requires cap > 0 && Monotone(ops, start)
    ensures var s, s' := Run(ops, cap), AfterSet(Run(ops, cap), e, cap);
            Index(s, k) < |s| && Index(s', k) == |s'| ==> |History(ops, cap, k).since + {e.key}| >= cap
  {
    var s, p := Run(ops, cap), History(ops, cap, k);
    RunInv(ops, cap, k, start);
    SetKeeps(s, e, cap);
    if Index(s, k) < |s| && e.key != k {
      var p' := p.(since := p.since + {e.key});
      CoveredMore(s, p, Index(s, k), e.key);
      MakeRoom(s, p', k, cap, e.key);
      ConsOther(e, Room(s, e.key, cap), p', k);
    }
  }
}
