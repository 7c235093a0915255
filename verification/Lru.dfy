/**
 The cache of internal/api/cache.go as a plain list: entries with a key, a value and an expiry, the most
 recently used first. Class Cache refines these functions; the guarantees over whole runs are proved here.
 */
module Lru {
  import opened Text

  datatype Key = Key(text: string)

  datatype Entry<V> = Entry(key: Key, value: V, expiresAt: int)

  /** The first position of `key`, or the length of the list. */
  function Index<V>(s: seq<Entry<V>>, key: Key): (i: nat)
    ensures i <= |s|
    ensures i < |s| ==> s[i].key == key
    ensures forall j :: 0 <= j < i ==> s[j].key != key
  {
    if s == [] || s[0].key == key then 0 else Index(s[1..], key) + 1
  }

  function Without<T>(s: seq<T>, i: nat): seq<T>
    requires i < |s|
  {
    s[..i] + s[i + 1..]
  }

  function ToFront<T>(s: seq<T>, i: nat, x: T): seq<T>
    requires i < |s|
  {
    [x] + Without(s, i)
  }

  /** `key` would be found by a lookup at time `now`. */
  predicate Hit<V>(s: seq<Entry<V>>, key: Key, now: int) {
    var i := Index(s, key);
    i < |s| && now <= s[i].expiresAt
  }

  function Lookup<V>(s: seq<Entry<V>>, key: Key, now: int): Option<V> {
    if Hit(s, key, now) then Some(s[Index(s, key)].value) else None
  }

  /** A lookup moves what it finds to the front and drops what it finds expired. */
  function AfterGet<V>(s: seq<Entry<V>>, key: Key, now: int): seq<Entry<V>> {
    var i := Index(s, key);
    if i == |s| then s
    else if now > s[i].expiresAt then Without(s, i)
    else ToFront(s, i, s[i])
  }

  function AfterSet<V>(s: seq<Entry<V>>, e: Entry<V>, cap: nat): seq<Entry<V>>
    requires cap > 0
  {
    var i := Index(s, e.key);
    if i < |s| then ToFront(s, i, e)
    else if |s| >= cap then [e] + s[..|s| - 1]
    else [e] + s
  }

  function AfterInvalidate<V>(s: seq<Entry<V>>, key: Key): seq<Entry<V>> {
    var i := Index(s, key);
    if i == |s| then s else Without(s, i)
  }

  /** The entries whose keys do not begin with `prefix`, in their order. */
  function AfterInvalidatePrefix<V>(s: seq<Entry<V>>, prefix: string): seq<Entry<V>> {
    if s == [] then []
    else if prefix <= s[0].key.text then AfterInvalidatePrefix(s[1..], prefix)
    else [s[0]] + AfterInvalidatePrefix(s[1..], prefix)
  }

  datatype Op<V> =
    | Get(key: Key, now: int)
    | Set(entry: Entry<V>)
    | Invalidate(key: Key)
    | InvalidatePrefix(prefix: string)

  function Apply<V>(s: seq<Entry<V>>, op: Op<V>, cap: nat): seq<Entry<V>>
    requires cap > 0
  {
    match op
    case Get(key, now) => AfterGet(s, key, now)
    case Set(e) => AfterSet(s, e, cap)
    case Invalidate(key) => AfterInvalidate(s, key)
    case InvalidatePrefix(prefix) => AfterInvalidatePrefix(s, prefix)
  }

  // ---------------------------------------------------------------- distinct keys

  ghost predicate Distinct<V>(s: seq<Entry<V>>) {
    forall i, j :: 0 <= i < j < |s| ==> s[i].key != s[j].key
  }

  /** What is kept of a list was in it, and does not begin with the prefix. */
  lemma {:induction false} PrefixSurvivor<V>(s: seq<Entry<V>>, prefix: string, i: nat) returns (n: nat)
    requires i < |AfterInvalidatePrefix(s, prefix)|
    ensures n < |s| && AfterInvalidatePrefix(s, prefix)[i] == s[n] && !(prefix <= s[n].key.text)
  {
    if prefix <= s[0].key.text {
      n := PrefixSurvivor(s[1..], prefix, i);
      n := n + 1;
    } else if i == 0 {
      n := 0;
    } else {
      n := PrefixSurvivor(s[1..], prefix, i - 1);
      n := n + 1;
    }
  }

  lemma {:induction false} PrefixKeeps<V>(s: seq<Entry<V>>, prefix: string)
    requires Distinct(s)
    ensures Distinct(AfterInvalidatePrefix(s, prefix)) && |AfterInvalidatePrefix(s, prefix)| <= |s|
  {
    if s != [] {
      PrefixKeeps(s[1..], prefix);
      var r := AfterInvalidatePrefix(s[1..], prefix);
      if !(prefix <= s[0].key.text) {
        forall j | 0 <= j < |r| ensures r[j].key != s[0].key {
          var n := PrefixSurvivor(s[1..], prefix, j);
          assert s[1..][n] == s[n + 1];
        }
        ConsDistinct(s[0], r);
      }
    }
  }

  lemma WithoutKeeps<V>(s: seq<Entry<V>>, i: nat)
    requires Distinct(s) && i < |s|
    ensures var r := Without(s, i);
            && |r| == |s| - 1 && Distinct(r)
            && (forall j :: 0 <= j < |r| ==> r[j] == (if j < i then s[j] else s[j + 1]) && r[j].key != s[i].key)
  {}

  lemma IndexAt<V>(s: seq<Entry<V>>, k: Key, i: nat)
    requires Distinct(s) && i < |s| && s[i].key == k
    ensures Index(s, k) == i
  {}

  lemma ConsDistinct<V>(e: Entry<V>, s: seq<Entry<V>>)
    requires Distinct(s) && forall j :: 0 <= j < |s| ==> s[j].key != e.key
    ensures Distinct([e] + s)
  {
    var r := [e] + s;
    assert forall j :: 0 < j < |r| ==> r[j] == s[j - 1];
  }

  lemma ToFrontKeeps<V>(s: seq<Entry<V>>, i: nat, e: Entry<V>)
    requires Distinct(s) && i < |s| && e.key == s[i].key
    ensures Distinct(ToFront(s, i, e)) && |ToFront(s, i, e)| == |s|
  {
    WithoutKeeps(s, i);
    ConsDistinct(e, Without(s, i));
  }

  lemma SetKeeps<V>(s: seq<Entry<V>>, e: Entry<V>, cap: nat)
    requires cap > 0 && Distinct(s) && |s| <= cap
    ensures Distinct(AfterSet(s, e, cap)) && |AfterSet(s, e, cap)| <= cap
  {
    var i := Index(s, e.key);
    if i < |s| {
      ToFrontKeeps(s, i, e);
    } else if |s| >= cap {
      ConsDistinct(e, s[..|s| - 1]);
    } else {
      ConsDistinct(e, s);
    }
  }

  lemma GetKeeps<V>(s: seq<Entry<V>>, key: Key, now: int)
    requires Distinct(s)
    ensures Distinct(AfterGet(s, key, now)) && |AfterGet(s, key, now)| <= |s|
  {
    var i := Index(s, key);
    if i < |s| {
      WithoutKeeps(s, i);
      ToFrontKeeps(s, i, s[i]);
    }
  }

  /** Every operation keeps the keys distinct and the list within its capacity. */
  lemma ApplyKeeps<V>(s: seq<Entry<V>>, op: Op<V>, cap: nat)
    requires cap > 0 && Distinct(s) && |s| <= cap
    ensures Distinct(Apply(s, op, cap)) && |Apply(s, op, cap)| <= cap
  {
    match op
    case Get(key, now) => GetKeeps(s, key, now);
    case Set(e) => SetKeeps(s, e, cap);
    case Invalidate(key) =>
      if Index(s, key) < |s| {
        WithoutKeeps(s, Index(s, key));
      }
    case InvalidatePrefix(prefix) => PrefixKeeps(s, prefix);
  }

  // ---------------------------------------------------------------- removal in any order

  /** The entries whose keys are not in `gone`, in their order. */
  function Keep<V>(s: seq<Entry<V>>, gone: set<Key>): seq<Entry<V>> {
    if s == [] then []
    else if s[0].key in gone then Keep(s[1..], gone)
    else [s[0]] + Keep(s[1..], gone)
  }

  lemma {:induction false} KeepNothingGone<V>(s: seq<Entry<V>>)
    ensures Keep(s, {}) == s
  {
    if s != [] {
      KeepNothingGone(s[1..]);
    }
  }

  /** Removing one more key from what is kept is keeping without that key too. */
  lemma {:induction false} KeepWithout<V>(s: seq<Entry<V>>, gone: set<Key>, key: Key)
    requires Distinct(s) && key !in gone
    ensures AfterInvalidate(Keep(s, gone), key) == Keep(s, gone + {key})
  {
    if s != [] {
      var r := Keep(s[1..], gone);
      if s[0].key == key {
        KeepElsewhere(s[1..], gone, key);
        assert Without([s[0]] + r, 0) == r;
      } else {
        KeepWithout(s[1..], gone, key);
        if s[0].key !in gone {
          InvalidateBehind(s[0], r, key);
        }
      }
    }
  }

  lemma InvalidateBehind<V>(e: Entry<V>, r: seq<Entry<V>>, key: Key)
    requires e.key != key
    ensures AfterInvalidate([e] + r, key) == [e] + AfterInvalidate(r, key)
  {
    assert ([e] + r)[1..] == r;
    var i := Index(r, key);
    if i < |r| {
      assert Without([e] + r, i + 1) == [e] + Without(r, i);
    }
  }

  lemma {:induction false} KeepElsewhere<V>(s: seq<Entry<V>>, gone: set<Key>, key: Key)
    requires forall i :: 0 <= i < |s| ==> s[i].key != key
    ensures Keep(s, gone + {key}) == Keep(s, gone)
  {
    if s != [] {
      KeepElsewhere(s[1..], gone, key);
    }
  }

  /** Keeping without all keys that begin with `prefix` is dropping the prefix. */
  lemma {:induction false} KeepIsPrefix<V>(s: seq<Entry<V>>, gone: set<Key>, prefix: string)
    requires forall i :: 0 <= i < |s| ==> (s[i].key in gone <==> prefix <= s[i].key.text)
    ensures Keep(s, gone) == AfterInvalidatePrefix(s, prefix)
  {
    if s != [] {
      KeepIsPrefix(s[1..], gone, prefix);
    }
  }
}
