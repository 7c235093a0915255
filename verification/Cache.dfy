/**
 The cache of internal/api/cache.go as the program keeps it: a map from keys to list elements and the
 eviction list of the same elements, most recently used first. Its mutex makes every method one step.
 */
module Cache {
  import opened Text
  import opened Lru

  /** A `cacheEntry` in its list element; Set overwrites it in place. */
  class Element<V> {
    const key: Key
    var value: V
    var expiresAt: int

    constructor (key: Key, value: V, expiresAt: int)
      ensures this.key == key && this.value == value && this.expiresAt == expiresAt
    {
      this.key, this.value, this.expiresAt := key, value, expiresAt;
    }

    ghost function AsEntry(): Entry<V>
      reads this
    {
      Entry(key, value, expiresAt)
    }
  }

  const DEFAULT_ENTRIES := 256
  const DEFAULT_TTL := 300_000_000_000

  class Cache<V> {
    var entries: map<Key, Element<V>>
    var eviction: seq<Element<V>>
    const maxEntries: nat
    const defaultTTL: int
    /** The recency list that the map and the list of elements represent. */
    ghost var contents: seq<Entry<V>>
    /** The cache and the elements it has ever held. */
    ghost var Repr: set<object>

    ghost predicate Valid()
      reads this, Repr
      ensures Valid() ==> this in Repr
    {
      && this in Repr && Within(eviction, Repr)
      && maxEntries > 0 && defaultTTL > 0
      && |eviction| <= maxEntries && Distinct(contents)
      && Aligned(eviction, contents) && MapsTo(entries, eviction, contents)
    }

    /** cache.go `NewCache`. */
    constructor (maxEntries: int, defaultTTL: int)
      ensures Valid() && contents == [] && fresh(Repr)
      ensures this.maxEntries == (if maxEntries <= 0 then 256 else maxEntries)
      ensures this.defaultTTL == (if defaultTTL <= 0 then 300_000_000_000 else defaultTTL)
    {
      this.maxEntries := if maxEntries <= 0 then DEFAULT_ENTRIES else maxEntries;
      this.defaultTTL := if defaultTTL <= 0 then DEFAULT_TTL else defaultTTL;
      entries, eviction, contents, Repr := map[], [], [], {this};
    }

    /** Where container/list finds an element of the list. */
    method ListIndex(elem: Element<V>) returns (i: nat)
      requires Valid() && elem in eviction
      ensures i < |eviction| && eviction[i] == elem && i == Index(contents, elem.key)
    {
      i := 0;
      while i < |eviction| && eviction[i] != elem
        invariant i <= |eviction| && forall j :: 0 <= j < i ==> eviction[j] != elem
      {
        i := i + 1;
      }
      IndexAt(contents, elem.key, i);
    }

    /** Unlinks the element of `key` and forgets it. */
    method Drop(key: Key)
      requires Valid() && key in entries
      modifies this
      ensures Valid() && fresh(Repr - old(Repr))
      ensures Index(old(contents), key) < |old(contents)|
      ensures contents == Without(old(contents), Index(old(contents), key))
    {
      hide Index, Without, ToFront, Distinct, MapsTo, Within;
      KeyHasPlace(entries, eviction, contents, key);
      var i := ListIndex(entries[key]);
      WithoutKeeps(contents, i);
      MapsToWithout(entries, eviction, contents, i);
      eviction, contents, entries := Without(eviction, i), Without(contents, i), entries - {key};
      AlignedWithout(old(eviction), old(contents), i);
    }

    /** container/list's MoveToFront. */
    method MoveToFront(key: Key)
      requires Valid() && key in entries
      modifies this
      ensures Valid() && fresh(Repr - old(Repr))
      ensures Index(old(contents), key) < |old(contents)|
      ensures contents == ToFront(old(contents), Index(old(contents), key), old(contents)[Index(old(contents), key)])
    {
      hide Index, Without, ToFront, Distinct, MapsTo, Within;
      KeyHasPlace(entries, eviction, contents, key);
      var i := ListIndex(entries[key]);
      ToFrontKeeps(contents, i, contents[i]);
      MapsToFront(entries, eviction, contents, i);
      eviction, contents := ToFront(eviction, i, eviction[i]), ToFront(contents, i, contents[i]);
      AlignedFront(old(eviction), old(contents), i);
    }

    /** cache.go `Get` at time `now`. */
    method Get(key: Key, now: int) returns (r: Option<V>)
      requires Valid()
      modifies this
      ensures Valid() && fresh(Repr - old(Repr))
      ensures contents == AfterGet(old(contents), key, now)
      ensures r == Lookup(old(contents), key, now)
    {
      KeyHasPlace(entries, eviction, contents, key);
      if key !in entries {
        return None;
      }
      var elem := entries[key];
      assert elem.AsEntry() == contents[Index(contents, key)];
      if now > elem.expiresAt {
        Drop(key);
        return None;
      }
      MoveToFront(key);
      return Some(elem.value);
    }

    /** cache.go `evictLRU`. */
    method EvictLRU()
      requires Valid()
      modifies this
      ensures Valid() && fresh(Repr - old(Repr))
      ensures contents == if old(contents) == [] then [] else old(contents)[..|old(contents)| - 1]
    {
      if |eviction| == 0 {
        return;
      }
      var back := eviction[|eviction| - 1];
      assert back.AsEntry() == contents[|contents| - 1];
      IndexAt(contents, back.key, |contents| - 1);
      KeyHasPlace(entries, eviction, contents, back.key);
      Drop(back.key);
    }

    /** The tail of `Set`: a new element in front. */
    method PushFront(key: Key, value: V, expiresAt: int)
      requires Valid() && Index(contents, key) == |contents| < maxEntries
      modifies this
      ensures Valid() && fresh(Repr - old(Repr))
      ensures contents == [Entry(key, value, expiresAt)] + old(contents)
    {
      hide Index, Distinct, MapsTo, Within;
      var elem := new Element(key, value, expiresAt);
      ghost var e := Entry(key, value, expiresAt);
      NewInFront(entries, eviction, contents, Repr, elem, e);
      eviction := [elem] + eviction;
      contents := [e] + contents;
      entries := entries[key := elem];
      Repr := Repr + {elem};
    }

    /** cache.go `Set` at time `now`; a non-positive `ttl` stands for the default. */
    method Set(key: Key, value: V, ttl: int, now: int)
      requires Valid()
      modifies Repr
      ensures Valid() && fresh(Repr - old(Repr))
      ensures var expiry := now + if ttl <= 0 then defaultTTL else ttl;
              contents == AfterSet(old(contents), Entry(key, value, expiry), maxEntries)
    {
      hide AfterSet, Index, Aligned, Distinct;
      var life := if ttl <= 0 then defaultTTL else ttl;
      KeyHasPlace(entries, eviction, contents, key);
      if key in entries {
        SetOld(key, value, now + life);
      } else {
        SetNew(key, value, now + life);
      }
    }

    method SetOld(key: Key, value: V, expiresAt: int)
      requires Valid() && key in entries
      modifies Repr
      ensures Valid() && fresh(Repr - old(Repr))
      ensures contents == AfterSet(old(contents), Entry(key, value, expiresAt), maxEntries)
    {
      hide Index, Distinct, MapsTo, Within, Aligned, ToFront;
      Overwrite(key, value, expiresAt);
      ghost var i, e := Index(old(contents), key), Entry(key, value, expiresAt);
      IndexAt(contents, key, i);
      ToFrontUpdated(old(contents), i, e);
      MoveToFront(key);
    }

    method SetNew(key: Key, value: V, expiresAt: int)
      requires Valid() && Index(contents, key) == |contents|
      modifies Repr
      ensures Valid() && fresh(Repr - old(Repr))
      ensures contents == AfterSet(old(contents), Entry(key, value, expiresAt), maxEntries)
    {
      hide Distinct, MapsTo, Within;
      if |eviction| >= maxEntries {
        EvictLRU();
      }
      PushFront(key, value, expiresAt);
    }

    /** The element of `key` gets a new value and expiry, in place. */
    method Overwrite(key: Key, value: V, expiresAt: int)
      requires Valid() && key in entries
      modifies Repr
      ensures Valid() && Repr == old(Repr) && entries == old(entries)
      ensures Index(old(contents), key) < |old(contents)|
      ensures contents == old(contents)[Index(old(contents), key) := Entry(key, value, expiresAt)]
    {
      hide Index, Distinct, MapsTo;
      KeyHasPlace(entries, eviction, contents, key);
      var elem := entries[key];
      ghost var i := Index(contents, key);
      OtherElements(eviction, contents, i);
      elem.value := value;
      elem.expiresAt := expiresAt;
      contents := contents[i := elem.AsEntry()];
      MapsToOverwrite(entries, eviction, old(contents), i, elem.AsEntry());
    }

    /** cache.go `Invalidate`. */
    method Invalidate(key: Key)
      requires Valid()
      modifies this
      ensures Valid() && fresh(Repr - old(Repr))
      ensures contents == AfterInvalidate(old(contents), key)
    {
      KeyHasPlace(entries, eviction, contents, key);
      if key in entries {
        Drop(key);
      }
    }

    /** cache.go `InvalidatePrefix`, visiting the keys of the map in any order. */
    method InvalidatePrefix(prefix: string)
      requires Valid()
      modifies this
      ensures Valid() && fresh(Repr - old(Repr))
      ensures contents == AfterInvalidatePrefix(old(contents), prefix)
    {
      hide Index, Distinct, MapsTo, Within, Aligned, Keep, AfterInvalidate;
      ghost var before, gone: set<Key> := contents, {};
      KeepNothingGone(before);
      ListedKeys(entries, eviction, contents);
      var left := entries.Keys;
      while left != {}
        invariant Valid() && fresh(Repr - old(Repr))
        invariant contents == Keep(before, gone)
        invariant forall k :: k in gone ==> prefix <= k.text && k !in left
        invariant forall i :: 0 <= i < |before| && prefix <= before[i].key.text ==> before[i].key in left + gone
      {
        var key :| key in left;
        left := left - {key};
        if prefix <= key.text {
          KeepWithout(before, gone, key);
          Invalidate(key);
          gone := gone + {key};
        }
      }
      KeepIsPrefix(before, gone, prefix);
    }

    /** cache.go `Len`. */
    method Len() returns (n: nat)
      requires Valid()
      ensures n == |contents| <= maxEntries
    {
      n := |eviction|;
    }
  }

  lemma ListedKeys<V>(entries: map<Key, Element<V>>, eviction: seq<Element<V>>, contents: seq<Entry<V>>)
    requires MapsTo(entries, eviction, contents)
    ensures forall i :: 0 <= i < |contents| ==> contents[i].key in entries
  {
    assert forall i :: 0 <= i < |contents| ==> Leads(entries, contents[i].key, eviction[i]);
  }

  /** The element of an entry is not that of another one. */
  lemma OtherElements<V>(eviction: seq<Element<V>>, contents: seq<Entry<V>>, i: nat)
    requires Aligned(eviction, contents) && Distinct(contents) && i < |contents|
    ensures forall j :: 0 <= j < |eviction| && j != i ==> eviction[j] != eviction[i]
  {
    assert forall j :: 0 <= j < |eviction| ==> eviction[j].AsEntry() == contents[j];
  }

  lemma ToFrontUpdated<T>(s: seq<T>, i: nat, x: T)
    requires i < |s|
    ensures ToFront(s[i := x], i, x) == ToFront(s, i, x)
  {
    assert Without(s[i := x], i) == Without(s, i);
  }

  /** What a new element in front does to the parts of a valid cache. */
  lemma NewInFront<V>(entries: map<Key, Element<V>>, eviction: seq<Element<V>>, contents: seq<Entry<V>>,
                      objects: set<object>, elem: Element<V>, e: Entry<V>)
    requires Within(eviction, objects) && Aligned(eviction, contents) && Distinct(contents)
    requires MapsTo(entries, eviction, contents) && Index(contents, e.key) == |contents| && elem.AsEntry() == e
    ensures Within([elem] + eviction, objects + {elem}) && Aligned([elem] + eviction, [e] + contents)
    ensures Distinct([e] + contents) && MapsTo(entries[e.key := elem], [elem] + eviction, [e] + contents)
    ensures |[elem] + eviction| == |eviction| + 1
  {
    hide MapsTo, Distinct;
    NotListed(contents, e.key);
    ConsDistinct(e, contents);
    MapsToCons(entries, eviction, contents, elem, e);
  }

  lemma NotListed<V>(contents: seq<Entry<V>>, key: Key)
    requires Index(contents, key) == |contents|
    ensures forall j :: 0 <= j < |contents| ==> contents[j].key != key
  {}

  ghost predicate Within<V>(eviction: seq<Element<V>>, objects: set<object>) {
    forall i :: 0 <= i < |eviction| ==> eviction[i] in objects
  }

  /** The elements hold the entries. */
  ghost predicate Aligned<V>(eviction: seq<Element<V>>, contents: seq<Entry<V>>)
    reads eviction
  {
    |eviction| == |contents| && forall i :: 0 <= i < |eviction| ==> eviction[i].AsEntry() == contents[i]
  }

  lemma AlignedWithout<V>(eviction: seq<Element<V>>, contents: seq<Entry<V>>, i: nat)
    requires Aligned(eviction, contents) && i < |contents|
    ensures Aligned(Without(eviction, i), Without(contents, i)) && |Without(eviction, i)| == |eviction| - 1
    ensures forall objects :: Within(eviction, objects) ==> Within(Without(eviction, i), objects)
  {}

  lemma AlignedFront<V>(eviction: seq<Element<V>>, contents: seq<Entry<V>>, i: nat)
    requires Aligned(eviction, contents) && i < |contents|
    ensures Aligned(ToFront(eviction, i, eviction[i]), ToFront(contents, i, contents[i]))
    ensures |ToFront(eviction, i, eviction[i])| == |eviction|
    ensures forall objects :: Within(eviction, objects) ==> Within(ToFront(eviction, i, eviction[i]), objects)
  {
    AlignedWithout(eviction, contents, i);
  }

  /** Every key of the list leads to its own element, and the map has no other keys. */
  ghost predicate MapsTo<V>(entries: map<Key, Element<V>>, eviction: seq<Element<V>>, contents: seq<Entry<V>>) {
    && |eviction| == |contents|
    && (forall i :: 0 <= i < |contents| ==> Leads(entries, contents[i].key, eviction[i]))
    && (forall k :: k in entries ==> Listed(contents, k))
  }

  ghost predicate Listed<V>(contents: seq<Entry<V>>, key: Key) {
    exists i :: 0 <= i < |contents| && contents[i].key == key
  }

  ghost predicate Leads<V>(entries: map<Key, Element<V>>, key: Key, e: Element<V>) {
    key in entries && entries[key] == e
  }

  lemma KeyHasPlace<V>(entries: map<Key, Element<V>>, eviction: seq<Element<V>>, contents: seq<Entry<V>>, key: Key)
    requires MapsTo(entries, eviction, contents)
    ensures key in entries <==> Index(contents, key) < |contents|
    ensures key in entries ==> entries[key] == eviction[Index(contents, key)]
  {
    var i := Index(contents, key);
    if i < |contents| {
      assert Leads(entries, contents[i].key, eviction[i]);
    }
    if key in entries {
      assert Listed(contents, key);
    }
  }

  lemma MapsToWithout<V>(entries: map<Key, Element<V>>, eviction: seq<Element<V>>, contents: seq<Entry<V>>, i: nat)
    requires MapsTo(entries, eviction, contents) && Distinct(contents) && i < |contents|
    ensures MapsTo(entries - {contents[i].key}, Without(eviction, i), Without(contents, i))
  {
    WithoutKeeps(contents, i);
    var r, es, rest := Without(contents, i), Without(eviction, i), entries - {contents[i].key};
    forall j | 0 <= j < |r| ensures Leads(rest, r[j].key, es[j]) {
      var m := if j < i then j else j + 1;
      assert Leads(entries, contents[m].key, eviction[m]) && r[j] == contents[m];
    }
    forall k | k in rest ensures Listed(r, k) {
      assert Listed(contents, k);
      ListedWithout(contents, i, k);
    }
  }

  lemma ListedWithout<V>(contents: seq<Entry<V>>, i: nat, k: Key)
    requires i < |contents| && Listed(contents, k) && k != contents[i].key
    ensures Listed(Without(contents, i), k)
  {
    var m :| 0 <= m < |contents| && contents[m].key == k;
    assert Without(contents, i)[if m < i then m else m - 1] == contents[m];
  }

  lemma MapsToFront<V>(entries: map<Key, Element<V>>, eviction: seq<Element<V>>, contents: seq<Entry<V>>, i: nat)
    requires MapsTo(entries, eviction, contents) && Distinct(contents) && i < |contents|
    ensures MapsTo(entries, ToFront(eviction, i, eviction[i]), ToFront(contents, i, contents[i]))
  {
    ToFrontKeeps(contents, i, contents[i]);
    var r, es := ToFront(contents, i, contents[i]), ToFront(eviction, i, eviction[i]);
    forall j | 0 <= j < |r| ensures Leads(entries, r[j].key, es[j]) {
      var m := if j == 0 then i else if j <= i then j - 1 else j;
      assert Leads(entries, contents[m].key, eviction[m]);
    }
    forall k | k in entries ensures Listed(r, k) {
      assert Listed(contents, k);
      if k != contents[i].key {
        ListedWithout(contents, i, k);
      }
      ListedCons(Without(contents, i), contents[i], k);
    }
  }

  lemma MapsToCons<V>(entries: map<Key, Element<V>>, eviction: seq<Element<V>>, contents: seq<Entry<V>>,
                      elem: Element<V>, e: Entry<V>)
    requires MapsTo(entries, eviction, contents) && Index(contents, e.key) == |contents|
    ensures MapsTo(entries[e.key := elem], [elem] + eviction, [e] + contents)
  {
    var r, es, grown := [e] + contents, [elem] + eviction, entries[e.key := elem];
    assert r[0] == e && es[0] == elem && Leads(grown, e.key, elem);
    forall j | 0 < j < |r| ensures Leads(grown, r[j].key, es[j]) {
      assert Leads(entries, contents[j - 1].key, eviction[j - 1]) && r[j] == contents[j - 1];
    }
    forall k | k in grown ensures Listed(r, k) {
      if k != e.key {
        assert Listed(contents, k);
      }
      ListedCons(contents, e, k);
    }
  }

  lemma ListedCons<V>(contents: seq<Entry<V>>, e: Entry<V>, k: Key)
    requires k == e.key || Listed(contents, k)
    ensures Listed([e] + contents, k)
  {
    var r := [e] + contents;
    if k == e.key {
      assert r[0].key == k;
    } else {
      var m :| 0 <= m < |contents| && contents[m].key == k;
      assert r[m + 1].key == k;
    }
  }

  lemma MapsToOverwrite<V>(entries: map<Key, Element<V>>, eviction: seq<Element<V>>, contents: seq<Entry<V>>,
                           i: nat, e: Entry<V>)
    requires MapsTo(entries, eviction, contents) && Distinct(contents) && i < |contents| && e.key == contents[i].key
    ensures Distinct(contents[i := e]) && MapsTo(entries, eviction, contents[i := e])
  {
    var r := contents[i := e];
    assert forall j :: 0 <= j < |r| ==> r[j].key == contents[j].key;
    forall k | k in entries ensures Listed(r, k) {
      assert Listed(contents, k);
      var m :| 0 <= m < |contents| && contents[m].key == k;
      assert r[m].key == k;
    }
  }
}
