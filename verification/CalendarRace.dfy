/**
 ListEvents as three steps (internal/api/calendar.go lines 63-108): it looks into the cache, asks the server and
 stores the answer, and other calls on the same client can come between. A write still is one step: the server
 accepts it and the calendar keys are dropped.
 */
module CalendarRace {
  import opened Text
  import opened Lru
  import opened Calendar

  /** What can happen; `id` tells the calls of ListEvents apart. */
  datatype Move =
    | Look(query: Query, now: int)
    | Fetch(id: nat, query: Query)
    | Store(id: nat, at: int)
    | Submit(change: Change, down: Option<string>)
    | Elsewhere(op: Op<Item>)

  /** A call that has asked the server, and the calendars that the server answered from. */
  datatype Asked = Asked(query: Query, calendars: Calendars)

  /** The server, and the calls between their fetch and their store. */
  datatype Outside = Outside(calendars: Calendars, asked: map<nat, Asked>)

  function OutsideAt(start: Calendars, moves: seq<Move>, k: nat): Outside
    requires k <= |moves|
  {
    if k == 0 then Outside(start, map[])
    else
      var o := OutsideAt(start, moves, k - 1);
      match moves[k - 1]
      case Fetch(id, q) => o.(asked := o.asked[id := Asked(q, o.calendars)])
      case Store(id, _) => o.(asked := o.asked - {id})
      case Submit(c, down) =>
        if down.None? && Changed(o.calendars, c).Some? then o.(calendars := Changed(o.calendars, c).value) else o
      case _ => o
  }

  /** The entry that a call stores, if the server answered it. */
  function Stored(site: Site, a: Asked, at: int): Option<Entry<Item>> {
    match site.list(a.calendars, Sent(a.query))
    case Ok(events) => Some(Entry(StoreKey(site, a.query), Events(events), at + LIST_TTL))
    case Err(_) => None
  }

  function CacheStep(site: Site, o: Outside, cache: Listing, m: Move, cap: nat): Listing
    requires cap > 0
  {
    match m
    case Look(q, now) => AfterGet(cache, CacheKey(site, q), now)
    case Fetch(_, _) => cache
    case Store(id, at) =>
      if id in o.asked && Stored(site, o.asked[id], at).Some? then
        AfterSet(cache, Stored(site, o.asked[id], at).value, cap)
      else cache
    case Submit(c, down) => AfterWrite(State(o.calendars, cache), c, down).cache
    case Elsewhere(op) => Apply(cache, op, cap)
  }

  function CacheAt(site: Site, start: Calendars, moves: seq<Move>, k: nat, cap: nat): Listing
    requires k <= |moves| && cap > 0
  {
    if k == 0 then []
    else CacheStep(site, OutsideAt(start, moves, k - 1), CacheAt(site, start, moves, k - 1, cap), moves[k - 1], cap)
  }

  function StateAt(site: Site, start: Calendars, moves: seq<Move>, k: nat, cap: nat): State
    requires k <= |moves| && cap > 0
  {
    State(OutsideAt(start, moves, k).calendars, CacheAt(site, start, moves, k, cap))
  }

  /** Other services never set a key of ListEvents. */
  ghost predicate OthersKeepOff(site: Site, moves: seq<Move>) {
    forall i :: 0 <= i < |moves| && moves[i].Elsewhere? ==> KeepsOff(site, Foreign(moves[i].op))
  }

  /** The answer a call waits with is one that the server gave at its fetch. */
  lemma {:induction false} AskedAtFetch(start: Calendars, moves: seq<Move>, k: nat, id: nat) returns (i: nat)
    requires k <= |moves| && id in OutsideAt(start, moves, k).asked
    ensures var a := OutsideAt(start, moves, k).asked[id];
            i < k && moves[i] == Fetch(id, a.query) && a.calendars == OutsideAt(start, moves, i).calendars
  {
    if moves[k - 1].Fetch? && moves[k - 1].id == id {
      i := k - 1;
    } else {
      i := AskedAtFetch(start, moves, k - 1, id);
    }
  }

  // ---------------------------------------------------------------- how stale a hit can be

  /** Move `m` is a write that the server accepts. */
  predicate Accepted(start: Calendars, moves: seq<Move>, m: nat)
    requires m < |moves|
  {
    && moves[m].Submit? && moves[m].down.None?
    && Changed(OutsideAt(start, moves, m).calendars, moves[m].change).Some?
  }

  /** Entry `e` came from the store at `j`, and no write was accepted since. */
  predicate StoredAt(site: Site, start: Calendars, moves: seq<Move>, k: nat, e: Entry<Item>, j: nat) {
    && j < k <= |moves| && moves[j].Store? && moves[j].id in OutsideAt(start, moves, j).asked
    && Stored(site, OutsideAt(start, moves, j).asked[moves[j].id], moves[j].at) == Some(e)
    && (forall m :: j < m < k ==> !Accepted(start, moves, m))
    && OutsideAt(start, moves, k).calendars == OutsideAt(start, moves, j).calendars
  }

  ghost predicate FromStore(site: Site, start: Calendars, moves: seq<Move>, k: nat, e: Entry<Item>) {
    exists j: nat :: StoredAt(site, start, moves, k, e, j)
  }

  ghost predicate IsListKey(site: Site, key: Key) { exists q :: key == CacheKey(site, q) }

  /** The entries after a step were there before, except the one it sets. */
  lemma StepMember(site: Site, o: Outside, cache: Listing, m: Move, cap: nat, e: Entry<Item>)
    requires cap > 0 && e in CacheStep(site, o, cache, m, cap)
    ensures e in cache || (m.Elsewhere? && m.op.Set? && e == m.op.entry)
            || (m.Store? && m.id in o.asked && Stored(site, o.asked[m.id], m.at) == Some(e))
    ensures m.Submit? && m.down.None? && Changed(o.calendars, m.change).Some? ==> !(PREFIX <= e.key.text)
  {
    if m.Submit? {
      PrefixMember(cache, PREFIX, e);
    } else if m.Elsewhere? && m.op.InvalidatePrefix? {
      PrefixMember(cache, m.op.prefix, e);
    }
  }

  lemma PrefixMember(cache: Listing, prefix: string, e: Entry<Item>)
    ensures e in AfterInvalidatePrefix(cache, prefix) ==> e in cache && !(prefix <= e.key.text)
  {
    if i :| 0 <= i < |AfterInvalidatePrefix(cache, prefix)| && AfterInvalidatePrefix(cache, prefix)[i] == e {
      var n := PrefixSurvivor(cache, prefix, i);
    }
  }

  lemma {:induction false} EntryHasStore(site: Site, start: Calendars, moves: seq<Move>, k: nat, cap: nat,
                                         e: Entry<Item>)
    requires k <= |moves| && cap > 0 && OthersKeepOff(site, moves)
    requires e in CacheAt(site, start, moves, k, cap) && IsListKey(site, e.key)
    ensures FromStore(site, start, moves, k, e)
  {
    hide CacheStep, Stored;
    var o, m := OutsideAt(start, moves, k - 1), moves[k - 1];
    var q :| e.key == CacheKey(site, q);
    ListKeysAreCalendarKeys(site, q);
    StepMember(site, o, CacheAt(site, start, moves, k - 1, cap), m, cap, e);
    if e in CacheAt(site, start, moves, k - 1, cap) {
      EntryHasStore(site, start, moves, k - 1, cap, e);
      var j: nat :| StoredAt(site, start, moves, k - 1, e, j);
      assert StoredAt(site, start, moves, k, e, j);
    } else {
      var last: nat := k - 1;
      assert StoredAt(site, start, moves, k, e, last);
    }
  }

  /**
   A hit is what the server answered to a fetch of that very query, stored at most two minutes before; only writes
   between that fetch and its store are missing from it, for no write was accepted since the store.
   */
  lemma HitIsRecent(site: Site, start: Calendars, moves: seq<Move>, cap: nat, q: Query, now: int)
    returns (i: nat, j: nat)
    requires cap > 0 && DigestInjective(site) && OthersKeepOff(site, moves)
    requires Cached(site, CacheAt(site, start, moves, |moves|, cap), q, now).Some?
    ensures i < j < |moves| && moves[i].Fetch? && moves[j].Store? && moves[i].id == moves[j].id
    ensures Sent(moves[i].query) == Sent(q) && now <= moves[j].at + 120_000_000_000
    ensures var hit := Cached(site, CacheAt(site, start, moves, |moves|, cap), q, now).value;
            hit.Events? && site.list(OutsideAt(start, moves, i).calendars, Sent(q)) == Ok(hit.events)
    ensures forall m :: j < m < |moves| ==> !Accepted(start, moves, m)
    ensures OutsideAt(start, moves, |moves|).calendars == OutsideAt(start, moves, j).calendars
  {
    var cache := CacheAt(site, start, moves, |moves|, cap);
    var e := cache[Index(cache, CacheKey(site, q))];
    assert IsListKey(site, e.key);
    EntryHasStore(site, start, moves, |moves|, cap, e);
    j :| StoredAt(site, start, moves, |moves|, e, j);
    var a := OutsideAt(start, moves, j).asked[moves[j].id];
    CacheKeyInjective(site, a.query.(calendar := Named(a.query.calendar)), q);
    i := AskedAtFetch(start, moves, j, moves[j].id);
  }

  // ---------------------------------------------------------------- when the cache stays coherent

  /** At every store, the calendars are those that the server answered from. */
  ghost predicate Undisturbed(start: Calendars, moves: seq<Move>) {
    forall j :: 0 <= j < |moves| ==> StoresPresent(start, moves, j)
  }

  predicate StoresPresent(start: Calendars, moves: seq<Move>, j: nat)
    requires j < |moves|
  {
    var o := OutsideAt(start, moves, j);
    moves[j].Store? && moves[j].id in o.asked ==> o.asked[moves[j].id].calendars == o.calendars
  }

  ghost predicate AlwaysCoherent(site: Site, start: Calendars, moves: seq<Move>, cap: nat)
    requires cap > 0
  {
    forall k :: 0 <= k <= |moves| ==> Coherent(site, StateAt(site, start, moves, k, cap))
  }

  lemma StoreIsCoherent(site: Site, s: State, a: Asked, at: int, cap: nat)
    requires cap > 0 && |s.cache| <= cap && Coherent(site, s) && DigestInjective(site)
    requires a.calendars == s.calendars && Stored(site, a, at).Some?
    ensures Coherent(site, s.(cache := AfterSet(s.cache, Stored(site, a, at).value, cap)))
  {
    hide Coherent;
    var e := Stored(site, a, at).value;
    FetchedIsTruthful(site, s.calendars, a.query, e.value.events, e.expiresAt);
    SetIsCoherent(site, s, e, cap);
  }

  lemma {:induction false} UndisturbedIsCoherent(site: Site, start: Calendars, moves: seq<Move>, k: nat, cap: nat)
    requires k <= |moves| && cap > 0 && DigestInjective(site) && OthersKeepOff(site, moves) && Undisturbed(start, moves)
    ensures Coherent(site, StateAt(site, start, moves, k, cap)) && |StateAt(site, start, moves, k, cap).cache| <= cap
  {
    if k > 0 {
      UndisturbedIsCoherent(site, start, moves, k - 1, cap);
      assert StoresPresent(start, moves, k - 1);
      StepIsCoherent(site, start, moves, k - 1, cap);
    }
  }

  lemma StepIsCoherent(site: Site, start: Calendars, moves: seq<Move>, k: nat, cap: nat)
    requires k < |moves| && cap > 0 && DigestInjective(site) && OthersKeepOff(site, moves)
    requires StoresPresent(start, moves, k)
    requires Coherent(site, StateAt(site, start, moves, k, cap)) && |StateAt(site, start, moves, k, cap).cache| <= cap
    ensures Coherent(site, StateAt(site, start, moves, k + 1, cap))
    ensures |StateAt(site, start, moves, k + 1, cap).cache| <= cap
  {
    hide Coherent, Stored, AfterSet, AfterGet, AfterWrite, Apply;
    var s, o, m := StateAt(site, start, moves, k, cap), OutsideAt(start, moves, k), moves[k];
    CoherentIsDistinct(site, s);
    if m.Look? {
      GetIsCoherent(site, s, CacheKey(site, m.query), m.now);
      GetKeeps(s.cache, CacheKey(site, m.query), m.now);
    } else if m.Store? && m.id in o.asked && Stored(site, o.asked[m.id], m.at).Some? {
      StoreIsCoherent(site, s, o.asked[m.id], m.at, cap);
      SetKeeps(s.cache, Stored(site, o.asked[m.id], m.at).value, cap);
    } else if m.Submit? {
      WriteIsCoherent(site, s, m.change, m.down);
      WriteCalendars(s, m.change, m.down);
    } else if m.Elsewhere? {
      ForeignIsCoherent(site, s, m.op, cap);
      ApplyKeeps(s.cache, m.op, cap);
    }
  }

  lemma CoherentIsDistinct(site: Site, s: State)
    requires Coherent(site, s)
    ensures Distinct(s.cache)
  {}

  lemma WriteCalendars(s: State, c: Change, down: Option<string>)
    ensures AfterWrite(s, c, down).calendars ==
            if down.None? && Changed(s.calendars, c).Some? then Changed(s.calendars, c).value else s.calendars
  {}

  /** A server that tells whether its calendars are the given ones. */
  function Telltale(site: Site, calendars: Calendars): Site {
    site.(list := (c, q) => Ok(if c == calendars then [Event("", "", "", "", "", [])] else []))
  }

  /** With a store that comes too late, that server's cache is not coherent. */
  lemma LateStoreIsStale(site: Site, start: Calendars, moves: seq<Move>, j: nat, cap: nat)
    requires j < |moves| && cap > 0 && !StoresPresent(start, moves, j)
    ensures var a := OutsideAt(start, moves, j).asked[moves[j].id];
            !Coherent(Telltale(site, a.calendars), StateAt(Telltale(site, a.calendars), start, moves, j + 1, cap))
  {
    var o := OutsideAt(start, moves, j);
    var a := o.asked[moves[j].id];
    var tell := Telltale(site, a.calendars);
    var s := StateAt(tell, start, moves, j + 1, cap);
    var e := Stored(tell, a, moves[j].at).value;
    assert s.cache == AfterSet(CacheAt(tell, start, moves, j, cap), e, cap) && s.cache[0] == e;
    var named := a.query.(calendar := Named(a.query.calendar));
    assert e.key == CacheKey(tell, named) && Sent(named) == Sent(a.query);
    assert !Truthful(tell, s.calendars, e);
  }

  /**
   Whatever the server answers, the cache is coherent at all times exactly when no accepted write changes the
   calendars between a fetch and its store.
   */
  lemma CoherentExactly(site: Site, start: Calendars, moves: seq<Move>, cap: nat)
    requires cap > 0 && DigestInjective(site) && OthersKeepOff(site, moves)
    ensures (forall list :: AlwaysCoherent(site.(list := list), start, moves, cap)) <==> Undisturbed(start, moves)
  {
    hide Coherent, StoresPresent;
    if Undisturbed(start, moves) {
      forall list ensures AlwaysCoherent(site.(list := list), start, moves, cap) {
        var other := site.(list := list);
        SameDigest(site, other, moves);
        forall k | 0 <= k <= |moves| ensures Coherent(other, StateAt(other, start, moves, k, cap)) {
          UndisturbedIsCoherent(other, start, moves, k, cap);
        }
      }
    } else {
      var j :| 0 <= j < |moves| && !StoresPresent(start, moves, j);
      LateStoreBreaks(site, start, moves, j, cap);
    }
  }

  lemma LateStoreBreaks(site: Site, start: Calendars, moves: seq<Move>, j: nat, cap: nat)
    requires j < |moves| && cap > 0 && !StoresPresent(start, moves, j)
    ensures exists list :: !AlwaysCoherent(site.(list := list), start, moves, cap)
  {
    hide Coherent;
    LateStoreIsStale(site, start, moves, j, cap);
    var tell := Telltale(site, OutsideAt(start, moves, j).asked[moves[j].id].calendars);
    var k := j + 1;
    assert !Coherent(tell, StateAt(tell, start, moves, k, cap));
    assert tell == site.(list := tell.list);
    assert !AlwaysCoherent(site.(list := tell.list), start, moves, cap);
  }

  /** What the other services keep off does not depend on the server's answers. */
  lemma SameDigest(site: Site, other: Site, moves: seq<Move>)
    requires site.digest == other.digest && DigestInjective(site) && OthersKeepOff(site, moves)
    ensures DigestInjective(other) && OthersKeepOff(other, moves)
  {
    assert forall q :: CacheKey(other, q) == CacheKey(site, q);
  }
}
