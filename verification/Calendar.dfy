/**
 The calendar service (internal/api/calendar.go) as a client of the shared cache: ListEvents reads through
 it, every successful write drops all `calendar:` keys. The server is changed only through this client; a
 call that fails leaves it as it was.
 */
module Calendar {
  import opened Text
  import opened Lru
  import opened Cache

  datatype Event = Event(
    title: string, start: string, end: string, location: string, description: string, attendees: seq<string>)

  /** Per calendar id, the events by their ids. */
  type Calendars = map<string, map<string, Event>>

  datatype Query = Query(calendar: string, timeMin: int, timeMax: int, maxResults: int)

  /** What the shared cache holds: event lists, and values of other services. */
  datatype Item = Events(events: seq<Event>) | Other(tag: int)

  /**
   What lies outside the client: the server's answer to a list request, and the digest of the parameters
   in a cache key (the first 16 hex characters of a SHA-256).
   */
  datatype Site = Site(list: (Calendars, Query) -> Result<seq<Event>, string>, digest: Query -> string)

  ghost predicate DigestInjective(site: Site) {
    forall p, q :: site.digest(p) == site.digest(q) ==> p == q
  }

  const PREFIX := "calendar:"
  const LIST_PREFIX := PREFIX + "ListEvents:"
  const LIST_TTL := 120_000_000_000

  function CacheKey(site: Site, q: Query): Key {
    Key(LIST_PREFIX + site.digest(q))
  }

  /** The default calendar, under its name. */
  function Named(calendar: string): string {
    if calendar == "" then "primary" else calendar
  }

  /** The request that reaches the server; a non-positive limit is not sent. */
  function Sent(q: Query): Query {
    q.(calendar := Named(q.calendar), maxResults := if q.maxResults > 0 then q.maxResults else 0)
  }

  // ---------------------------------------------------------------- the server

  /** Changes a client can ask for. */
  datatype Change =
    | Create(calendar: string, id: string, event: Event)
    | Update(calendar: string, id: string, patch: Event)
    | Delete(calendar: string, id: string)

  /** calendar.go lines 241-261: the non-empty fields of the patch. */
  function Patched(e: Event, patch: Event): Event {
    Event(if patch.title != "" then patch.title else e.title,
          if patch.start != "" then patch.start else e.start,
          if patch.end != "" then patch.end else e.end,
          if patch.location != "" then patch.location else e.location,
          if patch.description != "" then patch.description else e.description,
          if |patch.attendees| > 0 then patch.attendees else e.attendees)
  }

  /** The server's state after an accepted change; None when the server refuses it. */
  function Changed(calendars: Calendars, c: Change): Option<Calendars> {
    var name := Named(c.calendar);
    if name !in calendars then None
    else
      var events := calendars[name];
      match c
      case Create(_, id, event) => if id in events then None else Some(calendars[name := events[id := event]])
      case Update(_, id, patch) =>
        if id !in events then None else Some(calendars[name := events[id := Patched(events[id], patch)]])
      case Delete(_, id) => if id !in events then None else Some(calendars[name := events - {id}])
  }

  // ---------------------------------------------------------------- what is asked of the server

  /** A list request asks for the calendar it names, the default one when it names none, and for no limit below one. */
  lemma AsksForItsCalendar(site: Site, calendars: Calendars, q: Query)
    ensures var asked := q.(calendar := if q.calendar != "" then q.calendar else "primary");
            Uncached(site, calendars, q, None) ==
            site.list(calendars, if q.maxResults >= 0 then asked else asked.(maxResults := 0))
  {}

  /** An accepted change leaves every other event as it was, and creates, replaces or removes the one it names. */
  lemma ChangesOneEvent(calendars: Calendars, c: Change)
    requires Changed(calendars, c).Some?
    ensures var after, name := Changed(calendars, c).value, if c.calendar == "" then "primary" else c.calendar;
            && after.Keys == calendars.Keys && name in calendars
            && (forall k :: k in calendars && k != name ==> after[k] == calendars[k])
            && after[name] - {c.id} == calendars[name] - {c.id}
            && (c.Create? ==> c.id !in calendars[name] && c.id in after[name] && after[name][c.id] == c.event)
            && (c.Update? ==> c.id in calendars[name] && c.id in after[name])
            && (c.Delete? ==> c.id in calendars[name] && c.id !in after[name])
  {}

  /** Deleting what was created restores the calendars. */
  lemma DeleteUndoesCreate(calendars: Calendars, calendar: string, id: string, event: Event)
    requires Changed(calendars, Create(calendar, id, event)).Some?
    ensures Changed(Changed(calendars, Create(calendar, id, event)).value, Delete(calendar, id)) == Some(calendars)
  {
    var name := Named(calendar);
    var created := Changed(calendars, Create(calendar, id, event)).value;
    assert created[name] - {id} == calendars[name];
    assert created[name := calendars[name]] == calendars;
  }

  /** Two updates of an event are one update with the later patch laid over the earlier one. */
  lemma UpdateTwice(calendars: Calendars, calendar: string, id: string, p: Event, q: Event)
    requires Changed(calendars, Update(calendar, id, p)).Some?
    ensures Changed(Changed(calendars, Update(calendar, id, p)).value, Update(calendar, id, q)) ==
            Changed(calendars, Update(calendar, id, Patched(p, q)))
  {
    var name, once := Named(calendar), Changed(calendars, Update(calendar, id, p)).value;
    var twice := Patched(once[name][id], q);
    assert once[name][id := twice] == calendars[name][id := twice];
    assert once[name := once[name][id := twice]] == calendars[name := calendars[name][id := twice]];
  }

  /** A patch writes just the fields that it fills. */
  lemma PatchWritesItsFields(e: Event, text: string, people: seq<string>)
    requires text != "" && people != []
    ensures Patched(e, Event("", "", "", "", "", [])) == e
    ensures Patched(e, Event(text, "", "", "", "", [])) == e.(title := text)
    ensures Patched(e, Event("", text, "", "", "", [])) == e.(start := text)
    ensures Patched(e, Event("", "", text, "", "", [])) == e.(end := text)
    ensures Patched(e, Event("", "", "", text, "", [])) == e.(location := text)
    ensures Patched(e, Event("", "", "", "", text, [])) == e.(description := text)
    ensures Patched(e, Event("", "", "", "", "", people)) == e.(attendees := people)
  {}

  // ---------------------------------------------------------------- the service

  type Listing = seq<Entry<Item>>

  /** The client's view of the world: the server and the cache contents. */
  datatype State = State(calendars: Calendars, cache: Listing)

  /** ListEvents without a cache; `down` is a failure on the way to the server. */
  function Uncached(site: Site, calendars: Calendars, q: Query, down: Option<string>): Result<seq<Event>, string> {
    match down
    case Some(e) => Err(e)
    case None => site.list(calendars, Sent(q))
  }

  /** What the cache holds for `q` at time `now`. */
  function Cached(site: Site, cache: Listing, q: Query, now: int): Option<Item> {
    Lookup(cache, CacheKey(site, q), now)
  }

  /** The key under which a fetched list is stored: that of the query with its calendar named. */
  function StoreKey(site: Site, q: Query): Key {
    CacheKey(site, q.(calendar := Named(q.calendar)))
  }

  function ListAnswer(site: Site, s: State, q: Query, now: int, down: Option<string>): Result<seq<Event>, string> {
    match Cached(site, s.cache, q, now)
    case Some(Events(events)) => Ok(events)
    case _ => Uncached(site, s.calendars, q, down)
  }

  /** `later` is the time at which a fetched list is stored. */
  function AfterList(site: Site, s: State, q: Query, now: int, later: int, down: Option<string>, cap: nat): State
    requires cap > 0
  {
    var looked := AfterGet(s.cache, CacheKey(site, q), now);
    var fetched := Uncached(site, s.calendars, q, down);
    if Cached(site, s.cache, q, now).Some? || fetched.Err? then s.(cache := looked)
    else s.(cache := AfterSet(looked, Entry(StoreKey(site, q), Events(fetched.value), later + LIST_TTL), cap))
  }

  function AfterWrite(s: State, c: Change, down: Option<string>): State {
    var changed := Changed(s.calendars, c);
    if down.Some? || changed.None? then s
    else State(changed.value, AfterInvalidatePrefix(s.cache, PREFIX))
  }

  // ---------------------------------------------------------------- coherence

  /** A cache entry under the key of a query is the server's present answer to that query. */
  ghost predicate Truthful(site: Site, calendars: Calendars, e: Entry<Item>) {
    forall q :: e.key == CacheKey(site, q) ==>
      q.calendar != "" && e.value.Events? && site.list(calendars, Sent(q)) == Ok(e.value.events)
  }

  ghost predicate Coherent(site: Site, s: State) {
    Distinct(s.cache) && forall i :: 0 <= i < |s.cache| ==> Truthful(site, s.calendars, s.cache[i])
  }

  /** On a coherent cache, a hit is what the server would answer, and it is never a foreign value. */
  lemma HitIsTruthful(site: Site, s: State, q: Query, now: int)
    requires Coherent(site, s) && Cached(site, s.cache, q, now).Some?
    ensures var hit := Cached(site, s.cache, q, now).value;
            hit.Events? && site.list(s.calendars, Sent(q)) == Ok(hit.events) && q.calendar != ""
  {
    assert Truthful(site, s.calendars, s.cache[Index(s.cache, CacheKey(site, q))]);
  }

  lemma KeyText(site: Site, q: Query)
    ensures CacheKey(site, q).text == "calendar:ListEvents:" + site.digest(q)
  {
    assert LIST_PREFIX == "calendar:ListEvents:";
  }

  lemma ListKeysAreCalendarKeys(site: Site, q: Query)
    ensures PREFIX <= CacheKey(site, q).text
  {
    assert PREFIX + ("ListEvents:" + site.digest(q)) == CacheKey(site, q).text;
  }

  lemma CacheKeyInjective(site: Site, p: Query, q: Query)
    requires DigestInjective(site) && CacheKey(site, p) == CacheKey(site, q)
    ensures p == q
  {
    assert CacheKey(site, p).text[|LIST_PREFIX|..] == site.digest(p);
    assert CacheKey(site, q).text[|LIST_PREFIX|..] == site.digest(q);
  }

  /** The entry that ListEvents stores is truthful. */
  lemma FetchedIsTruthful(site: Site, calendars: Calendars, q: Query, events: seq<Event>, expiresAt: int)
    requires DigestInjective(site) && site.list(calendars, Sent(q)) == Ok(events)
    ensures Truthful(site, calendars, Entry(StoreKey(site, q), Events(events), expiresAt))
  {
    var named := q.(calendar := Named(q.calendar));
    forall p | StoreKey(site, q) == CacheKey(site, p)
      ensures p.calendar != "" && site.list(calendars, Sent(p)) == Ok(events)
    {
      CacheKeyInjective(site, p, named);
    }
  }

  lemma GetIsCoherent(site: Site, s: State, key: Key, now: int)
    requires Coherent(site, s)
    ensures Coherent(site, s.(cache := AfterGet(s.cache, key, now)))
  {
    GetKeeps(s.cache, key, now);
    var r, n := AfterGet(s.cache, key, now), Index(s.cache, key);
    forall i | 0 <= i < |r| ensures Truthful(site, s.calendars, r[i]) {
      assert r[i] in s.cache;
    }
  }

  lemma SetIsCoherent(site: Site, s: State, e: Entry<Item>, cap: nat)
    requires cap > 0 && |s.cache| <= cap && Coherent(site, s) && Truthful(site, s.calendars, e)
    ensures Coherent(site, s.(cache := AfterSet(s.cache, e, cap)))
  {
    SetKeeps(s.cache, e, cap);
    var r, n := AfterSet(s.cache, e, cap), Index(s.cache, e.key);
    forall i | 0 <= i < |r| ensures Truthful(site, s.calendars, r[i]) {
      assert r[i] == e || r[i] in s.cache;
    }
  }

  /** ListEvents keeps the cache coherent. */
  lemma ListIsCoherent(site: Site, s: State, q: Query, now: int, later: int, down: Option<string>, cap: nat)
    requires cap > 0 && |s.cache| <= cap && Coherent(site, s) && DigestInjective(site)
    ensures Coherent(site, AfterList(site, s, q, now, later, down, cap))
    ensures |AfterList(site, s, q, now, later, down, cap).cache| <= cap
  {
    var key := CacheKey(site, q);
    GetIsCoherent(site, s, key, now);
    GetKeeps(s.cache, key, now);
    var fetched := Uncached(site, s.calendars, q, down);
    if fetched.Ok? {
      var looked := s.(cache := AfterGet(s.cache, key, now));
      var e := Entry(StoreKey(site, q), Events(fetched.value), later + LIST_TTL);
      FetchedIsTruthful(site, s.calendars, q, fetched.value, later + LIST_TTL);
      SetIsCoherent(site, looked, e, cap);
      SetKeeps(looked.cache, e, cap);
    }
  }

  /** A write that the server accepts leaves no calendar key behind, so nothing stale. */
  lemma WriteIsCoherent(site: Site, s: State, c: Change, down: Option<string>)
    requires Coherent(site, s)
    ensures Coherent(site, AfterWrite(s, c, down)) && |AfterWrite(s, c, down).cache| <= |s.cache|
  {
    PrefixKeeps(s.cache, PREFIX);
    var r := AfterInvalidatePrefix(s.cache, PREFIX);
    forall i, q | 0 <= i < |r| ensures r[i].key != CacheKey(site, q) {
      var n := PrefixSurvivor(s.cache, PREFIX, i);
      ListKeysAreCalendarKeys(site, q);
    }
  }

  // ---------------------------------------------------------------- runs

  /** What can happen: a ListEvents, a write, or any use of the shared cache by other services. */
  datatype Action =
    | List(query: Query, now: int, later: int, down: Option<string>)
    | Write(change: Change, down: Option<string>)
    | Foreign(op: Op<Item>)

  /** Other services, and Agenda, never set a key of ListEvents. */
  ghost predicate KeepsOff(site: Site, a: Action) {
    a.Foreign? && a.op.Set? ==> forall q :: a.op.entry.key != CacheKey(site, q)
  }

  function Act(site: Site, s: State, a: Action, cap: nat): State
    requires cap > 0
  {
    match a
    case List(q, now, later, down) => AfterList(site, s, q, now, later, down, cap)
    case Write(c, down) => AfterWrite(s, c, down)
    case Foreign(op) => s.(cache := Apply(s.cache, op, cap))
  }

  function After(site: Site, start: State, actions: seq<Action>, cap: nat): State
    requires cap > 0
    decreases |actions|
  {
    if actions == [] then start
    else Act(site, After(site, start, actions[..|actions| - 1], cap), actions[|actions| - 1], cap)
  }

  lemma ForeignIsCoherent(site: Site, s: State, op: Op<Item>, cap: nat)
    requires cap > 0 && |s.cache| <= cap && Coherent(site, s) && KeepsOff(site, Foreign(op))
    ensures Coherent(site, s.(cache := Apply(s.cache, op, cap)))
  {
    match op
    case Get(key, now) => GetIsCoherent(site, s, key, now);
    case Set(e) => SetIsCoherent(site, s, e, cap);
    case Invalidate(key) =>
      ApplyKeeps(s.cache, op, cap);
      var r := AfterInvalidate(s.cache, key);
      forall i | 0 <= i < |r| ensures Truthful(site, s.calendars, r[i]) {
        assert r[i] in s.cache;
      }
    case InvalidatePrefix(prefix) =>
      PrefixKeeps(s.cache, prefix);
      var r := AfterInvalidatePrefix(s.cache, prefix);
      forall i | 0 <= i < |r| ensures Truthful(site, s.calendars, r[i]) {
        var n := PrefixSurvivor(s.cache, prefix, i);
      }
  }

  lemma {:induction false} RunIsCoherent(site: Site, start: State, actions: seq<Action>, cap: nat)
    requires cap > 0 && DigestInjective(site) && start.cache == []
    requires forall i :: 0 <= i < |actions| ==> KeepsOff(site, actions[i])
    ensures Coherent(site, After(site, start, actions, cap)) && |After(site, start, actions, cap).cache| <= cap
    decreases |actions|
  {
    if actions != [] {
      var before, a := actions[..|actions| - 1], actions[|actions| - 1];
      RunIsCoherent(site, start, before, cap);
      var s := After(site, start, before, cap);
      match a
      case List(q, now, later, down) => ListIsCoherent(site, s, q, now, later, down, cap);
      case Write(c, down) => WriteIsCoherent(site, s, c, down);
      case Foreign(op) =>
        ForeignIsCoherent(site, s, op, cap);
        ApplyKeeps(s.cache, op, cap);
    }
  }

  /**
   The cache is transparent: after any run, with any expiry and any eviction, ListEvents answers what it
   would answer without a cache, except that a hit also answers while the way to the server is down.
   */
  lemma TransparentCache(site: Site, start: State, actions: seq<Action>, cap: nat,
                         q: Query, now: int, down: Option<string>)
    requires cap > 0 && DigestInjective(site) && start.cache == []
    requires forall i :: 0 <= i < |actions| ==> KeepsOff(site, actions[i])
    ensures var s := After(site, start, actions, cap);
            var answer := ListAnswer(site, s, q, now, down);
            && (down.None? ==> answer == Uncached(site, s.calendars, q, None))
            && (answer.Ok? ==> answer == Uncached(site, s.calendars, q, None))
  {
    RunIsCoherent(site, start, actions, cap);
    var s := After(site, start, actions, cap);
    if Cached(site, s.cache, q, now).Some? {
      HitIsTruthful(site, s, q, now);
    }
  }

  /** The server goes through the same states as without a cache. */
  function ServerOnly(calendars: Calendars, actions: seq<Action>): Calendars
    decreases |actions|
  {
    if actions == [] then calendars
    else
      var before, a := ServerOnly(calendars, actions[..|actions| - 1]), actions[|actions| - 1];
      if a.Write? && a.down.None? && Changed(before, a.change).Some? then Changed(before, a.change).value else before
  }

  lemma {:induction false} CacheDoesNotReachTheServer(site: Site, start: State, actions: seq<Action>, cap: nat)
    requires cap > 0
    ensures After(site, start, actions, cap).calendars == ServerOnly(start.calendars, actions)
    decreases |actions|
  {
    if actions != [] {
      CacheDoesNotReachTheServer(site, start, actions[..|actions| - 1], cap);
    }
  }

  /**
   Lists are stored under the named calendar but looked up under the name as given, so asking for the
   default calendar by the empty name is correct but never served from the cache.
   */
  lemma EmptyNameNeverHits(site: Site, start: State, actions: seq<Action>, cap: nat, q: Query, now: int)
    requires cap > 0 && DigestInjective(site) && start.cache == [] && q.calendar == ""
    requires forall i :: 0 <= i < |actions| ==> KeepsOff(site, actions[i])
    ensures Cached(site, After(site, start, actions, cap).cache, q, now).None?
  {
    RunIsCoherent(site, start, actions, cap);
    var s := After(site, start, actions, cap);
    if Cached(site, s.cache, q, now).Some? {
      HitIsTruthful(site, s, q, now);
    }
  }

  /**
   And that is the only such name: after a ListEvents that fetched its answer, the same query is served from the
   cache exactly when it names its calendar and comes within the two minutes that the entry lives.
   */
  lemma ServedAgainExact(site: Site, s: State, q: Query, now: int, later: int, again: int, cap: nat)
    requires cap > 0 && |s.cache| <= cap && Coherent(site, s) && DigestInjective(site)
    requires Cached(site, s.cache, q, now).None? && Uncached(site, s.calendars, q, None).Ok?
    ensures var after := AfterList(site, s, q, now, later, None, cap);
            Cached(site, after.cache, q, again).Some? <==> q.calendar != "" && again <= later + 120_000_000_000
  {
    var after := AfterList(site, s, q, now, later, None, cap);
    ListIsCoherent(site, s, q, now, later, None, cap);
    if Cached(site, after.cache, q, again).Some? {
      HitIsTruthful(site, after, q, again);
    }
    if q.calendar != "" {
      assert q.(calendar := Named(q.calendar)) == q;
      assert Index(after.cache, CacheKey(site, q)) == 0;
    }
  }

  // ---------------------------------------------------------------- the service as it runs

  /** The calendar server, as far as this client can see it. */
  class Server {
    var calendars: Calendars

    constructor (calendars: Calendars)
      ensures this.calendars == calendars
    {
      this.calendars := calendars;
    }

    method Submit(c: Change, down: Option<string>) returns (r: Result<(), string>)
      modifies this
      ensures r.Ok? <==> down.None? && Changed(old(calendars), c).Some?
      ensures calendars == if r.Ok? then Changed(old(calendars), c).value else old(calendars)
    {
      if down.Some? {
        return Err(down.value);
      }
      var changed := Changed(calendars, c);
      if changed.None? {
        return Err("rejected");
      }
      calendars := changed.value;
      return Ok(());
    }
  }

  class Service {
    const site: Site
    const server: Server
    const cache: Cache<Item>
    const noCache: bool

    ghost predicate Valid()
      reads this, server, cache, cache.Repr
    {
      && cache.Valid() && server !in cache.Repr && this !in cache.Repr
      && (!noCache ==> Coherent(site, Now()))
    }

    ghost function Now(): State
      reads server, cache
    {
      State(server.calendars, cache.contents)
    }

    constructor (site: Site, server: Server, noCache: bool)
      ensures Valid() && fresh(cache.Repr) && this.server == server && this.noCache == noCache && this.site == site
      ensures Now() == State(server.calendars, [])
      ensures cache.maxEntries == 1024 && cache.defaultTTL == 300_000_000_000
    {
      this.site, this.server, this.noCache := site, server, noCache;
      var c := new Cache<Item>(1024, 300_000_000_000);
      this.cache := c;
    }

    /** calendar.go `ListEvents`. */
    method ListEvents(q: Query, now: int, later: int, down: Option<string>) returns (r: Result<seq<Event>, string>)
      requires Valid() && DigestInjective(site)
      modifies cache.Repr
      ensures Valid() && fresh(cache.Repr - old(cache.Repr))
      ensures Now() == if noCache then old(Now())
                       else AfterList(site, old(Now()), q, now, later, down, cache.maxEntries)
      ensures r == if noCache then Uncached(site, old(server.calendars), q, down)
                   else ListAnswer(site, old(Now()), q, now, down)
      ensures down.None? || r.Ok? ==> r == Uncached(site, server.calendars, q, None)
    {
      hide Index, AfterSet, AfterGet, Lookup, Coherent;
      if !noCache {
        ListIsCoherent(site, Now(), q, now, later, down, cache.maxEntries);
        var cached := cache.Get(CacheKey(site, q), now);
        if cached.Some? {
          HitIsTruthful(site, old(Now()), q, now);
          return Ok(cached.value.events);
        }
      }
      if down.Some? {
        return Err(down.value);
      }
      var calendarID := if q.calendar == "" then "primary" else q.calendar;
      r := site.list(server.calendars, Sent(q));
      if r.Ok? && !noCache {
        cache.Set(CacheKey(site, q.(calendar := calendarID)), Events(r.value), LIST_TTL, later);
      }
    }

    /** calendar.go `CreateEvent`, `UpdateEvent` and `DeleteEvent`, which differ in what they send. */
    method WriteEvent(c: Change, down: Option<string>) returns (r: Result<(), string>)
      requires Valid()
      modifies cache.Repr, server
      ensures Valid() && fresh(cache.Repr - old(cache.Repr))
      ensures r.Ok? <==> down.None? && Changed(old(server.calendars), c).Some?
      ensures Now() == if noCache then State(server.calendars, old(cache.contents))
                       else AfterWrite(old(Now()), c, down)
      ensures server.calendars == if r.Ok? then Changed(old(server.calendars), c).value else old(server.calendars)
      ensures r.Ok? && !noCache ==> cache.contents == AfterInvalidatePrefix(old(cache.contents), "calendar:")
    {
      if !noCache {
        WriteIsCoherent(site, Now(), c, down);
      }
      r := server.Submit(c, down);
      if r.Err? {
        return;
      }
      if !noCache {
        cache.InvalidatePrefix(PREFIX);
      }
    }
  }
}
