/**
 The slot search of internal/api/calendar.go lines 342-375. Times are integers (nanoseconds) on the local
 clock of one fixed zone, days counted from a Thursday; busy periods are arbitrary pairs of times.
 */
module FindSlot {

  const HOUR := 3_600_000_000_000
  const DAY := 24 * HOUR

  datatype Period = Period(start: int, end: int)

  function HourOf(t: int): (h: int)
    ensures 0 <= h < 24
  {
    t / HOUR % 24
  }

  function DayOf(t: int): int { t / HOUR / 24 }

  /** 0 is Sunday, 6 is Saturday. */
  function Weekday(day: int): int { (day + 4) % 7 }

  predicate Workday(t: int) { Weekday(DayOf(t)) != 6 && Weekday(DayOf(t)) != 0 }

  /** Inside [9:00, 18:00) on a weekday. */
  predicate Business(t: int) { 9 <= HourOf(t) < 18 && Workday(t) }

  predicate Overlaps(t: int, duration: int, p: Period) {
    t < p.end && t + duration > p.start
  }

  predicate Free(t: int, duration: int, busy: seq<Period>) {
    forall i :: 0 <= i < |busy| ==> !Overlaps(t, duration, busy[i])
  }

  /** The tests that a start time has to pass. */
  predicate Acceptable(t: int, duration: int, busy: seq<Period>) {
    Business(t) && HourOf(t + duration) <= 18 && Free(t, duration, busy)
  }

  function NextMorning(t: int): int { (DayOf(t) + 1) * DAY + 9 * HOUR }

  // ---------------------------------------------------------------- reading the clock

  function Clock(day: int, hour: int, rest: int): int { day * DAY + hour * HOUR + rest }

  lemma ClockOf(t: int)
    ensures t == Clock(DayOf(t), HourOf(t), t % HOUR) && 0 <= t % HOUR < HOUR
  {
    var hours := t / HOUR;
    assert t == hours * HOUR + t % HOUR;
    assert hours == hours / 24 * 24 + hours % 24;
  }

  lemma ClockAt(day: int, hour: int, rest: int)
    requires 0 <= hour < 24 && 0 <= rest < HOUR
    ensures var t := Clock(day, hour, rest); DayOf(t) == day && HourOf(t) == hour && t % HOUR == rest
  {
    var t, hours := Clock(day, hour, rest), 24 * day + hour;
    assert t == hours * HOUR + rest;
    assert t / HOUR == hours;
    assert hours / 24 == day && hours % 24 == hour;
  }

  /** Business time is from nine to six on every day of the week but its Saturday and Sunday; day 0 is a Thursday. */
  lemma BusinessByTheClock(day: int, hour: int, rest: int)
    requires 0 <= hour < 24 && 0 <= rest < HOUR
    ensures Business(Clock(day, hour, rest)) <==> 9 <= hour < 18 && day % 7 != 2 && day % 7 != 3
  {
    hide HourOf, DayOf;
    ClockAt(day, hour, rest);
    WeekOf(day);
  }

  lemma WeekOf(day: int)
    ensures Weekday(day) == 6 <==> day % 7 == 2
    ensures Weekday(day) == 0 <==> day % 7 == 3
  {}

  /** The next morning is nine o'clock of the next day. */
  lemma MorningByTheClock(day: int, hour: int, rest: int)
    requires 0 <= hour < 24 && 0 <= rest < HOUR
    ensures NextMorning(Clock(day, hour, rest)) == Clock(day + 1, 9, 0)
  {
    hide HourOf, DayOf;
    ClockAt(day, hour, rest);
  }

  // ---------------------------------------------------------------- what is free

  predicate Within(x: int, start: int, end: int) { start <= x < end }

  /** A slot overlaps a busy period exactly when some instant lies in both. */
  lemma OverlapsExactly(t: int, duration: int, p: Period)
    requires duration > 0 && p.start < p.end
    ensures Overlaps(t, duration, p) <==> exists x :: Within(x, t, t + duration) && Within(x, p.start, p.end)
  {
    if Overlaps(t, duration, p) {
      var x := if t < p.start then p.start else t;
      assert Within(x, t, t + duration) && Within(x, p.start, p.end);
    }
  }

  /** A period without an instant blocks the starts that would have it strictly inside the slot. */
  lemma EmptyPeriodsBlock(t: int, duration: int, p: Period)
    requires p.start == p.end
    ensures Overlaps(t, duration, p) <==> t < p.start < t + duration
  {}

  /** The instant is in none of the busy periods. */
  ghost predicate Idle(x: int, busy: seq<Period>) {
    forall i :: 0 <= i < |busy| ==> !Within(x, busy[i].start, busy[i].end)
  }

  /** So no instant of a free span lies in a busy period. */
  lemma FreeIsIdle(t: int, duration: int, busy: seq<Period>, x: int)
    requires Free(t, duration, busy) && Within(x, t, t + duration)
    ensures Idle(x, busy)
  {
    forall i | 0 <= i < |busy| ensures !Within(x, busy[i].start, busy[i].end) {
      assert !Overlaps(t, duration, busy[i]);
    }
  }

  // ---------------------------------------------------------------- what a cursor move passes over

  /** A busy jump passes over nothing acceptable. */
  lemma BusyJump(c: int, duration: int, busy: seq<Period>, i: nat, t: int)
    requires i < |busy| && Overlaps(c, duration, busy[i]) && c <= t < busy[i].end
    ensures !Acceptable(t, duration, busy)
  {
    hide HourOf, Business;
    assert Overlaps(t, duration, busy[i]);
  }

  /** The skip to the next morning passes over nothing acceptable, for durations up to six hours. */
  lemma EveningSkip(c: int, duration: int, busy: seq<Period>, t: int)
    requires 0 < duration <= 6 * HOUR && Business(c) && HourOf(c + duration) > 18 && c <= t < NextMorning(c)
    ensures !Acceptable(t, duration, busy)
  {
    hide HourOf, DayOf, Workday, Free;
    StaysInDay(c, duration);
    if Business(t) {
      ClockOf(c);
      ClockOf(t);
      assert DayOf(t) == DayOf(c);
      StaysInDay(t, duration);
      ClockOf(c + duration);
      ClockOf(t + duration);
    }
  }

  lemma StaysInDay(t: int, duration: int)
    requires 0 < duration <= 6 * HOUR && HourOf(t) < 18
    ensures DayOf(t + duration) == DayOf(t)
  {
    hide HourOf, DayOf;
    ClockOf(t);
    ClockOf(t + duration);
  }

  /** The step of one hour from `c` slips past nine o'clock: it starts in an eight o'clock hour, off the whole hour. */
  predicate Slips(c: int) { HourOf(c) == 8 && c % HOUR != 0 && Workday(c) }

  /** The next whole hour. */
  function NextHour(c: int): int { c + (HOUR - c % HOUR) }

  /** Outside business hours, the step of one hour passes over business time only when it slips, and then from nine. */
  lemma HourStep(c: int, t: int)
    requires !Business(c) && c <= t < c + HOUR
    ensures Business(t) <==> Slips(c) && NextHour(c) <= t
  {
    hide HourOf, DayOf;
    ClockOf(c);
    ClockOf(t);
    if Slips(c) && NextHour(c) <= t {
      assert DayOf(t) == DayOf(c) && HourOf(t) == 9;
    }
    if Business(t) {
      assert DayOf(t) == DayOf(c) && HourOf(t) == HourOf(c) + 1;
    }
  }

  /** So whether it passes over business time can be told from the cursor. */
  lemma HourStepExact(c: int)
    requires !Business(c)
    ensures (exists t :: c <= t < c + HOUR && Business(t)) <==> Slips(c)
  {
    hide Business, Slips;
    if Slips(c) {
      SlipsOffTheHour(c);
      assert c <= NextHour(c) < c + HOUR;
      HourStep(c, NextHour(c));
    }
    if t :| c <= t < c + HOUR && Business(t) {
      HourStep(c, t);
    }
  }

  lemma SlipsOffTheHour(c: int)
    requires Slips(c)
    ensures c % HOUR != 0
  {}

  // ---------------------------------------------------------------- the end of the day

  /** A slot of at most six hours ends on its own day, before 19:00. */
  lemma EndsSameDay(t: int, duration: int)
    requires 0 < duration <= 6 * HOUR && Business(t) && HourOf(t + duration) <= 18
    ensures DayOf(t + duration) == DayOf(t) && HourOf(t + duration) < 19
  {
    hide HourOf, DayOf, Workday;
    StaysInDay(t, duration);
  }

  /** The end-of-day test works for all starts exactly when the duration is at most six hours. */
  lemma EndOfDayTestExact(duration: int)
    requires duration > 0
    ensures duration <= 6 * HOUR <==>
            forall t :: Business(t) && HourOf(t + duration) <= 18 ==> DayOf(t + duration) == DayOf(t)
  {
    hide HourOf, DayOf, Business;
    if duration <= 6 * HOUR {
      forall t | Business(t) && HourOf(t + duration) <= 18 ensures DayOf(t + duration) == DayOf(t) {
        EndsSameDay(t, duration);
      }
    } else {
      var t := LongSlotPassesMidnight(duration);
      assert DayOf(t + duration) != DayOf(t);
    }
  }

  /** Longer ones wrap past midnight: some start is accepted although it ends on a later day. */
  lemma LongSlotPassesMidnight(duration: int) returns (t: int)
    requires duration > 6 * HOUR
    ensures Business(t) && HourOf(t + duration) <= 18 && DayOf(t + duration) > DayOf(t)
  {
    hide HourOf, DayOf;
    var monday := 4 * DAY;
    if duration <= 15 * HOUR {
      t := monday + DAY - duration;
      ClockAt(5, 0, 0);
    } else {
      t := monday + 9 * HOUR;
      if HourOf(t + duration) > 18 {
        FiveHoursLater(t + duration);
        t := monday + 14 * HOUR;
      }
    }
    ClockOf(t);
    ClockOf(t + duration);
    assert DayOf(t) == 4;
  }

  lemma FiveHoursLater(t: int)
    requires HourOf(t) > 18
    ensures HourOf(t + 5 * HOUR) < 5
  {
    hide HourOf, DayOf;
    ClockOf(t);
    ClockAt(DayOf(t) + 1, HourOf(t) - 19, t % HOUR);
  }

  // ---------------------------------------------------------------- the search

  datatype Slot = Slot(start: int, end: int)

  /** The first busy period in the way, or the number of periods. */
  function FirstOverlap(c: int, duration: int, busy: seq<Period>): (i: nat)
    ensures i <= |busy|
    ensures i < |busy| ==> Overlaps(c, duration, busy[i])
    ensures i == |busy| <==> Free(c, duration, busy)
  {
    if busy == [] then 0
    else if Overlaps(c, duration, busy[0]) then 0
    else
      assert Free(c, duration, busy[1..]) ==> Free(c, duration, busy);
      FirstOverlap(c, duration, busy[1..]) + 1
  }

  lemma MorningIsLater(c: int)
    ensures NextMorning(c) > c
  {
    hide HourOf;
    ClockOf(c);
  }

  /** Where the cursor goes when it is not itself a slot. */
  function MoveTo(c: int, duration: int, busy: seq<Period>): (next: int)
    requires !Acceptable(c, duration, busy)
    ensures next > c
  {
    MorningIsLater(c);
    if !Business(c) then c + HOUR
    else if HourOf(c + duration) > 18 then NextMorning(c)
    else busy[FirstOverlap(c, duration, busy)].end
  }

  /** The first `n` slots found from the cursor `c` on. */
  function Search(c: int, end: int, duration: int, busy: seq<Period>, n: nat): seq<Slot>
    decreases n, end - c
  {
    if c >= end || n == 0 then []
    else if Acceptable(c, duration, busy) then
      [Slot(c, c + duration)] + Search(c + duration, end, duration, busy, n - 1)
    else Search(MoveTo(c, duration, busy), end, duration, busy, n)
  }

  /** The cursor positions of that search. */
  function Visits(c: int, end: int, duration: int, busy: seq<Period>, n: nat): seq<int>
    decreases n, end - c
  {
    if c >= end || n == 0 then []
    else [c] + if Acceptable(c, duration, busy) then Visits(c + duration, end, duration, busy, n - 1)
               else Visits(MoveTo(c, duration, busy), end, duration, busy, n)
  }

  /** One turn of the loop: the cursor is a slot, or it moves. */
  method Move(cursor: int, duration: int, busy: seq<Period>) returns (next: int, found: bool)
    ensures found <==> Acceptable(cursor, duration, busy)
    ensures next == if found then cursor + duration else MoveTo(cursor, duration, busy)
  {
    hide HourOf, DayOf, Workday;
    if !Business(cursor) {
      return cursor + HOUR, false;
    }
    if HourOf(cursor + duration) > 18 {
      return NextMorning(cursor), false;
    }
    for i := 0 to |busy|
      invariant FirstOverlap(cursor, duration, busy) == i + FirstOverlap(cursor, duration, busy[i..])
    {
      assert busy[i..][1..] == busy[i + 1..];
      if cursor < busy[i].end && cursor + duration > busy[i].start {
        return busy[i].end, false;
      }
    }
    return cursor + duration, true;
  }

  /** calendar.go lines 342-375: for every duration the loop ends, with at most five good slots. */
  method FindSlots(start: int, end: int, duration: int, busy: seq<Period>) returns (slots: seq<Slot>)
    ensures slots == Search(start, end, duration, busy, 5)
    ensures |slots| <= 5 && GoodSlots(slots, start, end, duration, busy)
    ensures forall k, x :: 0 <= k < |slots| && Within(x, slots[k].start, slots[k].end) ==> Idle(x, busy)
    ensures 0 < duration <= 6 * HOUR ==>
              forall t :: Missed(t, start, end, duration, busy, slots, 5) <==> Slipped(t, start, end, duration, busy, 5)
  {
    hide Acceptable, MoveTo, GoodSlots, Missed, Slipped, Idle, Within;
    slots := [];
    var cursor := start;
    while cursor < end && |slots| < 5
      invariant |slots| <= 5
      invariant slots + Search(cursor, end, duration, busy, 5 - |slots|) == Search(start, end, duration, busy, 5)
      decreases 5 - |slots|, end - cursor
    {
      var next, found := Move(cursor, duration, busy);
      if found {
        ghost var rest := Search(next, end, duration, busy, 4 - |slots|);
        assert slots + ([Slot(cursor, next)] + rest) == slots + [Slot(cursor, next)] + rest;
        slots := slots + [Slot(cursor, next)];
      }
      cursor := next;
    }
    assert slots + [] == slots;
    SearchIsGood(start, end, duration, busy, 5);
    forall k, x | 0 <= k < |slots| && Within(x, slots[k].start, slots[k].end) ensures Idle(x, busy) {
      SlotIsIdle(slots, k, start, end, duration, busy, x);
    }
    if 0 < duration <= 6 * HOUR {
      forall t ensures Missed(t, start, end, duration, busy, slots, 5) <==> Slipped(t, start, end, duration, busy, 5) {
        MissedExactly(t, start, end, duration, busy, 5);
      }
    }
  }

  // ---------------------------------------------------------------- the slots are good

  /** Where the search for slot `k` starts. */
  function Resume(start: int, slots: seq<Slot>, k: nat): int
    requires k <= |slots|
  {
    if k == 0 then start else slots[k - 1].end
  }

  /** Slot `k` is acceptable and inside the window, and behind the one before it. */
  predicate GoodSlot(slots: seq<Slot>, k: nat, start: int, end: int, duration: int, busy: seq<Period>)
    requires k < |slots|
  {
    && Acceptable(slots[k].start, duration, busy) && slots[k].start < end
    && slots[k].end == slots[k].start + duration && Resume(start, slots, k) <= slots[k].start
  }

  lemma SlotIsIdle(slots: seq<Slot>, k: nat, start: int, end: int, duration: int, busy: seq<Period>, x: int)
    requires k < |slots| && GoodSlots(slots, start, end, duration, busy)
    requires Within(x, slots[k].start, slots[k].end)
    ensures Idle(x, busy)
  {
    hide Business, HourOf, Free;
    assert GoodSlot(slots, k, start, end, duration, busy);
    FreeIsIdle(slots[k].start, duration, busy, x);
  }

  ghost predicate GoodSlots(slots: seq<Slot>, start: int, end: int, duration: int, busy: seq<Period>) {
    forall k :: 0 <= k < |slots| ==> GoodSlot(slots, k, start, end, duration, busy)
  }

  lemma {:induction false} SearchIsGood(c: int, end: int, duration: int, busy: seq<Period>, n: nat)
    ensures GoodSlots(Search(c, end, duration, busy, n), c, end, duration, busy)
    ensures |Search(c, end, duration, busy, n)| <= n
    decreases n, end - c
  {
    hide Acceptable, MoveTo;
    if c < end && n > 0 {
      if Acceptable(c, duration, busy) {
        SearchIsGood(c + duration, end, duration, busy, n - 1);
        GoodBehind(c, Search(c + duration, end, duration, busy, n - 1), end, duration, busy);
      } else {
        var next := MoveTo(c, duration, busy);
        SearchIsGood(next, end, duration, busy, n);
        GoodEarlier(c, next, Search(next, end, duration, busy, n), end, duration, busy);
      }
    }
  }

  lemma GoodBehind(c: int, rest: seq<Slot>, end: int, duration: int, busy: seq<Period>)
    requires c < end && Acceptable(c, duration, busy) && GoodSlots(rest, c + duration, end, duration, busy)
    ensures GoodSlots([Slot(c, c + duration)] + rest, c, end, duration, busy)
  {
    hide Acceptable;
    var slots := [Slot(c, c + duration)] + rest;
    forall k | 0 <= k < |slots| ensures GoodSlot(slots, k, c, end, duration, busy) {
      if k > 0 {
        assert GoodSlot(rest, k - 1, c + duration, end, duration, busy);
        assert Resume(c, slots, k) == Resume(c + duration, rest, k - 1);
      }
    }
  }

  lemma GoodEarlier(c: int, next: int, slots: seq<Slot>, end: int, duration: int, busy: seq<Period>)
    requires c <= next && GoodSlots(slots, next, end, duration, busy)
    ensures GoodSlots(slots, c, end, duration, busy)
  {
    hide Acceptable;
    forall k | 0 <= k < |slots| ensures GoodSlot(slots, k, c, end, duration, busy) {
      assert GoodSlot(slots, k, next, end, duration, busy);
    }
  }

  /** The slots of positive duration do not overlap one another. */
  lemma {:induction false} SlotsAreDisjoint(slots: seq<Slot>, start: int, end: int, duration: int, busy: seq<Period>,
                                            i: nat, j: nat)
    requires GoodSlots(slots, start, end, duration, busy) && duration > 0 && i < j < |slots|
    ensures start <= slots[i].start && slots[i].end <= slots[j].start
    decreases j
  {
    hide Acceptable;
    assert GoodSlot(slots, j, start, end, duration, busy);
    if i < j - 1 {
      SlotsAreDisjoint(slots, start, end, duration, busy, i, j - 1);
      assert GoodSlot(slots, j - 1, start, end, duration, busy);
    } else {
      FirstNotBefore(slots, start, end, duration, busy, i);
    }
  }

  lemma {:induction false} FirstNotBefore(slots: seq<Slot>, start: int, end: int, duration: int, busy: seq<Period>,
                                          i: nat)
    requires GoodSlots(slots, start, end, duration, busy) && duration > 0 && i < |slots|
    ensures start <= slots[i].start
  {
    hide Acceptable;
    assert GoodSlot(slots, i, start, end, duration, busy);
    if i > 0 {
      FirstNotBefore(slots, start, end, duration, busy, i - 1);
      assert GoodSlot(slots, i - 1, start, end, duration, busy);
    }
  }

  // ---------------------------------------------------------------- what a search misses

  /** `t` is an acceptable start before slot `k` that is not the slot, or one left when fewer than `n` are found. */
  predicate MissedBefore(t: int, start: int, end: int, slots: seq<Slot>, n: nat, k: nat) {
    k <= |slots| && Resume(start, slots, k) <= t < end && if k < |slots| then t < slots[k].start else |slots| < n
  }

  ghost predicate Between(t: int, start: int, end: int, slots: seq<Slot>, n: nat) {
    exists k: nat :: MissedBefore(t, start, end, slots, n, k)
  }

  /** `t` shows that some slot is not the earliest one, or that not all slots were found. */
  ghost predicate Missed(t: int, start: int, end: int, duration: int, busy: seq<Period>, slots: seq<Slot>, n: nat) {
    Acceptable(t, duration, busy) && Between(t, start, end, slots, n)
  }

  /** The cursor slipped past `t` by a step of one hour. */
  ghost predicate Slipped(t: int, start: int, end: int, duration: int, busy: seq<Period>, n: nat) {
    Acceptable(t, duration, busy) && t < end && SomeSlip(t, Visits(start, end, duration, busy, n))
  }

  ghost predicate SomeSlip(t: int, visits: seq<int>) { exists c :: SlipsPast(c, t, visits) }

  predicate SlipsPast(c: int, t: int, visits: seq<int>) { c in visits && Slips(c) && c <= t < c + HOUR }

  /** A move passes over an acceptable start exactly when it slips past it. */
  lemma PassedOver(c: int, duration: int, busy: seq<Period>, t: int)
    requires 0 < duration <= 6 * HOUR && !Acceptable(c, duration, busy) && Acceptable(t, duration, busy)
    ensures c <= t < MoveTo(c, duration, busy) <==> Slips(c) && c <= t < c + HOUR
  {
    hide HourOf, DayOf, Workday;
    if !Business(c) {
      if c <= t < c + HOUR {
        HourStep(c, t);
      }
    } else if HourOf(c + duration) > 18 {
      if c <= t < NextMorning(c) {
        EveningSkip(c, duration, busy, t);
      }
    } else {
      var i := FirstOverlap(c, duration, busy);
      if c <= t < busy[i].end {
        BusyJump(c, duration, busy, i, t);
      }
    }
  }

  /** What is missed behind a found slot. */
  lemma MissedBehind(t: int, c: int, end: int, duration: int, rest: seq<Slot>, n: nat)
    requires n > 0
    ensures var slots := [Slot(c, c + duration)] + rest;
            Between(t, c, end, slots, n) <==> Between(t, c + duration, end, rest, n - 1)
  {
    var slots, c', n' := [Slot(c, c + duration)] + rest, c + duration, n - 1;
    if k: nat :| MissedBefore(t, c, end, slots, n, k) {
      assert MissedBefore(t, c', end, rest, n', k - 1);
    }
    if k: nat :| MissedBefore(t, c', end, rest, n', k) {
      assert MissedBefore(t, c, end, slots, n, k + 1);
    }
  }

  /** What is missed by a search whose cursor moves. */
  lemma MissedByMove(t: int, c: int, next: int, end: int, slots: seq<Slot>, n: nat)
    requires n > 0 && c <= next && (slots != [] ==> next <= slots[0].start)
    ensures Between(t, c, end, slots, n) <==> (c <= t < next && t < end) || Between(t, next, end, slots, n)
  {
    if k: nat :| MissedBefore(t, c, end, slots, n, k) {
      if k > 0 || next <= t {
        assert MissedBefore(t, next, end, slots, n, k);
      }
    }
    if k: nat :| MissedBefore(t, next, end, slots, n, k) {
      assert MissedBefore(t, c, end, slots, n, k);
    }
    if c <= t < next && t < end {
      assert MissedBefore(t, c, end, slots, n, 0);
    }
  }

  /**
   For durations up to six hours, the starts that a search misses are exactly those that a step of one hour
   slips past.
   */
  lemma {:induction false} MissedExactly(t: int, c: int, end: int, duration: int, busy: seq<Period>, n: nat)
    requires 0 < duration <= 6 * HOUR
    ensures Missed(t, c, end, duration, busy, Search(c, end, duration, busy, n), n) <==>
            Slipped(t, c, end, duration, busy, n)
    decreases n, end - c
  {
    hide Acceptable, MoveTo, Slips, Between, SomeSlip;
    if c >= end || n == 0 {
      NothingLeft(t, c, end, n);
    } else if Acceptable(t, duration, busy) {
      var visits := Visits(c, end, duration, busy, n);
      if Acceptable(c, duration, busy) {
        MissedExactly(t, c + duration, end, duration, busy, n - 1);
        MissedBehind(t, c, end, duration, Search(c + duration, end, duration, busy, n - 1), n);
        SlotsDoNotSlip(c, duration, busy);
        SlippedBehind(t, c, visits, Visits(c + duration, end, duration, busy, n - 1));
      } else {
        var next := MoveTo(c, duration, busy);
        MissedExactly(t, next, end, duration, busy, n);
        SearchIsLater(next, end, duration, busy, n);
        MissedByMove(t, c, next, end, Search(next, end, duration, busy, n), n);
        PassedOver(c, duration, busy, t);
        SlippedBehind(t, c, visits, Visits(next, end, duration, busy, n));
      }
    }
  }

  lemma NothingLeft(t: int, c: int, end: int, n: nat)
    requires c >= end || n == 0
    ensures !Between(t, c, end, [], n) && !SomeSlip(t, [])
  {}

  lemma SlotsDoNotSlip(c: int, duration: int, busy: seq<Period>)
    requires Acceptable(c, duration, busy)
    ensures !Slips(c)
  {}

  lemma SlippedBehind(t: int, c: int, visits: seq<int>, rest: seq<int>)
    requires visits == [c] + rest
    ensures SomeSlip(t, visits) <==> (Slips(c) && c <= t < c + HOUR) || SomeSlip(t, rest)
  {
    hide Slips;
    if c' :| SlipsPast(c', t, visits) {
      assert c' != c ==> SlipsPast(c', t, rest);
    }
    if c' :| SlipsPast(c', t, rest) {
      assert SlipsPast(c', t, visits);
    }
    if Slips(c) && c <= t < c + HOUR {
      assert SlipsPast(c, t, visits);
    }
  }

  lemma SearchIsLater(c: int, end: int, duration: int, busy: seq<Period>, n: nat)
    ensures var slots := Search(c, end, duration, busy, n); slots != [] ==> c <= slots[0].start
  {
    hide Acceptable, Search;
    SearchIsGood(c, end, duration, busy, n);
    var slots := Search(c, end, duration, busy, n);
    if slots != [] {
      assert GoodSlot(slots, 0, c, end, duration, busy);
    }
  }

  /** So a search can return a slot that is not the earliest: from any cursor that slips, with nothing busy. */
  lemma SlipReturnsALateSlot(c: int, end: int, duration: int, n: nat)
    requires Slips(c) && 0 < duration <= 6 * HOUR && c + HOUR < end && n > 0
    ensures Acceptable(NextHour(c), duration, []) && c < NextHour(c) < c + HOUR
    ensures var slots := Search(c, end, duration, [], n); slots != [] && slots[0].start == c + HOUR
  {
    hide HourOf, DayOf;
    ClockOf(c);
    NineIsAcceptable(DayOf(c), 0, duration);
    NineIsAcceptable(DayOf(c), c % HOUR, duration);
    hide Acceptable;
    assert !Business(c);
    assert MoveTo(c, duration, []) == c + HOUR;
  }

  /** Nine o'clock hours of workdays are long before the end of the day. */
  lemma NineIsAcceptable(day: int, rest: int, duration: int)
    requires 0 <= rest < HOUR && 0 < duration <= 6 * HOUR && Weekday(day) != 0 && Weekday(day) != 6
    ensures Acceptable(Clock(day, 9, rest), duration, [])
  {
    hide HourOf, DayOf;
    var t := Clock(day, 9, rest);
    ClockAt(day, 9, rest);
    ClockOf(t + duration);
    assert DayOf(t + duration) == day;
  }
}
