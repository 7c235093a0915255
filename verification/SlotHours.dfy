/**
 When the slot search of internal/api/calendar.go (lines 342-375) can miss a start. It begins at a whole hour of
 absolute time (line 311), which is a whole hour of the local clock just in the zones that are whole hours off;
 elsewhere it begins at a fixed offset into the local hour. Whether it never misses a start, whatever the busy
 periods that end on whole hours, can be told from that offset and the duration.
 */
module SlotHours {
  import opened FindSlot

  predicate WholeEnds(busy: seq<Period>) { forall i :: 0 <= i < |busy| ==> busy[i].end % HOUR == 0 }

  /** Some slot is not the earliest, or not all slots were found. */
  ghost predicate Misses(start: int, end: int, duration: int, busy: seq<Period>) {
    exists t :: Missed(t, start, end, duration, busy, Search(start, end, duration, busy, 5), 5)
  }

  /** For all searches that begin at this offset into an hour. */
  ghost predicate NeverMisses(duration: int, offset: int) {
    forall start, end, busy ::
      start % HOUR == offset && WholeEnds(busy) ==> !Misses(start, end, duration, busy)
  }

  /** Whole hours, a divisor of the hour, or so short that five slots do not fill an hour's worth of starts. */
  predicate FitsTheHour(duration: int)
    requires duration > 0
  {
    duration % HOUR == 0 || HOUR % duration == 0 || 4 * duration < HOUR
  }

  // ---------------------------------------------------------------- durations that fit

  /** Off the whole hour the cursor is in business hours, where the slots before it have put it. */
  predicate Steady(c: int, duration: int, n: nat)
    requires duration > 0
  {
    || c % HOUR == 0
    || (Business(c) && (InStep(c % HOUR, duration) || (4 * duration < HOUR && c % HOUR <= (5 - n) * duration)))
  }

  /** A whole number of slots into an hour that holds a whole number of slots. */
  predicate InStep(offset: int, duration: int)
    requires duration > 0
  {
    HOUR % duration == 0 && offset % duration == 0
  }

  lemma SteadyDoesNotSlip(c: int, duration: int, n: nat)
    requires duration > 0 && Steady(c, duration, n)
    ensures !Slips(c)
  {}

  lemma StepOn(offset: int, duration: int)
    requires duration > 0 && 0 <= offset < HOUR && InStep(offset, duration)
    ensures offset + duration <= HOUR && InStep(offset + duration, duration)
  {
    var q, m := offset / duration, HOUR / duration;
    assert offset == q * duration && HOUR == m * duration;
    if q >= m {
      TimesMonotone(m, q, duration);
      assert false;
    }
    TimesMonotone(q + 1, m, duration);
    assert offset + duration == (q + 1) * duration;
    MultipleOf(q + 1, duration);
  }

  lemma TimesMonotone(a: int, b: int, d: int)
    requires a <= b && d > 0
    ensures a * d <= b * d
  {}

  lemma MultipleOf(q: int, d: int)
    requires d > 0
    ensures q * d % d == 0
  {
    var p := q * d;
    var more := q - p / d;
    assert p == p / d * d + p % d;
    assert more * d == p % d;
    if more >= 1 {
      TimesMonotone(1, more, d);
      assert false;
    }
    if more <= -1 {
      TimesMonotone(more, -1, d);
      assert false;
    }
  }

  /** Inside one hour nothing but the offset changes; at its end the hour is whole. */
  lemma WithinHour(c: int, duration: int)
    requires duration > 0 && c % HOUR + duration <= HOUR
    ensures if c % HOUR + duration == HOUR then (c + duration) % HOUR == 0
            else (c + duration) % HOUR == c % HOUR + duration && (Business(c) ==> Business(c + duration))
  {
    hide HourOf, DayOf;
    ClockOf(c);
    if c % HOUR + duration == HOUR {
      if HourOf(c) < 23 {
        ClockAt(DayOf(c), HourOf(c) + 1, 0);
      } else {
        ClockAt(DayOf(c) + 1, 0, 0);
      }
    } else {
      ClockAt(DayOf(c), HourOf(c), c % HOUR + duration);
    }
  }

  /** A found slot leaves the cursor steady. */
  lemma SteadyBehindSlot(c: int, duration: int, n: nat)
    requires duration > 0 && FitsTheHour(duration) && Steady(c, duration, n) && Business(c) && 1 < n <= 5
    ensures Steady(c + duration, duration, n - 1)
  {
    hide Business;
    if duration % HOUR == 0 {
      WholeStaysWhole(c, duration, n);
    }
    if HOUR % duration == 0 {
      ZeroInStep(duration);
      if InStep(c % HOUR, duration) {
        StepOn(c % HOUR, duration);
        WithinHour(c, duration);
      }
    }
    if 4 * duration < HOUR && c % HOUR <= (5 - n) * duration {
      assert c % HOUR + duration <= (5 - (n - 1)) * duration <= 4 * duration;
      WithinHour(c, duration);
    }
  }

  lemma ZeroInStep(duration: int)
    requires duration > 0 && HOUR % duration == 0
    ensures InStep(0, duration)
  {}

  lemma WholeStaysWhole(c: int, duration: int, n: nat)
    requires duration > 0 && duration % HOUR == 0 && Steady(c, duration, n)
    ensures c % HOUR == 0 && (c + duration) % HOUR == 0
  {
    assert duration >= HOUR;
    if HOUR % duration == 0 {
      assert duration == HOUR;
    }
  }

  /** So does a move. */
  lemma SteadyBehindMove(c: int, duration: int, busy: seq<Period>, n: nat)
    requires duration > 0 && Steady(c, duration, n) && WholeEnds(busy) && !Acceptable(c, duration, busy)
    ensures MoveTo(c, duration, busy) % HOUR == 0
  {
    if Business(c) {
      ClockAt(DayOf(c) + 1, 9, 0);
    }
  }

  lemma {:induction false} SteadySearch(c: int, end: int, duration: int, busy: seq<Period>, n: nat, v: int)
    requires duration > 0 && FitsTheHour(duration) && WholeEnds(busy) && n <= 5 && Steady(c, duration, n)
    requires v in Visits(c, end, duration, busy, n)
    ensures !Slips(v)
    decreases n, end - c
  {
    hide Steady, FitsTheHour, Business, Slips;
    SteadyDoesNotSlip(c, duration, n);
    if v != c {
      if Acceptable(c, duration, busy) {
        SteadyBehindSlot(c, duration, n);
        SteadySearch(c + duration, end, duration, busy, n - 1, v);
      } else {
        SteadyBehindMove(c, duration, busy, n);
        WholeIsSteady(MoveTo(c, duration, busy), duration, n);
        SteadySearch(MoveTo(c, duration, busy), end, duration, busy, n, v);
      }
    }
  }

  lemma WholeIsSteady(c: int, duration: int, n: nat)
    requires duration > 0 && c % HOUR == 0
    ensures Steady(c, duration, n)
  {}

  lemma FittingNeverMisses(duration: int)
    requires 0 < duration <= 6 * HOUR && FitsTheHour(duration)
    ensures NeverMisses(duration, 0)
  {
    hide FitsTheHour, Missed, Slips;
    forall start, end, busy | start % HOUR == 0 && WholeEnds(busy) ensures !Misses(start, end, duration, busy) {
      if t :| Missed(t, start, end, duration, busy, Search(start, end, duration, busy, 5), 5) {
        MissedExactly(t, start, end, duration, busy, 5);
        var c :| SlipsPast(c, t, Visits(start, end, duration, busy, 5));
        WholeIsSteady(start, duration, 5);
        SteadySearch(start, end, duration, busy, 5, c);
        assert false;
      }
    }
  }

  // ---------------------------------------------------------------- durations that do not

  const MONDAY := 4
  const TUESDAY := 5
  const UNTIL := TUESDAY * DAY + 10 * HOUR

  /** After `k` more slots in Monday's five o'clock hour the cursor is in the six o'clock hour, off the whole hour. */
  lemma {:induction false} FillTheHour(offset: int, duration: int, k: nat, n: nat, rest: int, v: int)
    requires 0 <= offset < HOUR && 0 < rest < duration < HOUR && 1 <= k < n
    requires offset + Times(k, duration) == HOUR + rest
    requires v in Visits(Clock(MONDAY, 18, rest), UNTIL, duration, [], n - k)
    ensures v in Visits(Clock(MONDAY, 17, offset), UNTIL, duration, [], n)
    decreases k
  {
    hide HourOf, DayOf, Acceptable, Visits, Times;
    FiveIsAcceptable(offset, duration);
    FewerSlots(k, duration);
    var c := Clock(MONDAY, 17, offset);
    if k == 1 {
      assert c + duration == Clock(MONDAY, 18, rest);
    } else {
      FillTheHour(offset + duration, duration, k - 1, n - 1, rest, v);
      assert c + duration == Clock(MONDAY, 17, offset + duration);
    }
    VisitsOn(c, UNTIL, duration, [], n, v);
  }

  /** What the search visits behind a slot, it visits. */
  lemma VisitsOn(c: int, end: int, duration: int, busy: seq<Period>, n: nat, v: int)
    requires c < end && n > 0 && Acceptable(c, duration, busy)
    requires v in Visits(c + duration, end, duration, busy, n - 1)
    ensures v in Visits(c, end, duration, busy, n)
  {}

  lemma FewerSlots(k: nat, duration: int)
    requires k >= 1 && duration > 0
    ensures Times(k, duration) == Times(k - 1, duration) + duration
    ensures if k > 1 then Times(k - 1, duration) >= duration else Times(k, duration) == duration
  {
    if k > 1 {
      TimesMonotone(1, k - 1, duration);
    }
  }

  function Times(k: nat, duration: int): int { k * duration }

  lemma FiveIsAcceptable(offset: int, duration: int)
    requires 0 <= offset < HOUR && 0 < duration < HOUR
    ensures Acceptable(Clock(MONDAY, 17, offset), duration, [])
  {
    hide HourOf, DayOf;
    ClockAt(MONDAY, 17, offset);
    if offset + duration < HOUR {
      ClockAt(MONDAY, 17, offset + duration);
    } else {
      ClockAt(MONDAY, 18, offset + duration - HOUR);
    }
  }

  /** From there the steps of one hour go through the night and slip past nine o'clock. */
  lemma {:induction false} ThroughTheNight(rest: int, duration: int, n: nat, j: nat)
    requires 0 < rest < HOUR && n >= 1 && j <= 14
    ensures Clock(TUESDAY, 8, rest) in Visits(Clock(MONDAY, 18 + j, rest), UNTIL, duration, [], n)
    decreases 14 - j
  {
    hide HourOf, DayOf, Free;
    var c := Clock(MONDAY, 18 + j, rest);
    if j < 14 {
      if j < 6 {
        ClockAt(MONDAY, 18 + j, rest);
      } else {
        ClockAt(TUESDAY, j - 6, rest);
        assert c == Clock(TUESDAY, j - 6, rest);
      }
      assert !Business(c) && MoveTo(c, duration, []) == Clock(MONDAY, 18 + (j + 1), rest);
      ThroughTheNight(rest, duration, n, j + 1);
    } else {
      assert c == Clock(TUESDAY, 8, rest);
    }
  }

  /** A search that comes into that hour misses Tuesday's nine o'clock. */
  lemma MissesTuesday(start: int, duration: int, busy: seq<Period>, rest: int)
    requires 0 < rest < HOUR && 0 < duration <= 6 * HOUR && Acceptable(Clock(TUESDAY, 9, 0), duration, busy)
    requires Clock(TUESDAY, 8, rest) in Visits(start, UNTIL, duration, busy, 5)
    ensures Misses(start, UNTIL, duration, busy)
  {
    hide HourOf, DayOf, Acceptable, Missed;
    var c, t := Clock(TUESDAY, 8, rest), Clock(TUESDAY, 9, 0);
    ClockAt(TUESDAY, 8, rest);
    assert SlipsPast(c, t, Visits(start, UNTIL, duration, busy, 5));
    MissedExactly(t, start, UNTIL, duration, busy, 5);
  }

  lemma ShortMisses(duration: int, k: nat)
    requires 0 < duration < HOUR && 2 <= k <= 4 && HOUR < k * duration && (k - 1) * duration < HOUR
    ensures Misses(Clock(MONDAY, 17, 0), UNTIL, duration, [])
  {
    hide Misses;
    var rest := k * duration - HOUR;
    assert (k - 1) * duration == k * duration - duration;
    assert Clock(MONDAY, 18 + 0, rest) == Clock(MONDAY, 18, rest);
    ThroughTheNight(rest, duration, 5 - k, 0);
    FillTheHour(0, duration, k, 5, rest, Clock(TUESDAY, 8, rest));
    NineIsAcceptable(TUESDAY, 0, duration);
    MissesTuesday(Clock(MONDAY, 17, 0), duration, [], rest);
  }

  lemma LongMisses(duration: int)
    requires HOUR < duration <= 6 * HOUR && duration % HOUR != 0
    ensures Misses(Clock(MONDAY, 18 - duration / HOUR, 0), UNTIL, duration, [])
  {
    hide HourOf, DayOf, Misses;
    var q, rest := duration / HOUR, duration % HOUR;
    assert duration == q * HOUR + rest && 1 <= q <= 5;
    var start := Clock(MONDAY, 18 - q, 0);
    ClockAt(MONDAY, 18 - q, 0);
    ClockAt(MONDAY, 18, rest);
    assert start + duration == Clock(MONDAY, 18, rest) == Clock(MONDAY, 18 + 0, rest);
    assert Acceptable(start, duration, []);
    ThroughTheNight(rest, duration, 4, 0);
    NineIsAcceptable(TUESDAY, 0, duration);
    MissesTuesday(start, duration, [], rest);
  }

  /** A duration that does not fit gives a whole-hour start from which, with nothing busy, a slot is late. */
  lemma UnfittingMisses(duration: int) returns (start: int)
    requires 0 < duration <= 6 * HOUR && !FitsTheHour(duration)
    ensures start % HOUR == 0 && Misses(start, UNTIL, duration, [])
  {
    hide Misses;
    if duration > HOUR {
      LongMisses(duration);
      start := Clock(MONDAY, 18 - duration / HOUR, 0);
    } else {
      NotAPart(duration);
      if 2 * duration > HOUR {
        ShortMisses(duration, 2);
      } else if 3 * duration > HOUR {
        ShortMisses(duration, 3);
      } else {
        ShortMisses(duration, 4);
      }
      start := Clock(MONDAY, 17, 0);
    }
  }

  lemma NotAPart(duration: int)
    requires 0 < duration && HOUR % duration != 0
    ensures duration != HOUR && 2 * duration != HOUR && 3 * duration != HOUR && 4 * duration != HOUR
  {
    MultipleOf(1, duration);
    MultipleOf(2, duration);
    MultipleOf(3, duration);
    MultipleOf(4, duration);
  }

  /** A search that begins off the whole hour misses nine o'clock on a Tuesday, with nothing busy. */
  lemma OffHourStartMisses(duration: int, offset: int)
    requires 0 < duration <= 6 * HOUR && 0 < offset < HOUR
    ensures Misses(Clock(TUESDAY, 8, offset), UNTIL, duration, [])
  {
    hide HourOf, DayOf, Misses;
    NineIsAcceptable(TUESDAY, 0, duration);
    MissesTuesday(Clock(TUESDAY, 8, offset), duration, [], offset);
  }

  /**
   Up to six hours: from starts at an offset into the hour, and with busy periods that end on whole hours, every
   search finds the earliest slots and all of them, exactly when it begins on the hour and the duration fits it.
   */
  lemma NeverMissesExact(duration: int, offset: int)
    requires 0 < duration <= 6 * HOUR && 0 <= offset < HOUR
    ensures NeverMisses(duration, offset) <==> offset == 0 && FitsTheHour(duration)
  {
    hide FitsTheHour, Misses, HourOf, DayOf;
    var none: seq<Period> := [];
    assert WholeEnds(none);
    if offset != 0 {
      var start := Clock(TUESDAY, 8, offset);
      ClockAt(TUESDAY, 8, offset);
      OffHourStartMisses(duration, offset);
      assert Misses(start, UNTIL, duration, none);
    } else if FitsTheHour(duration) {
      FittingNeverMisses(duration);
    } else {
      var start := UnfittingMisses(duration);
      assert Misses(start, UNTIL, duration, none);
    }
  }

  /** Busy periods that end off the whole hour can make a search of any duration miss a start. */
  lemma OffHourEndMisses(duration: int)
    requires 0 < duration <= 6 * HOUR
    ensures Misses(Clock(MONDAY, 9, 0), UNTIL, duration,
                   [Period(Clock(MONDAY, 9, 0), Clock(TUESDAY, 8, HOUR / 2))])
  {
    hide HourOf, DayOf, Misses;
    var start, back := Clock(MONDAY, 9, 0), Clock(TUESDAY, 8, HOUR / 2);
    var busy := [Period(start, back)];
    ClockAt(MONDAY, 9, 0);
    ClockOf(start + duration);
    StaysInDay(start, duration);
    assert Overlaps(start, duration, busy[0]);
    assert !Acceptable(start, duration, busy) && MoveTo(start, duration, busy) == back;
    NineIsAcceptable(TUESDAY, 0, duration);
    assert Acceptable(Clock(TUESDAY, 9, 0), duration, busy);
    MissesTuesday(start, duration, busy, HOUR / 2);
  }
}
