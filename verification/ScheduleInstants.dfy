/** The declared schedules as conditions on an instant alone: what its clock, its local day and its date have
    to be, in the rule's own zone. */
module ScheduleInstants {
  import opened Wrappers
  import opened Arithmetic
  import opened Calendar
  import opened Recurrence
  import opened Schedule

  /** Seconds east of UTC; a zone that is not given, or cannot be loaded, is UTC. */
  function East(rule: Rule): int {
    match rule.timezone
    case Zone(offset) => offset
    case UnsetZone | UnloadableZone => 0
  }

  function Every(rule: Rule): int {
    if rule.interval >= 1 then rule.interval else 1
  }

  // ---------- Instants of a day ----------

  /** An instant is a local day, a clock in seconds, and a rest that `At` leaves out. */
  lemma AtMeans(day: int, clock: int, offset: int, t: Instant)
    requires 0 <= clock < 86_400
    ensures t == At(day, clock, offset)
       <==> t % 1_000_000_000 == 0 && LocalDay(t, offset) == day && ClockOf(t, offset) == clock
  {
    var local := t + offset * SECOND;
    if t == At(day, clock, offset) {
      LocalOfAt(day, clock, offset);
      Remainder(t, day * DAY_SECONDS + clock - offset, 0);
    } else if t % SECOND == 0 && LocalDay(t, offset) == day && ClockOf(t, offset) == clock {
      Remainder(local, t / SECOND + offset, 0);
      WholeSecondOfDay(local);
    }
  }

  lemma WholeSecondOfDay(local: int)
    requires local % SECOND == 0
    ensures local == local / DAY * DAY + (local % DAY) / SECOND * SECOND
  {
    var rest := local % DAY;
    assert local == local / DAY * DAY + rest;
    assert rest == local - local / DAY * DAY_SECONDS * SECOND;
    Remainder(rest, local / SECOND - local / DAY * DAY_SECONDS, 0);
  }

  // ---------- Minutes and hours ----------

  lemma FixedMeans(anchor: Instant, rule: Rule, t: Instant)
    requires rule.frequency == Minute || rule.frequency == Hour
    ensures Scheduled(anchor, rule, t)
       <==> var step := Every(rule) * if rule.frequency == Minute then 60_000_000_000 else 3_600_000_000_000;
            t >= anchor && step > 0 && (t - anchor) % step == 0
  {
    var step := Step(rule);
    assert step == Every(rule) * if rule.frequency == Minute then 60_000_000_000 else 3_600_000_000_000;
    if k: nat :| t == anchor + k * step {
      MultipleHasNoRemainder(k, step);
      ProductAtLeast(k, 0, step);
    }
    if t >= anchor && (t - anchor) % step == 0 {
      Division(t - anchor, step);
      assert t == anchor + (t - anchor) / step * step;
    }
  }

  // ---------- Days ----------

  /** A daily rule schedules the anchor's clock, in whole seconds, every so many local days from its day on. */
  lemma DailyMeans(anchor: Instant, rule: Rule, t: Instant)
    requires rule.frequency == Day
    ensures Scheduled(anchor, rule, t)
       <==> var days := LocalDay(t, East(rule)) - LocalDay(anchor, East(rule));
            && t % 1_000_000_000 == 0 && ClockOf(t, East(rule)) == ClockOf(anchor, East(rule))
            && days >= 0 && days % Every(rule) == 0
  {
    var interval, clock := Every(rule), ClockOf(anchor, East(rule));
    var first := LocalDay(anchor, East(rule));
    hide At, LocalDay, ClockOf;
    forall k: nat
      ensures t == DailyAt(anchor, rule, k)
         <==> t % 1_000_000_000 == 0 && LocalDay(t, East(rule)) == first + k * interval
              && ClockOf(t, East(rule)) == clock
    {
      AtMeans(first + k * interval, clock, East(rule), t);
    }
    if k: nat :| t == DailyAt(anchor, rule, k) {
      MultipleFromZero(k, interval);
    }
    var days := LocalDay(t, East(rule)) - first;
    Division(days, interval);
    if days >= 0 && days % interval == 0 && !Scheduled(anchor, rule, t) {
      assert t != DailyAt(anchor, rule, days / interval);
    }
  }

  lemma MultipleFromZero(k: nat, m: int)
    requires m > 0
    ensures k * m >= 0 && (k * m) % m == 0
  {
    MultipleHasNoRemainder(k, m);
    ProductAtLeast(k, 0, m);
  }

  // ---------- Weeks ----------

  /** A weekly rule schedules the anchor's clock on its weekdays, or the anchor's own, in every so many weeks
      before and after the anchor's. Day 0 is a Monday. */
  lemma WeeklyMeans(anchor: Instant, rule: Rule, t: Instant)
    requires rule.frequency == Week
    ensures Scheduled(anchor, rule, t)
       <==> var day, first := LocalDay(t, East(rule)), LocalDay(anchor, East(rule));
            && t % 1_000_000_000 == 0 && ClockOf(t, East(rule)) == ClockOf(anchor, East(rule))
            && (if rule.weekdays == [] then Weekday(day) == Weekday(first) else Weekday(day) in rule.weekdays)
            && (day / 7 - first / 7) % Every(rule) == 0
  {
    var clock := ClockOf(anchor, East(rule));
    hide At, LocalDay, ClockOf, Weekday;
    forall day: int
      ensures t == WeeklyAt(anchor, rule, day)
         <==> t % 1_000_000_000 == 0 && LocalDay(t, East(rule)) == day && ClockOf(t, East(rule)) == clock
    {
      AtMeans(day, clock, East(rule), t);
    }
    assert Scheduled(anchor, rule, t)
      <==> t == WeeklyAt(anchor, rule, LocalDay(t, East(rule))) && OnWeek(anchor, rule, LocalDay(t, East(rule)));
  }

  // ---------- Months and years ----------

  /** The day of the month that a rule's mode names: the anchor's, or the last of a shorter month; the last;
      the nth of its weekday, counted in weeks from the first of the month, or one with no other after it. */
  predicate DayFits(rule: Rule, anchorDay: int, month: int, d: int) {
    var length := MonthLength(month);
    match rule.mode
    case UnsetMode | DayOfMonth => d == if anchorDay <= length then anchorDay else length
    case LastDayOfMonth => d == length
    case NthWeekday =>
      && Weekday(DayNumber(month, d)) == rule.weekday
      && (if rule.nth == -1 then d + 7 > length else (d - 1) / 7 + 1 == rule.nth)
    case UnknownMode => false
  }

  lemma DayFitsExactly(rule: Rule, anchorDay: int, month: int, d: int)
    requires 1 <= d <= MonthLength(month) && anchorDay >= 1
    ensures DayFits(rule, anchorDay, month, d) <==> OnMonthDay(month, rule, anchorDay, d)
  {
    hide DayNumber, Weekday, MonthLength;
    if rule.mode == NthWeekday && Weekday(DayNumber(month, d)) == rule.weekday {
      WeekdayInMonth(month, d, d);
      if rule.nth == -1 {
        NoneLater(month, rule.weekday, d);
      } else {
        NthIsByWeeks(month, rule.weekday, d);
      }
    }
  }

  lemma NoneLater(month: int, weekday: int, d: int)
    requires 1 <= d <= MonthLength(month) && Weekday(DayNumber(month, d)) == weekday
    ensures d + 7 > MonthLength(month)
       <==> forall e :: d < e <= MonthLength(month) ==> Weekday(DayNumber(month, e)) != weekday
  {
    hide DayNumber, Weekday, MonthLength;
    forall e | d < e <= d + 7
      ensures Weekday(DayNumber(month, e)) == weekday <==> e == d + 7
    {
      WeekdayInMonth(month, d, e);
    }
    assert Weekday(DayNumber(month, d + 7)) == weekday;
  }

  /** The days on one weekday are counted by weeks. */
  lemma NthIsByWeeks(month: int, weekday: int, d: int)
    requires 1 <= d <= MonthLength(month) && 0 <= weekday <= 6 && Weekday(DayNumber(month, d)) == weekday
    ensures CountWeekday(month, weekday, d) == (d - 1) / 7 + 1
  {
    hide DayNumber, Weekday, MonthLength, Lead, CountWeekday;
    LeadBounds(month, weekday);
    OnWeekdayInMonth(month, weekday, d);
    CountWeekdayClosedForm(month, weekday, d);
    ByWeeks(d, Lead(month, weekday));
  }

  lemma ByWeeks(d: int, lead: int)
    requires 0 <= lead <= 6 && (d - 1 - lead) % 7 == 0
    ensures (d + 6 - lead) / 7 == (d - 1) / 7 + 1
  {
    var q := (d - 1 - lead) / 7;
    DivisionIsUnique(d - 1, 7, q, lead);
    DivisionIsUnique(d + 6 - lead, 7, q + 1, 0);
  }

  /** The anchor's clock in one of every so many months from the anchor's on, on the day the mode names. */
  predicate MonthlyAt(anchor: Instant, rule: Rule, t: Instant) {
    var date, first := CivilOf(LocalDay(t, East(rule))), CivilOf(LocalDay(anchor, East(rule)));
    var months := date.month - first.month;
    && t % 1_000_000_000 == 0 && ClockOf(t, East(rule)) == ClockOf(anchor, East(rule))
    && months >= 0 && months % (if rule.frequency == Month then Every(rule) else 12 * Every(rule)) == 0
    && DayFits(rule, first.day, date.month, date.day) && t != ZERO_TIME
  }

  /** Monthly and yearly rules schedule exactly these instants. */
  lemma MonthlyMeans(anchor: Instant, rule: Rule, t: Instant)
    requires rule.frequency == Month || rule.frequency == Year
    ensures Scheduled(anchor, rule, t) <==> MonthlyAt(anchor, rule, t)
  {
    hide OnMonth, MonthlyAt;
    if k: nat :| OnMonth(anchor, rule, k, t) {
      OccurrenceFits(anchor, rule, k, t);
    }
    if MonthlyAt(anchor, rule, t) {
      var k := OccurrenceOf(anchor, rule, t);
    }
  }

  /** What holds of an occurrence, apart from its number. */
  lemma OccurrenceMonths(anchor: Instant, rule: Rule, k: nat, t: Instant)
    requires (rule.frequency == Month || rule.frequency == Year) && OnMonth(anchor, rule, k, t)
    ensures var date, first := CivilOf(LocalDay(t, East(rule))), CivilOf(LocalDay(anchor, East(rule)));
            && t != ZERO_TIME && t % 1_000_000_000 == 0 && ClockOf(t, East(rule)) == ClockOf(anchor, East(rule))
            && date.month - first.month >= 0 && Stride(rule) > 0 && (date.month - first.month) % Stride(rule) == 0
            && OnMonthDay(date.month, rule, first.day, date.day)
  {
    hide *;
    OccurrenceMeans(anchor, rule, k, t);
    MonthsBetween(rule);
    MultipleFromZero(k, Stride(rule));
  }

  lemma MonthsBetween(rule: Rule)
    requires rule.frequency == Month || rule.frequency == Year
    ensures Stride(rule) > 0 && Stride(rule) == if rule.frequency == Month then Every(rule) else 12 * Every(rule)
  {}

  lemma OccurrenceFits(anchor: Instant, rule: Rule, k: nat, t: Instant)
    requires (rule.frequency == Month || rule.frequency == Year) && OnMonth(anchor, rule, k, t)
    ensures MonthlyAt(anchor, rule, t)
  {
    var date, first := CivilOf(LocalDay(t, East(rule))), CivilOf(LocalDay(anchor, East(rule)));
    hide LocalDay, ClockOf, CivilOf, DayNumber, DayFits, OnMonthDay, MonthLength, OnMonth, Stride, Every, At;
    OccurrenceMonths(anchor, rule, k, t);
    MonthsBetween(rule);
    CivilOfIsValid(LocalDay(t, East(rule)));
    CivilOfIsValid(LocalDay(anchor, East(rule)));
    DayFitsExactly(rule, first.day, date.month, date.day);
  }

  lemma OccurrenceOf(anchor: Instant, rule: Rule, t: Instant) returns (k: nat)
    requires (rule.frequency == Month || rule.frequency == Year) && MonthlyAt(anchor, rule, t)
    ensures OnMonth(anchor, rule, k, t)
  {
    var date, first := CivilOf(LocalDay(t, East(rule))), CivilOf(LocalDay(anchor, East(rule)));
    CivilOfIsValid(LocalDay(t, East(rule)));
    CivilOfIsValid(LocalDay(anchor, East(rule)));
    hide LocalDay, ClockOf, CivilOf, DayNumber, DayFits, OnMonthDay, MonthLength, OnMonth;
    DayFitsExactly(rule, first.day, date.month, date.day);
    var months := date.month - first.month;
    Division(months, Stride(rule));
    k := months / Stride(rule);
    MeansOccurrence(anchor, rule, k, t);
  }

  lemma OccurrenceMeans(anchor: Instant, rule: Rule, k: nat, t: Instant)
    requires OnMonth(anchor, rule, k, t)
    ensures var date, first := CivilOf(LocalDay(t, East(rule))), CivilOf(LocalDay(anchor, East(rule)));
            && t != ZERO_TIME && t % 1_000_000_000 == 0 && ClockOf(t, East(rule)) == ClockOf(anchor, East(rule))
            && date.month == first.month + k * Stride(rule) && OnMonthDay(date.month, rule, first.day, date.day)
  {
    var clock, offset := ClockOf(anchor, East(rule)), East(rule);
    var first := CivilOf(LocalDay(anchor, offset));
    var mi := first.month + k * Stride(rule);
    assert forall d :: OnMonthDay(mi, rule, first.day, d) ==> 1 <= d <= MonthLength(mi);
    hide At, LocalDay, ClockOf, CivilOf, DayNumber, OnMonthDay, Stride, MonthLength;
    var d :| OnMonthDay(mi, rule, first.day, d) && t == At(DayNumber(mi, d), clock, offset);
    AtMeans(DayNumber(mi, d), clock, offset, t);
    CivilRoundTrip(Civil(mi, d));
  }

  lemma MeansOccurrence(anchor: Instant, rule: Rule, k: nat, t: Instant)
    requires var date, first := CivilOf(LocalDay(t, East(rule))), CivilOf(LocalDay(anchor, East(rule)));
             && t != ZERO_TIME && t % 1_000_000_000 == 0 && ClockOf(t, East(rule)) == ClockOf(anchor, East(rule))
             && date.month == first.month + k * Stride(rule) && OnMonthDay(date.month, rule, first.day, date.day)
    ensures OnMonth(anchor, rule, k, t)
  {
    var clock, offset := ClockOf(anchor, East(rule)), East(rule);
    CivilOfIsValid(LocalDay(t, offset));
    hide At, LocalDay, ClockOf, CivilOf, DayNumber, OnMonthDay, Stride, MonthLength;
    AtMeans(LocalDay(t, offset), clock, offset, t);
  }
}
