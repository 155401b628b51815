/** The reminder recurrence engine: rules, their validation, and the search for the first
    scheduled instant strictly after a given one. */
module Recurrence {
  import opened Wrappers
  import opened Calendar
  import opened Arithmetic

  // ---------- Rules ----------

  datatype Frequency = Minute | Hour | Day | Week | Month | Year | UnsetFrequency | UnknownFrequency

  datatype MonthlyMode = UnsetMode | DayOfMonth | LastDayOfMonth | NthWeekday | UnknownMode

  datatype EndType = UnsetEnd | Never | OnDate | AfterCount | UnknownEnd

  datatype End = End(kind: EndType, date: Option<Instant>, count: int)

  /** A zone name: empty, one that cannot be loaded, or one at a fixed offset in seconds. */
  datatype Timezone = UnsetZone | UnloadableZone | Zone(offset: int)

  datatype Rule = Rule(
    interval: int,
    frequency: Frequency,
    weekdays: seq<int>,
    mode: MonthlyMode,
    nth: int,
    weekday: int,
    end: End,
    timezone: Timezone)
  {
    function NormalizedInterval(): int {
      if interval < 1 then 1 else interval
    }

    /** The zone's offset; UTC when the name is empty or cannot be loaded. */
    function Offset(): int {
      if timezone.Zone? then timezone.offset else 0
    }

    function EffectiveMode(): MonthlyMode {
      if mode == UnsetMode then DayOfMonth else mode
    }

    predicate Valid() {
      && interval >= 1
      && frequency != UnsetFrequency && frequency != UnknownFrequency
      && (frequency == Month || frequency == Year ==>
            match EffectiveMode()
            case NthWeekday => nth != 0 && -1 <= nth <= 5 && 0 <= weekday <= 6
            case UnknownMode => false
            case _ => true)
      && match end.kind
         case OnDate => end.date.Some? && end.date.value != ZERO_TIME
         case AfterCount => end.count >= 1
         case UnknownEnd => false
         case _ => true
    }
  }

  // ---------- 64-bit durations ----------

  const MAX_DURATION := 0x7fff_ffff_ffff_ffff
  const TWO_64 := 0x1_0000_0000_0000_0000

  /** The value a wrapping 64-bit computation keeps. */
  function Wrap64(x: int): int {
    (x + MAX_DURATION + 1) % TWO_64 - MAX_DURATION - 1
  }

  /** `Time.Sub`, which saturates instead of wrapping. */
  function Sub(t: Instant, u: Instant): int {
    if t - u > MAX_DURATION then MAX_DURATION
    else if t - u < -MAX_DURATION - 1 then -MAX_DURATION - 1
    else t - u
  }

  // ---------- Searches ----------

  type Candidates = nat -> Option<Instant>

  /** The first candidate from index `k` up to `limit` that lies after `after`. */
  function First(c: Candidates, after: Instant, k: nat, limit: nat): Option<Instant>
    decreases limit - k
  {
    if k >= limit then None
    else if c(k).Some? && c(k).value > after then c(k)
    else First(c, after, k + 1, limit)
  }

  // ---------- Minutes and hours ----------

  const MINUTE := 60 * SECOND
  const HOUR := 3600 * SECOND

  function NextFixedInterval(anchor: Instant, after: Instant, rule: Rule, unit: int): Option<Instant> {
    var step := Wrap64(rule.NormalizedInterval() * unit);
    if step <= 0 then None
    else if anchor > after then Some(anchor)
    else
      var n := Sub(after, anchor) / step;
      var next := anchor + Wrap64((n + 1) * step);
      Some(if next > after then next else next + step)
  }

  // ---------- Days ----------

  const DAILY_LIMIT: nat := 100_000

  function DailyAt(anchor: Instant, rule: Rule, k: nat): Instant {
    At(LocalDay(anchor, rule.Offset()) + k * rule.NormalizedInterval(), ClockOf(anchor, rule.Offset()), rule.Offset())
  }

  function DailyCandidates(anchor: Instant, rule: Rule): Candidates {
    (k: nat) => Some(DailyAt(anchor, rule, k))
  }

  method NextDaily(anchor: Instant, after: Instant, rule: Rule) returns (r: Option<Instant>)
    ensures r == First(DailyCandidates(anchor, rule), after, 0, DAILY_LIMIT)
  {
    var interval := rule.NormalizedInterval();
    var offset := rule.Offset();
    var anchorDay, clock := LocalDay(anchor, offset), ClockOf(anchor, offset);
    var k: nat := 0;
    while k < DAILY_LIMIT
      invariant k <= DAILY_LIMIT
      invariant First(DailyCandidates(anchor, rule), after, 0, DAILY_LIMIT)
             == First(DailyCandidates(anchor, rule), after, k, DAILY_LIMIT)
    {
      var candidate := At(anchorDay + k * interval, clock, offset);
      if candidate > after {
        return Some(candidate);
      }
      k := k + 1;
    }
    return None;
  }

  // ---------- Weeks ----------

  const WEEKLY_LIMIT: nat := 1098

  /** Midnight of the Monday on or before a local day. */
  function WeekStartMonday(day: int, offset: int): Instant {
    var weekday := if Weekday(day) == 0 then 7 else Weekday(day);
    At(day - (weekday - 1), 0, offset)
  }

  function WeeksBetween(start: Instant, end: Instant): int {
    var elapsed := if end < start then Sub(start, end) else Sub(end, start);
    elapsed / DAY / 7
  }

  function EffectiveWeekdays(anchor: Instant, rule: Rule): seq<int> {
    if rule.weekdays == [] then [Weekday(LocalDay(anchor, rule.Offset()))] else rule.weekdays
  }

  /** The weekly search's tests on one local day, other than lying after `after`. */
  predicate WeeklyHit(anchor: Instant, rule: Rule, day: int) {
    && Weekday(day) in EffectiveWeekdays(anchor, rule)
    && WeeksBetween(WeekStartMonday(LocalDay(anchor, rule.Offset()), rule.Offset()),
                    WeekStartMonday(day, rule.Offset())) % rule.NormalizedInterval() == 0
  }

  function WeeklyAt(anchor: Instant, rule: Rule, day: int): Instant {
    At(day, ClockOf(anchor, rule.Offset()), rule.Offset())
  }

  function WeeklyCandidates(anchor: Instant, rule: Rule, startDay: int): Candidates {
    (k: nat) => if WeeklyHit(anchor, rule, startDay + k) then Some(WeeklyAt(anchor, rule, startDay + k)) else None
  }

  method NextWeekly(anchor: Instant, after: Instant, rule: Rule) returns (r: Option<Instant>)
    ensures r == First(WeeklyCandidates(anchor, rule, LocalDay(after, rule.Offset())), after, 0, WEEKLY_LIMIT)
  {
    var interval := rule.NormalizedInterval();
    var offset := rule.Offset();
    var anchorDay, clock := LocalDay(anchor, offset), ClockOf(anchor, offset);
    var weekdays := rule.weekdays;
    if |weekdays| == 0 {
      weekdays := [Weekday(anchorDay)];
    }
    var anchorWeekStart := WeekStartMonday(anchorDay, offset);
    var startDay := LocalDay(after, offset);
    ghost var c := WeeklyCandidates(anchor, rule, startDay);
    var dayOffset: nat := 0;
    while dayOffset < WEEKLY_LIMIT
      invariant dayOffset <= WEEKLY_LIMIT
      invariant First(c, after, 0, WEEKLY_LIMIT) == First(c, after, dayOffset, WEEKLY_LIMIT)
    {
      var day := startDay + dayOffset;
      assert c(dayOffset) == if WeeklyHit(anchor, rule, day) then Some(WeeklyAt(anchor, rule, day)) else None;
      dayOffset := dayOffset + 1;
      if Weekday(day) !in weekdays {
        continue;
      }
      var candidate := At(day, clock, offset);
      if candidate <= after {
        continue;
      }
      var weeks := WeeksBetween(anchorWeekStart, WeekStartMonday(day, offset));
      if weeks % interval != 0 {
        continue;
      }
      return Some(candidate);
    }
    return None;
  }

  // ---------- Months and years ----------

  const MONTHLY_LIMIT: nat := 1200
  const YEARLY_LIMIT: nat := 500

  /** Integer division and remainder that truncate toward zero. */
  function TruncDiv(a: int, b: int): int
    requires b > 0
  {
    if a >= 0 then a / b else -(-a / b)
  }

  function TruncMod(a: int, b: int): int
    requires b > 0
  {
    a - b * TruncDiv(a, b)
  }

  function MonthIndex(year: int, month: int): int {
    12 * year + month - 1
  }

  function AddMonths(year: int, month: int, delta: int): (int, int) {
    var total := year * 12 + month - 1 + delta;
    (TruncDiv(total, 12), TruncMod(total, 12) + 1)
  }

  /** Day 0 of the next month, read back as a date. */
  function LastDay(mi: int): int {
    CivilOf(DayNumber(mi + 1, 0)).day
  }

  /** The days from the first of a month to its first `weekday`. */
  function Lead(mi: int, weekday: int): int {
    (weekday - Weekday(DayNumber(mi, 1))) % 7
  }

  /** The day of month of the nth given weekday of a month, or of its last one when nth is -1. */
  function NthWeekdayDay(mi: int, nth: int, weekday: int): Option<int> {
    if weekday < 0 || weekday > 6 then None
    else if nth == -1 then
      Some(MonthLength(mi) - (Weekday(DayNumber(mi, MonthLength(mi))) - weekday) % 7)
    else if nth < 1 then None
    else
      var d := 1 + Lead(mi, weekday) + 7 * (nth - 1);
      if d <= MonthLength(mi) then Some(d) else None
  }

  function NthWeekdayInstant(mi: int, nth: int, weekday: int, clock: int, offset: int): Instant {
    match NthWeekdayDay(mi, nth, weekday)
    case None => ZERO_TIME
    case Some(d) => At(DayNumber(mi, d), clock, offset)
  }

  method NthWeekdayInMonth(mi: int, nth: int, weekday: int, clock: int, offset: int) returns (t: Instant)
    ensures t == NthWeekdayInstant(mi, nth, weekday, clock, offset)
  {
    hide LastDay, DayNumber, Weekday, At;
    LastDayIsMonthLength(mi);
    var last := LastDay(mi);
    if nth == -1 {
      var d := last;
      while d >= 1
        invariant 0 <= d <= last
        invariant forall e :: d < e <= last ==> Weekday(DayNumber(mi, e)) != weekday
      {
        if Weekday(DayNumber(mi, d)) == weekday {
          LastWeekdayDay(mi, weekday, d);
          return At(DayNumber(mi, d), clock, offset);
        }
        d := d - 1;
      }
      EveryWeekdayOccurs(mi, weekday);
      return ZERO_TIME;
    }
    if nth < 1 {
      return ZERO_TIME;
    }
    var count := 0;
    var d := 1;
    while d <= last
      invariant 1 <= d <= last + 1
      invariant count == CountWeekday(mi, weekday, d - 1)
      invariant count < nth
    {
      CountWeekdaySteps(mi, weekday, d);
      if Weekday(DayNumber(mi, d)) == weekday {
        count := count + 1;
        if count == nth {
          NthWeekdayDayMeans(mi, nth, weekday, d);
          return At(DayNumber(mi, d), clock, offset);
        }
      }
      d := d + 1;
    }
    NthWeekdayDayMissing(mi, nth, weekday);
    return ZERO_TIME;
  }

  /** How many of the first `d` days of a month fall on a weekday. */
  function CountWeekday(mi: int, weekday: int, d: nat): nat {
    if d == 0 then 0
    else CountWeekday(mi, weekday, d - 1) + (if Weekday(DayNumber(mi, d)) == weekday then 1 else 0)
  }

  lemma CountWeekdaySteps(mi: int, weekday: int, d: nat)
    requires d > 0
    ensures CountWeekday(mi, weekday, d)
         == CountWeekday(mi, weekday, d - 1) + (if Weekday(DayNumber(mi, d)) == weekday then 1 else 0)
  {}

  lemma WeekdayInMonth(mi: int, d: int, e: int)
    ensures 0 <= Weekday(DayNumber(mi, d)) <= 6
    ensures Weekday(DayNumber(mi, e)) == (Weekday(DayNumber(mi, d)) + (e - d)) % 7
  {
    hide MonthStart;
  }

  lemma OnWeekdayInMonth(mi: int, weekday: int, d: int)
    requires 0 <= weekday <= 6
    ensures Weekday(DayNumber(mi, d)) == weekday <==> (d - 1 - Lead(mi, weekday)) % 7 == 0
  {
    hide DayNumber, Weekday;
    WeekdayInMonth(mi, 1, d);
    CountingOn(Weekday(DayNumber(mi, 1)), weekday, d - 1);
  }

  lemma {:induction false} CountWeekdayClosedForm(mi: int, weekday: int, d: nat)
    requires 0 <= weekday <= 6
    ensures CountWeekday(mi, weekday, d) == (d + 6 - Lead(mi, weekday)) / 7
  {
    var lead := Lead(mi, weekday);
    hide DayNumber, Weekday, Lead;
    if d == 0 {
      assert 0 <= lead <= 6 by { LeadBounds(mi, weekday); }
    } else {
      CountWeekdayClosedForm(mi, weekday, d - 1);
      OnWeekdayInMonth(mi, weekday, d);
      WholeWeekLater(d - 1 - lead);
      NextMultiple(d + 6 - lead, 7);
    }
  }

  lemma LeadBounds(mi: int, weekday: int)
    ensures 0 <= Lead(mi, weekday) <= 6
  {}

  lemma {:induction false} NoSuchWeekday(mi: int, weekday: int, d: nat)
    requires weekday < 0 || weekday > 6
    ensures CountWeekday(mi, weekday, d) == 0
  {
    hide DayNumber, Weekday;
    WeekdayInMonth(mi, d, d);
    if d > 0 {
      NoSuchWeekday(mi, weekday, d - 1);
    }
  }

  /** The closed form names the day that the count of weekdays singles out. */
  lemma NthWeekdayDayMeans(mi: int, nth: int, weekday: int, d: int)
    requires nth >= 1
    ensures NthWeekdayDay(mi, nth, weekday) == Some(d)
       <==> 1 <= d <= MonthLength(mi) && Weekday(DayNumber(mi, d)) == weekday && CountWeekday(mi, weekday, d) == nth
  {
    var lead := Lead(mi, weekday);
    var day := 1 + lead + 7 * (nth - 1);
    assert NthWeekdayDay(mi, nth, weekday) == if 0 <= weekday <= 6 && day <= MonthLength(mi) then Some(day) else None;
    LeadBounds(mi, weekday);
    WeekdayInMonth(mi, d, d);
    hide MonthLength, DayNumber, Weekday, CountWeekday, NthWeekdayDay, Lead;
    if 0 <= weekday <= 6 && d >= 1 {
      OnWeekdayInMonth(mi, weekday, d);
      CountWeekdayClosedForm(mi, weekday, d);
      var q := (d - 1 - lead) / 7;
      WholeWeekLater(d - 1 - lead);
      if (d - 1 - lead) % 7 == 0 {
        assert d == 1 + lead + 7 * q && CountWeekday(mi, weekday, d) == q + 1;
      } else if d == 1 + lead + 7 * (nth - 1) {
        MultipleHasNoRemainder(nth - 1, 7);
      }
    }
  }

  lemma NthWeekdayDayMissing(mi: int, nth: int, weekday: int)
    requires nth >= 1
    ensures NthWeekdayDay(mi, nth, weekday).None? <==> CountWeekday(mi, weekday, MonthLength(mi)) < nth
  {
    var lead, last := Lead(mi, weekday), MonthLength(mi);
    assert NthWeekdayDay(mi, nth, weekday).None? <==> !(0 <= weekday <= 6 && 1 + lead + 7 * (nth - 1) <= last);
    assert last > 0;
    hide DayNumber, Weekday, CountWeekday, MonthLength, NthWeekdayDay, Lead;
    if 0 <= weekday <= 6 {
      CountWeekdayClosedForm(mi, weekday, last);
      Division(last + 6 - lead, 7);
    } else {
      NoSuchWeekday(mi, weekday, last);
    }
  }

  /** The days of a month on a weekday, seen from its last day. */
  lemma OnWeekdayFromLast(mi: int, weekday: int, e: int)
    requires 0 <= weekday <= 6
    ensures var f := NthWeekdayDay(mi, -1, weekday);
            && f.Some? && MonthLength(mi) - 6 <= f.value <= MonthLength(mi)
            && (Weekday(DayNumber(mi, e)) == weekday <==> (e - f.value) % 7 == 0)
  {
    var last := MonthLength(mi);
    var b := Weekday(DayNumber(mi, last));
    var f := last - (b - weekday) % 7;
    assert NthWeekdayDay(mi, -1, weekday) == Some(f);
    hide DayNumber, Weekday, MonthLength, NthWeekdayDay;
    WeekdayInMonth(mi, last, e);
    CountingOn(b, weekday, e - last);
    var x, y := (weekday - b) % 7, (b - weekday) % 7;
    assert x == if y == 0 then 0 else 7 - y;
    if y != 0 {
      assert e - last - x + 7 == e - f;
      WholeWeekLater(e - last - x);
    }
  }

  /** With nth -1 the closed form names the last such weekday of the month. */
  lemma LastWeekdayDay(mi: int, weekday: int, d: int)
    ensures NthWeekdayDay(mi, -1, weekday) == Some(d)
       <==> && 1 <= d <= MonthLength(mi) && Weekday(DayNumber(mi, d)) == weekday
            && forall e :: d < e <= MonthLength(mi) ==> Weekday(DayNumber(mi, e)) != weekday
  {
    assert MonthLength(mi) >= 28;
    WeekdayInMonth(mi, d, d);
    if 0 <= weekday <= 6 {
      hide DayNumber, Weekday, MonthLength, NthWeekdayDay;
      OnWeekdayFromLast(mi, weekday, d);
      var f := NthWeekdayDay(mi, -1, weekday).value;
      OnWeekdayFromLast(mi, weekday, f);
      forall e | f < e <= MonthLength(mi)
        ensures Weekday(DayNumber(mi, e)) != weekday
      {
        OnWeekdayFromLast(mi, weekday, e);
      }
    } else {
      assert NthWeekdayDay(mi, -1, weekday).None?;
      hide DayNumber, Weekday, MonthLength, NthWeekdayDay;
    }
  }

  lemma EveryWeekdayOccurs(mi: int, weekday: int)
    ensures NthWeekdayDay(mi, -1, weekday).None? <==> weekday < 0 || weekday > 6
    ensures 0 <= weekday <= 6 ==> exists d :: 1 <= d <= MonthLength(mi) && Weekday(DayNumber(mi, d)) == weekday
  {
    if 0 <= weekday <= 6 {
      LastWeekdayDay(mi, weekday, NthWeekdayDay(mi, -1, weekday).value);
    }
  }

  /** The first four of a weekday exist in every month, and the last one is the fourth or the fifth. */
  lemma LastIsFourthOrFifth(mi: int, weekday: int)
    requires 0 <= weekday <= 6
    ensures forall nth :: 1 <= nth <= 4 ==> NthWeekdayDay(mi, nth, weekday).Some?
    ensures NthWeekdayDay(mi, -1, weekday)
         == NthWeekdayDay(mi, if NthWeekdayDay(mi, 5, weekday).Some? then 5 else 4, weekday)
  {
    var lead, last := Lead(mi, weekday), MonthLength(mi);
    assert 28 <= last <= 31;
    forall nth | 1 <= nth <= 5
      ensures NthWeekdayDay(mi, nth, weekday)
           == if 1 + lead + 7 * (nth - 1) <= last then Some(1 + lead + 7 * (nth - 1)) else None
    {}
    LeadBounds(mi, weekday);
    hide DayNumber, Weekday, MonthLength, NthWeekdayDay, Lead;
    var nth := if NthWeekdayDay(mi, 5, weekday).Some? then 5 else 4;
    var g := NthWeekdayDay(mi, nth, weekday).value;
    OnWeekdayInMonth(mi, weekday, g);
    forall e | g < e <= last
      ensures Weekday(DayNumber(mi, e)) != weekday
    {
      OnWeekdayInMonth(mi, weekday, e);
    }
    LastWeekdayDay(mi, weekday, g);
  }

  /** Day 0 of the next month is the last day of this one. */
  lemma LastDayIsMonthLength(mi: int)
    ensures LastDay(mi) == MonthLength(mi)
  {
    MonthSteps(mi);
    assert DayNumber(mi + 1, 0) == DayNumber(mi, MonthLength(mi));
    CivilRoundTrip(Civil(mi, MonthLength(mi)));
  }

  function CalendarInstant(mi: int, rule: Rule, anchorDay: int, clock: int, offset: int): Instant {
    match rule.EffectiveMode()
    case LastDayOfMonth => At(DayNumber(mi, LastDay(mi)), clock, offset)
    case NthWeekday => NthWeekdayInstant(mi, rule.nth, rule.weekday, clock, offset)
    case DayOfMonth =>
      var last := LastDay(mi);
      At(DayNumber(mi, if anchorDay > last then last else anchorDay), clock, offset)
    case _ => ZERO_TIME
  }

  function MonthCandidate(anchor: Instant, monthOffset: int, rule: Rule): Instant {
    var date := CivilOf(LocalDay(anchor, rule.Offset()));
    var (targetYear, targetMonth) := AddMonths(date.month / 12, date.month % 12 + 1, monthOffset);
    CalendarInstant(MonthIndex(targetYear, targetMonth), rule, date.day, ClockOf(anchor, rule.Offset()), rule.Offset())
  }

  function YearCandidate(anchor: Instant, yearOffset: int, rule: Rule): Instant {
    var date := CivilOf(LocalDay(anchor, rule.Offset()));
    CalendarInstant(MonthIndex(date.month / 12 + yearOffset, date.month % 12 + 1), rule, date.day,
                    ClockOf(anchor, rule.Offset()), rule.Offset())
  }

  /** The zero time stands for a missing candidate. */
  function Present(t: Instant): Option<Instant> {
    if t == ZERO_TIME then None else Some(t)
  }

  function MonthlyCandidates(anchor: Instant, rule: Rule): Candidates {
    (k: nat) => Present(MonthCandidate(anchor, k * rule.NormalizedInterval(), rule))
  }

  function YearlyCandidates(anchor: Instant, rule: Rule): Candidates {
    (k: nat) => Present(YearCandidate(anchor, k * rule.NormalizedInterval(), rule))
  }

  method NextMonthly(anchor: Instant, after: Instant, rule: Rule) returns (r: Option<Instant>)
    ensures r == First(MonthlyCandidates(anchor, rule), after, 0, MONTHLY_LIMIT)
  {
    ghost var c := MonthlyCandidates(anchor, rule);
    var k: nat := 0;
    while k < MONTHLY_LIMIT
      invariant k <= MONTHLY_LIMIT
      invariant First(c, after, 0, MONTHLY_LIMIT) == First(c, after, k, MONTHLY_LIMIT)
    {
      var candidate := MonthCandidate(anchor, k * rule.NormalizedInterval(), rule);
      k := k + 1;
      if candidate == ZERO_TIME {
        continue;
      }
      if candidate > after {
        return Some(candidate);
      }
    }
    return None;
  }

  method NextYearly(anchor: Instant, after: Instant, rule: Rule) returns (r: Option<Instant>)
    ensures r == First(YearlyCandidates(anchor, rule), after, 0, YEARLY_LIMIT)
  {
    ghost var c := YearlyCandidates(anchor, rule);
    var k: nat := 0;
    while k < YEARLY_LIMIT
      invariant k <= YEARLY_LIMIT
      invariant First(c, after, 0, YEARLY_LIMIT) == First(c, after, k, YEARLY_LIMIT)
    {
      var candidate := YearCandidate(anchor, k * rule.NormalizedInterval(), rule);
      k := k + 1;
      if candidate == ZERO_TIME {
        continue;
      }
      if candidate > after {
        return Some(candidate);
      }
    }
    return None;
  }

  // ---------- The whole engine ----------

  function ComputeNext(anchor: Instant, after: Instant, rule: Rule): Option<Instant> {
    match rule.frequency
    case Minute => NextFixedInterval(anchor, after, rule, MINUTE)
    case Hour => NextFixedInterval(anchor, after, rule, HOUR)
    case Day => First(DailyCandidates(anchor, rule), after, 0, DAILY_LIMIT)
    case Week => First(WeeklyCandidates(anchor, rule, LocalDay(after, rule.Offset())), after, 0, WEEKLY_LIMIT)
    case Month => First(MonthlyCandidates(anchor, rule), after, 0, MONTHLY_LIMIT)
    case Year => First(YearlyCandidates(anchor, rule), after, 0, YEARLY_LIMIT)
    case UnsetFrequency | UnknownFrequency => None
  }

  /** The last nanosecond of an instant's local day. */
  function EndOfDay(t: Instant, offset: int): Instant {
    At(LocalDay(t, offset), DAY_SECONDS - 1, offset) + SECOND - 1
  }

  function NextDue(anchor: Instant, after: Instant, rule: Rule, count: int): Option<Instant> {
    if rule.end.kind == AfterCount && rule.end.count > 0 && count >= rule.end.count then None
    else
      var next := ComputeNext(anchor, after, rule);
      if next.None? then None
      else if rule.end.kind == OnDate && rule.end.date.Some?
           && next.value > EndOfDay(rule.end.date.value, rule.Offset()) then None
      else next
  }

  method ComputeNextDue(anchor: Instant, after: Instant, rule: Rule, count: int) returns (r: Option<Instant>)
    ensures r == NextDue(anchor, after, rule, count)
  {
    if rule.end.kind == AfterCount && rule.end.count > 0 && count >= rule.end.count {
      return None;
    }
    var next: Option<Instant>;
    match rule.frequency {
      case Minute => next := NextFixedInterval(anchor, after, rule, MINUTE);
      case Hour => next := NextFixedInterval(anchor, after, rule, HOUR);
      case Day => next := NextDaily(anchor, after, rule);
      case Week => next := NextWeekly(anchor, after, rule);
      case Month => next := NextMonthly(anchor, after, rule);
      case Year => next := NextYearly(anchor, after, rule);
      case UnsetFrequency | UnknownFrequency => next := None;
    }
    if next.None? {
      return None;
    }
    if rule.end.kind == OnDate && rule.end.date.Some? {
      if next.value > EndOfDay(rule.end.date.value, rule.Offset()) {
        return None;
      }
    }
    return next;
  }
}
