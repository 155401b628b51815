/** What the searches of the recurrence engine find: the first instant of a declared schedule
    strictly after a given one. */
module Schedule {
  import opened Wrappers
  import opened Calendar
  import opened Arithmetic
  import opened Recurrence

  // ---------- The declared schedules ----------

  function Unit(rule: Rule): int {
    if rule.frequency == Minute then MINUTE else HOUR
  }

  function Step(rule: Rule): (step: int)
    ensures step > 0
  {
    ProductAtLeast(rule.NormalizedInterval(), 1, Unit(rule));
    rule.NormalizedInterval() * Unit(rule)
  }

  function AnchorDay(anchor: Instant, rule: Rule): int {
    LocalDay(anchor, rule.Offset())
  }

  /** A local day in the rule's weekday set whose week lies a multiple of the interval from the anchor's. */
  predicate OnWeek(anchor: Instant, rule: Rule, day: int) {
    && Weekday(day) in EffectiveWeekdays(anchor, rule)
    && (WeekOf(day) - WeekOf(AnchorDay(anchor, rule))) % rule.NormalizedInterval() == 0
  }

  /** The day of a month a monthly mode asks for: the anchor's day, or the last day of a month
      too short for it; the last day; the nth or the last given weekday. */
  ghost predicate OnMonthDay(mi: int, rule: Rule, anchorDay: int, d: int) {
    && 1 <= d <= MonthLength(mi)
    && match rule.EffectiveMode()
       case DayOfMonth => d == anchorDay || (d < anchorDay && d == MonthLength(mi))
       case LastDayOfMonth => d == MonthLength(mi)
       case NthWeekday =>
         && Weekday(DayNumber(mi, d)) == rule.weekday
         && (if rule.nth == -1
             then forall e :: d < e <= MonthLength(mi) ==> Weekday(DayNumber(mi, e)) != rule.weekday
             else rule.nth >= 1 && CountWeekday(mi, rule.weekday, d) == rule.nth)
       case _ => false
  }

  /** The months between occurrences. */
  function Stride(rule: Rule): int {
    if rule.frequency == Year then 12 * rule.NormalizedInterval() else rule.NormalizedInterval()
  }

  /** The occurrence in one month. The zero time is never an occurrence. */
  ghost predicate OccursIn(mi: int, rule: Rule, anchorDay: int, clock: int, t: Instant) {
    t != ZERO_TIME && exists d :: OnMonthDay(mi, rule, anchorDay, d) && t == At(DayNumber(mi, d), clock, rule.Offset())
  }

  /** Occurrence `k` of a monthly or yearly rule. */
  ghost predicate OnMonth(anchor: Instant, rule: Rule, k: nat, t: Instant) {
    var date := CivilOf(AnchorDay(anchor, rule));
    OccursIn(date.month + k * Stride(rule), rule, date.day, ClockOf(anchor, rule.Offset()), t)
  }

  ghost predicate Scheduled(anchor: Instant, rule: Rule, t: Instant) {
    match rule.frequency
    case Minute | Hour => exists k: nat :: t == anchor + k * Step(rule)
    case Day => exists k: nat :: t == DailyAt(anchor, rule, k)
    case Week => exists day: int :: t == WeeklyAt(anchor, rule, day) && OnWeek(anchor, rule, day)
    case Month | Year => exists k: nat :: OnMonth(anchor, rule, k, t)
    case UnsetFrequency | UnknownFrequency => false
  }

  ghost predicate IsFirstAfter(anchor: Instant, rule: Rule, after: Instant, r: Instant) {
    && Scheduled(anchor, rule, r) && r > after
    && forall t :: Scheduled(anchor, rule, t) && t > after ==> r <= t
  }

  // ---------- The bounded search ----------

  ghost predicate Passed(c: Candidates, after: Instant, k: nat) {
    c(k).None? || c(k).value <= after
  }

  ghost predicate Increasing(c: Candidates) {
    forall i: nat, j: nat :: i < j && c(i).Some? && c(j).Some? ==> c(i).value < c(j).value
  }

  lemma {:induction false} FirstFinds(c: Candidates, after: Instant, k: nat, limit: nat)
    ensures match First(c, after, k, limit)
            case None => forall j: nat :: k <= j < limit ==> Passed(c, after, j)
            case Some(r) => exists j: nat :: k <= j < limit && c(j) == Some(r) && r > after
                                             && forall i: nat :: k <= i < j ==> Passed(c, after, i)
    decreases limit - k
  {
    if k < limit && Passed(c, after, k) {
      FirstFinds(c, after, k + 1, limit);
    }
  }

  /** Over increasing candidates the first hit is the least candidate after `after`, and a search
      that fails has passed them all up to its limit. */
  lemma FirstIsLeast(c: Candidates, after: Instant, limit: nat)
    requires Increasing(c)
    ensures match First(c, after, 0, limit)
            case None => forall j: nat :: j < limit ==> Passed(c, after, j)
            case Some(r) => && (exists j: nat :: j < limit && c(j) == Some(r)) && r > after
                            && forall j: nat :: c(j).Some? && c(j).value > after ==> r <= c(j).value
  {
    FirstFinds(c, after, 0, limit);
    var r := First(c, after, 0, limit);
    if r.Some? {
      var j: nat :| j < limit && c(j) == r && r.value > after && forall i: nat :: 0 <= i < j ==> Passed(c, after, i);
      forall i: nat | c(i).Some? && c(i).value > after
        ensures r.value <= c(i).value
      {
        assert i < j ==> Passed(c, after, i);
      }
    }
  }

  lemma {:induction false} AllPassed(c: Candidates, after: Instant, k: nat, limit: nat)
    requires forall j: nat :: k <= j < limit ==> Passed(c, after, j)
    ensures First(c, after, k, limit).None?
    decreases limit - k
  {
    if k < limit {
      assert Passed(c, after, k);
      AllPassed(c, after, k + 1, limit);
    }
  }

  lemma {:induction false} FirstFailsLater(c: Candidates, a: Instant, b: Instant, k: nat, limit: nat)
    requires a <= b && First(c, a, k, limit).None?
    ensures First(c, b, k, limit).None?
    decreases limit - k
  {
    if k < limit {
      FirstFailsLater(c, a, b, k + 1, limit);
    }
  }

  // ---------- Minutes and hours ----------

  ghost predicate FixedFirst(anchor: Instant, step: int, after: Instant, r: Instant) {
    && (exists k: nat :: r == anchor + k * step) && r > after
    && forall k: nat :: anchor + k * step > after ==> r <= anchor + k * step
  }

  lemma FixedFirstClosedForm(anchor: Instant, step: int, after: Instant, r: Instant)
    requires step > 0
    ensures FixedFirst(anchor, step, after, r)
       <==> r == if anchor > after then anchor else anchor + ((after - anchor) / step + 1) * step
  {
    var n := if anchor > after then 0 else (after - anchor) / step + 1;
    var least := anchor + n * step;
    if anchor <= after {
      Division(after - anchor, step);
      assert n * step == (after - anchor) / step * step + step;
    }
    assert least > after;
    forall k: nat | anchor + k * step > after
      ensures least <= anchor + k * step
    {
      if k < n {
        assert n * step == (n - 1) * step + step;
        ProductAtLeast(n - 1, k, step);
        assert false;
      } else {
        ProductAtLeast(k, n, step);
      }
    }
  }

  /** Durations the search computes fit in 64 bits: the step, and the distance to the answer. */
  predicate Fits(anchor: Instant, after: Instant, step: int)
    requires step > 0
  {
    step <= MAX_DURATION && (anchor > after || ((after - anchor) / step + 1) * step <= MAX_DURATION)
  }

  lemma WrapRange(x: int)
    ensures -MAX_DURATION - 1 <= Wrap64(x) <= MAX_DURATION
    ensures -MAX_DURATION - 1 <= x <= MAX_DURATION ==> Wrap64(x) == x
    ensures MAX_DURATION < x <= 2 * MAX_DURATION ==> Wrap64(x) == x - TWO_64
    ensures x > MAX_DURATION && Wrap64(x) > 0 ==> x > TWO_64
  {}

  /** With a step that fits, the answer is right exactly when the distance to it fits too. */
  lemma FixedStepExact(anchor: Instant, after: Instant, rule: Rule, unit: int)
    requires unit > 0 && anchor <= after
    requires 0 < rule.NormalizedInterval() * unit <= MAX_DURATION
    ensures NextFixedInterval(anchor, after, rule, unit).Some?
    ensures var step := rule.NormalizedInterval() * unit;
            (NextFixedInterval(anchor, after, rule, unit).value == anchor + ((after - anchor) / step + 1) * step
             <==> ((after - anchor) / step + 1) * step <= MAX_DURATION)
  {
    hide Wrap64;
    var step := rule.NormalizedInterval() * unit;
    WrapRange(step);
    var elapsed := Sub(after, anchor);
    var n := elapsed / step;
    Division(elapsed, step);
    Division(after - anchor, step);
    assert (n + 1) * step == n * step + step;
    var m := (after - anchor) / step;
    assert (m + 1) * step == m * step + step;
    WrapRange((n + 1) * step);
    if elapsed < after - anchor {
      if m < n {
        ProductAtLeast(n, m, step);
      }
      ProductAtLeast(m, n, step);
    }
  }

  /** The exact condition under which the minute and hour search is right: the step and the
      distance to the answer, in nanoseconds, fit in 64 bits. An anchor still ahead is answered
      right whenever the step does not wrap to a number that is not positive. */
  lemma FixedIntervalExact(anchor: Instant, after: Instant, rule: Rule, unit: int)
    requires unit > 0
    ensures var step := rule.NormalizedInterval() * unit;
            var r := NextFixedInterval(anchor, after, rule, unit);
            (step > 0
             && (r.Some? && FixedFirst(anchor, step, after, r.value)
                 <==> if anchor > after then Wrap64(step) > 0 else Fits(anchor, after, step)))
  {
    hide NextFixedInterval, Wrap64;
    var step := rule.NormalizedInterval() * unit;
    ProductAtLeast(rule.NormalizedInterval(), 1, unit);
    var r := NextFixedInterval(anchor, after, rule, unit);
    FixedIntervalOutcome(anchor, after, rule, unit);
    WrapRange(step);
    if r.Some? {
      FixedFirstClosedForm(anchor, step, after, r.value);
      if anchor <= after {
        if step <= MAX_DURATION {
          FixedStepExact(anchor, after, rule, unit);
        } else {
          WrappedStepFallsShort(anchor, after, rule, unit);
          Division(after - anchor, step);
          assert ((after - anchor) / step + 1) * step == (after - anchor) / step * step + step;
          ProductAtLeast((after - anchor) / step, 0, step);
        }
      }
    }
  }

  lemma FixedIntervalOutcome(anchor: Instant, after: Instant, rule: Rule, unit: int)
    ensures NextFixedInterval(anchor, after, rule, unit).Some? <==> Wrap64(rule.NormalizedInterval() * unit) > 0
    ensures anchor > after && Wrap64(rule.NormalizedInterval() * unit) > 0 ==>
              NextFixedInterval(anchor, after, rule, unit) == Some(anchor)
  {}

  /** A step that wrapped to a positive number is answered with a distance below the true step. */
  lemma WrappedStepFallsShort(anchor: Instant, after: Instant, rule: Rule, unit: int)
    requires unit > 0 && anchor <= after
    requires rule.NormalizedInterval() * unit > MAX_DURATION
    requires NextFixedInterval(anchor, after, rule, unit).Some?
    ensures NextFixedInterval(anchor, after, rule, unit).value < anchor + rule.NormalizedInterval() * unit
  {
    hide Wrap64;
    var step := Wrap64(rule.NormalizedInterval() * unit);
    WrapRange(rule.NormalizedInterval() * unit);
    var elapsed := Sub(after, anchor);
    Division(elapsed, step);
    assert (elapsed / step + 1) * step == elapsed / step * step + step;
    WrapRange((elapsed / step + 1) * step);
  }

  const OVERFLOWING := Rule(153_722_868, Minute, [], UnsetMode, 0, 0, End(Never, None, 0), UnsetZone)

  /** A valid rule, every 153722868 minutes, whose step wraps to a negative number: it is never due, not
      even at an anchor still ahead. */
  lemma OverflowingStepIsNeverDue(anchor: Instant, after: Instant, count: int)
    ensures OVERFLOWING.Valid() && NextDue(anchor, after, OVERFLOWING, count).None?
    ensures Scheduled(anchor, OVERFLOWING, anchor)
  {
    assert Wrap64(153_722_868 * MINUTE) < 0;
    assert anchor == anchor + 0 * Step(OVERFLOWING);
  }

  /** The correction for a result that is not after `after` never changes a right answer. */
  lemma CorrectionNeverFires(anchor: Instant, after: Instant, rule: Rule, unit: int)
    requires unit > 0 && anchor <= after && rule.NormalizedInterval() * unit > 0
    requires Fits(anchor, after, rule.NormalizedInterval() * unit)
    ensures var step := Wrap64(rule.NormalizedInterval() * unit);
            step > 0 && anchor + Wrap64((Sub(after, anchor) / step + 1) * step) > after
  {
    hide Wrap64;
    var step := rule.NormalizedInterval() * unit;
    WrapRange(step);
    Division(after - anchor, step);
    var n := (after - anchor) / step;
    assert (n + 1) * step == n * step + step;
    WrapRange((n + 1) * step);
  }

  // ---------- Days ----------

  lemma DailyIncreases(anchor: Instant, rule: Rule)
    ensures Increasing(DailyCandidates(anchor, rule))
  {
    forall i: nat, j: nat | i < j
      ensures DailyAt(anchor, rule, i) < DailyAt(anchor, rule, j)
    {
      ProductAtLeast(j, i, rule.NormalizedInterval());
    }
  }

  /** The daily search succeeds exactly when its last candidate lies after `after`, and then finds
      the first scheduled instant. */
  lemma DailyIsFirst(anchor: Instant, after: Instant, rule: Rule)
    requires rule.frequency == Day
    ensures ComputeNext(anchor, after, rule).Some? <==> DailyAt(anchor, rule, 99_999) > after
    ensures ComputeNext(anchor, after, rule).Some? ==>
              IsFirstAfter(anchor, rule, after, ComputeNext(anchor, after, rule).value)
  {
    hide DailyAt;
    var c := DailyCandidates(anchor, rule);
    DailyIncreases(anchor, rule);
    FirstIsLeast(c, after, DAILY_LIMIT);
    assert c(DAILY_LIMIT - 1) == Some(DailyAt(anchor, rule, DAILY_LIMIT - 1));
    if First(c, after, 0, DAILY_LIMIT).Some? {
      var j: nat :| j < DAILY_LIMIT && c(j) == First(c, after, 0, DAILY_LIMIT);
      assert j == DAILY_LIMIT - 1 || c(j).value < c(DAILY_LIMIT - 1).value;
      forall k: nat | DailyAt(anchor, rule, k) > after
        ensures ComputeNext(anchor, after, rule).value <= DailyAt(anchor, rule, k)
      {
        assert c(k) == Some(DailyAt(anchor, rule, k));
      }
    } else {
      assert Passed(c, after, DAILY_LIMIT - 1);
    }
  }

  // ---------- Weeks ----------

  /** The whole weeks in the longest representable duration. */
  const MAX_WEEKS := 15_250

  lemma WeekStartIsMonday(day: int, offset: int)
    ensures WeekStartMonday(day, offset) == At(7 * WeekOf(day), 0, offset)
  {}

  /** The distance between two weeks is exact up to the point where durations saturate. */
  lemma WeeksBetweenSaturates(a: int, b: int, offset: int)
    ensures var distance := if a < b then WeekOf(b) - WeekOf(a) else WeekOf(a) - WeekOf(b);
            WeeksBetween(WeekStartMonday(a, offset), WeekStartMonday(b, offset))
            == if distance <= MAX_WEEKS then distance else MAX_WEEKS
  {
    hide WeekStartMonday;
    WeekStartIsMonday(a, offset);
    WeekStartIsMonday(b, offset);
  }

  /** The days a weekly search may look at lie less than 15251 weeks from the anchor. */
  predicate WeeklyInRange(anchor: Instant, after: Instant, rule: Rule) {
    var anchorWeek := WeekOf(AnchorDay(anchor, rule));
    var startDay := LocalDay(after, rule.Offset());
    && anchorWeek - WeekOf(startDay) <= MAX_WEEKS
    && WeekOf(startDay + WEEKLY_LIMIT - 1) - anchorWeek <= MAX_WEEKS
  }

  lemma WeeklyHitIsOnWeek(anchor: Instant, rule: Rule, day: int)
    requires -MAX_WEEKS <= WeekOf(day) - WeekOf(AnchorDay(anchor, rule)) <= MAX_WEEKS
    ensures WeeklyHit(anchor, rule, day) <==> OnWeek(anchor, rule, day)
  {
    hide WeekStartMonday, WeeksBetween;
    var a := AnchorDay(anchor, rule);
    WeeksBetweenSaturates(a, day, rule.Offset());
    NegatedMultiple(WeekOf(day) - WeekOf(a), rule.NormalizedInterval());
  }

  lemma WeeklyDayOf(anchor: Instant, rule: Rule, day: int)
    ensures LocalDay(WeeklyAt(anchor, rule, day), rule.Offset()) == day
  {
    LocalOfAt(day, ClockOf(anchor, rule.Offset()), rule.Offset());
  }

  lemma LocalDayIsMonotone(t: Instant, u: Instant, offset: int)
    requires t <= u
    ensures LocalDay(t, offset) <= LocalDay(u, offset)
  {}

  /** In range, the weekly search finds something exactly when a scheduled instant after `after` lies in
      the 1098 days from its local day, and then it finds the first one. */
  lemma WeeklyIsFirst(anchor: Instant, after: Instant, rule: Rule)
    requires rule.frequency == Week && WeeklyInRange(anchor, after, rule)
    ensures ComputeNext(anchor, after, rule).Some? ==>
              IsFirstAfter(anchor, rule, after, ComputeNext(anchor, after, rule).value)
    ensures ComputeNext(anchor, after, rule).Some?
       <==> exists t :: && Scheduled(anchor, rule, t) && t > after
                        && LocalDay(t, rule.Offset()) < LocalDay(after, rule.Offset()) + 1098
  {
    hide WeeklyHit, OnWeek, WeeklyAt, LocalDay;
    var startDay := LocalDay(after, rule.Offset());
    var c := WeeklyCandidates(anchor, rule, startDay);
    FirstFinds(c, after, 0, WEEKLY_LIMIT);
    var r := First(c, after, 0, WEEKLY_LIMIT);
    if r.Some? {
      var j: nat :| j < WEEKLY_LIMIT && c(j) == r && r.value > after;
      WeeklyHitIsOnWeek(anchor, rule, startDay + j);
      WeeklyDayOf(anchor, rule, startDay + j);
      assert Scheduled(anchor, rule, r.value) && LocalDay(r.value, rule.Offset()) < startDay + WEEKLY_LIMIT;
    }
    forall t | Scheduled(anchor, rule, t) && t > after
      ensures match r
              case Some(v) => v <= t
              case None => LocalDay(t, rule.Offset()) >= startDay + WEEKLY_LIMIT
    {
      var day :| t == WeeklyAt(anchor, rule, day) && OnWeek(anchor, rule, day);
      WeeklyDayOf(anchor, rule, day);
      LocalDayIsMonotone(after, t, rule.Offset());
      WeeklyNotPassed(anchor, rule, after, day, r);
    }
  }

  lemma WeeklyNotPassed(anchor: Instant, rule: Rule, after: Instant, day: int, r: Option<Instant>)
    requires var startDay := LocalDay(after, rule.Offset());
             && day >= startDay && WeeklyAt(anchor, rule, day) > after && OnWeek(anchor, rule, day)
             && WeeklyInRange(anchor, after, rule)
             && r == First(WeeklyCandidates(anchor, rule, startDay), after, 0, WEEKLY_LIMIT)
    ensures match r
            case Some(v) => v <= WeeklyAt(anchor, rule, day)
            case None => day >= LocalDay(after, rule.Offset()) + WEEKLY_LIMIT
  {
    hide WeeklyHit, OnWeek, LocalDay;
    var startDay := LocalDay(after, rule.Offset());
    var c := WeeklyCandidates(anchor, rule, startDay);
    var k: nat := day - startDay;
    FirstFinds(c, after, 0, WEEKLY_LIMIT);
    if k < WEEKLY_LIMIT {
      WeeklyHitIsOnWeek(anchor, rule, day);
      assert c(k) == Some(WeeklyAt(anchor, rule, day));
      assert !Passed(c, after, k);
    }
    if r.Some? {
      var j: nat :| j < WEEKLY_LIMIT && c(j) == r && forall i: nat :: 0 <= i < j ==> Passed(c, after, i);
      assert r == Some(WeeklyAt(anchor, rule, startDay + j));
    }
  }

  /** Where a weekday stands in a week that starts on Monday. */
  function Position(weekday: int): int {
    (weekday + 6) % 7
  }

  predicate RealWeekdays(weekdays: seq<int>) {
    forall w :: w in weekdays ==> 0 <= w <= 6
  }

  /** The first and the last weekday of a set that names real weekdays only. */
  ghost predicate WeekdayRange(weekdays: seq<int>, first: int, last: int) {
    && RealWeekdays(weekdays) && first in weekdays && last in weekdays
    && forall w :: w in weekdays ==> Position(first) <= Position(w) <= Position(last)
  }

  lemma {:induction false} WeekdayRangeExists(weekdays: seq<int>) returns (first: int, last: int)
    requires RealWeekdays(weekdays) && weekdays != []
    ensures WeekdayRange(weekdays, first, last)
  {
    first, last := weekdays[0], weekdays[0];
    if |weekdays| > 1 {
      assert forall w :: w in weekdays[1..] ==> w in weekdays;
      var f, l := WeekdayRangeExists(weekdays[1..]);
      first := if Position(f) < Position(first) then f else first;
      last := if Position(l) > Position(last) then l else last;
      assert forall w :: w in weekdays ==> w == weekdays[0] || w in weekdays[1..];
    }
  }

  /** The first and the last weekday of a rule. An empty list stands for the anchor's weekday, whichever
      that is. */
  ghost predicate RuleRange(rule: Rule, first: int, last: int) {
    if rule.weekdays == [] then first == last && 0 <= first <= 6 else WeekdayRange(rule.weekdays, first, last)
  }

  lemma AnchorRange(anchor: Instant, rule: Rule, first: int, last: int) returns (f: int, l: int)
    requires RuleRange(rule, first, last)
    ensures WeekdayRange(EffectiveWeekdays(anchor, rule), f, l)
    ensures LongestGap(rule, f, l) == LongestGap(rule, first, last)
  {
    hide LocalDay;
    if rule.weekdays == [] {
      f := Weekday(LocalDay(anchor, rule.Offset()));
      l := f;
      assert EffectiveWeekdays(anchor, rule) == [f];
    } else {
      f, l := first, last;
    }
  }

  /** An anchor on the last weekday of week 0 has the rule's own range. */
  lemma OwnRange(rule: Rule, first: int, last: int)
    requires RuleRange(rule, first, last)
    ensures WeekdayRange(EffectiveWeekdays(At(Position(last), 0, rule.Offset()), rule), first, last)
  {
    LocalOfAt(Position(last), 0, rule.Offset());
    hide At, LocalDay;
    if rule.weekdays == [] {
      DayOfPosition(0, last);
      assert EffectiveWeekdays(At(Position(last), 0, rule.Offset()), rule) == [last];
    }
  }

  /** The days from any moment to the next scheduled day: at most six inside a scheduled week, and
      otherwise at most those from its last weekday to the first of the next scheduled week. */
  function LongestGap(rule: Rule, first: int, last: int): int {
    var across := 7 * rule.NormalizedInterval() - (Position(last) - Position(first));
    if across < 6 then 6 else across
  }

  lemma DayOfPosition(week: int, weekday: int)
    requires 0 <= weekday <= 6
    ensures WeekOf(7 * week + Position(weekday)) == week && Weekday(7 * week + Position(weekday)) == weekday
  {
    var p := Position(weekday);
    DivisionIsUnique(7 * week + p, 7, week, p);
    if p == 6 {
      DivisionIsUnique(7 * week + p + 1, 7, week + 1, 0);
    } else {
      DivisionIsUnique(7 * week + p + 1, 7, week, p + 1);
    }
  }

  lemma WeeklyGap(anchor: Instant, after: Instant, rule: Rule, first: int, last: int) returns (day: int)
    requires WeekdayRange(EffectiveWeekdays(anchor, rule), first, last)
    ensures OnWeek(anchor, rule, day) && WeeklyAt(anchor, rule, day) > after
    ensures LocalDay(after, rule.Offset()) <= day
    ensures day <= LocalDay(after, rule.Offset()) + LongestGap(rule, first, last)
  {
    var startDay := LocalDay(after, rule.Offset());
    var interval := rule.NormalizedInterval();
    var x := WeekOf(startDay) - WeekOf(AnchorDay(anchor, rule));
    Division(x, interval);
    day := 7 * WeekOf(startDay) + Position(last);
    DayOfPosition(WeekOf(startDay), last);
    if x % interval != 0 || WeeklyAt(anchor, rule, day) <= after {
      WeeklyDayOf(anchor, rule, day);
      if WeeklyAt(anchor, rule, day) <= after {
        LocalDayIsMonotone(WeeklyAt(anchor, rule, day), after, rule.Offset());
        assert day <= startDay;
      } else {
        assert x % interval >= 1;
      }
      var w := WeekOf(startDay) + interval - x % interval;
      day := 7 * w + Position(first);
      assert w - WeekOf(AnchorDay(anchor, rule)) == (x / interval + 1) * interval by {
        assert (x / interval + 1) * interval == x / interval * interval + interval;
      }
      MultipleHasNoRemainder(x / interval + 1, interval);
      DayOfPosition(w, first);
      WeeklyDayOf(anchor, rule, day);
    }
  }

  /** The weekly search finds the first scheduled instant. */
  ghost predicate WeeklyRight(anchor: Instant, after: Instant, rule: Rule) {
    ComputeNext(anchor, after, rule).Some? && IsFirstAfter(anchor, rule, after, ComputeNext(anchor, after, rule).value)
  }

  lemma WeeklySucceeds(anchor: Instant, after: Instant, rule: Rule, first: int, last: int)
    requires rule.frequency == Week && WeeklyInRange(anchor, after, rule)
    requires WeekdayRange(EffectiveWeekdays(anchor, rule), first, last) && LongestGap(rule, first, last) < WEEKLY_LIMIT
    ensures WeeklyRight(anchor, after, rule)
  {
    hide OnWeek, WeeklyAt, LocalDay, ComputeNext;
    WeeklyIsFirst(anchor, after, rule);
    var day := WeeklyGap(anchor, after, rule, first, last);
    WeeklyDayOf(anchor, rule, day);
    assert Scheduled(anchor, rule, WeeklyAt(anchor, rule, day));
  }

  /** An input the search fails on, for a rule whose longest gap exceeds the days it scans. */
  lemma WeeklyFails(rule: Rule, first: int, last: int)
    requires rule.frequency == Week && RuleRange(rule, first, last)
    requires LongestGap(rule, first, last) >= WEEKLY_LIMIT
    ensures var anchor := At(Position(last), 0, rule.Offset());
            WeeklyInRange(anchor, anchor, rule) && ComputeNext(anchor, anchor, rule).None?
  {
    hide WeeklyHit, OnWeek, WeeklyAt, LongestGap;
    var anchor := At(Position(last), 0, rule.Offset());
    OwnRange(rule, first, last);
    LocalOfAt(Position(last), 0, rule.Offset());
    var c := WeeklyCandidates(anchor, rule, Position(last));
    forall j: nat | j < WEEKLY_LIMIT
      ensures Passed(c, anchor, j)
    {
      WeeklyHitIsOnWeek(anchor, rule, Position(last) + j);
      if OnWeek(anchor, rule, Position(last) + j) {
        NextCycleIsFar(anchor, rule, first, last, j);
        AnchorIsItsOwnDay(rule, Position(last));
      }
    }
    AllPassed(c, anchor, 0, WEEKLY_LIMIT);
  }

  lemma AnchorIsItsOwnDay(rule: Rule, day: int)
    ensures var anchor := At(day, 0, rule.Offset());
            AnchorDay(anchor, rule) == day && WeeklyAt(anchor, rule, day) == anchor
  {
    hide At;
    LocalOfAt(day, 0, rule.Offset());
  }

  /** From the last weekday of the anchor's week, the next scheduled day is a longest gap away. */
  lemma NextCycleIsFar(anchor: Instant, rule: Rule, first: int, last: int, j: nat)
    requires WeekdayRange(EffectiveWeekdays(anchor, rule), first, last) && AnchorDay(anchor, rule) == Position(last)
    requires OnWeek(anchor, rule, Position(last) + j) && LongestGap(rule, first, last) > 6
    ensures j == 0 || j >= LongestGap(rule, first, last)
  {
    var day := Position(last) + j;
    assert Position(first) <= Position(Weekday(day)) <= Position(last);
    DayOfItsWeek(day);
    DayOfItsWeek(Position(last));
    if WeekOf(day) > 0 {
      MultipleAtLeast(WeekOf(day), rule.NormalizedInterval());
    }
  }

  lemma DayOfItsWeek(day: int)
    ensures day == 7 * WeekOf(day) + Position(Weekday(day))
  {}

  lemma MultipleAtLeast(x: int, m: int)
    requires x > 0 && m > 0 && x % m == 0
    ensures x >= m
  {
    Division(x, m);
    ProductAtLeast(x / m, 1, m);
  }

  /** Within the range of durations the weekly search is right on every input exactly when the
      rule's longest gap is shorter than the 1098 days it scans. */
  lemma WeeklyExact(rule: Rule, first: int, last: int)
    requires rule.frequency == Week && RuleRange(rule, first, last)
    ensures (forall anchor, after :: WeeklyInRange(anchor, after, rule) ==> WeeklyRight(anchor, after, rule))
       <==> LongestGap(rule, first, last) < WEEKLY_LIMIT
  {
    hide ComputeNext, IsFirstAfter, At, WeeklyInRange, LongestGap, WeekdayRange;
    if LongestGap(rule, first, last) < WEEKLY_LIMIT {
      forall anchor, after | WeeklyInRange(anchor, after, rule)
        ensures WeeklyRight(anchor, after, rule)
      {
        var f, l := AnchorRange(anchor, rule, first, last);
        WeeklySucceeds(anchor, after, rule, f, l);
      }
    } else {
      WeeklyFails(rule, first, last);
      var anchor := At(Position(last), 0, rule.Offset());
      assert WeeklyInRange(anchor, anchor, rule) && !WeeklyRight(anchor, anchor, rule);
    }
  }

  /** A rule without weekdays, every so many weeks on the anchor's day, is right on every input in range
      exactly up to 156 weeks. */
  lemma AnchorWeekdayExact(rule: Rule)
    requires rule.frequency == Week && rule.weekdays == []
    ensures (forall anchor, after :: WeeklyInRange(anchor, after, rule) ==> WeeklyRight(anchor, after, rule))
       <==> rule.NormalizedInterval() <= 156
  {
    hide WeeklyInRange, WeeklyRight;
    WeeklyExact(rule, 1, 1);
  }

  /** Where durations saturate the distance reads 15250 weeks whatever it is, so every scanned week
      is taken or none is: a rule with an interval above one goes wrong there. */
  lemma WeeklySaturated(rule: Rule, weekday: int)
    requires rule.frequency == Week && 0 <= weekday <= 6 && (weekday in rule.weekdays || rule.weekdays == [])
    requires rule.NormalizedInterval() > 1
    ensures var anchor := At(Position(weekday), 0, rule.Offset());
            !WeeklyRight(anchor, At(7 * (MAX_WEEKS + 1) + Position(weekday), 0, rule.Offset()) - 1, rule)
  {
    hide WeeklyHit, WeeklyAt, At, LocalDay, WeeksBetween, OnWeek, EffectiveWeekdays, Position, Weekday, WeekOf;
    var anchor := At(Position(weekday), 0, rule.Offset());
    var day := 7 * (MAX_WEEKS + 1) + Position(weekday);
    var after := At(day, 0, rule.Offset()) - 1;
    OnAnchorWeekday(rule, weekday);
    DayOfPosition(MAX_WEEKS + 1, weekday);
    DayBefore(day, rule.Offset());
    AnchorIsItsOwnDay(rule, Position(weekday));
    WeeklyAtLater(anchor, rule, Position(weekday), day);
    AtLater(Position(weekday), day, rule.Offset());
    if WeeklyRight(anchor, after, rule) {
      SaturatedSearch(anchor, after, rule, day);
      SaturatedNotOnWeek(anchor, rule, day);
    }
  }

  lemma OnAnchorWeekday(rule: Rule, weekday: int)
    requires 0 <= weekday <= 6 && (weekday in rule.weekdays || rule.weekdays == [])
    ensures var anchor := At(Position(weekday), 0, rule.Offset());
            weekday in EffectiveWeekdays(anchor, rule) && WeekOf(AnchorDay(anchor, rule)) == 0
  {
    AnchorIsItsOwnDay(rule, Position(weekday));
    DayOfPosition(0, weekday);
    hide At, LocalDay, Position;
  }

  /** A search that starts on the day before a saturated one finds that day, if it finds anything right. */
  lemma SaturatedSearch(anchor: Instant, after: Instant, rule: Rule, day: int)
    requires rule.frequency == Week && ComputeNext(anchor, after, rule).Some?
    requires WeekOf(AnchorDay(anchor, rule)) == 0 && WeekOf(day) == MAX_WEEKS + 1
    requires Weekday(day) in EffectiveWeekdays(anchor, rule)
    requires LocalDay(after, rule.Offset()) == day - 1 && WeeklyAt(anchor, rule, day) == after + 1
    ensures MAX_WEEKS % rule.NormalizedInterval() == 0
    ensures ComputeNext(anchor, after, rule) == Some(WeeklyAt(anchor, rule, day))
  {
    hide WeeklyHit, WeeklyAt, LocalDay, EffectiveWeekdays, Weekday, AnchorDay;
    var c := WeeklyCandidates(anchor, rule, day - 1);
    FirstFinds(c, after, 0, WEEKLY_LIMIT);
    var j: nat :| j < WEEKLY_LIMIT && c(j) == ComputeNext(anchor, after, rule) && c(j).value > after
                  && forall i: nat :: 0 <= i < j ==> Passed(c, after, i);
    SaturatedHit(anchor, rule, day - 1 + j);
    SaturatedHit(anchor, rule, day);
    assert c(1) == Some(WeeklyAt(anchor, rule, day));
    assert !Passed(c, after, 1);
    WeeklyAtLater(anchor, rule, day, day - 1);
    assert j == 1;
  }

  lemma SaturatedNotOnWeek(anchor: Instant, rule: Rule, day: int)
    requires rule.frequency == Week && rule.NormalizedInterval() > 1 && MAX_WEEKS % rule.NormalizedInterval() == 0
    requires WeekOf(AnchorDay(anchor, rule)) == 0 && WeekOf(day) == MAX_WEEKS + 1
    ensures !Scheduled(anchor, rule, WeeklyAt(anchor, rule, day))
  {
    hide WeeklyAt, AnchorDay;
    WeeklyDayOf(anchor, rule, day);
    forall d | WeeklyAt(anchor, rule, day) == WeeklyAt(anchor, rule, d)
      ensures !OnWeek(anchor, rule, d)
    {
      WeeklyDayOf(anchor, rule, d);
      OneMoreThanMultiple(MAX_WEEKS, rule.NormalizedInterval());
    }
  }

  lemma DayBefore(day: int, offset: int)
    ensures LocalDay(At(day, 0, offset) - 1, offset) == day - 1
  {}

  lemma AtLater(a: int, b: int, offset: int)
    ensures At(b, 0, offset) == At(a, 0, offset) + (b - a) * DAY
  {}

  lemma WeeklyAtLater(anchor: Instant, rule: Rule, a: int, b: int)
    ensures WeeklyAt(anchor, rule, b) == WeeklyAt(anchor, rule, a) + (b - a) * DAY
  {}

  lemma SaturatedHit(anchor: Instant, rule: Rule, day: int)
    requires WeekOf(day) - WeekOf(AnchorDay(anchor, rule)) >= MAX_WEEKS
    ensures WeeklyHit(anchor, rule, day)
       <==> Weekday(day) in EffectiveWeekdays(anchor, rule) && MAX_WEEKS % rule.NormalizedInterval() == 0
  {
    hide WeekStartMonday, WeeksBetween;
    WeeksBetweenSaturates(AnchorDay(anchor, rule), day, rule.Offset());
  }

  lemma OneMoreThanMultiple(x: int, m: int)
    requires m > 1 && x % m == 0
    ensures (x + 1) % m == 1
  {
    Division(x, m);
    DivisionIsUnique(x + 1, m, x / m, 1);
  }

  /** Without a bound on the distance from the anchor, only a weekly rule that takes every week is
      right on every input. */
  lemma WeeklyExactForever(rule: Rule, first: int, last: int)
    requires rule.frequency == Week && RuleRange(rule, first, last)
    ensures (forall anchor, after :: WeeklyRight(anchor, after, rule)) <==> rule.NormalizedInterval() == 1
  {
    hide ComputeNext, IsFirstAfter, At;
    if rule.NormalizedInterval() == 1 {
      forall anchor, after
        ensures WeeklyRight(anchor, after, rule)
      {
        var f, l := AnchorRange(anchor, rule, first, last);
        EveryWeekRight(anchor, after, rule, f, l);
      }
    } else {
      WeeklySaturated(rule, last);
    }
  }

  lemma EveryWeekRight(anchor: Instant, after: Instant, rule: Rule, first: int, last: int)
    requires rule.frequency == Week && WeekdayRange(EffectiveWeekdays(anchor, rule), first, last)
    requires rule.NormalizedInterval() == 1
    ensures WeeklyRight(anchor, after, rule)
  {
    hide WeeklyAt, LocalDay, WeeklyHit, OnWeek, WeekdayRange;
    var startDay := LocalDay(after, rule.Offset());
    var c := WeeklyCandidates(anchor, rule, startDay);
    FirstFinds(c, after, 0, WEEKLY_LIMIT);
    var day := WeeklyGap(anchor, after, rule, first, last);
    EveryWeekHit(anchor, rule, day);
    assert c(day - startDay) == Some(WeeklyAt(anchor, rule, day));
    assert !Passed(c, after, day - startDay);
    var r := ComputeNext(anchor, after, rule).value;
    var j: nat :| c(j) == Some(r) && r > after && forall i: nat :: 0 <= i < j ==> Passed(c, after, i);
    EveryWeekHit(anchor, rule, startDay + j);
    forall t | Scheduled(anchor, rule, t) && t > after
      ensures r <= t
    {
      var d :| t == WeeklyAt(anchor, rule, d) && OnWeek(anchor, rule, d);
      EveryWeekNotBefore(anchor, after, rule, startDay, j, d);
    }
  }

  lemma EveryWeekHit(anchor: Instant, rule: Rule, day: int)
    requires rule.NormalizedInterval() == 1
    ensures WeeklyHit(anchor, rule, day) <==> OnWeek(anchor, rule, day)
  {
    hide LocalDay, WeekStartMonday, WeeksBetween, EffectiveWeekdays, Weekday, WeekOf;
  }

  lemma EveryWeekNotBefore(anchor: Instant, after: Instant, rule: Rule, startDay: int, j: nat, d: int)
    requires rule.NormalizedInterval() == 1 && startDay == LocalDay(after, rule.Offset())
    requires OnWeek(anchor, rule, d) && WeeklyAt(anchor, rule, d) > after
    requires forall i: nat :: 0 <= i < j ==> Passed(WeeklyCandidates(anchor, rule, startDay), after, i)
    ensures WeeklyAt(anchor, rule, startDay + j) <= WeeklyAt(anchor, rule, d)
  {
    hide WeeklyAt, LocalDay, WeeklyHit, OnWeek;
    var c := WeeklyCandidates(anchor, rule, startDay);
    WeeklyDayOf(anchor, rule, d);
    LocalDayIsMonotone(after, WeeklyAt(anchor, rule, d), rule.Offset());
    EveryWeekHit(anchor, rule, d);
    assert c(d - startDay) == Some(WeeklyAt(anchor, rule, d));
    assert !Passed(c, after, d - startDay);
    WeeklyAtLater(anchor, rule, d, startDay + j);
  }

  // ---------- Months and years ----------

  /** Adding months moves the month index by that many, before year zero as well, where the
      truncating division leaves a month number below one for `time.Date` to normalise. */
  lemma AddMonthsAddsToIndex(year: int, month: int, delta: int)
    ensures var (y, m) := AddMonths(year, month, delta);
            (MonthIndex(y, m) == MonthIndex(year, month) + delta
             && (MonthIndex(year, month) + delta >= 0 ==> 1 <= m <= 12))
  {}

  /** Moving by whole years is moving by twelve months each. */
  lemma YearIsTwelveMonths(anchor: Instant, years: int, rule: Rule)
    ensures YearCandidate(anchor, years, rule) == MonthCandidate(anchor, 12 * years, rule)
  {
    hide CalendarInstant, CivilOf;
    var date := CivilOf(AnchorDay(anchor, rule));
    AddMonthsAddsToIndex(date.month / 12, date.month % 12 + 1, 12 * years);
  }

  function MonthSearch(anchor: Instant, rule: Rule): Candidates {
    if rule.frequency == Year then YearlyCandidates(anchor, rule) else MonthlyCandidates(anchor, rule)
  }

  /** The engine's candidate in each month, day arithmetic and all, is the declared day of that month. */
  lemma CandidateIsOnMonth(anchor: Instant, rule: Rule, k: nat, t: Instant)
    requires rule.frequency == Month || rule.frequency == Year
    ensures MonthSearch(anchor, rule)(k) == Some(t) <==> OnMonth(anchor, rule, k, t)
  {
    hide CalendarInstant, CivilOf, OccursIn, AddMonths;
    var date := CivilOf(AnchorDay(anchor, rule));
    var interval := rule.NormalizedInterval();
    var mi := date.month + k * Stride(rule);
    var clock := ClockOf(anchor, rule.Offset());
    if rule.frequency == Year {
      YearIsTwelveMonths(anchor, k * interval, rule);
      assert 12 * (k * interval) == k * (12 * interval);
    }
    AddMonthsAddsToIndex(date.month / 12, date.month % 12 + 1, k * Stride(rule));
    assert MonthSearch(anchor, rule)(k) == Present(CalendarInstant(mi, rule, date.day, clock, rule.Offset()));
    AnchorDayIsPositive(anchor, rule);
    CalendarInstantOccurs(mi, rule, date.day, clock, t);
  }

  lemma AnchorDayIsPositive(anchor: Instant, rule: Rule)
    ensures 1 <= CivilOf(AnchorDay(anchor, rule)).day <= 31
  {
    CivilOfIsValid(AnchorDay(anchor, rule));
  }

  lemma CalendarInstantOccurs(mi: int, rule: Rule, anchorDay: int, clock: int, t: Instant)
    requires 1 <= anchorDay
    ensures Present(CalendarInstant(mi, rule, anchorDay, clock, rule.Offset())) == Some(t)
       <==> OccursIn(mi, rule, anchorDay, clock, t)
  {
    hide At, DayNumber, LastDay, Weekday, CountWeekday, NthWeekdayDay;
    LastDayIsMonthLength(mi);
    match rule.EffectiveMode() {
      case DayOfMonth =>
        assert OnMonthDay(mi, rule, anchorDay, if anchorDay > MonthLength(mi) then MonthLength(mi) else anchorDay);
      case LastDayOfMonth =>
        assert OnMonthDay(mi, rule, anchorDay, MonthLength(mi));
      case NthWeekday =>
        NthWeekdayIsOnMonthDay(mi, rule, anchorDay);
      case _ =>
    }
  }

  lemma NthWeekdayIsOnMonthDay(mi: int, rule: Rule, anchorDay: int)
    requires rule.EffectiveMode() == NthWeekday
    ensures forall d :: OnMonthDay(mi, rule, anchorDay, d) <==> NthWeekdayDay(mi, rule.nth, rule.weekday) == Some(d)
  {
    hide DayNumber, Weekday, CountWeekday, MonthLength;
    forall d
      ensures OnMonthDay(mi, rule, anchorDay, d) <==> NthWeekdayDay(mi, rule.nth, rule.weekday) == Some(d)
    {
      if rule.nth == -1 {
        LastWeekdayDay(mi, rule.weekday, d);
      } else if rule.nth >= 1 {
        NthWeekdayDayMeans(mi, rule.nth, rule.weekday, d);
      }
    }
  }

  lemma MonthsComeInOrder(anchor: Instant, rule: Rule, i: nat, t: Instant, j: nat, u: Instant)
    requires OnMonth(anchor, rule, i, t) && OnMonth(anchor, rule, j, u) && i < j
    ensures t < u
  {
    hide CivilOf, DayNumber, MonthLength, CountWeekday, AnchorDay;
    var date := CivilOf(AnchorDay(anchor, rule));
    var stride := Stride(rule);
    var a, b := date.month + i * stride, date.month + j * stride;
    ProductAtLeast(j, i, stride);
    var clock := ClockOf(anchor, rule.Offset());
    var d :| OnMonthDay(a, rule, date.day, d) && t == At(DayNumber(a, d), clock, rule.Offset());
    var e :| OnMonthDay(b, rule, date.day, e) && u == At(DayNumber(b, e), clock, rule.Offset());
    DayNumbersInOrder(a, d, b, e);
  }

  lemma DayNumbersInOrder(a: int, d: int, b: int, e: int)
    requires a < b && d <= MonthLength(a) && 1 <= e
    ensures DayNumber(a, d) < DayNumber(b, e)
  {
    hide MonthStart, MonthLength;
    MonthSteps(a);
    MonthsIncrease(a + 1, b);
  }

  lemma MonthSearchIncreases(anchor: Instant, rule: Rule)
    requires rule.frequency == Month || rule.frequency == Year
    ensures Increasing(MonthSearch(anchor, rule))
  {
    hide OnMonth, MonthSearch;
    var c := MonthSearch(anchor, rule);
    forall i: nat, j: nat | i < j && c(i).Some? && c(j).Some?
      ensures c(i).value < c(j).value
    {
      CandidateIsOnMonth(anchor, rule, i, c(i).value);
      CandidateIsOnMonth(anchor, rule, j, c(j).value);
      MonthsComeInOrder(anchor, rule, i, c(i).value, j, c(j).value);
    }
  }

  function MonthSearchLimit(rule: Rule): nat {
    if rule.frequency == Year then YEARLY_LIMIT else MONTHLY_LIMIT
  }

  /** The monthly and yearly search finds the first scheduled instant, and fails exactly when every
      occurrence among its first 1200 months or 500 years has passed. */
  lemma MonthlyIsFirst(anchor: Instant, after: Instant, rule: Rule)
    requires rule.frequency == Month || rule.frequency == Year
    ensures ComputeNext(anchor, after, rule).Some? ==>
              IsFirstAfter(anchor, rule, after, ComputeNext(anchor, after, rule).value)
    ensures ComputeNext(anchor, after, rule).None?
       <==> forall k: nat, t :: k < (if rule.frequency == Year then 500 else 1200) && OnMonth(anchor, rule, k, t) ==>
              t <= after
  {
    hide OnMonth, MonthSearch, First, CivilOf, ClockOf, LocalDay;
    var c := MonthSearch(anchor, rule);
    MonthSearchIncreases(anchor, rule);
    FirstIsLeast(c, after, MonthSearchLimit(rule));
    MonthComputeNext(anchor, after, rule);
    hide ComputeNext;
    var r := ComputeNext(anchor, after, rule);
    if r.Some? {
      var j: nat :| j < MonthSearchLimit(rule) && c(j) == r;
      CandidateIsOnMonth(anchor, rule, j, r.value);
      assert OnMonth(anchor, rule, j, r.value) && r.value > after;
      forall t | Scheduled(anchor, rule, t) && t > after
        ensures r.value <= t
      {
        var k: nat :| OnMonth(anchor, rule, k, t);
        CandidateIsOnMonth(anchor, rule, k, t);
      }
    } else {
      forall k: nat, t | k < MonthSearchLimit(rule) && OnMonth(anchor, rule, k, t)
        ensures t <= after
      {
        CandidateIsOnMonth(anchor, rule, k, t);
        assert Passed(c, after, k);
      }
    }
  }

  lemma MonthComputeNext(anchor: Instant, after: Instant, rule: Rule)
    requires rule.frequency == Month || rule.frequency == Year
    ensures ComputeNext(anchor, after, rule) == First(MonthSearch(anchor, rule), after, 0, MonthSearchLimit(rule))
  {
    hide First, MonthlyCandidates, YearlyCandidates;
  }
}
