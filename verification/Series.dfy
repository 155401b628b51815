/** The series of instants a rule produces when each result is fed back as the next `after`. */
module Series {
  import opened Wrappers
  import opened Calendar
  import opened Arithmetic
  import opened Recurrence
  import opened Schedule

  /** Where 64-bit durations do not distort the search. */
  ghost predicate InRange(anchor: Instant, after: Instant, rule: Rule) {
    match rule.frequency
    case Minute | Hour => Fits(anchor, after, Step(rule))
    case Week => WeeklyInRange(anchor, after, rule)
    case _ => true
  }

  lemma ComputeNextIsFirst(anchor: Instant, after: Instant, rule: Rule)
    requires InRange(anchor, after, rule)
    ensures ComputeNext(anchor, after, rule).Some? ==>
              IsFirstAfter(anchor, rule, after, ComputeNext(anchor, after, rule).value)
  {
    hide NextFixedInterval, First;
    match rule.frequency {
      case Minute | Hour =>
        FixedIntervalExact(anchor, after, rule, Unit(rule));
        WrapRange(Step(rule));
        var r := ComputeNext(anchor, after, rule);
        if r.Some? {
          FixedFirstIsFirst(anchor, after, rule, r.value);
        }
      case Day => DailyIsFirst(anchor, after, rule);
      case Week => WeeklyIsFirst(anchor, after, rule);
      case Month | Year => MonthlyIsFirst(anchor, after, rule);
      case UnsetFrequency | UnknownFrequency =>
    }
  }

  lemma FixedFirstIsFirst(anchor: Instant, after: Instant, rule: Rule, r: Instant)
    requires rule.frequency == Minute || rule.frequency == Hour
    requires FixedFirst(anchor, Step(rule), after, r)
    ensures IsFirstAfter(anchor, rule, after, r)
  {
    forall t | Scheduled(anchor, rule, t) && t > after
      ensures r <= t
    {
      var k: nat :| t == anchor + k * Step(rule);
    }
  }

  // ---------- Monotonicity and the end of a series ----------

  lemma NextDueIsFirst(anchor: Instant, after: Instant, rule: Rule, count: int)
    requires InRange(anchor, after, rule) && NextDue(anchor, after, rule, count).Some?
    ensures IsFirstAfter(anchor, rule, after, NextDue(anchor, after, rule, count).value)
  {
    hide ComputeNext, IsFirstAfter;
    ComputeNextIsFirst(anchor, after, rule);
  }

  /** A later `after` never yields an earlier instant. */
  lemma NextDueIsMonotone(anchor: Instant, rule: Rule, a: Instant, countA: int, b: Instant, countB: int)
    requires a <= b && InRange(anchor, a, rule) && InRange(anchor, b, rule)
    requires NextDue(anchor, a, rule, countA).Some? && NextDue(anchor, b, rule, countB).Some?
    ensures NextDue(anchor, a, rule, countA).value <= NextDue(anchor, b, rule, countB).value
  {
    hide NextDue, Scheduled;
    NextDueIsFirst(anchor, a, rule, countA);
    NextDueIsFirst(anchor, b, rule, countB);
  }

  /** A weekly rule the search can always answer. */
  ghost predicate Searchable(rule: Rule) {
    rule.frequency == Week ==> rule.NormalizedInterval() <= 156 && RealWeekdays(rule.weekdays)
  }

  lemma SearchableWeekSucceeds(anchor: Instant, after: Instant, rule: Rule)
    requires rule.frequency == Week && Searchable(rule) && InRange(anchor, after, rule)
    ensures ComputeNext(anchor, after, rule).Some?
  {
    hide ComputeNext, WeeklyInRange, IsFirstAfter;
    var first, last := WeekdayRangeExists(EffectiveWeekdays(anchor, rule));
    WeeklySucceeds(anchor, after, rule, first, last);
  }

  /** Once no scheduled instant is left, none is left later. */
  lemma ExhaustedStaysExhausted(anchor: Instant, rule: Rule, a: Instant, b: Instant)
    requires a <= b && Searchable(rule) && InRange(anchor, a, rule) && InRange(anchor, b, rule)
    requires ComputeNext(anchor, a, rule).None?
    ensures ComputeNext(anchor, b, rule).None?
  {
    hide First, NextFixedInterval, DailyAt;
    match rule.frequency {
      case Minute | Hour =>
        FixedIntervalOutcome(anchor, a, rule, Unit(rule));
        FixedIntervalOutcome(anchor, b, rule, Unit(rule));
      case Day =>
        DailyIsFirst(anchor, a, rule);
        DailyIsFirst(anchor, b, rule);
      case Week => SearchableWeekSucceeds(anchor, a, rule);
      case Month | Year => FirstFailsLater(MonthSearch(anchor, rule), a, b, 0, MonthSearchLimit(rule));
      case UnsetFrequency | UnknownFrequency =>
    }
  }

  /** A series that has ended has ended for every later `after` and every larger count. */
  lemma EndedStaysEnded(anchor: Instant, rule: Rule, a: Instant, countA: int, b: Instant, countB: int)
    requires a <= b && countA <= countB && Searchable(rule)
    requires InRange(anchor, a, rule) && InRange(anchor, b, rule)
    requires NextDue(anchor, a, rule, countA).None?
    ensures NextDue(anchor, b, rule, countB).None?
  {
    hide ComputeNext, Scheduled, EndOfDay, InRange, Searchable;
    if ComputeNext(anchor, a, rule).None? {
      ExhaustedStaysExhausted(anchor, rule, a, b);
    } else {
      ComputeNextIsFirst(anchor, a, rule);
      ComputeNextIsFirst(anchor, b, rule);
    }
  }

  /** Weekly rules end for good exactly when their longest gap is shorter than the days the search
      scans: otherwise it can find nothing and later find something. */
  lemma EndedWeeklyExact(rule: Rule, first: int, last: int)
    requires rule.frequency == Week && RuleRange(rule, first, last)
    ensures (forall anchor, a, b ::
               && a <= b && WeeklyInRange(anchor, a, rule) && WeeklyInRange(anchor, b, rule)
               && ComputeNext(anchor, a, rule).None?
               ==> ComputeNext(anchor, b, rule).None?)
       <==> LongestGap(rule, first, last) < WEEKLY_LIMIT
  {
    hide ComputeNext, WeeklyInRange, LongestGap, WeekdayRange, RuleRange, IsFirstAfter;
    if LongestGap(rule, first, last) < WEEKLY_LIMIT {
      forall anchor, a | WeeklyInRange(anchor, a, rule)
        ensures ComputeNext(anchor, a, rule).Some?
      {
        var f, l := AnchorRange(anchor, rule, first, last);
        WeeklySucceeds(anchor, a, rule, f, l);
      }
    } else {
      var anchor, a, b := EndedWeeklyReturns(rule, first, last);
    }
  }

  /** A rule without weekdays ends for good exactly up to 156 weeks. */
  lemma EndedAnchorWeekdayExact(rule: Rule)
    requires rule.frequency == Week && rule.weekdays == []
    ensures (forall anchor, a, b ::
               && a <= b && WeeklyInRange(anchor, a, rule) && WeeklyInRange(anchor, b, rule)
               && ComputeNext(anchor, a, rule).None?
               ==> ComputeNext(anchor, b, rule).None?)
       <==> rule.NormalizedInterval() <= 156
  {
    hide ComputeNext, WeeklyInRange;
    EndedWeeklyExact(rule, 1, 1);
  }

  /** The days before the anchor's week, as far as the search looks, hold nothing scheduled; the anchor's
      week does. */
  lemma EndedWeeklyReturns(rule: Rule, first: int, last: int) returns (anchor: Instant, a: Instant, b: Instant)
    requires rule.frequency == Week && RuleRange(rule, first, last) && LongestGap(rule, first, last) >= WEEKLY_LIMIT
    ensures a <= b && WeeklyInRange(anchor, a, rule) && WeeklyInRange(anchor, b, rule)
    ensures ComputeNext(anchor, a, rule).None? && ComputeNext(anchor, b, rule).Some?
  {
    hide First, At, LocalDay, OnWeek, WeekdayRange, WeeklyHit, LongestGap;
    var offset := rule.Offset();
    anchor := At(Position(last), 0, offset);
    var target := Position(first);
    OwnRange(rule, first, last);
    AnchorIsItsOwnDay(rule, Position(last));
    assert ClockOf(anchor, offset) == 0 by { LocalOfAt(Position(last), 0, offset); }
    a, b := At(target - WEEKLY_LIMIT, 0, offset), At(target, 0, offset) - 1;
    AtLater(target - WEEKLY_LIMIT, target, offset);
    LocalOfAt(target - WEEKLY_LIMIT, 0, offset);
    DayBefore(target, offset);
    var c := WeeklyCandidates(anchor, rule, target - WEEKLY_LIMIT);
    forall j: nat | j < WEEKLY_LIMIT
      ensures Passed(c, a, j)
    {
      var day := target - WEEKLY_LIMIT + j;
      WeeklyHitIsOnWeek(anchor, rule, day);
      if OnWeek(anchor, rule, day) {
        CycleBeforeIsFar(anchor, rule, first, last, day);
        assert day == target - WEEKLY_LIMIT && WeeklyAt(anchor, rule, day) == a;
      }
    }
    AllPassed(c, a, 0, WEEKLY_LIMIT);
    OnFirstWeekday(anchor, rule, first, last);
    WeeklyNotPassed(anchor, rule, b, target, ComputeNext(anchor, b, rule));
  }

  lemma OnFirstWeekday(anchor: Instant, rule: Rule, first: int, last: int)
    requires WeekdayRange(EffectiveWeekdays(anchor, rule), first, last) && AnchorDay(anchor, rule) == Position(last)
    ensures OnWeek(anchor, rule, Position(first))
  {
    hide LocalDay;
    DayOfPosition(0, first);
    DayOfPosition(0, last);
  }

  /** Before the first weekday of the anchor's week, the last scheduled day is a longest gap away. */
  lemma CycleBeforeIsFar(anchor: Instant, rule: Rule, first: int, last: int, day: int)
    requires WeekdayRange(EffectiveWeekdays(anchor, rule), first, last) && AnchorDay(anchor, rule) == Position(last)
    requires OnWeek(anchor, rule, day) && day < Position(first) && LongestGap(rule, first, last) > 6
    ensures day <= Position(first) - LongestGap(rule, first, last)
  {
    assert Position(first) <= Position(Weekday(day)) <= Position(last);
    DayOfItsWeek(day);
    DayOfItsWeek(Position(last));
    NegatedMultiple(WeekOf(day), rule.NormalizedInterval());
    MultipleAtLeast(-WeekOf(day), rule.NormalizedInterval());
  }

  /** A rule that ends on a date has ended exactly when the search finds nothing, or no scheduled instant
      is left up to the end of that local day. */
  lemma EndsOnDate(anchor: Instant, after: Instant, rule: Rule, count: int)
    requires rule.end.kind == OnDate && rule.end.date.Some? && InRange(anchor, after, rule)
    ensures NextDue(anchor, after, rule, count).None?
       <==> || ComputeNext(anchor, after, rule).None?
            || forall t :: Scheduled(anchor, rule, t) && t > after ==>
                 LocalDay(t, rule.Offset()) > LocalDay(rule.end.date.value, rule.Offset())
  {
    hide ComputeNext, Scheduled, LocalDay, EndOfDay;
    ComputeNextIsFirst(anchor, after, rule);
    if ComputeNext(anchor, after, rule).Some? {
      var r := ComputeNext(anchor, after, rule).value;
      EndOfDayBounds(r, rule.end.date.value, rule.Offset());
      forall t | t >= r && r > EndOfDay(rule.end.date.value, rule.Offset())
        ensures LocalDay(t, rule.Offset()) > LocalDay(rule.end.date.value, rule.Offset())
      {
        EndOfDayBounds(t, rule.end.date.value, rule.Offset());
      }
    }
  }

  lemma EndOfDayBounds(t: Instant, date: Instant, offset: int)
    ensures t > EndOfDay(date, offset) <==> LocalDay(t, offset) > LocalDay(date, offset)
  {
    hide LocalDay;
    LocalDayBounds(t, offset);
    LocalDayBounds(date, offset);
  }

  lemma LocalDayBounds(t: Instant, offset: int)
    ensures LocalDay(t, offset) * DAY <= t + offset * SECOND < LocalDay(t, offset) * DAY + DAY
  {}

  /** The search finds nothing, or an instant on a later local day than the one a series ends on. */
  predicate SearchEnds(anchor: Instant, after: Instant, rule: Rule) {
    var next := ComputeNext(anchor, after, rule);
    || next.None?
    || (&& rule.end.kind == OnDate && rule.end.date.Some?
        && LocalDay(next.value, rule.Offset()) > LocalDay(rule.end.date.value, rule.Offset()))
  }

  /** A series has ended exactly when it has been delivered as often as it allows, or the search ends. */
  lemma EndsExactly(anchor: Instant, after: Instant, rule: Rule, count: int)
    requires rule.Valid()
    ensures NextDue(anchor, after, rule, count).None?
       <==> (rule.end.kind == AfterCount && count >= rule.end.count) || SearchEnds(anchor, after, rule)
    ensures NextDue(anchor, after, rule, count).Some? ==>
              NextDue(anchor, after, rule, count) == ComputeNext(anchor, after, rule)
  {
    hide ComputeNext, LocalDay, EndOfDay;
    if ComputeNext(anchor, after, rule).Some? && rule.end.kind == OnDate {
      EndOfDayBounds(ComputeNext(anchor, after, rule).value, rule.end.date.value, rule.Offset());
    }
  }

  // ---------- Feeding results back ----------

  /** Each instant is what `NextDue` returns after its predecessor, with one more delivery counted. */
  ghost predicate Fed(anchor: Instant, rule: Rule, start: Instant, count: int, s: seq<Instant>) {
    forall i :: 0 <= i < |s| ==> FedAt(anchor, rule, start, count, s, i)
  }

  ghost predicate FedAt(anchor: Instant, rule: Rule, start: Instant, count: int, s: seq<Instant>, i: int)
    requires 0 <= i < |s|
  {
    var after := if i == 0 then start else s[i - 1];
    InRange(anchor, after, rule) && NextDue(anchor, after, rule, count + i) == Some(s[i])
  }

  /** Feeding results back lists the schedule from the start on: in order, without a repeat, and
      without skipping any scheduled instant. */
  lemma {:induction false} FedListsTheSchedule(anchor: Instant, rule: Rule, start: Instant, count: int, s: seq<Instant>)
    requires Fed(anchor, rule, start, count, s)
    ensures forall i, j :: 0 <= i < j < |s| ==> s[i] < s[j]
    ensures forall t :: t in s <==> Scheduled(anchor, rule, t) && |s| > 0 && start < t <= s[|s| - 1]
  {
    hide NextDue, Scheduled, InRange;
    if s != [] {
      var n := |s| - 1;
      var init := s[..n];
      assert Fed(anchor, rule, start, count, init) by {
        forall i | 0 <= i < |init|
          ensures FedAt(anchor, rule, start, count, init, i)
        {
          assert FedAt(anchor, rule, start, count, s, i);
        }
      }
      FedListsTheSchedule(anchor, rule, start, count, init);
      var after := if n == 0 then start else s[n - 1];
      assert FedAt(anchor, rule, start, count, s, n);
      NextDueIsFirst(anchor, after, rule, count + n);
      assert s == init + [s[n]];
      forall i, j | 0 <= i < j < |s|
        ensures s[i] < s[j]
      {
        if j == n && i < n - 1 {
          assert init[i] < init[n - 1];
        }
      }
      forall t
        ensures t in s <==> Scheduled(anchor, rule, t) && start < t <= s[n]
      {
        assert t in s <==> t in init || t == s[n];
        if n > 0 {
          assert init[n - 1] == after && after in init;
        }
      }
    }
  }

  /** Each instant is what `NextDue` returns after a moment of its own, not before the preceding instant. */
  ghost predicate FedLate(anchor: Instant, rule: Rule, count: int, afters: seq<Instant>, s: seq<Instant>)
    requires |afters| == |s|
  {
    forall i :: 0 <= i < |s| ==> FedLateAt(anchor, rule, count, afters, s, i)
  }

  ghost predicate FedLateAt(anchor: Instant, rule: Rule, count: int, afters: seq<Instant>, s: seq<Instant>, i: int)
    requires 0 <= i < |s| == |afters|
  {
    && InRange(anchor, afters[i], rule) && NextDue(anchor, afters[i], rule, count + i) == Some(s[i])
    && (i > 0 ==> s[i - 1] <= afters[i])
  }

  ghost predicate Skipped(afters: seq<Instant>, s: seq<Instant>, t: Instant, i: int)
    requires |afters| == |s|
  {
    0 < i < |s| && s[i - 1] < t <= afters[i]
  }

  lemma LateIsFirst(anchor: Instant, rule: Rule, count: int, afters: seq<Instant>, s: seq<Instant>, i: int)
    requires 0 <= i < |s| == |afters| && FedLate(anchor, rule, count, afters, s)
    ensures IsFirstAfter(anchor, rule, afters[i], s[i]) && (i > 0 ==> s[i - 1] <= afters[i])
  {
    hide NextDue, Scheduled, InRange, IsFirstAfter;
    assert FedLateAt(anchor, rule, count, afters, s, i);
    NextDueIsFirst(anchor, afters[i], rule, count + i);
  }

  lemma {:induction false} LateIncreases(anchor: Instant, rule: Rule, count: int, afters: seq<Instant>, s: seq<Instant>,
                                         i: int, j: int)
    requires 0 <= i < j < |s| == |afters| && FedLate(anchor, rule, count, afters, s)
    ensures s[i] < s[j]
    decreases j
  {
    hide Scheduled, FedLate;
    LateIsFirst(anchor, rule, count, afters, s, j);
    if i < j - 1 {
      LateIncreases(anchor, rule, count, afters, s, i, j - 1);
    }
  }

  /** The first element that is not below `t`. */
  lemma {:induction false} Reached(s: seq<Instant>, t: Instant) returns (i: nat)
    requires s != [] && t <= s[|s| - 1]
    ensures i < |s| && t <= s[i] && (i > 0 ==> s[i - 1] < t)
  {
    i := |s| - 1;
    while i > 0 && t <= s[i - 1]
      invariant i < |s| && t <= s[i]
    {
      i := i - 1;
    }
  }

  lemma SkippedIsMissed(anchor: Instant, rule: Rule, count: int, afters: seq<Instant>, s: seq<Instant>,
                        t: Instant, i: int)
    requires |afters| == |s| && FedLate(anchor, rule, count, afters, s) && Skipped(afters, s, t, i)
    ensures t !in s
  {
    hide FedLate, Scheduled;
    LateIsFirst(anchor, rule, count, afters, s, i);
    forall j | 0 <= j < |s|
      ensures s[j] != t
    {
      if j < i - 1 {
        LateIncreases(anchor, rule, count, afters, s, j, i - 1);
      } else if j > i {
        LateIncreases(anchor, rule, count, afters, s, i, j);
      }
    }
  }

  /** Passes that come late list the schedule in order and skip exactly what was scheduled between an
      instant and the pass that served it. */
  lemma LatePassesSkip(anchor: Instant, rule: Rule, count: int, afters: seq<Instant>, s: seq<Instant>)
    requires |afters| == |s| && FedLate(anchor, rule, count, afters, s)
    ensures forall i, j :: 0 <= i < j < |s| ==> s[i] < s[j]
    ensures forall t :: t in s ==> Scheduled(anchor, rule, t)
    ensures forall t :: Scheduled(anchor, rule, t) && |s| > 0 && s[0] <= t <= s[|s| - 1] ==>
              (t !in s <==> exists i :: Skipped(afters, s, t, i))
  {
    hide FedLate, Scheduled;
    forall i, j | 0 <= i < j < |s|
      ensures s[i] < s[j]
    {
      LateIncreases(anchor, rule, count, afters, s, i, j);
    }
    forall i | 0 <= i < |s|
      ensures Scheduled(anchor, rule, s[i])
    {
      LateIsFirst(anchor, rule, count, afters, s, i);
    }
    forall t | Scheduled(anchor, rule, t) && |s| > 0 && s[0] <= t <= s[|s| - 1]
      ensures t !in s <==> exists i :: Skipped(afters, s, t, i)
    {
      var i := Reached(s, t);
      LateIsFirst(anchor, rule, count, afters, s, i);
      assert t == s[i] || Skipped(afters, s, t, i);
      if j :| Skipped(afters, s, t, j) {
        SkippedIsMissed(anchor, rule, count, afters, s, t, j);
      }
    }
  }
}
