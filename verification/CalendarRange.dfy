/** When the calendar searches stay within 64 bits. The interval has no upper bound, so neither the products
    of index and interval nor the years they lead to have one. A `time.Time` counts seconds in 64 bits. */
module CalendarRange {
  import opened Arithmetic
  import opened Calendar
  import opened Recurrence
  import opened Schedule

  predicate Fits64(x: int) {
    Wrap64(x) == x
  }

  lemma Fits64Means(x: int)
    ensures Fits64(x) <==> -MAX_DURATION - 1 <= x <= MAX_DURATION
  {}

  /** An instant whose second count fits. */
  predicate Storable(t: Instant) {
    Fits64(t / SECOND)
  }

  /** What lies between two storable instants is storable, and they are fewer than 2^64 seconds apart. */
  lemma StorableBetween(a: Instant, t: Instant, b: Instant)
    requires Storable(a) && Storable(b) && a <= t <= b
    ensures Storable(t) && b / SECOND - a / SECOND < TWO_64
  {
    Fits64Means(a / SECOND);
    Fits64Means(b / SECOND);
    Fits64Means(t / SECOND);
    hide Fits64;
  }

  // ---------- Days ----------

  ghost predicate DailyFits(anchor: Instant, rule: Rule) {
    forall k: nat :: k < DAILY_LIMIT ==>
      Fits64(k * rule.NormalizedInterval()) && Storable(DailyAt(anchor, rule, k))
  }

  lemma DailySteps(anchor: Instant, rule: Rule, k: nat)
    ensures DailyAt(anchor, rule, k) / SECOND
         == DailyAt(anchor, rule, 0) / SECOND + k * rule.NormalizedInterval() * DAY_SECONDS
  {
    var first, days := DailyAt(anchor, rule, 0), k * rule.NormalizedInterval();
    assert DailyAt(anchor, rule, k) == first + days * DAY;
    var seconds := days * DAY_SECONDS;
    hide DailyAt;
    Remainder(first + days * DAY, first / SECOND + seconds, first % SECOND);
  }

  /** Every value of a daily search fits exactly when the seconds of its last candidate do. */
  lemma DailyFitsExactly(anchor: Instant, rule: Rule)
    requires Storable(DailyAt(anchor, rule, 0))
    ensures DailyFits(anchor, rule)
       <==> DailyAt(anchor, rule, 0) / SECOND + (DAILY_LIMIT - 1) * rule.NormalizedInterval() * DAY_SECONDS
            <= MAX_DURATION
  {
    var first, interval := DailyAt(anchor, rule, 0), rule.NormalizedInterval();
    var last := DailyAt(anchor, rule, DAILY_LIMIT - 1);
    DailySteps(anchor, rule, DAILY_LIMIT - 1);
    Fits64Means(first / SECOND);
    Fits64Means(last / SECOND);
    hide DailyAt, Fits64;
    if Storable(last) {
      forall k: nat | k < DAILY_LIMIT
        ensures Fits64(k * interval) && Storable(DailyAt(anchor, rule, k))
      {
        DailySteps(anchor, rule, k);
        ProductAtLeast(DAILY_LIMIT - 1, k, interval);
        ProductAtLeast(k, 0, interval);
        Fits64Means(k * interval);
        Fits64Means(DailyAt(anchor, rule, k) / SECOND);
      }
    }
  }

  // ---------- Months and years ----------

  function MonthOpens(mi: int, rule: Rule): Instant {
    At(MonthStart(mi), 0, rule.Offset())
  }

  /** The last second of a month. */
  function MonthCloses(mi: int, rule: Rule): Instant {
    At(MonthStart(mi + 1), 0, rule.Offset()) - SECOND
  }

  /** The month of the search's candidate `k`. */
  function SearchMonth(anchor: Instant, rule: Rule, k: nat): int {
    CivilOf(AnchorDay(anchor, rule)).month + k * Stride(rule)
  }

  ghost predicate MonthsFit(anchor: Instant, rule: Rule) {
    forall k: nat :: k < MonthSearchLimit(rule) ==>
      var mi := SearchMonth(anchor, rule, k);
      Fits64(k * rule.NormalizedInterval()) && Storable(MonthOpens(mi, rule)) && Storable(MonthCloses(mi, rule))
  }

  lemma MonthSeconds(mi: int, rule: Rule)
    ensures MonthOpens(mi, rule) == SECOND * (MonthStart(mi) * DAY_SECONDS - rule.Offset())
    ensures MonthCloses(mi, rule) == SECOND * (MonthStart(mi + 1) * DAY_SECONDS - rule.Offset() - 1)
    ensures MonthOpens(mi, rule) / SECOND == MonthStart(mi) * DAY_SECONDS - rule.Offset()
    ensures MonthCloses(mi, rule) / SECOND == MonthStart(mi + 1) * DAY_SECONDS - rule.Offset() - 1
  {
    hide MonthStart;
    Remainder(MonthOpens(mi, rule), MonthStart(mi) * DAY_SECONDS - rule.Offset(), 0);
    Remainder(MonthCloses(mi, rule), MonthStart(mi + 1) * DAY_SECONDS - rule.Offset() - 1, 0);
  }

  lemma MonthsInOrder(a: int, b: int, rule: Rule)
    requires a <= b
    ensures MonthOpens(a, rule) < MonthCloses(a, rule) <= MonthCloses(b, rule)
    ensures MonthOpens(a, rule) <= MonthOpens(b, rule)
    ensures MonthOpens(b, rule) / SECOND - MonthOpens(a, rule) / SECOND >= 28 * DAY_SECONDS * (b - a)
  {
    hide MonthStart, MonthOpens, MonthCloses;
    MonthsIncrease(a, b);
    MonthsIncrease(a + 1, b + 1);
    MonthsIncrease(a, a + 1);
    MonthSeconds(a, rule);
    MonthSeconds(b, rule);
  }

  /** Every month of a monthly or yearly search fits exactly when the first and the last one do. */
  lemma MonthsFitExactly(anchor: Instant, rule: Rule)
    requires rule.frequency == Month || rule.frequency == Year
    ensures MonthsFit(anchor, rule)
       <==> && Storable(MonthOpens(SearchMonth(anchor, rule, 0), rule))
            && Storable(MonthCloses(SearchMonth(anchor, rule, MonthSearchLimit(rule) - 1), rule))
  {
    var n := MonthSearchLimit(rule) - 1;
    var first, last := SearchMonth(anchor, rule, 0), SearchMonth(anchor, rule, n);
    hide CivilOf, MonthOpens, MonthCloses, Fits64, Storable;
    if Storable(MonthOpens(first, rule)) && Storable(MonthCloses(last, rule)) {
      forall k: nat | k <= n
        ensures var mi := SearchMonth(anchor, rule, k);
                && Fits64(k * rule.NormalizedInterval())
                && Storable(MonthOpens(mi, rule)) && Storable(MonthCloses(mi, rule))
      {
        MonthFitsBetween(anchor, rule, k, n);
      }
    }
  }

  lemma MonthFitsBetween(anchor: Instant, rule: Rule, k: nat, n: nat)
    requires k <= n
    requires Storable(MonthOpens(SearchMonth(anchor, rule, 0), rule))
    requires Storable(MonthCloses(SearchMonth(anchor, rule, n), rule))
    ensures var mi := SearchMonth(anchor, rule, k);
            && Fits64(k * rule.NormalizedInterval())
            && Storable(MonthOpens(mi, rule)) && Storable(MonthCloses(mi, rule))
  {
    var a, mi, b := SearchMonth(anchor, rule, 0), SearchMonth(anchor, rule, k), SearchMonth(anchor, rule, n);
    SearchMonthsInOrder(anchor, rule, k, n);
    hide *;
    MonthsInOrder(a, mi, rule);
    MonthsInOrder(mi, b, rule);
    StorableBetween(MonthOpens(a, rule), MonthOpens(mi, rule), MonthCloses(b, rule));
    StorableBetween(MonthOpens(a, rule), MonthCloses(mi, rule), MonthCloses(b, rule));
    MonthsApartFit(a, mi, rule, k * rule.NormalizedInterval());
  }

  /** Fewer than 2^64 seconds hold far fewer than 2^63 months. */
  lemma MonthsApartFit(a: int, b: int, rule: Rule, x: int)
    requires 0 <= x <= b - a && Storable(MonthOpens(a, rule)) && Storable(MonthOpens(b, rule))
    ensures Fits64(x)
  {
    hide MonthOpens, MonthCloses, Fits64, Storable;
    MonthsInOrder(a, b, rule);
    StorableBetween(MonthOpens(a, rule), MonthOpens(b, rule), MonthOpens(b, rule));
    Fits64Means(x);
  }

  lemma SearchMonthsInOrder(anchor: Instant, rule: Rule, k: nat, n: nat)
    requires k <= n
    ensures SearchMonth(anchor, rule, 0) <= SearchMonth(anchor, rule, k) <= SearchMonth(anchor, rule, n)
    ensures 0 <= k * rule.NormalizedInterval() <= SearchMonth(anchor, rule, k) - SearchMonth(anchor, rule, 0)
  {
    var stride, interval := Stride(rule), rule.NormalizedInterval();
    hide CivilOf, AnchorDay;
    ProductAtLeast(n, k, stride);
    ProductAtLeast(k, 0, interval);
    assert stride == interval || stride == 12 * interval;
    if stride == 12 * interval {
      assert k * stride == 12 * (k * interval);
    }
  }

  /** The occurrences of the months searched are storable with them. */
  lemma OccurrencesFit(anchor: Instant, rule: Rule, k: nat, t: Instant)
    requires MonthsFit(anchor, rule) && k < MonthSearchLimit(rule) && OnMonth(anchor, rule, k, t)
    ensures Storable(t)
  {
    var mi := SearchMonth(anchor, rule, k);
    var clock := ClockOf(anchor, rule.Offset());
    MonthSteps(mi);
    hide CivilOf, MonthStart, MonthLength, Storable, Fits64, ClockOf, CountWeekday;
    assert exists d :: 1 <= d <= MonthLength(mi) && t == At(DayNumber(mi, d), clock, rule.Offset());
    var d :| 1 <= d <= MonthLength(mi) && t == At(DayNumber(mi, d), clock, rule.Offset());
    assert MonthOpens(mi, rule) <= t <= MonthCloses(mi, rule);
    StorableBetween(MonthOpens(mi, rule), t, MonthCloses(mi, rule));
  }

  // ---------- A bound on the interval ----------

  const SAFE_INTERVAL := 500_000_000

  lemma {:induction false} MonthsAtMost(a: int, b: int)
    requires a <= b
    ensures MonthStart(b) <= MonthStart(a) + 31 * (b - a)
    decreases b - a
  {
    if a < b {
      MonthsAtMost(a, b - 1);
      MonthSteps(b - 1);
    }
  }

  /** With an interval up to half a billion, every search from an anchor in the years 1 to 9999 fits. */
  lemma SafeIntervalFits(anchor: Instant, rule: Rule)
    requires 0 <= AnchorDay(anchor, rule) < DaysBeforeYear(10_000) && -DAY_SECONDS <= rule.Offset() <= DAY_SECONDS
    requires rule.interval <= SAFE_INTERVAL
    ensures DailyFits(anchor, rule)
    ensures rule.frequency == Month || rule.frequency == Year ==> MonthsFit(anchor, rule)
  {
    SafeDays(anchor, rule);
    hide *;
    if rule.frequency == Month || rule.frequency == Year {
      SafeMonths(anchor, rule);
    }
  }

  lemma SafeDays(anchor: Instant, rule: Rule)
    requires 0 <= AnchorDay(anchor, rule) < DaysBeforeYear(10_000) && -DAY_SECONDS <= rule.Offset() <= DAY_SECONDS
    requires rule.interval <= SAFE_INTERVAL
    ensures DailyFits(anchor, rule)
  {
    var first := DailyAt(anchor, rule, 0);
    assert first / SECOND
        == AnchorDay(anchor, rule) * DAY_SECONDS + ClockOf(anchor, rule.Offset()) - rule.Offset();
    Fits64Means(first / SECOND);
    DailyFitsExactly(anchor, rule);
  }

  lemma SafeMonths(anchor: Instant, rule: Rule)
    requires 0 <= AnchorDay(anchor, rule) < DaysBeforeYear(10_000) && -DAY_SECONDS <= rule.Offset() <= DAY_SECONDS
    requires rule.interval <= SAFE_INTERVAL && (rule.frequency == Month || rule.frequency == Year)
    ensures MonthsFit(anchor, rule)
  {
    var n := MonthSearchLimit(rule) - 1;
    var first, last := SearchMonth(anchor, rule, 0), SearchMonth(anchor, rule, n);
    SafeMonthsSearched(anchor, rule);
    YearTenThousand();
    MonthsFitExactly(anchor, rule);
    hide *;
    SafeEnds(first, last, AnchorDay(anchor, rule), rule);
  }

  lemma SafeEnds(first: int, last: int, day: int, rule: Rule)
    requires 0 <= day < 3_652_059 && MonthStart(first) <= day < MonthStart(first) + 31
    requires 0 <= last - first <= 499 * 12 * SAFE_INTERVAL && -DAY_SECONDS <= rule.Offset() <= DAY_SECONDS
    ensures Storable(MonthOpens(first, rule)) && Storable(MonthCloses(last, rule))
  {
    hide Fits64, MonthStart, MonthOpens, MonthCloses;
    MonthSeconds(first, rule);
    MonthSeconds(last, rule);
    MonthsAtMost(first, last + 1);
    MonthsIncrease(first, last + 1);
    SafeSeconds(MonthStart(first), day, MonthStart(last + 1), last + 1 - first, rule.Offset());
  }

  lemma SafeSeconds(start: int, day: int, end: int, months: int, offset: int)
    requires 0 <= day < 3_652_059 && start <= day < start + 31 && -DAY_SECONDS <= offset <= DAY_SECONDS
    requires 0 <= months <= 499 * 12 * SAFE_INTERVAL + 1 && start <= end <= start + 31 * months
    ensures Fits64(start * DAY_SECONDS - offset) && Fits64(end * DAY_SECONDS - offset - 1)
  {
    Fits64Means(start * DAY_SECONDS - offset);
    Fits64Means(end * DAY_SECONDS - offset - 1);
    hide Fits64;
  }

  lemma SafeMonthsSearched(anchor: Instant, rule: Rule)
    requires rule.interval <= SAFE_INTERVAL && (rule.frequency == Month || rule.frequency == Year)
    ensures var n := MonthSearchLimit(rule) - 1;
            0 <= SearchMonth(anchor, rule, n) - SearchMonth(anchor, rule, 0) <= 499 * 12 * SAFE_INTERVAL
    ensures var start := MonthStart(SearchMonth(anchor, rule, 0));
            start <= AnchorDay(anchor, rule) < start + 31
  {
    var day := AnchorDay(anchor, rule);
    CivilOfIsValid(day);
    hide CivilOf, MonthStart, AnchorDay;
  }

  lemma YearTenThousand()
    ensures DaysBeforeYear(10_000) == 3_652_059
  {}
}
