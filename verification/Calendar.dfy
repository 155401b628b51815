/** Proleptic Gregorian calendar arithmetic over day numbers, and instants seen from a
    zone with a fixed offset.

    Day 0 is 1 January of year 1, a Monday. An instant counts nanoseconds from the start of
    that day in UTC, so Go's zero `time.Time` is instant 0. A month is named by its index
    12 * year + (month - 1), which is what `time.Date` normalises its month argument to. */
module Calendar {
  import opened Arithmetic

  type Instant = int

  const SECOND := 1_000_000_000
  const DAY_SECONDS := 86_400
  const DAY := 86_400_000_000_000
  const ZERO_TIME: Instant := 0

  // ---------- Years and months ----------

  predicate Leap(y: int) {
    y % 4 == 0 && (y % 100 != 0 || y % 400 == 0)
  }

  function DaysBeforeYear(y: int): int {
    365 * (y - 1) + (y - 1) / 4 - (y - 1) / 100 + (y - 1) / 400
  }

  function YearLength(y: int): int {
    if Leap(y) then 366 else 365
  }

  /** Days of a year before its month `m`, where January is 0. */
  function DaysBeforeMonth(leap: bool, m: int): int {
    var extra := if leap then 1 else 0;
    if m <= 0 then 0
    else if m == 1 then 31
    else if m == 2 then 59 + extra
    else if m == 3 then 90 + extra
    else if m == 4 then 120 + extra
    else if m == 5 then 151 + extra
    else if m == 6 then 181 + extra
    else if m == 7 then 212 + extra
    else if m == 8 then 243 + extra
    else if m == 9 then 273 + extra
    else if m == 10 then 304 + extra
    else if m == 11 then 334 + extra
    else 365 + extra
  }

  /** The number of days of a month, by the rule every calendar states. */
  function MonthLength(mi: int): int {
    var m := mi % 12;
    if m == 1 then (if Leap(mi / 12) then 29 else 28)
    else if m == 3 || m == 5 || m == 8 || m == 10 then 30
    else 31
  }

  function MonthStart(mi: int): int {
    DaysBeforeYear(mi / 12) + DaysBeforeMonth(Leap(mi / 12), mi % 12)
  }

  lemma YearSteps(y: int)
    ensures DaysBeforeYear(y + 1) == DaysBeforeYear(y) + YearLength(y)
  {
    NextMultiple(y, 4);
    NextMultiple(y, 100);
    NextMultiple(y, 400);
    CenturiesAreFourths(y);
  }

  lemma CenturiesAreFourths(y: int)
    ensures y % 100 == 0 ==> y % 4 == 0
    ensures y % 400 == 0 ==> y % 100 == 0
  {
    if y % 100 == 0 {
      DivisionIsUnique(y, 4, 25 * (y / 100), 0);
    }
    if y % 400 == 0 {
      DivisionIsUnique(y, 100, 4 * (y / 400), 0);
    }
  }

  /** Consecutive months tile the day line. */
  lemma MonthSteps(mi: int)
    ensures MonthStart(mi + 1) == MonthStart(mi) + MonthLength(mi)
  {
    var y, m := mi / 12, mi % 12;
    YearSteps(y);
    assert mi + 1 == 12 * y + (m + 1);
    assert (mi + 1) / 12 == (if m == 11 then y + 1 else y) && (mi + 1) % 12 == (if m == 11 then 0 else m + 1);
    MonthFits(Leap(y), m);
  }

  lemma MonthFits(leap: bool, m: int)
    requires 0 <= m <= 11
    ensures DaysBeforeMonth(leap, m + 1) == DaysBeforeMonth(leap, m)
            + (if m == 1 then (if leap then 29 else 28) else if m == 3 || m == 5 || m == 8 || m == 10 then 30 else 31)
    ensures DaysBeforeMonth(leap, 0) == 0 && DaysBeforeMonth(leap, 12) == if leap then 366 else 365
  {}

  lemma {:induction false} MonthsIncrease(a: int, b: int)
    requires a <= b
    ensures MonthStart(a) + 28 * (b - a) <= MonthStart(b)
    decreases b - a
  {
    assert MonthLength(b - 1) >= 28;
    hide MonthStart, MonthLength;
    if a < b {
      MonthsIncrease(a, b - 1);
      MonthSteps(b - 1);
    }
  }

  // ---------- Civil dates ----------

  /** A date: the month index and the day of that month. */
  datatype Civil = Civil(month: int, day: int)

  predicate ValidCivil(c: Civil) {
    1 <= c.day <= MonthLength(c.month)
  }

  /** `time.Date` at midnight: a day of month outside the month runs over into its neighbours. */
  function DayNumber(month: int, day: int): int {
    MonthStart(month) + day - 1
  }

  /** The year of a day, by 400-, 100-, 4- and 1-year cycles. */
  function YearOf(day: int): int {
    var n400 := day / 146097;
    var d400 := day % 146097;
    var n100 := if d400 / 36524 == 4 then 3 else d400 / 36524;
    var d100 := d400 - 36524 * n100;
    var n4 := d100 / 1461;
    var d4 := d100 % 1461;
    var n1 := if d4 / 365 == 4 then 3 else d4 / 365;
    400 * n400 + 100 * n100 + 4 * n4 + n1 + 1
  }

  lemma CycleYear(n400: int, n100: int, n4: int, n1: int)
    requires 0 <= n100 < 4 && 0 <= n4 < 25 && 0 <= n1 < 4
    ensures var y := 400 * n400 + 100 * n100 + 4 * n4 + n1 + 1;
            && DaysBeforeYear(y) == 146097 * n400 + 36524 * n100 + 1461 * n4 + 365 * n1
            && (Leap(y) <==> n1 == 3 && (n4 != 24 || n100 == 3))
  {
    var y := 400 * n400 + 100 * n100 + 4 * n4 + n1 + 1;
    DivisionIsUnique(y - 1, 4, 100 * n400 + 25 * n100 + n4, n1);
    DivisionIsUnique(y - 1, 100, 4 * n400 + n100, 4 * n4 + n1);
    DivisionIsUnique(y - 1, 400, n400, 100 * n100 + 4 * n4 + n1);
    NextMultiple(y, 4);
    NextMultiple(y, 100);
    NextMultiple(y, 400);
  }

  lemma YearOfContains(day: int)
    ensures DaysBeforeYear(YearOf(day)) <= day < DaysBeforeYear(YearOf(day)) + YearLength(YearOf(day))
  {
    var n400 := day / 146097;
    var d400 := day % 146097;
    var n100 := if d400 / 36524 == 4 then 3 else d400 / 36524;
    var d100 := d400 - 36524 * n100;
    var n4 := d100 / 1461;
    var d4 := d100 % 1461;
    var n1 := if d4 / 365 == 4 then 3 else d4 / 365;
    assert 0 <= n100 < 4 && 0 <= d100 <= 36524;
    assert 0 <= n4 < 25;
    CycleYear(n400, n100, n4, n1);
  }

  /** The month (January is 0) of a day of the year. */
  function MonthOfYearDay(leap: bool, d: int): int {
    if d < DaysBeforeMonth(leap, 1) then 0
    else if d < DaysBeforeMonth(leap, 2) then 1
    else if d < DaysBeforeMonth(leap, 3) then 2
    else if d < DaysBeforeMonth(leap, 4) then 3
    else if d < DaysBeforeMonth(leap, 5) then 4
    else if d < DaysBeforeMonth(leap, 6) then 5
    else if d < DaysBeforeMonth(leap, 7) then 6
    else if d < DaysBeforeMonth(leap, 8) then 7
    else if d < DaysBeforeMonth(leap, 9) then 8
    else if d < DaysBeforeMonth(leap, 10) then 9
    else if d < DaysBeforeMonth(leap, 11) then 10
    else 11
  }

  function CivilOf(day: int): Civil {
    var y := YearOf(day);
    var d := day - DaysBeforeYear(y);
    var m := MonthOfYearDay(Leap(y), d);
    Civil(12 * y + m, d - DaysBeforeMonth(Leap(y), m) + 1)
  }

  lemma CivilOfIsValid(day: int)
    ensures ValidCivil(CivilOf(day))
    ensures DayNumber(CivilOf(day).month, CivilOf(day).day) == day
  {
    YearOfContains(day);
    var y := YearOf(day);
    var leap, d := Leap(y), day - DaysBeforeYear(y);
    hide YearOf, Leap, DaysBeforeYear, DaysBeforeMonth, MonthOfYearDay;
    MonthOfYearDayContains(leap, d);
    var m := MonthOfYearDay(leap, d);
    MonthFits(leap, m);
    assert (12 * y + m) / 12 == y && (12 * y + m) % 12 == m;
  }

  lemma MonthOfYearDayContains(leap: bool, d: int)
    requires 0 <= d < if leap then 366 else 365
    ensures var m := MonthOfYearDay(leap, d);
            0 <= m <= 11 && DaysBeforeMonth(leap, m) <= d < DaysBeforeMonth(leap, m + 1)
  {}

  /** A day lies in one month only. */
  lemma MonthIsUnique(a: int, b: int, day: int)
    requires MonthStart(a) <= day < MonthStart(a + 1)
    requires MonthStart(b) <= day < MonthStart(b + 1)
    ensures a == b
  {
    hide *;
    if a < b {
      MonthsIncrease(a + 1, b);
    } else if b < a {
      MonthsIncrease(b + 1, a);
    }
  }

  /** Day numbers and valid dates are in bijection, in both directions. */
  lemma CivilRoundTrip(c: Civil)
    requires ValidCivil(c)
    ensures CivilOf(DayNumber(c.month, c.day)) == c
  {
    hide MonthStart, CivilOf, MonthLength;
    var day := DayNumber(c.month, c.day);
    CivilOfIsValid(day);
    MonthSteps(c.month);
    MonthSteps(CivilOf(day).month);
    MonthIsUnique(c.month, CivilOf(day).month, day);
  }

  // ---------- Weekdays and weeks ----------

  /** `time.Weekday`: Sunday is 0. */
  function Weekday(day: int): int {
    (day + 1) % 7
  }

  /** Weeks start on Monday, as day 0 does. */
  function WeekOf(day: int): int {
    day / 7
  }

  /** 1 January of the year 2000 was a Saturday. */
  lemma MillenniumBegan()
    ensures Weekday(DayNumber(12 * 2000, 1)) == 6 && DayNumber(12 * 2000, 1) == 730_119
  {}

  // ---------- Instants in a fixed-offset zone ----------

  /** The instant of a local day and a clock reading in seconds, `offset` seconds east of UTC. */
  function At(day: int, clock: int, offset: int): Instant {
    day * DAY + (clock - offset) * SECOND
  }

  function LocalDay(t: Instant, offset: int): int {
    (t + offset * SECOND) / DAY
  }

  /** `Clock()` in seconds: the sub-second part of the instant is dropped. */
  function ClockOf(t: Instant, offset: int): (clock: int)
    ensures 0 <= clock < DAY_SECONDS
  {
    ((t + offset * SECOND) % DAY) / SECOND
  }

  lemma LocalOfAt(day: int, clock: int, offset: int)
    requires 0 <= clock < DAY_SECONDS
    ensures LocalDay(At(day, clock, offset), offset) == day
    ensures ClockOf(At(day, clock, offset), offset) == clock
  {
    assert At(day, clock, offset) + offset * SECOND == day * DAY + clock * SECOND;
  }

  lemma Remainder(x: int, q: int, r: int)
    requires 0 <= r < SECOND && x == q * SECOND + r
    ensures x / SECOND == q && x % SECOND == r
  {}
}
