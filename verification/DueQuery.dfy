/** The query for due reminders, which compares timestamps as text and reads back the rows it selects. */
module DueQuery {
  import opened Wrappers
  import opened Calendar
  import opened Recurrence
  import opened RecurrencePatch
  import opened Schedule
  import opened Series
  import opened Text
  import opened TimeParse
  import opened TimeText
  import opened Reminders
  import opened Delivery

  // ---------- What is listed ----------

  /** The query's condition. */
  predicate ListedAsDue(row: Row, now: Instant) {
    row.status == Pending && !Less(Format(now), Format(row.due))
  }

  /** Exactly which pending rows the query takes for due. Across years: those whose year is written before
      the current one. Within a year: those due by time, but for a due time within the current second
      whose fraction is a proper prefix of the current one; and those due later in the current second,
      when the current fraction is a proper prefix of theirs. */
  lemma ListedExactly(row: Row, now: Instant)
    requires row.status == Pending
    ensures var early := Fraction(row.due % SECOND) < Fraction(now % SECOND);
            var late := Fraction(now % SECOND) < Fraction(row.due % SECOND);
            var second := row.due / SECOND == now / SECOND;
            (ListedAsDue(row, now)
             <==> if UtcYear(row.due) != UtcYear(now) then YearBefore(UtcYear(row.due), UtcYear(now))
                  else if row.due <= now then !(second && early) else second && late)
  {
    hide Format, Less, Fraction, UtcYear, YearBefore;
    YearsDiffer(UtcYear(row.due), UtcYear(now));
    if row.due < now {
      TextOrderExact(row.due, now);
      SecondsInOrder(row.due, now);
    } else if row.due > now {
      TextOrderExact(now, row.due);
      SecondsInOrder(now, row.due);
    } else {
      LessIsStrict(Format(now));
    }
  }

  lemma SecondsInOrder(t: Instant, u: Instant)
    requires t < u
    ensures t / SECOND <= u / SECOND
  {}

  /** In years of four digits the query goes by time, but for the exceptions within the current second. */
  lemma ListedByTime(row: Row, now: Instant)
    requires row.status == Pending && FourDigits(UtcYear(row.due)) && FourDigits(UtcYear(now))
    ensures var early := Fraction(row.due % SECOND) < Fraction(now % SECOND);
            var late := Fraction(now % SECOND) < Fraction(row.due % SECOND);
            var second := row.due / SECOND == now / SECOND;
            (ListedAsDue(row, now) <==> if row.due <= now then !(second && early) else second && late)
  {
    hide ListedAsDue, Fraction, YearBefore, UtcYear;
    ListedExactly(row, now);
    YearBeforeMeans(UtcYear(row.due), UtcYear(now));
    if row.due <= now {
      YearsInOrder(row.due, now);
    } else {
      YearsInOrder(now, row.due);
    }
    if row.due / SECOND == now / SECOND {
      OneSecondOneYear(row.due, now);
    }
  }

  /** Due in a year of more digits, the first four of which make a number below the current year. */
  predicate FarFuture(row: Row, now: Instant) {
    var y := UtcYear(row.due);
    y > 9999 && Leading(y, Width(y) - 4) < UtcYear(now)
  }

  /** A row overdue by a full second is listed. A row due in a later second is listed exactly when it is
      due so far in the future that its year reads early. */
  lemma FullSecondDecides(row: Row, now: Instant)
    requires row.status == Pending && FourDigits(UtcYear(now))
    ensures row.due + SECOND <= now ==> ListedAsDue(row, now)
    ensures row.due / SECOND > now / SECOND ==> (ListedAsDue(row, now) <==> FarFuture(row, now))
  {
    hide Fraction, ListedAsDue, YearBefore, UtcYear, Leading, Width;
    ListedExactly(row, now);
    YearBeforeMeans(UtcYear(row.due), UtcYear(now));
    if row.due <= now {
      YearsInOrder(row.due, now);
    } else {
      YearsInOrder(now, row.due);
    }
    if row.due + SECOND <= now {
      assert row.due / SECOND < now / SECOND by { SecondsApart(row.due, now); }
    }
  }

  lemma SecondsApart(t: Instant, u: Instant)
    requires t + SECOND <= u
    ensures t / SECOND < u / SECOND
  {}

  // ---------- What the query answers ----------

  /** What the query selects: distinct listed rows in order of their text, and all of them unless the
      limit was reached. */
  ghost predicate Selection(s: Store, now: Instant, limit: nat, ids: seq<Id>) {
    && Distinct(ids) && |ids| <= limit
    && (forall i :: 0 <= i < |ids| ==> ids[i] in s.rows && ListedAsDue(s.rows[ids[i]], now))
    && (forall i, j :: 0 <= i < j < |ids| ==> !Less(Format(s.rows[ids[j]].due), Format(s.rows[ids[i]].due)))
    && (forall id :: id in s.rows && ListedAsDue(s.rows[id], now) && id !in ids ==>
          |ids| == limit && forall i :: 0 <= i < |ids| ==> !Less(Format(s.rows[id].due), Format(s.rows[ids[i]].due)))
  }

  /** The rows, or an error as soon as one of them cannot be read back. */
  datatype Answer = Rows(ids: seq<Id>) | QueryFails

  function AnswerFor(s: Store, ids: seq<Id>): Answer {
    if forall i :: 0 <= i < |ids| ==> ids[i] in s.rows && Readable(s.rows[ids[i]]) then Rows(ids) else QueryFails
  }

  /** A pass delivers the rows of the answer, and does nothing if the query fails. */
  function PassOn(s: Store, a: Answer, now: Instant, outcome: Id -> Attempt): Store {
    match a
    case Rows(ids) => Pass(s, ids, now, outcome)
    case QueryFails => s
  }

  /** A row can be read back exactly when its due time and its anchor lie in years of four digits. */
  lemma ReadableExactly(row: Row)
    ensures Readable(row)
       <==> FourDigits(UtcYear(row.due)) && (row.anchor == ZERO_TIME || FourDigits(UtcYear(row.anchor)))
  {
    hide Parse, Format, UtcYear;
    WrittenIsRead(row.due);
    WrittenIsRead(row.anchor);
  }

  /** When the limit does not cut the selection short, a reminder overdue by a full second is selected, and
      the query answers with the rows if and only if every listed row can be read back. */
  lemma OverdueIsInTheList(s: Store, now: Instant, limit: nat, ids: seq<Id>, id: Id)
    requires FourDigits(UtcYear(now)) && Selection(s, now, limit, ids) && |ids| < limit
    requires id in s.rows && s.rows[id].status == Pending && s.rows[id].due + SECOND <= now
    ensures id in ids
    ensures AnswerFor(s, ids)
         == if forall r :: r in s.rows && ListedAsDue(s.rows[r], now) ==> Readable(s.rows[r])
            then Rows(ids) else QueryFails
  {
    hide ListedAsDue, Readable, UtcYear;
    FullSecondDecides(s.rows[id], now);
  }

  /** A pending row far in the future is listed for good, cannot be read back, and makes the query fail
      whenever it is selected: no reminder of any chat is then sent. */
  lemma FarFutureStopsDelivery(s: Store, now: Instant, later: Instant, limit: nat, ids: seq<Id>, id: Id)
    requires now <= later && FourDigits(UtcYear(now)) && FourDigits(UtcYear(later))
    requires id in s.rows && s.rows[id].status == Pending && FarFuture(s.rows[id], now)
    requires Selection(s, later, limit, ids)
    ensures ListedAsDue(s.rows[id], later)
    ensures |ids| < limit || id in ids ==> AnswerFor(s, ids) == QueryFails
  {
    hide ListedAsDue, Readable, UtcYear, Leading, Width;
    var row := s.rows[id];
    YearsInOrder(now, later);
    ReadableExactly(row);
    if row.due <= later {
      YearsInOrder(row.due, later);
    } else if row.due / SECOND == later / SECOND {
      OneSecondOneYear(row.due, later);
    } else {
      SecondsInOrder(later, row.due);
      FullSecondDecides(row, later);
    }
  }

  // ---------- A second pass ----------

  lemma ScheduledOnWholeSecond(anchor: Instant, rule: Rule, t: Instant)
    requires anchor % SECOND == 0 && Scheduled(anchor, rule, t)
    ensures t % SECOND == 0
  {
    hide OnMonthDay, CivilOf, OnWeek, DayNumber, ClockOf, LocalDay;
    match rule.frequency {
      case Minute | Hour =>
        var k: nat :| t == anchor + k * Step(rule);
        FixedStepOnWholeSecond(anchor, k, rule.NormalizedInterval(), if rule.frequency == Minute then 60 else 3600);
      case Day =>
        var k: nat :| t == DailyAt(anchor, rule, k);
        AtOnWholeSecond(LocalDay(anchor, rule.Offset()) + k * rule.NormalizedInterval(),
                        ClockOf(anchor, rule.Offset()), rule.Offset());
      case Week =>
        var day :| t == WeeklyAt(anchor, rule, day) && OnWeek(anchor, rule, day);
        AtOnWholeSecond(day, ClockOf(anchor, rule.Offset()), rule.Offset());
      case Month | Year =>
        var k: nat :| OnMonth(anchor, rule, k, t);
        var date := CivilOf(AnchorDay(anchor, rule));
        var mi := date.month + k * Stride(rule);
        var d :| && OnMonthDay(mi, rule, date.day, d)
                 && t == At(DayNumber(mi, d), ClockOf(anchor, rule.Offset()), rule.Offset());
        AtOnWholeSecond(DayNumber(mi, d), ClockOf(anchor, rule.Offset()), rule.Offset());
    }
  }

  lemma FixedStepOnWholeSecond(anchor: Instant, k: nat, interval: int, seconds: int)
    requires anchor % SECOND == 0
    ensures (anchor + k * (interval * (seconds * SECOND))) % SECOND == 0
  {
    assert k * (interval * (seconds * SECOND)) == (k * interval * seconds) * SECOND;
    Remainder(anchor + k * (interval * (seconds * SECOND)), anchor / SECOND + k * interval * seconds, 0);
  }

  lemma AtOnWholeSecond(day: int, clock: int, offset: int)
    ensures At(day, clock, offset) % SECOND == 0
  {
    Remainder(At(day, clock, offset), day * DAY_SECONDS + clock - offset, 0);
  }

  /** A sent row with its anchor on a whole second is listed again at the same moment exactly when it stays
      pending and its next due time lies far in the future. */
  lemma SentIsListedExactly(row: Row, now: Instant)
    requires FourDigits(UtcYear(now))
    requires row.rule.Some? ==> AnchorOf(row) % SECOND == 0 && InRange(AnchorOf(row), now, row.rule.value)
    ensures var r := AfterDelivery(row, now);
            ListedAsDue(r, now) <==> r.status == Pending && FarFuture(r, now)
  {
    hide InRange, Scheduled, NextDue, ListedAsDue, FarFuture, UtcYear;
    var r := AfterDelivery(row, now);
    if r.status == Pending && row.rule.Some? {
      DeliveryMovesDue(row, now);
      ScheduledOnWholeSecond(AnchorOf(row), row.rule.value, r.due);
      assert r.due / SECOND > now / SECOND by {
        assert r.due == r.due / SECOND * SECOND;
      }
      FullSecondDecides(r, now);
    } else {
      NotPendingNotListed(r, now);
    }
  }

  lemma NotPendingNotListed(row: Row, now: Instant)
    requires row.status != Pending
    ensures !ListedAsDue(row, now)
  {}

  lemma {:induction false} AllSent(ids: seq<Id>, outcome: Id -> Attempt)
    requires forall i :: 0 <= i < |ids| ==> outcome(ids[i]) == Sent
    ensures SentOf(ids, outcome) == ids
  {
    if ids != [] {
      AllSent(ids[1..], outcome);
      assert ids == [ids[0]] + ids[1..];
    }
  }

  /** When the selection is complete, all its rows are sent, and their anchors are on whole seconds, a second
      pass at the same moment sends nothing: its query selects exactly the sent rows that are next due far
      in the future, and so answers with no rows, or fails if there is such a row. */
  lemma SecondPassSendsNothing(s: Store, now: Instant, ids: seq<Id>, outcome: Id -> Attempt, again: seq<Id>,
                             outcomes: Id -> Attempt)
    requires FourDigits(UtcYear(now))
    requires Selection(s, now, 100, ids) && forall id :: id in s.rows && ListedAsDue(s.rows[id], now) ==> id in ids
    requires forall i :: 0 <= i < |ids| ==> outcome(ids[i]) == Sent
    requires forall id :: id in ids && s.rows[id].rule.Some? ==>
               AnchorOf(s.rows[id]) % SECOND == 0 && InRange(AnchorOf(s.rows[id]), now, s.rows[id].rule.value)
    requires Selection(Pass(s, ids, now, outcome), now, 100, again)
    ensures forall id :: id in again <==> id in ids && IsNextFar(s.rows, id, now)
    ensures AnswerFor(Pass(s, ids, now, outcome), again)
         == if exists id :: id in ids && IsNextFar(s.rows, id, now) then QueryFails else Rows([])
    ensures var t := Pass(s, ids, now, outcome);
            PassOn(t, AnswerFor(t, again), now, outcomes) == t
  {
    hide ListedAsDue, AfterDelivery, InRange, AnchorOf, FarFuture, Readable, UtcYear;
    AllSent(ids, outcome);
    var t := Pass(s, ids, now, outcome);
    forall id | id in ids
      ensures id in t.rows && (ListedAsDue(t.rows[id], now) <==> IsNextFar(s.rows, id, now))
    {
      SentIsListedExactly(s.rows[id], now);
    }
    assert forall id :: id in t.rows && id !in ids ==> t.rows[id] == s.rows[id];
    assert forall id :: id in again ==> id in ids;

    AllAreSelected(t, now, ids, again);
    forall id | id in again
      ensures !Readable(t.rows[id])
    {
      assert IsNextFar(s.rows, id, now);
      FarIsUnreadable(t.rows[id], now);
    }
    if again != [] {
      assert again[0] in again;
    } else {
      EmptyPass(t, now, outcomes);
    }
  }

  lemma EmptyPass(s: Store, now: Instant, outcome: Id -> Attempt)
    ensures Pass(s, [], now, outcome) == s
  {
    hide AfterDelivery;
    assert Advanced(s.rows, [], now) == s.rows;
  }

  /** The row stays pending after a delivery and is next due far in the future. */
  predicate IsNextFar(rows: map<Id, Row>, id: Id, now: Instant) {
    id in rows && AfterDelivery(rows[id], now).status == Pending && FarFuture(AfterDelivery(rows[id], now), now)
  }

  lemma FarIsUnreadable(row: Row, now: Instant)
    requires FarFuture(row, now)
    ensures !Readable(row)
  {
    hide Readable, UtcYear;
    ReadableExactly(row);
  }

  /** A selection among at most as many rows as the limit leaves no listed one out. */
  lemma AllAreSelected(s: Store, now: Instant, ids: seq<Id>, again: seq<Id>)
    requires Distinct(ids) && |ids| <= 100 && Selection(s, now, 100, again)
    requires forall id :: id in again ==> id in ids
    ensures forall id :: id in ids && id in s.rows && ListedAsDue(s.rows[id], now) ==> id in again
  {
    hide ListedAsDue, Less, Format;
    forall id | id in ids && id in s.rows && ListedAsDue(s.rows[id], now)
      ensures id in again
    {
      if id !in again {
        FewerWithout(ids, again, id);
      }
    }
  }

  lemma FewerWithout(ids: seq<Id>, again: seq<Id>, id: Id)
    requires Distinct(ids) && Distinct(again) && id in ids && id !in again
    requires forall r :: r in again ==> r in ids
    ensures |again| < |ids|
  {
    var a, b := set r | r in ids, set r | r in again;
    DistinctSize(ids);
    DistinctSize(again);
    assert b <= a - {id};
    SmallerSet(b, a - {id});
  }

  lemma {:induction false} DistinctSize(ids: seq<Id>)
    requires Distinct(ids)
    ensures |set r | r in ids| == |ids|
  {
    if ids == [] {
      assert (set r | r in ids) == {};
    } else {
      var rest := ids[1..];
      DistinctSize(rest);
      assert (set r | r in ids) == (set r | r in rest) + {ids[0]};
    }
  }

  lemma SmallerSet(a: set<Id>, b: set<Id>)
    requires a <= b
    ensures |a| <= |b|
  {
    assert b == a + (b - a);
  }

  // ---------- Where a pass goes wrong ----------

  /** When a row, whatever its anchor is, is listed again at the moment it was sent: its next due time falls
      into the same second and the moment's fraction is a proper prefix of it, or it falls into another
      year, which is written before the current one. */
  lemma SentIsListedAgain(row: Row, now: Instant)
    requires row.rule.Some? && InRange(AnchorOf(row), now, row.rule.value) && AfterDelivery(row, now).status == Pending
    ensures var due := AfterDelivery(row, now).due;
            (ListedAsDue(AfterDelivery(row, now), now)
             <==> if UtcYear(due) == UtcYear(now)
                  then due / SECOND == now / SECOND && Fraction(now % SECOND) < Fraction(due % SECOND)
                  else YearBefore(UtcYear(due), UtcYear(now)))
  {
    hide InRange, Scheduled, AfterDelivery, ListedAsDue, UtcYear, YearBefore, Fraction;
    DeliveryMovesDue(row, now);
    ListedExactly(AfterDelivery(row, now), now);
  }

  // ---------- A reminder that stops all others ----------

  /** "9999-12-31T23:59:59-12:00", which is a moment of year 10000 in UTC. */
  const LAST_LOCAL_MOMENT := At(DayNumber(119_999, 31), 86_399, -43_200)

  const FAR_ARGS :=
    SetArgs("text", NoMode, "", Some(LAST_LOCAL_MOMENT), RuleArgs(1, None, [], UnsetMode, 0, None, UnsetEnd, NoDate, 0))

  lemma YearOfDate(c: Civil, clock: int)
    requires ValidCivil(c) && 0 <= clock < DAY_SECONDS
    ensures UtcYear(At(DayNumber(c.month, c.day), clock, 0)) == c.month / 12
  {
    hide At, LocalDay, DayNumber, CivilOf, MonthLength, UtcYear;
    LocalOfAt(DayNumber(c.month, c.day), clock, 0);
    CivilRoundTrip(c);
    YearOfCivil(At(DayNumber(c.month, c.day), clock, 0));
  }

  lemma MonthEnds(mi: int)
    ensures DayNumber(mi, MonthLength(mi)) + 1 == DayNumber(mi + 1, 1)
  {
    MonthSteps(mi);
    hide MonthStart, MonthLength;
  }

  lemma TwelveHoursLater(day: int)
    ensures At(day, 86_399, -43_200) == At(day + 1, 43_199, 0)
  {}

  lemma LastLocalMomentIsFar()
    ensures UtcYear(LAST_LOCAL_MOMENT) == 10_000
  {
    hide At, DayNumber, UtcYear, Leap;
    var first := Civil(120_000, 1);
    assert MonthLength(119_999) == 31 && ValidCivil(first);
    MonthEnds(119_999);
    TwelveHoursLater(DayNumber(119_999, 31));
    YearOfDate(first, 43_199);
  }

  lemma FarReminderIsSet(s: Store, chat: string, id: Id, timezone: Timezone)
    ensures SetReminder(s, chat, id, FAR_ARGS, timezone).Ok?
    ensures var t := SetReminder(s, chat, id, FAR_ARGS, timezone).value;
            id in t.rows && t.rows[id].due == LAST_LOCAL_MOMENT && t.rows[id].status == Pending
  {
    hide At, DayNumber;
    assert !IsSpace("text"[0]);
    assert !Blank("text");
  }

  lemma OthersUnchanged(s: Store, chat: string, id: Id, timezone: Timezone)
    requires SetReminder(s, chat, id, FAR_ARGS, timezone).Ok?
    ensures var t := SetReminder(s, chat, id, FAR_ARGS, timezone).value;
            forall r :: r in t.rows && r != id ==> r in s.rows && t.rows[r] == s.rows[r]
  {
    hide At, DayNumber;
  }

  lemma YearTenThousandIsFar(row: Row, now: Instant)
    requires UtcYear(row.due) == 10_000 && 1001 <= UtcYear(now)
    ensures FarFuture(row, now)
  {
    hide UtcYear;
    assert Width(10_000) == 5 && Leading(10_000, 1) == 1000;
  }

  /** Year 10000 is written before the years from 1001 to 9999, so that a row due in it is selected
      whatever the limit is. */
  lemma YearTenThousandIsSelected(s: Store, now: Instant, limit: nat, ids: seq<Id>, id: Id)
    requires limit > 0 && Selection(s, now, limit, ids)
    requires id in s.rows && ListedAsDue(s.rows[id], now) && UtcYear(s.rows[id].due) == 10_000
    requires forall r :: r in s.rows && r != id && s.rows[r].status == Pending ==>
               1001 <= UtcYear(s.rows[r].due) <= 9999
    ensures id in ids
  {
    hide UtcYear, Format, Less, Leading, Width;
    if id !in ids {
      var first := s.rows[ids[0]];
      assert ids[0] in ids && ids[0] != id && first.status == Pending;
      YearTenThousandIsFar(s.rows[id], first.due);
      YearBeforeMeans(10_000, UtcYear(first.due));
      FormatOrder(s.rows[id].due, first.due);
    }
  }

  /** One reminder set for that moment, and in every year from 1001 to 9999 each query that selects it
      fails: always if the other pending rows are due in those years, and otherwise unless the limit is
      reached by rows written no later. */
  lemma OneReminderStopsAll(s: Store, chat: string, id: Id, timezone: Timezone, now: Instant, ids: seq<Id>)
    requires id !in s.rows && 1001 <= UtcYear(now) <= 9999
    ensures SetReminder(s, chat, id, FAR_ARGS, timezone).Ok?
    ensures var t := SetReminder(s, chat, id, FAR_ARGS, timezone).value;
            Selection(t, now, 100, ids)
            && (|ids| < 100 || id in ids
                || forall r :: r in s.rows && s.rows[r].status == Pending ==> 1001 <= UtcYear(s.rows[r].due) <= 9999)
            ==> AnswerFor(t, ids) == QueryFails
  {
    hide At, DayNumber, UtcYear, ListedAsDue, Readable, FarFuture, AnswerFor;
    LastLocalMomentIsFar();
    FarReminderIsSet(s, chat, id, timezone);
    hide SetReminder;
    var t := SetReminder(s, chat, id, FAR_ARGS, timezone).value;
    YearTenThousandIsFar(t.rows[id], now);
    if Selection(t, now, 100, ids) {
      FarFutureStopsDelivery(t, now, now, 100, ids, id);
      if forall r :: r in s.rows && s.rows[r].status == Pending ==> 1001 <= UtcYear(s.rows[r].due) <= 9999 {
        OthersUnchanged(s, chat, id, timezone);
        YearTenThousandIsSelected(t, now, 100, ids, id);
      }
    }
  }
}
