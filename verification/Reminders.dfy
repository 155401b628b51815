/** The reminder table: the tools that set, update and cancel reminders, and the delivery pass.
    The query for due rows is answered by the database; the pass runs on any answer it may give. */
module Reminders {
  import opened Wrappers
  import opened Calendar
  import opened Recurrence
  import opened Schedule
  import opened RecurrencePatch
  import opened Text
  import opened TimeParse
  import opened TimeText

  // ---------- Rows ----------

  type Id = string

  datatype Status = Pending | Delivered | Cancelled

  datatype Mode = TextMode | ActionMode

  /** A row; an anchor equal to the zero time is absent. */
  datatype Row = Row(
    chat: string,
    due: Instant,
    text: string,
    status: Status,
    anchor: Instant,
    rule: Option<Rule>,
    count: int,
    mode: Mode,
    prompt: string)

  /** The table, and the reminders sent so far, in order. */
  datatype Store = Store(rows: map<Id, Row>, log: seq<Id>)
  {
    function Sends(id: Id): nat {
      multiset(log)[id]
    }

    /** The write of `UpsertReminder`: on a conflict the chat is kept, and text mode drops the prompt. */
    function Upsert(id: Id, row: Row): Store {
      var kept := if id in rows then row.(chat := rows[id].chat) else row;
      this.(rows := rows[id := if row.mode == TextMode then kept.(prompt := "") else kept])
    }

    function Get(chat: string, id: Id): Option<Row> {
      if id in rows && rows[id].chat == chat && rows[id].status == Pending then Some(rows[id]) else None
    }

    /** `AdvanceReminder`, whatever the row's status is. */
    function AdvanceRow(id: Id, next: Option<Instant>, count: int): Store {
      if id !in rows then this
      else if next.None? then this.(rows := rows[id := rows[id].(status := Delivered)])
      else this.(rows := rows[id := rows[id].(due := next.value, count := count, status := Pending)])
    }
  }

  /** Whether the timestamps of a row can be read back from the table; an absent anchor is not stored. */
  predicate Readable(row: Row) {
    Parse(Format(row.due)).Some? && (row.anchor == ZERO_TIME || Parse(Format(row.anchor)).Some?)
  }

  // ---------- The tools ----------

  datatype ModeArg = NoMode | GivenMode(mode: Mode) | UnknownModeArg

  datatype Error = BadRule(rule: RecurrencePatch.Error) | BadDueAt | BadTime | BadMode | NoText | NoPrompt
                 | NotFound | Unreadable | NothingToChange | NoUpcoming | NoWeekday

  datatype SetArgs = SetArgs(text: string, mode: ModeArg, prompt: string, dueAt: Option<Instant>, rule: RuleArgs)

  function SetReminder(s: Store, chat: string, id: Id, args: SetArgs, timezone: Timezone): Result<Store, Error> {
    var rule := NewRule(args.rule, timezone);
    if args.dueAt.None? then Err(BadDueAt)
    else if rule.Err? then Err(BadRule(rule.error))
    else if args.mode == UnknownModeArg then Err(BadMode)
    else
      var mode := if args.mode == NoMode then TextMode else args.mode.mode;
      if mode == TextMode && Blank(args.text) then Err(NoText)
      else if mode == ActionMode && Blank(args.prompt) then Err(NoPrompt)
      else
        var due := args.dueAt.value;
        Ok(s.Upsert(id, Row(chat, due, args.text, Pending, due, rule.value, 0, mode, Trim(args.prompt))))
  }

  /** A clock time in seconds. */
  type ClockTime = c: int | 0 <= c < DAY_SECONDS

  /** Arguments of an update. An absent text or prompt is empty; a due time or clock time that was
      given but cannot be read is `Some(None)`. */
  datatype UpdateArgs = UpdateArgs(
    text: string, mode: ModeArg, prompt: string, dueAt: Option<Option<Instant>>, clock: Option<Option<ClockTime>>,
    weekdays: seq<WeekdayName>, patch: Option<Patch>)
  {
    predicate Empty() {
      text == "" && mode == NoMode && prompt == "" && dueAt.None? && clock.None? && weekdays == [] && patch.None?
    }
  }

  const WEEKDAY_LIMIT: nat := 370

  /** The days from `from` on, each at the given clock, that fall on a given weekday. */
  function WeekdayCandidates(from: Instant, weekdays: seq<int>, clock: int, offset: int): Candidates {
    (k: nat) =>
      var day := LocalDay(from, offset) + k;
      if Weekday(day) in weekdays then Some(At(day, clock, offset)) else None
  }

  function NextWeekday(from: Instant, weekdays: seq<int>, clock: int, offset: int): Option<Instant> {
    First(WeekdayCandidates(from, weekdays, clock, offset), from - 1, 0, WEEKDAY_LIMIT)
  }

  method NextWeekdayWithClock(from: Instant, weekdays: seq<int>, clock: int, offset: int) returns (r: Option<Instant>)
    ensures r == NextWeekday(from, weekdays, clock, offset)
  {
    var start := LocalDay(from, offset);
    ghost var c := WeekdayCandidates(from, weekdays, clock, offset);
    var k: nat := 0;
    while k < WEEKDAY_LIMIT
      invariant k <= WEEKDAY_LIMIT
      invariant First(c, from - 1, 0, WEEKDAY_LIMIT) == First(c, from - 1, k, WEEKDAY_LIMIT)
    {
      var day := start + k;
      var candidate := At(day, clock, offset);
      k := k + 1;
      if Weekday(day) !in weekdays {
        continue;
      }
      if candidate >= from {
        return Some(candidate);
      }
    }
    return None;
  }

  /** The search finds the first day at that clock, on one of the weekdays, that is not before `from`;
      it always succeeds when a real weekday is named. */
  lemma NextWeekdayIsFirst(from: Instant, weekdays: seq<int>, clock: int, offset: int)
    requires 0 <= clock < DAY_SECONDS && RealWeekdays(weekdays) && weekdays != []
    ensures NextWeekday(from, weekdays, clock, offset).Some?
    ensures var r := NextWeekday(from, weekdays, clock, offset).value;
            r >= from && Weekday(LocalDay(r, offset)) in weekdays && ClockOf(r, offset) == clock
    ensures forall day: int :: Weekday(day) in weekdays && At(day, clock, offset) >= from ==>
              NextWeekday(from, weekdays, clock, offset).value <= At(day, clock, offset)
  {
    hide Weekday, LocalDay, At;
    var c := WeekdayCandidates(from, weekdays, clock, offset);
    var start := LocalDay(from, offset);
    var before := from - 1;
    FirstFinds(c, before, 0, WEEKDAY_LIMIT);
    assert weekdays[0] in weekdays;
    var soon := DayInTwoWeeks(from, weekdays[0], clock, offset);
    assert c(soon - start) == Some(At(soon, clock, offset));
    assert !Passed(c, before, soon - start);
    var r := NextWeekday(from, weekdays, clock, offset).value;
    var j: nat :| c(j) == Some(r) && r > before && forall i: nat :: 0 <= i < j ==> Passed(c, before, i);
    LocalOfAt(start + j, clock, offset);
    forall day: int | Weekday(day) in weekdays && At(day, clock, offset) >= from
      ensures r <= At(day, clock, offset)
    {
      DayNotBefore(day, clock, offset, from);
      assert c(day - start) == Some(At(day, clock, offset));
      assert !Passed(c, before, day - start);
      AtIsMonotone(start + j, day, clock, offset);
    }
  }

  lemma DayInTwoWeeks(from: Instant, weekday: int, clock: int, offset: int) returns (day: int)
    requires 0 <= clock < DAY_SECONDS && 0 <= weekday <= 6
    ensures Weekday(day) == weekday && At(day, clock, offset) >= from
    ensures LocalDay(from, offset) <= day < LocalDay(from, offset) + 14
  {
    var start := LocalDay(from, offset);
    day := 7 * WeekOf(start) + 7 + Position(weekday);
    assert from + offset * SECOND < (start + 1) * DAY;
  }

  lemma DayNotBefore(day: int, clock: int, offset: int, from: Instant)
    requires 0 <= clock < DAY_SECONDS && At(day, clock, offset) >= from
    ensures day >= LocalDay(from, offset)
  {
    LocalOfAt(day, clock, offset);
    LocalDayIsMonotone(from, At(day, clock, offset), offset);
  }

  lemma AtIsMonotone(a: int, b: int, clock: int, offset: int)
    requires a <= b
    ensures At(a, clock, offset) <= At(b, clock, offset)
  {}

  function OffsetOf(timezone: Timezone): int {
    if timezone.Zone? then timezone.offset else 0
  }

  /** The zone an update is read in: the rule's, or else the requester's. */
  function UpdateZone(row: Row, requester: Timezone): Timezone {
    if row.rule.Some? && row.rule.value.timezone != UnsetZone then row.rule.value.timezone
    else if requester == UnsetZone then Zone(0) else requester
  }

  function AnchorOf(row: Row): Instant {
    if row.anchor == ZERO_TIME then row.due else row.anchor
  }

  /** The anchor an update asks for, and the row with a weekly rule's new weekdays. */
  function Moved(row: Row, args: UpdateArgs, from: Instant, offset: int): Result<(Row, Instant), Error> {
    var anchor := AnchorOf(row);
    if args.dueAt.Some? then
      if args.dueAt.value.None? then Err(BadDueAt) else Ok((row, args.dueAt.value.value))
    else if args.clock.Some? then
      if args.clock.value.None? then Err(BadTime)
      else Ok((row, At(LocalDay(anchor, offset), args.clock.value.value, offset)))
    else if args.weekdays != [] then
      var days := Weekdays(args.weekdays);
      if days.Err? then Err(BadRule(days.error))
      else
        var next := NextWeekday(from, days.value, ClockOf(anchor, offset), offset);
        var changed := if row.rule.Some? && row.rule.value.frequency == Week
                       then row.(rule := Some(row.rule.value.(weekdays := days.value))) else row;
        if next.None? || next.value == ZERO_TIME then Err(NoWeekday) else Ok((changed, next.value))
    else Ok((row, anchor))
  }

  function Rescheduled(row: Row, anchor: Instant, now: Instant): Result<Row, Error> {
    if row.rule.None? then Ok(row.(anchor := anchor, due := anchor))
    else
      var next := NextDue(anchor, now - 1, row.rule.value, row.count);
      if next.None? then Err(NoUpcoming) else Ok(row.(anchor := anchor, due := next.value))
  }

  /** The rescheduled row, if there is something to say or to do. */
  function Concluded(row: Row, anchor: Instant, now: Instant): Result<Row, Error> {
    var r := Rescheduled(row, anchor, now);
    if r.Err? then r
    else if r.value.mode == TextMode && Blank(r.value.text) then Err(NoText)
    else if r.value.mode == ActionMode && Blank(r.value.prompt) then Err(NoPrompt)
    else Ok(if r.value.mode == TextMode then r.value.(prompt := "") else r.value)
  }

  /** The row with the text, the prompt, the mode and the rule an update gives. */
  function Edited(row: Row, args: UpdateArgs, timezone: Timezone): Result<Row, Error> {
    var r0 := if args.text != "" then row.(text := args.text) else row;
    var r1 := if args.prompt != "" then r0.(prompt := Trim(args.prompt)) else r0;
    if args.mode == UnknownModeArg then Err(BadMode)
    else
      var r2 := if args.mode.GivenMode? then r1.(mode := args.mode.mode) else r1;
      if args.patch.None? then Ok(r2)
      else
        var merged := Merged(r2.rule, args.patch.value, timezone);
        if merged.Err? then Err(BadRule(merged.error)) else Ok(r2.(rule := merged.value))
  }

  /** The row an update writes. `from` and `now` are the clock's two readings. */
  function Updated(row: Row, args: UpdateArgs, requester: Timezone, from: Instant, now: Instant): Result<Row, Error> {
    var timezone := UpdateZone(row, requester);
    var edited := Edited(row, args, timezone);
    if edited.Err? then Err(edited.error)
    else
      var moved := Moved(edited.value, args, from, OffsetOf(timezone));
      if moved.Err? then Err(moved.error) else Concluded(moved.value.0, moved.value.1, now)
  }

  function UpdateReminder(s: Store, chat: string, id: Id, args: UpdateArgs, requester: Timezone,
                          from: Instant, now: Instant)
    : Result<Store, Error>
  {
    if args.Empty() then Err(NothingToChange)
    else if s.Get(chat, id).None? then Err(NotFound)
    else if !Readable(s.Get(chat, id).value) then Err(Unreadable)
    else
      var r := Updated(s.Get(chat, id).value, args, requester, from, now);
      if r.Err? then Err(r.error) else Ok(s.Upsert(id, r.value))
  }

  function CancelReminder(s: Store, chat: string, id: Id): Result<Store, Error> {
    if s.Get(chat, id).None? then Err(NotFound)
    else Ok(s.(rows := s.rows[id := s.rows[id].(status := Cancelled)]))
  }

  // ---------- The delivery pass ----------

  /** What became of one due reminder: its text could not be made, or not sent, or it was sent. */
  datatype Attempt = RenderFails | SendFails | Sent

  /** Sends one reminder and moves its row on. */
  function AfterDelivery(row: Row, now: Instant): Row {
    if row.rule.None? then row.(status := Delivered)
    else
      var next := NextDue(AnchorOf(row), now, row.rule.value, row.count + 1);
      if next.None? then row.(status := Delivered)
      else row.(due := next.value, count := row.count + 1, status := Pending)
  }

  /** Which of the listed reminders a pass sends: those whose text is made, up to the first failure to send. */
  function SentOf(ids: seq<Id>, outcome: Id -> Attempt): seq<Id> {
    if ids == [] then []
    else match outcome(ids[0])
         case RenderFails => SentOf(ids[1..], outcome)
         case SendFails => []
         case Sent => [ids[0]] + SentOf(ids[1..], outcome)
  }

  lemma SentUnfolds(ids: seq<Id>, i: nat, outcome: Id -> Attempt)
    requires i < |ids|
    ensures SentOf(ids[i..], outcome) == match outcome(ids[i])
                                         case RenderFails => SentOf(ids[i + 1..], outcome)
                                         case SendFails => []
                                         case Sent => [ids[i]] + SentOf(ids[i + 1..], outcome)
  {
    assert ids[i..][1..] == ids[i + 1..];
  }

  lemma NothingLeft(ids: seq<Id>, outcome: Id -> Attempt)
    ensures ids[0..] == ids && SentOf(ids[|ids|..], outcome) == []
  {}

  /** The table after a pass over a list of pending rows: exactly the rows it sent have moved on. */
  function Pass(s: Store, ids: seq<Id>, now: Instant, outcome: Id -> Attempt): Store {
    var sent := SentOf(ids, outcome);
    Store(Advanced(s.rows, sent, now), s.log + sent)
  }

  function Advanced(rows: map<Id, Row>, sent: seq<Id>, now: Instant): map<Id, Row> {
    map id | id in rows :: if id in sent then AfterDelivery(rows[id], now) else rows[id]
  }

  lemma AdvancedSteps(rows: map<Id, Row>, sent: seq<Id>, id: Id, now: Instant)
    requires id in rows
    ensures Advanced(rows, sent + [id], now) == Advanced(rows, sent, now)[id := AfterDelivery(rows[id], now)]
  {
    hide AfterDelivery;
  }

  predicate Distinct(ids: seq<Id>) {
    forall i, j :: 0 <= i < j < |ids| ==> ids[i] != ids[j]
  }

  predicate AllPending(s: Store, ids: seq<Id>) {
    forall i :: 0 <= i < |ids| ==> ids[i] in s.rows && s.rows[ids[i]].status == Pending
  }

  class ReminderStore {
    var rows: map<Id, Row>
    var log: seq<Id>

    ghost function View(): Store
      reads this
    {
      Store(rows, log)
    }

    constructor ()
      ensures View() == Store(map[], [])
    {
      rows, log := map[], [];
    }

    method UpsertReminder(id: Id, row: Row)
      modifies this
      ensures View() == old(View()).Upsert(id, row)
    {
      var written := row;
      if written.mode == TextMode {
        written := written.(prompt := "");
      }
      if id in rows {
        written := written.(chat := rows[id].chat);
      }
      rows := rows[id := written];
    }

    method AdvanceReminder(id: Id, next: Option<Instant>, count: int)
      modifies this
      ensures View() == old(View()).AdvanceRow(id, next, count)
    {
      if id in rows {
        if next.None? {
          rows := rows[id := rows[id].(status := Delivered)];
        } else {
          rows := rows[id := rows[id].(due := next.value, count := count, status := Pending)];
        }
      }
    }

    method Set(chat: string, id: Id, args: SetArgs, timezone: Timezone) returns (e: Option<Error>)
      modifies this
      ensures match SetReminder(old(View()), chat, id, args, timezone)
              case Ok(s) => e.None? && View() == s
              case Err(error) => e == Some(error) && View() == old(View())
    {
      if args.dueAt.None? {
        return Some(BadDueAt);
      }
      var rule := ParseRecurrenceRule(args.rule, timezone);
      if rule.Err? {
        return Some(BadRule(rule.error));
      }
      var mode := TextMode;
      match args.mode {
        case NoMode =>
        case GivenMode(m) => mode := m;
        case UnknownModeArg => return Some(BadMode);
      }
      if mode == TextMode && Blank(args.text) {
        return Some(NoText);
      }
      if mode == ActionMode && Blank(args.prompt) {
        return Some(NoPrompt);
      }
      var due := args.dueAt.value;
      UpsertReminder(id, Row(chat, due, args.text, Pending, due, rule.value, 0, mode, Trim(args.prompt)));
      return None;
    }

    method Cancel(chat: string, id: Id) returns (e: Option<Error>)
      modifies this
      ensures match CancelReminder(old(View()), chat, id)
              case Ok(s) => e.None? && View() == s
              case Err(error) => e == Some(error) && View() == old(View())
    {
      if id in rows && rows[id].chat == chat && rows[id].status == Pending {
        rows := rows[id := rows[id].(status := Cancelled)];
        return None;
      }
      return Some(NotFound);
    }

    /** Applies the text, the prompt, the mode and the recurrence patch of an update to a row. */
    method Edit(row: Row, args: UpdateArgs, timezone: Timezone) returns (r: Result<Row, Error>)
      ensures r == Edited(row, args, timezone)
    {
      var reminder := row;
      if args.text != "" {
        reminder := reminder.(text := args.text);
      }
      if args.prompt != "" {
        reminder := reminder.(prompt := Trim(args.prompt));
      }
      match args.mode {
        case NoMode =>
        case GivenMode(m) => reminder := reminder.(mode := m);
        case UnknownModeArg => return Err(BadMode);
      }
      if args.patch.Some? {
        var merged := MergeRecurrenceRule(reminder.rule, args.patch.value, timezone);
        if merged.Err? {
          return Err(BadRule(merged.error));
        }
        reminder := reminder.(rule := merged.value);
      }
      return Ok(reminder);
    }

    /** Finds the anchor an update asks for. */
    method Move(row: Row, args: UpdateArgs, from: Instant, offset: int) returns (r: Result<(Row, Instant), Error>)
      ensures r == Moved(row, args, from, offset)
    {
      var anchor := row.anchor;
      if anchor == ZERO_TIME {
        anchor := row.due;
      }
      if args.dueAt.Some? {
        if args.dueAt.value.None? {
          return Err(BadDueAt);
        }
        return Ok((row, args.dueAt.value.value));
      }
      if args.clock.Some? {
        if args.clock.value.None? {
          return Err(BadTime);
        }
        return Ok((row, At(LocalDay(anchor, offset), args.clock.value.value, offset)));
      }
      if |args.weekdays| > 0 {
        var days := ParseWeekdayNames(args.weekdays);
        if days.Err? {
          return Err(BadRule(days.error));
        }
        var reminder := row;
        if reminder.rule.Some? && reminder.rule.value.frequency == Week {
          reminder := reminder.(rule := Some(reminder.rule.value.(weekdays := days.value)));
        }
        var next := NextWeekdayWithClock(from, days.value, ClockOf(anchor, offset), offset);
        if next.None? || next.value == ZERO_TIME {
          return Err(NoWeekday);
        }
        return Ok((reminder, next.value));
      }
      return Ok((row, anchor));
    }

    method Update(chat: string, id: Id, args: UpdateArgs, requester: Timezone, from: Instant, now: Instant)
      returns (e: Option<Error>)
      modifies this
      ensures match UpdateReminder(old(View()), chat, id, args, requester, from, now)
              case Ok(s) => e.None? && View() == s
              case Err(error) => e == Some(error) && View() == old(View())
    {
      hide Edited, Moved, NextDue, Readable;
      if args.Empty() {
        return Some(NothingToChange);
      }
      if id !in rows || rows[id].chat != chat || rows[id].status != Pending {
        return Some(NotFound);
      }
      if !Readable(rows[id]) {
        return Some(Unreadable);
      }
      var timezone := UpdateZone(rows[id], requester);
      var edited := Edit(rows[id], args, timezone);
      if edited.Err? {
        return Some(edited.error);
      }
      var moved := Move(edited.value, args, from, OffsetOf(timezone));
      if moved.Err? {
        return Some(moved.error);
      }
      var reminder, anchor := moved.value.0, moved.value.1;
      reminder := reminder.(anchor := anchor);
      if reminder.rule.None? {
        reminder := reminder.(due := anchor);
      } else {
        var next := ComputeNextDue(anchor, now - 1, reminder.rule.value, reminder.count);
        if next.None? {
          return Some(NoUpcoming);
        }
        reminder := reminder.(due := next.value);
      }
      if reminder.mode == TextMode {
        if Blank(reminder.text) {
          return Some(NoText);
        }
        reminder := reminder.(prompt := "");
      }
      if reminder.mode == ActionMode && Blank(reminder.prompt) {
        return Some(NoPrompt);
      }
      UpsertReminder(id, reminder);
      return None;
    }

    /** Sends one reminder, as it was read, and advances its row. */
    method Send(id: Id, reminder: Row, now: Instant)
      requires id in rows && rows[id] == reminder && reminder.status == Pending
      modifies this
      ensures rows == old(rows)[id := AfterDelivery(reminder, now)] && log == old(log) + [id]
    {
      hide NextDue;
      log := log + [id];
      if reminder.rule.None? {
        AdvanceReminder(id, None, 0);
        return;
      }
      var count := reminder.count + 1;
      var anchor := reminder.anchor;
      if anchor == ZERO_TIME {
        anchor := reminder.due;
      }
      var next := ComputeNextDue(anchor, now, reminder.rule.value, count);
      if next.None? {
        AdvanceReminder(id, None, count);
        return;
      }
      AdvanceReminder(id, next, count);
    }

    /** Delivers the reminders that the query for due rows has listed. */
    method DeliverDueReminders(ids: seq<Id>, now: Instant, outcome: Id -> Attempt) returns (failed: bool)
      requires Distinct(ids) && AllPending(View(), ids)
      modifies this
      ensures View() == Pass(old(View()), ids, now, outcome)
      ensures failed <==> exists i :: 0 <= i < |ids| && outcome(ids[i]) == SendFails
    {
      hide AfterDelivery, SentOf;
      ghost var before := View();
      var read := rows;
      var i := 0;
      ghost var sent: seq<Id> := [];
      NothingLeft(ids, outcome);
      while i < |ids|
        invariant 0 <= i <= |ids|
        invariant forall k :: 0 <= k < i ==> outcome(ids[k]) != SendFails
        invariant SentOf(ids, outcome) == sent + SentOf(ids[i..], outcome)
        invariant forall k :: i <= k < |ids| ==> ids[k] !in sent
        invariant read == before.rows && log == before.log + sent
        invariant rows == Advanced(read, sent, now)
      {
        var id := ids[i];
        SentUnfolds(ids, i, outcome);
        i := i + 1;
        if outcome(id) == RenderFails {
          continue;
        }
        if outcome(id) == SendFails {
          return true;
        }
        assert rows[id] == read[id];
        Send(id, read[id], now);
        AdvancedSteps(read, sent, id, now);
        sent := sent + [id];
      }
      NothingLeft(ids, outcome);
      return false;
    }
  }
}
