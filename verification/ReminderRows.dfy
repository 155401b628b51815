/** What each tool leaves in the row of a reminder, field by field, and when it refuses. */
module ReminderRows {
  import opened Wrappers
  import opened Calendar
  import opened Recurrence
  import opened Schedule
  import opened ScheduleInstants
  import opened Series
  import opened RecurrencePatch
  import opened Text
  import opened Reminders
  import opened Delivery

  // ---------- The table ----------

  /** A written row keeps the chat it had, and has no prompt in text mode; no other row and no send changes. */
  lemma UpsertMeans(s: Store, id: Id, row: Row)
    ensures var t := s.Upsert(id, row);
            && t.log == s.log && t.rows.Keys == s.rows.Keys + {id}
            && (forall other :: other in s.rows && other != id ==> t.rows[other] == s.rows[other])
            && t.rows[id].chat == (if id in s.rows then s.rows[id].chat else row.chat)
            && t.rows[id].prompt == (if row.mode == TextMode then "" else row.prompt)
            && SameButChatAndPrompt(t.rows[id], row)
  {}

  predicate SameButChatAndPrompt(r: Row, row: Row) {
    && r.due == row.due && r.text == row.text && r.status == row.status && r.anchor == row.anchor
    && r.rule == row.rule && r.count == row.count && r.mode == row.mode
  }

  // ---------- Setting a reminder ----------

  /** A reminder is set exactly when its due time can be read, its rule, if there is one, is valid, its mode is
      known, and there is something to say or to do. */
  lemma SetExactly(s: Store, chat: string, id: Id, args: SetArgs, timezone: Timezone)
    ensures SetReminder(s, chat, id, args, timezone).Ok?
       <==> && args.dueAt.Some? && NewRule(args.rule, timezone).Ok?
            && match args.mode
               case NoMode | GivenMode(TextMode) => !Blank(args.text)
               case GivenMode(ActionMode) => !Blank(args.prompt)
               case UnknownModeArg => false
  {
    hide NewRule;
  }

  /** The new row: as given, pending, and anchored at its first due time. */
  lemma SetMeans(s: Store, chat: string, id: Id, args: SetArgs, timezone: Timezone)
    requires SetReminder(s, chat, id, args, timezone).Ok? && id !in s.rows
    ensures var t := SetReminder(s, chat, id, args, timezone).value;
            && id in t.rows && args.dueAt.Some?
            && var r := t.rows[id];
               && r.chat == chat && r.text == args.text
               && r.due == args.dueAt.value && r.anchor == args.dueAt.value
               && r.status == Pending && r.count == 0 && NewRule(args.rule, timezone) == Ok(r.rule)
               && (r.mode == ActionMode <==> args.mode == GivenMode(ActionMode))
               && r.prompt == (if r.mode == ActionMode then Trim(args.prompt) else "")
  {
    hide NewRule;
  }

  // ---------- Updating a reminder ----------

  /** The zone an update is read in: that of the reminder's rule, or else the requester's, or else UTC. */
  function EastOf(row: Row, requester: Timezone): int {
    var zone := if row.rule.Some? && row.rule.value.timezone != UnsetZone then row.rule.value.timezone else requester;
    match zone
    case Zone(o) => o
    case UnloadableZone | UnsetZone => 0
  }

  lemma ZoneMeans(row: Row, requester: Timezone)
    ensures OffsetOf(UpdateZone(row, requester)) == EastOf(row, requester)
  {}

  /** What an update asks the reminder to be anchored at. A due time is taken as it is; a clock time keeps the
      present anchor's local day; weekdays keep its clock, and ask for the first of them from `from` on; and
      otherwise the anchor stays, which is the due time of a reminder without one. */
  ghost predicate Reanchored(row: Row, args: UpdateArgs, east: int, from: Instant, anchor: Instant) {
    var before := if row.anchor != ZERO_TIME then row.anchor else row.due;
    if args.dueAt.Some? then args.dueAt == Some(Some(anchor))
    else if args.clock.Some? then
      && args.clock.value.Some?
      && anchor % 1_000_000_000 == 0 && LocalDay(anchor, east) == LocalDay(before, east)
      && ClockOf(anchor, east) == args.clock.value.value
    else if args.weekdays != [] then
      && (forall name :: name in args.weekdays ==> name.Named?)
      && anchor != ZERO_TIME && IsFirstNamed(args.weekdays, ClockOf(before, east), east, from, anchor)
    else anchor == before
  }

  /** An instant from `from` on, at this clock, on one of these days. */
  predicate OnNamedDay(names: seq<WeekdayName>, clock: int, east: int, from: Instant, t: Instant) {
    && t % 1_000_000_000 == 0 && ClockOf(t, east) == clock && t >= from
    && Named(Weekday(LocalDay(t, east))) in names
  }

  ghost predicate IsFirstNamed(names: seq<WeekdayName>, clock: int, east: int, from: Instant, anchor: Instant) {
    && OnNamedDay(names, clock, east, from, anchor)
    && forall t: Instant :: OnNamedDay(names, clock, east, from, t) ==> anchor <= t
  }

  /** An update's rule: the present one, or the patched one; weekdays that move the anchor of a weekly rule are
      also its own. */
  ghost predicate NewRuleOf(row: Row, args: UpdateArgs, zone: Timezone, rule: Option<Rule>) {
    exists patched: Option<Rule> ::
      && (if args.patch.Some? then Merged(row.rule, args.patch.value, zone) == Ok(patched) else patched == row.rule)
      && (if args.dueAt.None? && args.clock.None? && args.weekdays != []
             && patched.Some? && patched.value.frequency == Week
          then && rule.Some? && Weekdays(args.weekdays) == Ok(rule.value.weekdays)
               && rule == Some(patched.value.(weekdays := rule.value.weekdays))
          else rule == patched)
  }

  /** A row that a successful update may leave. */
  ghost predicate Rewrites(row: Row, args: UpdateArgs, requester: Timezone, from: Instant, now: Instant, r: Row) {
    && args.mode != UnknownModeArg
    && r.mode == (if args.mode.GivenMode? then args.mode.mode else row.mode)
    && r.text == (if args.text != "" then args.text else row.text)
    && r.prompt == (if r.mode == TextMode then "" else if args.prompt != "" then Trim(args.prompt) else row.prompt)
    && !Blank(if r.mode == TextMode then r.text else r.prompt)
    && r.chat == row.chat && r.status == row.status && r.count == row.count
    && Reanchored(row, args, EastOf(row, requester), from, r.anchor)
    && NewRuleOf(row, args, UpdateZone(row, requester), r.rule)
    && (if r.rule.None? then r.due == r.anchor
        else NextDue(r.anchor, now - 1, r.rule.value, r.count) == Some(r.due))
  }

  lemma NamedMeans(names: seq<WeekdayName>)
    ensures Weekdays(names).Ok? <==> forall name :: name in names ==> name.Named?
    ensures Weekdays(names).Ok? ==>
              forall day: int :: day in Weekdays(names).value <==> Named(day) in names
  {
    WeekdaysMeans(names);
    if Weekdays(names).Ok? {
      var days := Weekdays(names).value;
      forall day: int
        ensures day in days <==> Named(day) in names
      {
        if day in days {
          var i :| 0 <= i < |days| && days[i] == day;
          assert names[i] == Named(day);
        }
        if i :| 0 <= i < |names| && names[i] == Named(day) {
          assert days[i] == day;
        }
      }
    }
  }

  /** The search over the days finds the first instant on one of the named days. */
  lemma FirstNamedDay(names: seq<WeekdayName>, clock: int, offset: int, from: Instant) returns (r: Instant)
    requires names != [] && Weekdays(names).Ok? && 0 <= clock < DAY_SECONDS
    ensures NextWeekday(from, Weekdays(names).value, clock, offset) == Some(r)
    ensures IsFirstNamed(names, clock, offset, from, r)
  {
    var days := Weekdays(names).value;
    NamedMeans(names);
    WeekdaysMeans(names);
    WeekdaysAreReal(names);
    hide Weekdays, Weekday, NextWeekday, LocalDay, ClockOf, At;
    NextWeekdayIsFirst(from, days, clock, offset);
    r := NextWeekday(from, days, clock, offset).value;
    WeekdayOnSecond(from, days, clock, offset);
    forall t: Instant | OnNamedDay(names, clock, offset, from, t)
      ensures r <= t
    {
      AtMeans(LocalDay(t, offset), clock, offset, t);
    }
  }

  lemma DaysAreNamed(row: Row, args: UpdateArgs, offset: int, from: Instant, anchor: Instant)
    requires args.dueAt.None? && args.clock.None? && args.weekdays != []
    ensures Reanchored(row, args, offset, from, anchor)
       <==> && Weekdays(args.weekdays).Ok? && anchor != ZERO_TIME
            && NextWeekday(from, Weekdays(args.weekdays).value, ClockOf(AnchorOf(row), offset), offset) == Some(anchor)
  {
    var clock := ClockOf(AnchorOf(row), offset);
    hide Weekdays, NextWeekday, IsFirstNamed, ClockOf;
    NamedMeans(args.weekdays);
    if Weekdays(args.weekdays).Ok? {
      var r := FirstNamedDay(args.weekdays, clock, offset, from);
      OneIsFirst(args.weekdays, clock, offset, from, r, anchor);
    }
  }

  lemma OneIsFirst(names: seq<WeekdayName>, clock: int, offset: int, from: Instant, r: Instant, t: Instant)
    requires IsFirstNamed(names, clock, offset, from, r)
    ensures IsFirstNamed(names, clock, offset, from, t) <==> r == t
  {
    hide OnNamedDay;
  }

  lemma WeekdayOnSecond(from: Instant, weekdays: seq<int>, clock: int, offset: int)
    requires NextWeekday(from, weekdays, clock, offset).Some?
    ensures NextWeekday(from, weekdays, clock, offset).value % 1_000_000_000 == 0
  {
    hide LocalDay, Weekday;
    var c := WeekdayCandidates(from, weekdays, clock, offset);
    FirstFinds(c, from - 1, 0, WEEKDAY_LIMIT);
    var r := NextWeekday(from, weekdays, clock, offset).value;
    var k: nat :| c(k) == Some(r);
    var day := LocalDay(from, offset) + k;
    assert c(k) == if Weekday(day) in weekdays then Some(At(day, clock, offset)) else None;
    Remainder(r, day * DAY_SECONDS + clock - offset, 0);
  }

  /** The anchor an update finds is the one it is asked for, if there is one. */
  lemma MovedMeans(row: Row, args: UpdateArgs, from: Instant, offset: int)
    ensures Moved(row, args, from, offset).Ok? <==> exists anchor :: Reanchored(row, args, offset, from, anchor)
    ensures Moved(row, args, from, offset).Ok? ==>
              Reanchored(row, args, offset, from, Moved(row, args, from, offset).value.1)
  {
    hide NextWeekday, Weekdays, LocalDay, ClockOf, At;
    if args.dueAt.Some? {
      assert args.dueAt.value.Some? ==> Reanchored(row, args, offset, from, args.dueAt.value.value);
    } else if args.clock.Some? {
      if args.clock.value.Some? {
        var day, clock := LocalDay(AnchorOf(row), offset), args.clock.value.value;
        AtMeans(day, clock, offset, At(day, clock, offset));
        assert Reanchored(row, args, offset, from, At(day, clock, offset));
      }
    } else if args.weekdays != [] {
      if Weekdays(args.weekdays).Ok? {
        var next := NextWeekday(from, Weekdays(args.weekdays).value, ClockOf(AnchorOf(row), offset), offset);
        if next.Some? {
          DaysAreNamed(row, args, offset, from, next.value);
        }
      }
      if anchor :| Reanchored(row, args, offset, from, anchor) {
        DaysAreNamed(row, args, offset, from, anchor);
      }
    } else {
      assert Reanchored(row, args, offset, from, AnchorOf(row));
    }
  }

  lemma EditedMeans(row: Row, args: UpdateArgs, zone: Timezone)
    ensures Edited(row, args, zone).Ok?
       <==> args.mode != UnknownModeArg && (args.patch.Some? ==> Merged(row.rule, args.patch.value, zone).Ok?)
    ensures Edited(row, args, zone).Ok? ==>
              var r := Edited(row, args, zone).value;
              && r.text == (if args.text != "" then args.text else row.text)
              && r.prompt == (if args.prompt != "" then Trim(args.prompt) else row.prompt)
              && r.mode == (if args.mode.GivenMode? then args.mode.mode else row.mode)
              && (if args.patch.Some? then Merged(row.rule, args.patch.value, zone) == Ok(r.rule)
                  else r.rule == row.rule)
              && r == row.(text := r.text, prompt := r.prompt, mode := r.mode, rule := r.rule)
  {
    hide Merged;
  }

  lemma MovedRule(row: Row, args: UpdateArgs, from: Instant, offset: int)
    requires Moved(row, args, from, offset).Ok?
    ensures var r := Moved(row, args, from, offset).value.0;
            && r == row.(rule := r.rule)
            && (if args.dueAt.None? && args.clock.None? && args.weekdays != []
                   && row.rule.Some? && row.rule.value.frequency == Week
                then && r.rule.Some? && Weekdays(args.weekdays) == Ok(r.rule.value.weekdays)
                     && r.rule == Some(row.rule.value.(weekdays := r.rule.value.weekdays))
                else r.rule == row.rule)
  {
    hide NextWeekday, Weekdays;
  }

  lemma ReanchoredAlike(row: Row, edited: Row, args: UpdateArgs, east: int, from: Instant)
    requires edited.anchor == row.anchor && edited.due == row.due
    ensures forall anchor :: Reanchored(edited, args, east, from, anchor) <==> Reanchored(row, args, east, from, anchor)
  {
    hide IsFirstNamed, LocalDay, ClockOf;
  }

  lemma OneAnchor(row: Row, args: UpdateArgs, east: int, from: Instant, a: Instant, b: Instant)
    requires Reanchored(row, args, east, from, a) && Reanchored(row, args, east, from, b)
    ensures a == b
  {
    hide IsFirstNamed, LocalDay, ClockOf;
    var before := if row.anchor != ZERO_TIME then row.anchor else row.due;
    if args.dueAt.None? && args.clock.Some? {
      AtMeans(LocalDay(before, east), args.clock.value.value, east, a);
      AtMeans(LocalDay(before, east), args.clock.value.value, east, b);
    } else if args.dueAt.None? && args.weekdays != [] {
      OneIsFirst(args.weekdays, ClockOf(before, east), east, from, a, b);
    }
  }

  lemma ConcludedMeans(row: Row, anchor: Instant, now: Instant, r: Row)
    ensures Concluded(row, anchor, now) == Ok(r)
       <==> && r.anchor == anchor
            && (if row.rule.None? then r.due == anchor
                else NextDue(anchor, now - 1, row.rule.value, row.count) == Some(r.due))
            && r.prompt == (if row.mode == TextMode then "" else row.prompt)
            && !Blank(if row.mode == TextMode then row.text else row.prompt)
            && r == row.(anchor := r.anchor, due := r.due, prompt := r.prompt)
  {
    hide NextDue, Blank;
  }

  /** A successful update leaves a row that it may leave. */
  lemma UpdateRewrites(row: Row, args: UpdateArgs, requester: Timezone, from: Instant, now: Instant)
    requires Updated(row, args, requester, from, now).Ok?
    ensures Rewrites(row, args, requester, from, now, Updated(row, args, requester, from, now).value)
  {
    var r := Updated(row, args, requester, from, now).value;
    var zone, east := UpdateZone(row, requester), EastOf(row, requester);
    hide Edited, Moved, Reanchored, NextDue, Merged, Weekdays, UpdateZone, EastOf, Blank, Trim, Concluded;
    ZoneMeans(row, requester);
    EditedMeans(row, args, zone);
    var edited := Edited(row, args, zone).value;
    ReanchoredAlike(row, edited, args, east, from);
    MovedMeans(edited, args, from, east);
    MovedRule(edited, args, from, east);
    var moved := Moved(edited, args, from, east).value;
    ConcludedMeans(moved.0, moved.1, now, r);
    assert NewRuleOf(row, args, zone, r.rule) by {
      PatchedRule(row, args, zone, edited.rule, r.rule);
    }
  }

  lemma PatchedRule(row: Row, args: UpdateArgs, zone: Timezone, patched: Option<Rule>, rule: Option<Rule>)
    requires if args.patch.Some? then Merged(row.rule, args.patch.value, zone) == Ok(patched) else patched == row.rule
    requires if args.dueAt.None? && args.clock.None? && args.weekdays != []
                && patched.Some? && patched.value.frequency == Week
             then && rule.Some? && Weekdays(args.weekdays) == Ok(rule.value.weekdays)
                  && rule == Some(patched.value.(weekdays := rule.value.weekdays))
             else rule == patched
    ensures NewRuleOf(row, args, zone, rule)
  {
    hide Merged, Weekdays;
  }

  /** An update that may leave a row succeeds, and leaves that row. */
  lemma RewritesUpdate(row: Row, args: UpdateArgs, requester: Timezone, from: Instant, now: Instant, r: Row)
    requires Rewrites(row, args, requester, from, now, r)
    ensures Updated(row, args, requester, from, now) == Ok(r)
  {
    var zone, east := UpdateZone(row, requester), EastOf(row, requester);
    hide Edited, Moved, Reanchored, NextDue, Merged, Weekdays, UpdateZone, EastOf, Blank, Trim, Concluded;
    ZoneMeans(row, requester);
    EditedMeans(row, args, zone);
    assert Edited(row, args, zone).Ok?;
    var edited := Edited(row, args, zone).value;
    ReanchoredAlike(row, edited, args, east, from);
    MovedMeans(edited, args, from, east);
    assert Reanchored(edited, args, east, from, r.anchor);
    MovedRule(edited, args, from, east);
    var moved := Moved(edited, args, from, east).value;
    OneAnchor(edited, args, east, from, moved.1, r.anchor);
    ConcludedMeans(moved.0, moved.1, now, r);
  }

  /** An update succeeds exactly when there is a row it may leave, and there is only one. */
  lemma UpdatedExactly(row: Row, args: UpdateArgs, requester: Timezone, from: Instant, now: Instant, r: Row)
    ensures Updated(row, args, requester, from, now) == Ok(r) <==> Rewrites(row, args, requester, from, now, r)
  {
    hide Updated, Rewrites;
    if Updated(row, args, requester, from, now) == Ok(r) {
      UpdateRewrites(row, args, requester, from, now);
    }
    if Rewrites(row, args, requester, from, now, r) {
      RewritesUpdate(row, args, requester, from, now, r);
    }
  }

  /** The tool succeeds exactly when something is given to change, the reminder is a pending one of the chat that
      can be read back, and there is a row that it may leave; then it leaves that row, and every other as it
      was. */
  lemma UpdateExactly(s: Store, chat: string, id: Id, args: UpdateArgs, requester: Timezone,
                      from: Instant, now: Instant)
    ensures UpdateReminder(s, chat, id, args, requester, from, now).Ok?
       <==> && (args.text != "" || args.mode != NoMode || args.prompt != "" || args.dueAt.Some? || args.clock.Some?
                || args.weekdays != [] || args.patch.Some?)
            && id in s.rows && s.rows[id].chat == chat && s.rows[id].status == Pending && Readable(s.rows[id])
            && exists r :: Rewrites(s.rows[id], args, requester, from, now, r)
    ensures UpdateReminder(s, chat, id, args, requester, from, now).Ok? ==>
              var t := UpdateReminder(s, chat, id, args, requester, from, now).value;
              && id in s.rows && id in t.rows && t.rows == s.rows[id := t.rows[id]] && t.log == s.log
              && Rewrites(s.rows[id], args, requester, from, now, t.rows[id])
  {
    hide Updated, Rewrites, Readable;
    if id in s.rows {
      var row := s.rows[id];
      if Updated(row, args, requester, from, now).Ok? {
        var r := Updated(row, args, requester, from, now).value;
        UpdateRewrites(row, args, requester, from, now);
        RewrittenStays(s, id, args, requester, from, now, r);
      }
      if r :| Rewrites(row, args, requester, from, now, r) {
        RewritesUpdate(row, args, requester, from, now, r);
      }
    }
  }

  lemma RewrittenStays(s: Store, id: Id, args: UpdateArgs, requester: Timezone, from: Instant, now: Instant, r: Row)
    requires id in s.rows && Rewrites(s.rows[id], args, requester, from, now, r)
    ensures s.Upsert(id, r) == s.(rows := s.rows[id := r])
  {
    hide Reanchored, NewRuleOf, NextDue;
  }

  // ---------- Cancelling a reminder ----------

  /** Only a pending reminder of the chat is cancelled, and nothing else about it or any other changes. */
  lemma CancelExactly(s: Store, chat: string, id: Id)
    ensures CancelReminder(s, chat, id).Ok?
       <==> id in s.rows && s.rows[id].chat == chat && s.rows[id].status == Pending
    ensures CancelReminder(s, chat, id).Ok? ==>
              var t := CancelReminder(s, chat, id).value;
              && id in t.rows && t.rows[id].status == Cancelled
              && t.rows[id].(status := Pending) == s.rows[id] && t == s.(rows := s.rows[id := t.rows[id]])
  {}
}
