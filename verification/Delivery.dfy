/** Whole histories of the reminder table: what is sent, how often, and when a row is due again. */
module Delivery {
  import opened Wrappers
  import opened Calendar
  import opened Recurrence
  import opened Schedule
  import opened Series
  import opened RecurrencePatch
  import opened Text
  import opened Reminders

  // ---------- Histories ----------

  datatype Event =
    | SetEvent(chat: string, id: Id, arguments: SetArgs, timezone: Timezone)
    | UpdateEvent(chat: string, id: Id, changes: UpdateArgs, timezone: Timezone, from: Instant, now: Instant)
    | CancelEvent(chat: string, id: Id)
    | PassEvent(ids: seq<Id>, now: Instant, outcome: Id -> Attempt)

  /** A failed tool call changes nothing. A pass runs on distinct pending rows, as the query lists them. */
  function Apply(s: Store, e: Event): Store {
    match e
    case SetEvent(chat, id, args, timezone) =>
      var r := SetReminder(s, chat, id, args, timezone);
      if r.Ok? then r.value else s
    case UpdateEvent(chat, id, args, timezone, from, now) =>
      var r := UpdateReminder(s, chat, id, args, timezone, from, now);
      if r.Ok? then r.value else s
    case CancelEvent(chat, id) =>
      var r := CancelReminder(s, chat, id);
      if r.Ok? then r.value else s
    case PassEvent(ids, now, outcome) =>
      if Distinct(ids) && AllPending(s, ids) then Pass(s, ids, now, outcome) else s
  }

  function After(s: Store, events: seq<Event>): Store {
    if events == [] then s else Apply(After(s, events[..|events| - 1]), events[|events| - 1])
  }

  const EMPTY := Store(map[], [])

  // ---------- Rows stay well-formed ----------

  predicate WellFormedRow(row: Row) {
    && (row.rule.Some? ==> Proper(row.rule.value))
    && (match row.mode
        case TextMode => !Blank(row.text) && row.prompt == ""
        case ActionMode => !Blank(row.prompt))
  }

  ghost predicate WellFormedStore(s: Store) {
    forall id :: id in s.rows ==> WellFormedRow(s.rows[id])
  }

  lemma SetRowIsWellFormed(s: Store, chat: string, id: Id, args: SetArgs, timezone: Timezone)
    requires SetReminder(s, chat, id, args, timezone).Ok?
    ensures var t := SetReminder(s, chat, id, args, timezone).value;
            (id in t.rows && WellFormedRow(t.rows[id]) && t.rows[id].status == Pending && t.rows[id].count == 0
             && t.rows == s.rows[id := t.rows[id]] && t.log == s.log)
  {
    hide NewRule, Proper;
    TrimmedIsNotBlank(args.prompt);
    var rule := NewRule(args.rule, timezone);
    if rule.value.Some? {
      NewRuleIsProper(args.rule, timezone);
    }
  }

  lemma EditedIsProper(row: Row, args: UpdateArgs, timezone: Timezone)
    requires row.rule.Some? ==> Proper(row.rule.value)
    requires Edited(row, args, timezone).Ok?
    ensures var r := Edited(row, args, timezone).value;
            ((r.rule.Some? ==> Proper(r.rule.value)) && r.count == row.count && r.status == row.status)
  {
    hide Proper, Merged;
    if args.patch.Some? {
      var merged := Merged(row.rule, args.patch.value, timezone);
      if merged.Ok? && merged.value.Some? {
        MergedIsProper(row.rule, args.patch.value, timezone);
      }
    }
  }

  lemma MovedIsProper(row: Row, args: UpdateArgs, from: Instant, offset: int)
    requires row.rule.Some? ==> Proper(row.rule.value)
    requires Moved(row, args, from, offset).Ok?
    ensures var r := Moved(row, args, from, offset).value.0;
            ((r.rule.Some? ==> Proper(r.rule.value)) && r.count == row.count && r.status == row.status)
  {
    hide NextWeekday, Weekdays;
    if args.weekdays != [] && Weekdays(args.weekdays).Ok? {
      WeekdaysAreReal(args.weekdays);
    }
  }

  /** A successful update of a well-formed pending row writes a well-formed pending row with the same
      count; if it recurs it is due at the first scheduled instant that is not before `now`. */
  lemma UpdatedRow(row: Row, args: UpdateArgs, requester: Timezone, from: Instant, now: Instant)
    requires WellFormedRow(row) && Updated(row, args, requester, from, now).Ok?
    ensures var r := Updated(row, args, requester, from, now).value;
            && WellFormedRow(r) && r.count == row.count && r.status == row.status
    ensures var r := Updated(row, args, requester, from, now).value;
            r.rule.Some? ==> NextDue(r.anchor, now - 1, r.rule.value, r.count) == Some(r.due)
    ensures var r := Updated(row, args, requester, from, now).value;
            r.rule.Some? && InRange(r.anchor, now - 1, r.rule.value) ==>
              r.due >= now && IsFirstAfter(r.anchor, r.rule.value, now - 1, r.due)
  {
    hide Edited, Moved, NextDue, Proper, InRange, Scheduled;
    var timezone := UpdateZone(row, requester);
    var edited := Edited(row, args, timezone).value;
    EditedIsProper(row, args, timezone);
    MovedIsProper(edited, args, from, OffsetOf(timezone));
    var r := Updated(row, args, requester, from, now).value;
    if r.rule.Some? && InRange(r.anchor, now - 1, r.rule.value) {
      NextDueIsFirst(r.anchor, now - 1, r.rule.value, r.count);
    }
  }

  lemma ApplyKeepsWellFormed(s: Store, e: Event)
    requires WellFormedStore(s)
    ensures WellFormedStore(Apply(s, e))
  {
    hide WellFormedRow, SetReminder, Updated, NextDue;
    match e {
      case SetEvent(chat, id, args, timezone) =>
        if SetReminder(s, chat, id, args, timezone).Ok? {
          SetRowIsWellFormed(s, chat, id, args, timezone);
        }
      case UpdateEvent(chat, id, args, timezone, from, now) =>
        if UpdateReminder(s, chat, id, args, timezone, from, now).Ok? {
          UpdateRowIsWellFormed(s, chat, id, args, timezone, from, now);
        }
      case CancelEvent(chat, id) =>
        if id in s.rows { StatusIsFree(s.rows[id], Cancelled); }
      case PassEvent(ids, now, outcome) =>
        forall id | id in s.rows ensures WellFormedRow(AfterDelivery(s.rows[id], now)) {
          DeliveryIsFree(s.rows[id], now);
        }
    }
  }

  lemma StatusIsFree(row: Row, status: Status)
    requires WellFormedRow(row)
    ensures WellFormedRow(row.(status := status))
  {}

  lemma DeliveryIsFree(row: Row, now: Instant)
    requires WellFormedRow(row)
    ensures WellFormedRow(AfterDelivery(row, now))
  {
    hide NextDue;
  }

  lemma UpdateRowIsWellFormed(s: Store, chat: string, id: Id, args: UpdateArgs, timezone: Timezone,
                                from: Instant, now: Instant)
    requires WellFormedStore(s) && UpdateReminder(s, chat, id, args, timezone, from, now).Ok?
    ensures var t := UpdateReminder(s, chat, id, args, timezone, from, now).value;
            && id in s.rows && s.rows[id].status == Pending && id in t.rows
            && WellFormedRow(t.rows[id]) && t.rows[id].status == Pending && t.rows[id].count == s.rows[id].count
            && t.rows == s.rows[id := t.rows[id]] && t.log == s.log
            && (t.rows[id].rule.Some? ==>
                  NextDue(t.rows[id].anchor, now - 1, t.rows[id].rule.value, t.rows[id].count) == Some(t.rows[id].due))
  {
    hide Updated, NextDue;
    UpdatedRow(s.rows[id], args, timezone, from, now);
  }

  /** From the empty table, any sequence of set, update and cancel calls and delivery passes leaves every
      row with a valid rule over real weekdays, and with the content its mode needs. */
  lemma {:induction false} RowsAreWellFormed(events: seq<Event>)
    ensures WellFormedStore(After(EMPTY, events))
  {
    hide Apply;
    if events != [] {
      RowsAreWellFormed(events[..|events| - 1]);
      ApplyKeepsWellFormed(After(EMPTY, events[..|events| - 1]), events[|events| - 1]);
    }
  }

  // ---------- Deliveries are counted ----------

  /** The most a rule allows to be sent, if it limits that. */
  function Limit(row: Row): Option<int> {
    if row.rule.Some? && row.rule.value.end.kind == AfterCount then Some(row.rule.value.end.count) else None
  }

  /** The count in a row is the number of sends; the last send, which ends the row, is not written. */
  ghost predicate Counted(row: Row, sends: nat) {
    && sends == (if row.status == Delivered then row.count + 1 else row.count)
    && (row.rule.None? ==> sends <= 1 && (row.status != Delivered ==> sends == 0))
    && (Limit(row).Some? ==> sends <= Limit(row).value && (row.status != Delivered ==> sends < Limit(row).value))
  }

  ghost predicate CountedStore(s: Store) {
    && (forall id :: id in s.rows ==> Counted(s.rows[id], s.Sends(id)))
    && (forall id :: id !in s.rows ==> s.Sends(id) == 0)
  }

  /** No identifier is given to two reminders. */
  ghost predicate FreshIds(events: seq<Event>) {
    forall i :: 0 <= i < |events| && events[i].SetEvent? ==> events[i].id !in After(EMPTY, events[..i]).rows
  }

  lemma NextDueRespectsLimit(anchor: Instant, after: Instant, rule: Rule, count: int)
    requires rule.Valid() && NextDue(anchor, after, rule, count).Some?
    ensures rule.end.kind == AfterCount ==> count < rule.end.count
  {
    hide ComputeNext;
  }

  lemma DeliveryIsCounted(row: Row, now: Instant, sends: nat)
    requires WellFormedRow(row) && Counted(row, sends) && row.status == Pending
    ensures Counted(AfterDelivery(row, now), sends + 1)
  {
    hide NextDue;
    if row.rule.Some? {
      var next := NextDue(AnchorOf(row), now, row.rule.value, row.count + 1);
      if next.Some? {
        NextDueRespectsLimit(AnchorOf(row), now, row.rule.value, row.count + 1);
      }
    }
  }

  lemma {:induction false} SentAreListedOnce(ids: seq<Id>, outcome: Id -> Attempt, id: Id)
    requires Distinct(ids)
    ensures multiset(SentOf(ids, outcome))[id] == if id in SentOf(ids, outcome) then 1 else 0
    ensures id in SentOf(ids, outcome) ==> id in ids && outcome(id) == Sent
  {
    if ids != [] {
      SentAreListedOnce(ids[1..], outcome, id);
      assert Distinct(ids[1..]);
      assert ids == [ids[0]] + ids[1..];
      if id == ids[0] {
        SentOnlyListed(ids[1..], outcome, id);
      }
    }
  }

  lemma {:induction false} SentOnlyListed(ids: seq<Id>, outcome: Id -> Attempt, id: Id)
    ensures id in SentOf(ids, outcome) ==> id in ids
  {
    if ids != [] {
      SentOnlyListed(ids[1..], outcome, id);
    }
  }

  lemma PassCounts(s: Store, ids: seq<Id>, now: Instant, outcome: Id -> Attempt)
    requires WellFormedStore(s) && CountedStore(s) && Distinct(ids) && AllPending(s, ids)
    ensures CountedStore(Pass(s, ids, now, outcome))
  {
    hide Counted, WellFormedRow, AfterDelivery;
    var t := Pass(s, ids, now, outcome);
    forall id
      ensures if id in t.rows then Counted(t.rows[id], t.Sends(id)) else t.Sends(id) == 0
    {
      PassCountsRow(s, ids, now, outcome, id);
    }
  }

  lemma PassCountsRow(s: Store, ids: seq<Id>, now: Instant, outcome: Id -> Attempt, id: Id)
    requires WellFormedStore(s) && CountedStore(s) && Distinct(ids) && AllPending(s, ids)
    ensures var t := Pass(s, ids, now, outcome);
            if id in t.rows then Counted(t.rows[id], t.Sends(id)) else t.Sends(id) == 0
  {
    hide Counted, WellFormedRow, AfterDelivery, SentOf;
    var t := Pass(s, ids, now, outcome);
    SentAreListedOnce(ids, outcome, id);
    assert t.Sends(id) == s.Sends(id) + multiset(SentOf(ids, outcome))[id];
    if id in SentOf(ids, outcome) {
      var i :| 0 <= i < |ids| && ids[i] == id;
      DeliveryIsCounted(s.rows[id], now, s.Sends(id));
    }
  }

  lemma ApplyCounts(s: Store, e: Event)
    requires WellFormedStore(s) && CountedStore(s)
    requires e.SetEvent? ==> e.id !in s.rows
    ensures CountedStore(Apply(s, e))
  {
    hide WellFormedRow, SetReminder, UpdateReminder, CancelReminder, NextDue, Pass, Counted;
    match e {
      case SetEvent(chat, id, args, timezone) =>
        if SetReminder(s, chat, id, args, timezone).Ok? {
          SetRowIsWellFormed(s, chat, id, args, timezone);
          NewRowIsCounted(Apply(s, e).rows[id]);
          RowReplaced(s, id, Apply(s, e));
        }
      case UpdateEvent(chat, id, args, timezone, from, now) =>
        if UpdateReminder(s, chat, id, args, timezone, from, now).Ok? {
          UpdateRowIsWellFormed(s, chat, id, args, timezone, from, now);
          UpdatedRowIsCounted(s.rows[id], Apply(s, e).rows[id], now, s.Sends(id)) by {
            UpdateKeepsOneShot(s, chat, id, args, timezone, from, now);
          }
          RowReplaced(s, id, Apply(s, e));
        }
      case CancelEvent(chat, id) =>
        CancellationCounts(s, chat, id);
      case PassEvent(ids, now, outcome) =>
        if Distinct(ids) && AllPending(s, ids) {
          PassCounts(s, ids, now, outcome);
        }
    }
  }

  lemma RowReplaced(s: Store, id: Id, t: Store)
    requires CountedStore(s) && id in t.rows && t.rows == s.rows[id := t.rows[id]] && t.log == s.log
    requires Counted(t.rows[id], s.Sends(id))
    ensures CountedStore(t)
  {
    hide Counted;
  }

  lemma CancellationCounts(s: Store, chat: string, id: Id)
    requires CountedStore(s)
    ensures CancelReminder(s, chat, id).Ok? ==> CountedStore(CancelReminder(s, chat, id).value)
  {
    if CancelReminder(s, chat, id).Ok? {
      CancelledIsCounted(s.rows[id], s.Sends(id));
      RowReplaced(s, id, CancelReminder(s, chat, id).value);
    }
  }

  lemma CancelledIsCounted(row: Row, sends: nat)
    requires Counted(row, sends) && row.status == Pending
    ensures Counted(row.(status := Cancelled), sends)
  {}

  lemma NewRowIsCounted(row: Row)
    requires WellFormedRow(row) && row.status == Pending && row.count == 0
    ensures Counted(row, 0)
  {}

  /** An update never takes a row's recurrence away. */
  lemma UpdateKeepsOneShot(s: Store, chat: string, id: Id, args: UpdateArgs, timezone: Timezone,
                           from: Instant, now: Instant)
    requires UpdateReminder(s, chat, id, args, timezone, from, now).Ok?
    ensures id in s.rows && id in UpdateReminder(s, chat, id, args, timezone, from, now).value.rows
    ensures s.rows[id].rule.Some? ==> UpdateReminder(s, chat, id, args, timezone, from, now).value.rows[id].rule.Some?
  {
    hide Updated;
    if s.rows[id].rule.Some? {
      UpdatedKeepsRule(s.rows[id], args, timezone, from, now);
    }
  }

  lemma UpdatedKeepsRule(row: Row, args: UpdateArgs, requester: Timezone, from: Instant, now: Instant)
    requires Updated(row, args, requester, from, now).Ok? && row.rule.Some?
    ensures Updated(row, args, requester, from, now).value.rule.Some?
  {
    hide Edited, Moved, NextDue;
    var timezone := UpdateZone(row, requester);
    EditedKeepsRule(row, args, timezone);
    MovedKeepsRule(Edited(row, args, timezone).value, args, from, OffsetOf(timezone));
  }

  lemma EditedKeepsRule(row: Row, args: UpdateArgs, timezone: Timezone)
    requires Edited(row, args, timezone).Ok? && row.rule.Some?
    ensures Edited(row, args, timezone).value.rule.Some?
  {
    hide PatchedFields, MergedEnd, Rule.Valid;
  }

  lemma MovedKeepsRule(row: Row, args: UpdateArgs, from: Instant, offset: int)
    requires Moved(row, args, from, offset).Ok? && row.rule.Some?
    ensures Moved(row, args, from, offset).value.0.rule.Some?
  {
    hide NextWeekday, Weekdays;
  }

  lemma UpdatedRowIsCounted(row: Row, r: Row, now: Instant, sends: nat)
    requires Counted(row, sends) && row.status == Pending && r.status == Pending && r.count == row.count
    requires WellFormedRow(r) && (row.rule.Some? ==> r.rule.Some?)
    requires r.rule.Some? ==> NextDue(r.anchor, now - 1, r.rule.value, r.count) == Some(r.due)
    ensures Counted(r, sends)
  {
    hide NextDue;
    if r.rule.Some? {
      NextDueRespectsLimit(r.anchor, now - 1, r.rule.value, r.count);
    }
  }

  /** Over any history, a row's count is its number of sends, and a series that ends after N deliveries
      is sent at most N times, also when N is changed on the way. */
  lemma {:induction false} SendsAreCounted(events: seq<Event>)
    requires FreshIds(events)
    ensures CountedStore(After(EMPTY, events))
  {
    hide Apply, CountedStore, WellFormedStore;
    if events == [] {
      EmptyIsCounted();
    } else {
      var init, e := events[..|events| - 1], events[|events| - 1];
      assert FreshIds(init) by {
        forall i | 0 <= i < |init| && init[i].SetEvent?
          ensures init[i].id !in After(EMPTY, init[..i]).rows
        {
          assert init[..i] == events[..i] && init[i] == events[i];
        }
      }
      SendsAreCounted(init);
      RowsAreWellFormed(init);
      assert events[..|events| - 1] == init;
      ApplyCounts(After(EMPTY, init), e);
    }
  }

  lemma EmptyIsCounted()
    ensures CountedStore(EMPTY)
  {}

  // ---------- Rows that are done ----------

  /** A delivered or cancelled row is never changed again, and never sent again. */
  lemma {:induction false} DoneRowsStay(events: seq<Event>, more: seq<Event>, id: Id)
    requires FreshIds(events + more)
    requires id in After(EMPTY, events).rows && After(EMPTY, events).rows[id].status != Pending
    ensures id in After(EMPTY, events + more).rows
    ensures After(EMPTY, events + more).rows[id] == After(EMPTY, events).rows[id]
    ensures After(EMPTY, events + more).Sends(id) == After(EMPTY, events).Sends(id)
  {
    hide Apply, Store.Sends;
    if more == [] {
      assert events + more == events;
    } else {
      var init, e := more[..|more| - 1], more[|more| - 1];
      var all := events + more;
      assert all[..|all| - 1] == events + init && all[|all| - 1] == e;
      assert FreshIds(events + init) by {
        forall i | 0 <= i < |events + init| && (events + init)[i].SetEvent?
          ensures (events + init)[i].id !in After(EMPTY, (events + init)[..i]).rows
        {
          assert (events + init)[..i] == all[..i] && (events + init)[i] == all[i];
        }
      }
      DoneRowsStay(events, init, id);
      assert e.SetEvent? ==> e.id !in After(EMPTY, all[..|all| - 1]).rows;
      ApplyKeepsDoneRow(After(EMPTY, events + init), e, id);
    }
  }

  lemma ApplyKeepsDoneRow(s: Store, e: Event, id: Id)
    requires id in s.rows && s.rows[id].status != Pending && (e.SetEvent? ==> e.id !in s.rows)
    ensures id in Apply(s, e).rows && Apply(s, e).rows[id] == s.rows[id] && Apply(s, e).Sends(id) == s.Sends(id)
  {
    hide NewRule, Updated, AfterDelivery;
    if e.PassEvent? && Distinct(e.ids) && AllPending(s, e.ids) {
      SentAreListedOnce(e.ids, e.outcome, id);
    }
  }

  // ---------- When a row is due again ----------

  /** A recurring reminder that a pass sends and keeps pending is next due at the first instant of its
      schedule after the pass: what it is not sent for is exactly what was scheduled up to the pass. */
  lemma DeliveryMovesDue(row: Row, now: Instant)
    requires row.rule.Some? && InRange(AnchorOf(row), now, row.rule.value)
    ensures var r := AfterDelivery(row, now);
            r.status == Pending ==> r.due > now && IsFirstAfter(AnchorOf(row), row.rule.value, now, r.due)
    ensures var r := AfterDelivery(row, now);
            r.status == Pending ==>
              forall t :: Scheduled(AnchorOf(row), row.rule.value, t) ==> (t < r.due <==> t <= now)
  {
    hide NextDue, InRange, Scheduled;
    if NextDue(AnchorOf(row), now, row.rule.value, row.count + 1).Some? {
      NextDueIsFirst(AnchorOf(row), now, row.rule.value, row.count + 1);
    }
  }

  // ---------- Cancellations during a pass ----------

  /** A pass's write of one row, or a cancellation that comes between. */
  datatype PassStep = Write(id: Id) | CancelStep(chat: string, id: Id)

  function NextOf(row: Row, now: Instant): Option<Instant> {
    if row.rule.None? then None else NextDue(AnchorOf(row), now, row.rule.value, row.count + 1)
  }

  /** The table after a pass's sends and writes, from the rows its query read, with cancellations between. */
  function Interleaved(s: Store, read: map<Id, Row>, now: Instant, steps: seq<PassStep>): Store {
    if steps == [] then s
    else
      var t := Interleaved(s, read, now, steps[..|steps| - 1]);
      match steps[|steps| - 1]
      case Write(id) =>
        if id in read then t.AdvanceRow(id, NextOf(read[id], now), read[id].count + 1).(log := t.log + [id]) else t
      case CancelStep(chat, id) =>
        var r := CancelReminder(t, chat, id);
        if r.Ok? then r.value else t
  }

  function Writes(ids: seq<Id>): seq<PassStep> {
    seq(|ids|, i requires 0 <= i < |ids| => Write(ids[i]))
  }

  /** With nothing between, the writes of a pass are the pass. */
  lemma {:induction false} WritesAreThePass(s: Store, sent: seq<Id>, now: Instant)
    requires Distinct(sent) && AllPending(s, sent)
    ensures Interleaved(s, s.rows, now, Writes(sent)) == Store(Advanced(s.rows, sent, now), s.log + sent)
  {
    hide NextOf, NextDue, AfterDelivery;
    if sent == [] {
      assert Advanced(s.rows, sent, now) == s.rows;
    } else {
      var init, id := sent[..|sent| - 1], sent[|sent| - 1];
      WritesAreThePass(s, init, now);
      assert Writes(sent)[..|sent| - 1] == Writes(init);
      assert sent == init + [id];
      AdvancedSteps(s.rows, init, id, now);
      assert Advanced(s.rows, init, now)[id] == s.rows[id];
      AdvancedRow(s.rows[id], now);
    }
  }

  lemma AdvancedRow(row: Row, now: Instant)
    requires row.status == Pending
    ensures AfterDelivery(row, now)
         == match NextOf(row, now)
            case None => row.(status := Delivered)
            case Some(next) => row.(due := next, count := row.count + 1, status := Pending)
  {
    hide NextDue;
  }

  ghost predicate Written(steps: seq<PassStep>, id: Id, from: nat, to: nat)
    requires to <= |steps|
  {
    exists p :: from <= p < to && steps[p] == Write(id)
  }

  /** The cancellation at step `q` is the last word on its row: the pass writes the row no more, and it had
      not ended the series before. */
  ghost predicate Survives(steps: seq<PassStep>, chat: string, id: Id, ends: bool, q: nat) {
    && q < |steps| && steps[q] == CancelStep(chat, id)
    && !Written(steps, id, q, |steps|) && (ends ==> !Written(steps, id, 0, q))
  }

  lemma WrittenGrows(steps: seq<PassStep>, e: PassStep, id: Id, from: nat)
    requires from <= |steps|
    ensures Written(steps + [e], id, from, |steps| + 1) <==> Written(steps, id, from, |steps|) || e == Write(id)
    ensures forall to: nat :: to <= |steps| ==> (Written(steps + [e], id, from, to) <==> Written(steps, id, from, to))
  {
    var more := steps + [e];
    assert more[|steps|] == e;
    assert forall p :: 0 <= p < |steps| ==> more[p] == steps[p];
    if p :| from <= p < |steps| && steps[p] == Write(id) {
      assert more[p] == Write(id);
    }
    forall to: nat | to <= |steps|
      ensures Written(more, id, from, to) <==> Written(steps, id, from, to)
    {
      if p :| from <= p < to && steps[p] == Write(id) {
        assert more[p] == Write(id);
      }
    }
  }

  lemma SurvivalGrows(steps: seq<PassStep>, e: PassStep, chat: string, id: Id, ends: bool)
    ensures (exists q :: Survives(steps + [e], chat, id, ends, q))
       <==> || (e != Write(id) && exists q :: Survives(steps, chat, id, ends, q))
            || (e == CancelStep(chat, id) && (ends ==> !Written(steps, id, 0, |steps|)))
  {
    var more, n := steps + [e], |steps|;
    hide Written;
    forall q: nat | q < n
      ensures Survives(more, chat, id, ends, q) <==> e != Write(id) && Survives(steps, chat, id, ends, q)
    {
      WrittenGrows(steps, e, id, q);
      WrittenGrows(steps, e, id, 0);
    }
    WrittenGrows(steps, e, id, n);
    WrittenGrows(steps, e, id, 0);
    assert !Written(steps, id, n, n) by { NothingWritten(steps, id, n); }
    assert Survives(more, chat, id, ends, n) <==> e == CancelStep(chat, id) && (ends ==> !Written(steps, id, 0, n));
  }

  lemma NothingWritten(steps: seq<PassStep>, id: Id, n: nat)
    requires n <= |steps|
    ensures !Written(steps, id, n, n)
  {}

  /** A cancellation of a listed row survives a pass if and only if the pass does not write the row after
      it, nor ended its series before. */
  lemma {:induction false} CancelSurvivesExactly(s: Store, now: Instant, steps: seq<PassStep>, id: Id)
    requires id in s.rows && s.rows[id].status == Pending
    ensures var row := s.rows[id];
            var r := Interleaved(s, s.rows, now, steps);
            && id in r.rows && r.rows[id].chat == row.chat
            && (r.rows[id].status == Cancelled
                <==> exists q :: Survives(steps, row.chat, id, NextOf(row, now).None?, q))
            && (r.rows[id].status == Delivered <==> NextOf(row, now).None? && Written(steps, id, 0, |steps|))
  {
    hide NextOf, Survives, Written;
    if steps == [] {
      assert !Written(steps, id, 0, 0) by { NothingWritten(steps, id, 0); }
      NoneSurvives(s, now, id);
    } else {
      var init, e := steps[..|steps| - 1], steps[|steps| - 1];
      assert steps == init + [e];
      CancelSurvivesExactly(s, now, init, id);
      WrittenGrows(init, e, id, 0);
      SurvivalGrows(init, e, s.rows[id].chat, id, NextOf(s.rows[id], now).None?);
    }
  }

  lemma NoneSurvives(s: Store, now: Instant, id: Id)
    requires id in s.rows
    ensures forall q :: !Survives([], s.rows[id].chat, id, NextOf(s.rows[id], now).None?, q)
  {}

  /** A cancellation between the pass's query and its write to the row is lost: the row is pending
      again when the series goes on, and delivered when it has ended. */
  lemma CancelDuringPassIsLost(s: Store, chat: string, id: Id, now: Instant)
    requires s.Get(chat, id).Some?
    ensures var row := s.rows[id];
            var cancelled := CancelReminder(s, chat, id);
            && cancelled.Ok?
            && cancelled.value.rows[id].status == Cancelled
            && cancelled.value.AdvanceRow(id, if row.rule.None? then None
                                              else NextDue(AnchorOf(row), now, row.rule.value, row.count + 1),
                                          row.count + 1).rows[id].status == AfterDelivery(row, now).status
            && AfterDelivery(row, now).status != Cancelled
  {
    hide NextDue;
  }
}
