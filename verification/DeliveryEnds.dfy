/** When a reminder has been sent for the last time, and how often it was sent by then. */
module DeliveryEnds {
  import opened Wrappers
  import opened Calendar
  import opened Recurrence
  import opened Series
  import opened RecurrencePatch
  import opened Reminders
  import opened Delivery

  // ---------- One send ----------

  /** The send numbered `count` of a row is its last: the row does not recur, it was sent as often as its
      rule allows, or the search for the next instant ends. */
  predicate IsLast(row: Row, now: Instant, count: int) {
    || row.rule.None?
    || (Limit(row).Some? && count >= Limit(row).value)
    || SearchEnds(AnchorOf(row), now, row.rule.value)
  }

  /** A send either ends its row or moves it to what the search finds, with one more delivery counted. */
  lemma SendEndsExactly(row: Row, now: Instant)
    requires WellFormedRow(row) && row.status == Pending
    ensures IsLast(row, now, row.count + 1) ==> AfterDelivery(row, now) == row.(status := Delivered)
    ensures !IsLast(row, now, row.count + 1) ==>
              && row.rule.Some? && ComputeNext(AnchorOf(row), now, row.rule.value).Some?
              && AfterDelivery(row, now) == row.(due := ComputeNext(AnchorOf(row), now, row.rule.value).value,
                                                 count := row.count + 1)
  {
    hide NextDue, ComputeNext, Rule.Valid;
    if row.rule.Some? {
      EndsExactly(AnchorOf(row), now, row.rule.value, row.count + 1);
    }
  }

  /** A pass sends exactly the listed reminders whose text is made and sent, if no send failed before. */
  lemma {:induction false} SentExactly(ids: seq<Id>, outcome: Id -> Attempt, id: Id)
    ensures id in SentOf(ids, outcome)
       <==> exists i :: 0 <= i < |ids| && ids[i] == id && outcome(id) == Sent
                        && forall j :: 0 <= j < i ==> outcome(ids[j]) != SendFails
  {
    if ids != [] {
      SentExactly(ids[1..], outcome, id);
      if i :| 0 <= i < |ids[1..]| && ids[1..][i] == id && outcome(id) == Sent
              && forall j :: 0 <= j < i ==> outcome(ids[1..][j]) != SendFails
      {
        if outcome(ids[0]) != SendFails {
          assert ids[i + 1] == id && forall j :: 1 <= j < i + 1 ==> ids[j] == ids[1..][j - 1];
        }
      }
      if i :| 0 < i < |ids| && ids[i] == id && outcome(id) == Sent
              && forall j :: 0 <= j < i ==> outcome(ids[j]) != SendFails
      {
        assert ids[1..][i - 1] == id;
      }
    }
  }

  // ---------- Over whole histories ----------

  /** The event is a pass that sends the row, which it read as pending. */
  ghost predicate Sends(s: Store, e: Event, id: Id, row: Row) {
    && e.PassEvent? && Distinct(e.ids) && AllPending(s, e.ids) && id in SentOf(e.ids, e.outcome)
    && id in s.rows && s.rows[id] == row && row.status == Pending
  }

  /** A row becomes delivered by a pass that sends it for the last time, and in no other way. */
  lemma StepDelivers(s: Store, e: Event, id: Id)
    requires WellFormedStore(s) && (e.SetEvent? ==> e.id !in s.rows)
    requires id in Apply(s, e).rows && Apply(s, e).rows[id].status == Delivered
    ensures || (id in s.rows && s.rows[id] == Apply(s, e).rows[id])
            || (var row := Apply(s, e).rows[id].(status := Pending);
                && id in s.rows && s.rows[id] == row
                && Sends(s, e, id, row) && IsLast(row, e.now, row.count + 1))
  {
    hide WellFormedRow, SetReminder, UpdateReminder, AfterDelivery, IsLast;
    match e {
      case SetEvent(chat, i, args, timezone) =>
        if SetReminder(s, chat, i, args, timezone).Ok? {
          SetRowIsWellFormed(s, chat, i, args, timezone);
        }
      case UpdateEvent(chat, i, args, timezone, from, now) =>
        if UpdateReminder(s, chat, i, args, timezone, from, now).Ok? {
          UpdateRowIsWellFormed(s, chat, i, args, timezone, from, now);
        }
      case CancelEvent(_, _) =>
      case PassEvent(ids, now, outcome) =>
        if Distinct(ids) && AllPending(s, ids) && id in SentOf(ids, outcome) {
          SentOnlyListed(ids, outcome, id);
          SendEndsExactly(s.rows[id], now);
        }
    }
  }

  lemma FreshBefore(events: seq<Event>, n: nat)
    requires FreshIds(events) && n <= |events|
    ensures FreshIds(events[..n])
  {
    hide Apply;
    forall i | 0 <= i < n && events[..n][i].SetEvent?
      ensures events[..n][i].id !in After(EMPTY, events[..n][..i]).rows
    {
      assert events[..n][..i] == events[..i];
    }
  }

  /** What the history of a delivered row shows. */
  ghost predicate EndedAt(events: seq<Event>, i: nat, id: Id, row: Row, sends: nat) {
    && i < |events| && Sends(After(EMPTY, events[..i]), events[i], id, row.(status := Pending))
    && sends == row.count + 1 == After(EMPTY, events[..i]).Sends(id) + 1
    && (row.rule.None? ==> sends == 1)
    && (row.rule.Some? ==> || Limit(row) == Some(sends)
                           || SearchEnds(AnchorOf(row), events[i].now, row.rule.value))
  }

  /** Over any history: a delivered row was last sent by a pass that found it in its present form, pending.
      A one-shot was sent once. A series that ends after N deliveries was sent exactly N times, unless the
      search ended at that pass; and any other series is delivered only because the search ended. */
  lemma {:induction false} DeliveredExactly(events: seq<Event>, id: Id) returns (i: nat)
    requires FreshIds(events)
    requires id in After(EMPTY, events).rows && After(EMPTY, events).rows[id].status == Delivered
    ensures EndedAt(events, i, id, After(EMPTY, events).rows[id], After(EMPTY, events).Sends(id))
  {
    hide Apply, WellFormedStore, IsLast, Sends, EndedAt, Counted;
    var n := |events| - 1;
    var init, e := events[..n], events[n];
    var s := After(EMPTY, init);
    var row := After(EMPTY, events).rows[id];
    FreshBefore(events, n);
    RowsAreWellFormed(init);
    SendsAreCounted(events);
    SendsAreCounted(init);
    StepDelivers(s, e, id);
    if id in s.rows && s.rows[id] == row {
      i := DeliveredExactly(init, id);
      EndedBefore(events, n, i, id, row);
    } else {
      i := n;
      EndsNow(events, id, row);
    }
  }

  lemma EndedBefore(events: seq<Event>, n: nat, i: nat, id: Id, row: Row)
    requires n <= |events| && EndedAt(events[..n], i, id, row, After(EMPTY, events[..n]).Sends(id))
    requires row.status == Delivered
    requires Counted(row, After(EMPTY, events).Sends(id)) && Counted(row, After(EMPTY, events[..n]).Sends(id))
    ensures EndedAt(events, i, id, row, After(EMPTY, events).Sends(id))
  {
    hide Sends, SearchEnds, Store.Sends, After;
    assert events[..n][..i] == events[..i] && events[..n][i] == events[i];
  }

  lemma EndsNow(events: seq<Event>, id: Id, row: Row)
    requires events != [] && row.status == Delivered
    requires var s, e := After(EMPTY, events[..|events| - 1]), events[|events| - 1];
             && Sends(s, e, id, row.(status := Pending)) && IsLast(row.(status := Pending), e.now, row.count + 1)
             && Counted(row.(status := Pending), s.Sends(id)) && Counted(row, After(EMPTY, events).Sends(id))
    ensures EndedAt(events, |events| - 1, id, row, After(EMPTY, events).Sends(id))
  {
    hide SearchEnds, Store.Sends, After, SentOf, Distinct, AllPending;
  }
}
