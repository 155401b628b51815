/** Which messages a history writes into a state, and what a run that sends has replied to. */
module ProtocolHistory {
  import opened Wrappers
  import opened Contexts
  import opened Processor
  import opened Protocol

  // ---------- The log of a state ----------

  /** What a start, an edit or a deletion brings to the state it reaches. */
  datatype Entry = Began(message: Message) | Edited(message: Message) | Removed

  ghost function EntryOf(s: Machine, e: Event, sid: nat): Option<Entry> {
    match e
    case Begin(i) =>
      if i < |s.runs| && s.runs[i].phase == Loaded && s.runs[i].sid == sid then Some(Began(s.runs[i].message)) else None
    case Handle(i) =>
      if i < |s.handlers| && !s.handlers[i].done && s.handlers[i].sid == sid
      then Some(if s.handlers[i].edit.Some? then Edited(s.handlers[i].edit.value) else Removed)
      else None
    case _ => None
  }

  /** All starts, edits and deletions that a history brings to a state, in order. */
  ghost function Log(events: seq<Event>, sid: nat): seq<Entry> {
    if events == [] then []
    else
      var init, e := events[..|events| - 1], events[|events| - 1];
      var entry := EntryOf(After(init), e, sid);
      Log(init, sid) + if entry.Some? then [entry.value] else []
  }

  /** The message was deleted, and not started again since. */
  ghost predicate IsRemoved(log: seq<Entry>) {
    exists k :: 0 <= k < |log| && log[k].Removed? && forall j :: k < j < |log| ==> !log[j].Began?
  }

  /** A start writes its message, and an edit of a message that is not deleted then. */
  ghost predicate Writes(log: seq<Entry>, k: int) {
    0 <= k < |log| && (log[k].Began? || (log[k].Edited? && !IsRemoved(log[..k])))
  }

  ghost predicate WritesIt(log: seq<Entry>, k: int, message: Message) {
    Writes(log, k) && log[k].message == message
  }

  ghost predicate LastWritten(log: seq<Entry>, message: Message) {
    exists k :: WritesIt(log, k, message) && forall j :: k < j < |log| ==> !Writes(log, j)
  }

  ghost function Edits(log: seq<Entry>): nat {
    if log == [] then 0
    else
      var n := |log| - 1;
      Edits(log[..n]) + if log[n].Edited? && Writes(log, n) then 1 else 0
  }

  ghost function Starts(log: seq<Entry>): nat {
    if log == [] then 0 else Starts(log[..|log| - 1]) + if log[|log| - 1].Began? then 1 else 0
  }

  /** The state is what its log says. */
  ghost predicate Follows(st: MessageState, log: seq<Entry>) {
    && (st.deleted <==> IsRemoved(log))
    && (if exists k :: Writes(log, k) then LastWritten(log, st.message) else st.message == BLANK.message)
    && st.revision == Edits(log) && st.runToken == Starts(log)
  }

  // ---------- Where the entries come from ----------

  /** The messages of the starts that arrived. */
  ghost function Arrived(events: seq<Event>): seq<Message> {
    if events == [] then []
    else
      var init, e := events[..|events| - 1], events[|events| - 1];
      var cs := After(init).g.contexts;
      Arrived(init) + if e.Arrive? && e.root < |cs| && cs[e.root].parent.None? then [e.message] else []
  }

  /** The edits, and the deletions, that found their key in the map when they arrived. */
  ghost function Requested(events: seq<Event>): seq<Option<Message>> {
    if events == [] then []
    else
      var init, e := events[..|events| - 1], events[|events| - 1];
      var known := After(init).g.byKey;
      Requested(init) + match e
                        case EditArrives(message) => if message.key in known then [Some(message)] else []
                        case DeleteArrives(key) => if key in known then [None] else []
                        case _ => []
  }

  lemma ArrivesAsIs(s: Machine, e: Event)
    requires Sound(s)
    ensures var t := Apply(s, e);
            && |t.runs| == |s.runs| + (if e.Arrive? && e.root < |s.g.contexts| && s.g.contexts[e.root].parent.None?
                                       then 1 else 0)
            && (forall i :: 0 <= i < |s.runs| && t.runs[i].phase == Loaded ==> s.runs[i] == t.runs[i])
            && (|t.runs| > |s.runs| ==> t.runs[|s.runs|].message == e.message)
  {
    hide Advance, AdvanceJob, Registry.Valid, CancelAny, Cancel, CauseOf, Registry.Attempt, Registry.Release,
         Registry.Update, Registry.Delete;
    if e.RunStep? && e.run < |s.runs| && Unreleased(s.runs[e.run]) {
      StaysBegun(s, e.run, e.outcome);
    }
  }

  lemma StaysBegun(s: Machine, i: nat, outcome: Outcome)
    requires s.g.Valid() && i < |s.runs| && RunExists(s.g, s.runs[i]) && Begun(s.runs[i])
    ensures |StepRun(s, i, outcome).runs| == |s.runs| && Begun(StepRun(s, i, outcome).runs[i])
  {
    hide Registry.Valid, CauseOf, Registry.Attempt;
  }

  lemma QueuesAsIs(s: Machine, e: Event)
    requires Sound(s)
    ensures var h := Apply(s, e).handlers;
            && |s.handlers| <= |h|
            && (forall i :: 0 <= i < |s.handlers| ==> h[i].edit == s.handlers[i].edit && h[i].sid == s.handlers[i].sid)
            && h[|s.handlers|..] == match e
                                    case EditArrives(m) =>
                                      if m.key in s.g.byKey then [Handler(s.g.byKey[m.key], Some(m), false)] else []
                                    case DeleteArrives(key) =>
                                      if key in s.g.byKey then [Handler(s.g.byKey[key], None, false)] else []
                                    case _ => []
  {
    hide Advance, AdvanceJob, Registry.Valid, CancelAny, Cancel, CauseOf, Registry.Attempt, Registry.Release,
         Registry.Update, Registry.Delete, Registry.Begin;
  }

  /** A run begins with the message it arrived with, and a handler brings what it was asked to. */
  lemma {:induction false} EntriesAsArrived(events: seq<Event>)
    ensures |After(events).runs| == |Arrived(events)|
    ensures forall i :: 0 <= i < |After(events).runs| && After(events).runs[i].phase == Loaded ==>
              After(events).runs[i].message == Arrived(events)[i]
    ensures |After(events).handlers| == |Requested(events)|
    ensures forall i :: 0 <= i < |After(events).handlers| ==> After(events).handlers[i].edit == Requested(events)[i]
  {
    hide Apply, Inv, Sound;
    if events != [] {
      var init, e := events[..|events| - 1], events[|events| - 1];
      EntriesAsArrived(init);
      AfterHasInv(init);
      InvIsSound(After(init));
      ArrivesAsIs(After(init), e);
      QueuesAsIs(After(init), e);
      QueueGrows(After(init).handlers, After(events).handlers);
    }
  }

  lemma QueueGrows(before: seq<Handler>, after: seq<Handler>)
    requires |before| <= |after|
    ensures |after| == |before| + |after[|before|..]|
    ensures forall i :: |before| <= i < |after| ==> after[i] == after[|before|..][i - |before|]
  {}

  // ---------- One more entry ----------

  lemma RemovedGrows(log: seq<Entry>, e: Entry)
    ensures IsRemoved(log + [e]) <==> e.Removed? || (IsRemoved(log) && !e.Began?)
  {
    var more := log + [e];
    assert more[|log|] == e;
    if k :| 0 <= k < |log| && log[k].Removed? && forall j :: k < j < |log| ==> !log[j].Began? {
      assert more[k] == log[k];
      assert !e.Began? ==> forall j :: k < j < |more| ==> !more[j].Began?;
    }
    if k :| 0 <= k < |more| && more[k].Removed? && forall j :: k < j < |more| ==> !more[j].Began? {
      assert k < |log| ==> log[k].Removed? && forall j :: k < j < |log| ==> !log[j].Began? by {
        assert forall j :: 0 <= j < |log| ==> log[j] == more[j];
      }
    }
  }

  lemma WritesStay(log: seq<Entry>, e: Entry, k: int)
    ensures k < |log| ==> (Writes(log + [e], k) <==> Writes(log, k))
    ensures forall m :: k < |log| ==> (WritesIt(log + [e], k, m) <==> WritesIt(log, k, m))
    ensures Writes(log + [e], |log|) <==> e.Began? || (e.Edited? && !IsRemoved(log))
    ensures Writes(log + [e], |log|) ==> WritesIt(log + [e], |log|, e.message)
  {
    hide IsRemoved;
    assert 0 <= k < |log| ==> (log + [e])[..k] == log[..k];
    assert (log + [e])[..|log|] == log;
  }

  lemma LastWrittenGrows(log: seq<Entry>, e: Entry, message: Message)
    ensures Writes(log + [e], |log|) ==> (e.Began? || e.Edited?) && LastWritten(log + [e], e.message)
    ensures !Writes(log + [e], |log|) && LastWritten(log, message) ==> LastWritten(log + [e], message)
    ensures (exists k :: Writes(log + [e], k)) <==> Writes(log + [e], |log|) || exists k :: Writes(log, k)
  {
    hide IsRemoved, WritesIt;
    var more := log + [e];
    forall k: int | k < |log|
      ensures Writes(more, k) <==> Writes(log, k)
    {
      WritesStay(log, e, k);
    }
    WritesStay(log, e, |log|);
    if !Writes(more, |log|) && LastWritten(log, message) {
      var k :| WritesIt(log, k, message) && forall j :: k < j < |log| ==> !Writes(log, j);
      ItWrites(log, k, message);
      WritesStay(log, e, k);
      hide Writes;
      assert WritesIt(more, k, message);
    }
  }

  lemma ItWrites(log: seq<Entry>, k: int, message: Message)
    requires WritesIt(log, k, message)
    ensures Writes(log, k) && 0 <= k < |log|
  {}

  lemma FollowsGrows(st: MessageState, log: seq<Entry>, e: Entry, next: MessageState)
    requires Follows(st, log) && next.deleted == (e.Removed? || (st.deleted && !e.Began?))
    requires next.message == if e.Began? || (e.Edited? && !st.deleted) then e.message else st.message
    requires next.revision == st.revision + if e.Edited? && !st.deleted then 1 else 0
    requires next.runToken == st.runToken + if e.Began? then 1 else 0
    ensures Follows(next, log + [e])
  {
    hide IsRemoved, Writes, LastWritten;
    RemovedGrows(log, e);
    WritesStay(log, e, |log|);
    LastWrittenGrows(log, e, st.message);
    assert (log + [e])[..|log|] == log;
    hide Edits, Starts;
    EditsGrow(log, e);
  }

  lemma EditsGrow(log: seq<Entry>, e: Entry)
    ensures Edits(log + [e]) == Edits(log) + if e.Edited? && Writes(log + [e], |log|) then 1 else 0
    ensures Starts(log + [e]) == Starts(log) + if e.Began? then 1 else 0
  {
    hide Writes;
    assert (log + [e])[..|log|] == log;
  }

  // ---------- Every state follows its log ----------

  predicate SameText(a: MessageState, b: MessageState) {
    a.message == b.message && a.deleted == b.deleted && a.revision == b.revision && a.runToken == b.runToken
  }

  /** What one event does to the four fields of a state. */
  lemma StepFollows(s: Machine, e: Event, sid: nat)
    requires Sound(s) && sid < |s.g.states|
    ensures sid < |Apply(s, e).g.states|
    ensures var a, b := s.g.states[sid], Apply(s, e).g.states[sid];
            match EntryOf(s, e, sid)
            case None => SameText(a, b)
            case Some(entry) =>
              && b.deleted == (entry.Removed? || (a.deleted && !entry.Began?))
              && b.message == (if entry.Began? || (entry.Edited? && !a.deleted) then entry.message else a.message)
              && b.revision == a.revision + (if entry.Edited? && !a.deleted then 1 else 0)
              && b.runToken == a.runToken + (if entry.Began? then 1 else 0)
  {
    hide CancelAny, Cancel, CauseOf;
    match e {
      case RunStep(_, _) => StepKeepsText(s, e, sid);
      case JobStep(_, _) => StepKeepsText(s, e, sid);
      case Arrive(_, _) =>
      case Begin(_) =>
      case Release(_) =>
      case Handle(_) =>
      case NewCaller =>
      case Expire(_, _) =>
      case Unregister(_) =>
      case EditArrives(_) =>
      case DeleteArrives(_) =>
    }
  }

  lemma StepKeepsText(s: Machine, e: Event, sid: nat)
    requires Sound(s) && sid < |s.g.states| && (e.RunStep? || e.JobStep?)
    ensures sid < |Apply(s, e).g.states| && SameText(s.g.states[sid], Apply(s, e).g.states[sid])
  {
    hide Advance, AdvanceJob, CancelAny, Cancel, CauseOf;
  }

  lemma NewStates(s: Machine, e: Event, sid: nat)
    requires Sound(s) && |s.g.states| <= sid < |Apply(s, e).g.states|
    ensures Apply(s, e).g.states[sid] == BLANK
  {
    hide Advance, AdvanceJob, CancelAny, Cancel, CauseOf;
  }

  lemma NothingForNewStates(s: Machine, e: Event, sid: nat)
    requires Sound(s) && |s.g.states| <= sid
    ensures EntryOf(s, e, sid).None?
  {
    hide Registry.Valid;
  }

  lemma StatesGrow(s: Machine, e: Event)
    requires Sound(s)
    ensures |s.g.states| <= |Apply(s, e).g.states|
  {
    hide Advance, AdvanceJob, CancelAny, Cancel, CauseOf;
  }

  lemma {:induction false} LogOfNewState(events: seq<Event>, sid: nat)
    requires |After(events).g.states| <= sid
    ensures Log(events, sid) == []
  {
    hide Apply, EntryOf, Inv, Sound;
    if events != [] {
      var init, e := events[..|events| - 1], events[|events| - 1];
      AfterHasInv(init);
      InvIsSound(After(init));
      StatesGrow(After(init), e);
      LogOfNewState(init, sid);
      NothingForNewStates(After(init), e, sid);
    }
  }

  /** Over every history: a message is deleted if and only if it was deleted and not started again since; it
      is that of the last start, or of the last edit if it was not deleted then; its revision counts these
      edits, and its token the starts. */
  lemma {:induction false} StateFollowsLog(events: seq<Event>, sid: nat)
    requires sid < |After(events).g.states|
    ensures Follows(After(events).g.states[sid], Log(events, sid))
  {
    hide Apply, EntryOf, Inv, Sound, Follows;
    if events != [] {
      var init, e := events[..|events| - 1], events[|events| - 1];
      var s := After(init);
      AfterHasInv(init);
      InvIsSound(s);
      if sid < |s.g.states| {
        StateFollowsLog(init, sid);
        StepFollows(s, e, sid);
        var entry := EntryOf(s, e, sid);
        if entry.Some? {
          FollowsGrows(s.g.states[sid], Log(init, sid), entry.value, After(events).g.states[sid]);
        } else {
          SameFollows(s.g.states[sid], After(events).g.states[sid], Log(init, sid));
        }
      } else {
        NewStates(s, e, sid);
        LogOfNewState(init, sid);
        NothingForNewStates(s, e, sid);
        BlankFollows();
      }
    }
  }

  lemma SameFollows(st: MessageState, next: MessageState, log: seq<Entry>)
    requires Follows(st, log)
    requires next.message == st.message && next.deleted == st.deleted
    requires next.revision == st.revision && next.runToken == st.runToken
    ensures Follows(next, log + [])
  {
    assert log + [] == log;
  }

  lemma BlankFollows()
    ensures Follows(BLANK, [] + [])
  {}

  // ---------- What a run has replied to ----------

  /** At step `n` the run took a snapshot in this phase: the message was not deleted, and this was the last
      one written. */
  ghost predicate SnapshotAt(events: seq<Event>, n: int, i: nat, phase: Phase, message: Message) {
    && 0 <= n < |events| && events[n].RunStep? && events[n].run == i
    && var s := After(events[..n]);
       i < |s.runs| && s.runs[i].phase == phase
       && !IsRemoved(Log(events[..n], s.runs[i].sid)) && LastWritten(Log(events[..n], s.runs[i].sid), message)
  }

  /** At step `n` the run's computation of a reply to this message succeeded with this outcome. */
  ghost predicate ComputedAt(events: seq<Event>, n: int, i: nat, message: Message, outbound: Option<string>) {
    && 0 <= n < |events| && events[n] == RunStep(i, Success(outbound))
    && var s := After(events[..n]);
       i < |s.runs| && s.runs[i].phase == Deciding && s.runs[i].message == message
  }

  const LOOPING := {Preparing, Prepared, Deciding, Failing, Interrupted, Decided}
  const LEFT := {Exited, Unchecked, Sending, Sent, Finishing}
  const REPLYING := {Unchecked, Sending, Sent}

  ghost predicate Looked(events: seq<Event>, i: nat, basis: Message) {
    exists top :: SnapshotAt(events, top, i, AtTop, basis)
  }

  ghost predicate Replied(events: seq<Event>, i: nat, basis: Message, outbound: Option<string>) {
    exists top, computed ::
      top < computed && SnapshotAt(events, top, i, AtTop, basis) && ComputedAt(events, computed, i, basis, outbound)
  }

  ghost predicate Finished(events: seq<Event>, i: nat, basis: Message, outbound: Option<string>, exit: Message) {
    exists top, computed, left ::
      && top < computed < left && SnapshotAt(events, top, i, AtTop, basis)
      && ComputedAt(events, computed, i, basis, outbound) && SnapshotAt(events, left, i, Decided, exit)
  }

  /** What the history tells of a run in its loop, and behind it. */
  ghost predicate Told(events: seq<Event>, i: nat, r: Run) {
    && (r.phase in LOOPING ==> r.message == r.basis && Looked(events, i, r.basis))
    && (r.phase == Decided ==> Replied(events, i, r.basis, r.outbound))
    && (r.phase in LEFT ==> Finished(events, i, r.basis, r.outbound, r.exitMessage))
    && (r.phase in REPLYING ==> r.outbound.Some?)
  }

  lemma SnapshotStays(events: seq<Event>, e: Event, n: int, i: nat, phase: Phase, message: Message)
    requires SnapshotAt(events, n, i, phase, message)
    ensures SnapshotAt(events + [e], n, i, phase, message)
  {
    hide After, Log, IsRemoved, LastWritten;
    assert (events + [e])[..n] == events[..n];
  }

  lemma ComputedStays(events: seq<Event>, e: Event, n: int, i: nat, message: Message, outbound: Option<string>)
    requires ComputedAt(events, n, i, message, outbound)
    ensures ComputedAt(events + [e], n, i, message, outbound)
  {
    hide After;
    assert (events + [e])[..n] == events[..n];
  }

  lemma ToldStays(events: seq<Event>, e: Event, i: nat, r: Run)
    requires Told(events, i, r)
    ensures Told(events + [e], i, r)
  {
    hide SnapshotAt, ComputedAt;
    LookedStays(events, e, i, r.basis);
    RepliedStays(events, e, i, r.basis, r.outbound);
    hide Looked, Replied;
    if r.phase in LEFT {
      var top, computed, left :|
        && top < computed < left && SnapshotAt(events, top, i, AtTop, r.basis)
        && ComputedAt(events, computed, i, r.basis, r.outbound) && SnapshotAt(events, left, i, Decided, r.exitMessage);
      SnapshotStays(events, e, top, i, AtTop, r.basis);
      ComputedStays(events, e, computed, i, r.basis, r.outbound);
      SnapshotStays(events, e, left, i, Decided, r.exitMessage);
    }
  }

  lemma LookedStays(events: seq<Event>, e: Event, i: nat, basis: Message)
    ensures Looked(events, i, basis) ==> Looked(events + [e], i, basis)
  {
    hide SnapshotAt;
    if top :| SnapshotAt(events, top, i, AtTop, basis) {
      SnapshotStays(events, e, top, i, AtTop, basis);
    }
  }

  lemma RepliedStays(events: seq<Event>, e: Event, i: nat, basis: Message, outbound: Option<string>)
    ensures Replied(events, i, basis, outbound) ==> Replied(events + [e], i, basis, outbound)
  {
    hide SnapshotAt, ComputedAt;
    if top, computed :| top < computed && SnapshotAt(events, top, i, AtTop, basis)
                        && ComputedAt(events, computed, i, basis, outbound)
    {
      SnapshotStays(events, e, top, i, AtTop, basis);
      ComputedStays(events, e, computed, i, basis, outbound);
    }
  }

  /** A step of another run, of a job or a handler leaves a run as it was; a begin, a release and what
      follows it do not lead into the loop or behind it. */
  lemma OtherStep(s: Machine, e: Event, i: nat)
    requires Sound(s) && i < |Apply(s, e).runs|
    requires !(e.RunStep? && e.run == i && i < |s.runs| && Unreleased(s.runs[i]))
    ensures i < |s.runs| ==> Apply(s, e).runs[i] == s.runs[i] || Apply(s, e).runs[i].phase !in LOOPING + LEFT
    ensures i >= |s.runs| ==> Apply(s, e).runs[i].phase == Loaded
  {
    hide Advance, StepRun, StepJob, Registry.Valid, CancelAny, Cancel, CauseOf, Registry.Attempt;
    match e {
      case RunStep(k, outcome) => if k < |s.runs| && Unreleased(s.runs[k]) { OneRunMoves(s, k, outcome); }
      case JobStep(k, outcome) => if k < |s.jobs| { JobsLeaveRuns(s, k, outcome); }
      case Arrive(_, _) =>
      case Begin(_) =>
      case Release(_) =>
      case Unregister(_) =>
      case Handle(_) =>
      case NewCaller =>
      case Expire(_, _) =>
      case EditArrives(_) =>
      case DeleteArrives(_) =>
    }
  }

  lemma OneRunMoves(s: Machine, k: nat, outcome: Outcome)
    requires s.g.Valid() && k < |s.runs| && RunExists(s.g, s.runs[k]) && Begun(s.runs[k])
    ensures |StepRun(s, k, outcome).runs| == |s.runs|
    ensures forall i :: 0 <= i < |s.runs| && i != k ==> StepRun(s, k, outcome).runs[i] == s.runs[i]
  {
    hide Advance, Registry.Valid, Registry.Attempt;
  }

  lemma JobsLeaveRuns(s: Machine, k: nat, outcome: Outcome)
    requires s.g.Valid() && k < |s.jobs| && JobExists(s.g, s.jobs[k])
    ensures StepJob(s, k, outcome).runs == s.runs
  {
    hide AdvanceJob, Registry.Valid, Registry.Attempt;
  }

  /** How a step of its own changes a run: what it enters the loop with, what it computes in it, and what it
      leaves it with. */
  ghost predicate Moves(st: MessageState, r: Run, q: Run, outcome: Outcome) {
    && q.sid == r.sid
    && (q.phase in LOOPING && r.phase in LOOPING ==> q.message == r.message && q.basis == r.basis)
    && (q.phase in LEFT && r.phase in LEFT ==>
          q.basis == r.basis && q.outbound == r.outbound && q.exitMessage == r.exitMessage)
    && (q.phase in LOOPING && r.phase !in LOOPING ==>
          r.phase == AtTop && q.phase == Preparing && !st.deleted && q.message == q.basis == st.message)
    && (q.phase == Decided ==> r.phase == Deciding && outcome == Success(q.outbound))
    && (q.phase in LEFT && r.phase !in LEFT ==>
          r.phase == Decided && !st.deleted && q.exitMessage == st.message
          && q.basis == r.basis && q.outbound == r.outbound)
    && (q.phase in REPLYING && r.phase !in REPLYING ==> r.phase == Exited && q.outbound.Some?)
  }

  lemma AdvanceMoves(g: Registry, r: Run, outcome: Outcome)
    requires g.Valid() && RunExists(g, r) && Unreleased(r) && r.phase != Prepared && r.phase != Finishing
    ensures Moves(g.states[r.sid], r, Advance(g, r, outcome), outcome)
  {
    hide Registry.Valid, IsCancelled, CauseOf;
  }

  lemma OwnStep(s: Machine, i: nat, outcome: Outcome)
    requires Sound(s) && i < |s.runs| && Unreleased(s.runs[i])
    ensures |Apply(s, RunStep(i, outcome)).runs| == |s.runs|
    ensures Moves(s.g.states[s.runs[i].sid], s.runs[i], Apply(s, RunStep(i, outcome)).runs[i], outcome)
  {
    hide Advance, Registry.Valid, Registry.Attempt;
    if s.runs[i].phase != Prepared && s.runs[i].phase != Finishing {
      hide Moves;
      AdvanceMoves(s.g, s.runs[i], outcome);
    }
  }

  lemma {:induction false} StartsWrite(log: seq<Entry>)
    requires Starts(log) > 0
    ensures exists k :: Writes(log, k)
  {
    var n := |log| - 1;
    assert log == log[..n] + [log[n]];
    if Starts(log[..n]) > 0 {
      StartsWrite(log[..n]);
      LastWrittenGrows(log[..n], log[n], BLANK.message);
    } else {
      assert Writes(log, n);
    }
  }

  /** What a run sees of a message that is not deleted is what was written last. */
  lemma SnapshotTells(events: seq<Event>, i: nat, e: Event)
    requires i < |After(events).runs| && Unreleased(After(events).runs[i])
    requires e.RunStep? && e.run == i
    ensures var s, r := After(events), After(events).runs[i];
            && r.sid < |s.g.states|
            && (!s.g.states[r.sid].deleted ==>
                  SnapshotAt(events + [e], |events|, i, r.phase, s.g.states[r.sid].message))
  {
    var s, r := After(events), After(events).runs[i];
    AfterHasInv(events);
    InvHasRun(s, i);
    TokenIsStarted(s.g, r);
    StateFollowsLog(events, r.sid);
    var log := Log(events, r.sid);
    assert (events + [e])[..|events|] == events;
    hide After, Log, IsRemoved, LastWritten, Writes, Starts;
    StartsWrite(log);
  }

  lemma TokenIsStarted(g: Registry, r: Run)
    requires g.Valid() && RunOk(g, r) && Unreleased(r)
    ensures r.sid < |g.states| && g.states[r.sid].runToken > 0
  {
    hide Registry.Valid, SnapshotOk, ExitOk, DecidesOk, Live;
  }

  /** One more step tells what a run does in it. */
  lemma ToldMoves(events: seq<Event>, i: nat, q: Run, outcome: Outcome)
    requires i < |After(events).runs| && Unreleased(After(events).runs[i])
    requires After(events).runs[i].sid < |After(events).g.states|
    requires var r := After(events).runs[i];
             Told(events, i, r) && Moves(After(events).g.states[r.sid], r, q, outcome)
    ensures Told(events + [RunStep(i, outcome)], i, q)
  {
    var e, r := RunStep(i, outcome), After(events).runs[i];
    var more, n := events + [e], |events|;
    ToldStays(events, e, i, r);
    SnapshotTells(events, i, e);
    assert ComputedAt(more, n, i, r.message, q.outbound) || q.phase != Decided by {
      assert more[..n] == events && more[n] == e;
    }
    LookedStays(events, e, i, r.basis);
    RepliedStays(events, e, i, r.basis, r.outbound);
    if q.phase == Decided {
      RepliesNow(events, e, i, r.basis, q.outbound);
    } else if q.phase in LEFT && r.phase !in LEFT {
      FinishesNow(events, e, i, r.basis, r.outbound, q.exitMessage);
    }
    hide After, SnapshotAt, ComputedAt, Replied, Finished;
  }

  lemma RepliesNow(events: seq<Event>, e: Event, i: nat, basis: Message, outbound: Option<string>)
    requires Looked(events, i, basis) && ComputedAt(events + [e], |events|, i, basis, outbound)
    ensures Replied(events + [e], i, basis, outbound)
  {
    var top :| SnapshotAt(events, top, i, AtTop, basis);
    assert top < |events|;
    SnapshotStays(events, e, top, i, AtTop, basis);
    hide SnapshotAt, ComputedAt;
  }

  lemma FinishesNow(events: seq<Event>, e: Event, i: nat, basis: Message, outbound: Option<string>, exit: Message)
    requires Replied(events, i, basis, outbound) && SnapshotAt(events + [e], |events|, i, Decided, exit)
    ensures Finished(events + [e], i, basis, outbound, exit)
  {
    var top, computed :| top < computed && SnapshotAt(events, top, i, AtTop, basis)
                         && ComputedAt(events, computed, i, basis, outbound);
    assert computed < |events|;
    SnapshotStays(events, e, top, i, AtTop, basis);
    ComputedStays(events, e, computed, i, basis, outbound);
    hide SnapshotAt, ComputedAt;
  }

  lemma ToldOutside(events: seq<Event>, i: nat, r: Run)
    requires r.phase !in LOOPING + LEFT
    ensures Told(events, i, r)
  {}

  lemma {:induction false} AlwaysTold(events: seq<Event>, i: nat)
    requires i < |After(events).runs|
    ensures Told(events, i, After(events).runs[i])
  {
    hide Apply, Inv, Sound, Told, Moves, Follows;
    if events != [] {
      var init, e := events[..|events| - 1], events[|events| - 1];
      var s := After(init);
      AfterHasInv(init);
      InvIsSound(s);
      assert events == init + [e];
      if e.RunStep? && e.run == i && i < |s.runs| && Unreleased(s.runs[i]) {
        AlwaysTold(init, i);
        OwnStep(s, i, e.outcome);
        SoundHasRun(s, i);
        ToldMoves(init, i, After(events).runs[i], e.outcome);
      } else {
        OtherStep(s, e, i);
        if i < |s.runs| && After(events).runs[i] == s.runs[i] {
          AlwaysTold(init, i);
          ToldStays(init, e, i, s.runs[i]);
        } else {
          ToldOutside(events, i, After(events).runs[i]);
        }
      }
    }
  }

  lemma SoundHasRun(s: Machine, i: nat)
    requires Sound(s) && i < |s.runs|
    ensures s.runs[i].sid < |s.g.states|
  {}

  /** Over every history: what a run sends is the outcome of a computation of its own from one message. That
      message was the last one written when the run took the snapshot at the top of its loop; and, unless
      the run is past its deadline, it was still the last one written, and not deleted, when the run left
      its loop after the computation. */
  lemma SendRepliesToLastWritten(events: seq<Event>, i: nat) returns (top: int, computed: int, left: int)
    requires i < |After(events).runs| && After(events).runs[i].phase in {Sending, Sent}
    ensures var r := After(events).runs[i];
            && r.outbound.Some? && top < computed < left
            && SnapshotAt(events, top, i, AtTop, r.basis)
            && ComputedAt(events, computed, i, r.basis, r.outbound)
            && SnapshotAt(events, left, i, Decided, r.exitMessage)
            && (r.passed != Some(DeadlineExceeded) ==> r.exitMessage == r.basis)
  {
    hide SnapshotAt, ComputedAt, After;
    AlwaysTold(events, i);
    SendIsCurrent(After(events), i);
    var r := After(events).runs[i];
    top, computed, left :|
      && top < computed < left && SnapshotAt(events, top, i, AtTop, r.basis)
      && ComputedAt(events, computed, i, r.basis, r.outbound) && SnapshotAt(events, left, i, Decided, r.exitMessage);
  }
}
