/** What a background job has updated the memory with. */
module ProtocolUpdates {
  import opened Wrappers
  import opened Contexts
  import opened Processor
  import opened Protocol
  import opened ProtocolHistory

  /** At step `n` the job took the snapshot at the top of its loop: the message was not deleted, and this was
      the last one written. */
  ghost predicate TopAt(events: seq<Event>, n: int, i: nat, message: Message) {
    && 0 <= n < |events| && events[n].JobStep? && events[n].job == i
    && var s := After(events[..n]);
       i < |s.jobs| && s.jobs[i].phase == JobTop
       && !IsRemoved(Log(events[..n], s.jobs[i].sid)) && LastWritten(Log(events[..n], s.jobs[i].sid), message)
  }

  /** At step `n` the job's update with this message succeeded. */
  ghost predicate UpdatedAt(events: seq<Event>, n: int, i: nat, message: Message) {
    && 0 <= n < |events| && events[n].JobStep? && events[n].job == i && events[n].outcome.Success?
    && var s := After(events[..n]);
       i < |s.jobs| && s.jobs[i].phase == JobWorking && s.jobs[i].message == message
  }

  /** How many edits of a message that was not deleted had been handled before step `n`. */
  ghost function EditsAt(events: seq<Event>, n: int, sid: nat): nat
    requires 0 <= n <= |events|
  {
    Edits(Log(events[..n], sid))
  }

  const UPDATING := {JobReady, JobWorking, JobFailing, JobInterrupted, JobWorked}

  ghost predicate Seen(events: seq<Event>, i: nat, sid: nat, message: Message, revision: nat) {
    exists top :: TopAt(events, top, i, message) && EditsAt(events, top, sid) == revision
  }

  ghost predicate Updated(events: seq<Event>, i: nat, sid: nat, message: Message, revision: nat) {
    exists top, updated ::
      && top < updated && TopAt(events, top, i, message) && UpdatedAt(events, updated, i, message)
      && EditsAt(events, top, sid) == revision
  }

  /** At step `n` the job found its message not deleted, with as many edits as when it took its snapshot. */
  ghost predicate SettledAt(events: seq<Event>, n: int, i: nat, sid: nat, revision: nat) {
    && 0 <= n < |events| && events[n].JobStep? && events[n].job == i
    && !IsRemoved(Log(events[..n], sid)) && EditsAt(events, n, sid) == revision
  }

  ghost predicate Settled(events: seq<Event>, i: nat, sid: nat) {
    exists top, updated, settled, message, revision ::
      && top < updated < settled && TopAt(events, top, i, message) && UpdatedAt(events, updated, i, message)
      && EditsAt(events, top, sid) == revision && SettledAt(events, settled, i, sid, revision)
  }

  ghost predicate JobTold(events: seq<Event>, i: nat, j: Job) {
    && (j.phase in UPDATING ==> Seen(events, i, j.sid, j.message, j.revBefore))
    && (j.phase == JobWorked ==> Updated(events, i, j.sid, j.message, j.revBefore))
    && (j.phase == JobStoring ==> Settled(events, i, j.sid))
  }

  lemma TopStays(events: seq<Event>, e: Event, n: int, i: nat, sid: nat, message: Message)
    requires TopAt(events, n, i, message)
    ensures TopAt(events + [e], n, i, message) && EditsAt(events + [e], n, sid) == EditsAt(events, n, sid)
  {
    hide After, Log, IsRemoved, LastWritten, Edits;
    assert (events + [e])[..n] == events[..n];
  }

  lemma UpdateStays(events: seq<Event>, e: Event, n: int, i: nat, message: Message)
    requires UpdatedAt(events, n, i, message)
    ensures UpdatedAt(events + [e], n, i, message)
  {
    hide After;
    assert (events + [e])[..n] == events[..n];
  }

  lemma SettledStays(events: seq<Event>, e: Event, n: int, i: nat, sid: nat, revision: nat)
    requires SettledAt(events, n, i, sid, revision)
    ensures SettledAt(events + [e], n, i, sid, revision)
  {
    hide After, Log, IsRemoved, Edits;
    assert (events + [e])[..n] == events[..n];
  }

  lemma SeenStays(events: seq<Event>, e: Event, i: nat, sid: nat, message: Message, revision: nat)
    ensures Seen(events, i, sid, message, revision) ==> Seen(events + [e], i, sid, message, revision)
  {
    if top :| TopAt(events, top, i, message) && EditsAt(events, top, sid) == revision {
      TopStays(events, e, top, i, sid, message);
    }
  }

  lemma UpdatedStays(events: seq<Event>, e: Event, i: nat, sid: nat, message: Message, revision: nat)
    ensures Updated(events, i, sid, message, revision) ==> Updated(events + [e], i, sid, message, revision)
  {
    if top, updated :| top < updated && TopAt(events, top, i, message) && UpdatedAt(events, updated, i, message)
                       && EditsAt(events, top, sid) == revision
    {
      TopStays(events, e, top, i, sid, message);
      UpdateStays(events, e, updated, i, message);
      hide TopAt, UpdatedAt, EditsAt;
    }
  }

  lemma SettledOnceStays(events: seq<Event>, e: Event, i: nat, sid: nat)
    requires Settled(events, i, sid)
    ensures Settled(events + [e], i, sid)
  {
    var top, updated, settled, message, revision :|
      && top < updated < settled && TopAt(events, top, i, message) && UpdatedAt(events, updated, i, message)
      && EditsAt(events, top, sid) == revision && SettledAt(events, settled, i, sid, revision);
    TopStays(events, e, top, i, sid, message);
    UpdateStays(events, e, updated, i, message);
    SettledStays(events, e, settled, i, sid, revision);
    hide UpdatedAt, SettledAt;
  }

  lemma JobToldStays(events: seq<Event>, e: Event, i: nat, j: Job)
    requires JobTold(events, i, j)
    ensures JobTold(events + [e], i, j)
  {
    SeenStays(events, e, i, j.sid, j.message, j.revBefore);
    UpdatedStays(events, e, i, j.sid, j.message, j.revBefore);
    if j.phase == JobStoring {
      SettledOnceStays(events, e, i, j.sid);
    }
    hide Seen, Updated, Settled;
  }

  // ---------- One step ----------

  ghost predicate JobMoves(st: MessageState, j: Job, q: Job, outcome: Outcome) {
    && q.sid == j.sid
    && (q.phase == JobReady ==>
          j.phase == JobTop && !st.deleted && q.message == st.message && q.revBefore == st.revision)
    && (q.phase in UPDATING && q.phase != JobReady ==>
          j.phase in UPDATING && q.message == j.message && q.revBefore == j.revBefore)
    && (q.phase == JobWorked ==> j.phase == JobWorking && outcome.Success?)
    && (q.phase == JobStoring ==> j.phase == JobWorked && !st.deleted && st.revision == j.revBefore)
  }

  lemma AdvanceJobMoves(g: Registry, j: Job, outcome: Outcome)
    requires g.Valid() && JobExists(g, j) && j.phase != JobReady
    ensures JobMoves(g.states[j.sid], j, AdvanceJob(g, j, outcome), outcome)
  {
    hide Registry.Valid, CauseOf;
  }

  lemma OwnJobStep(s: Machine, i: nat, outcome: Outcome)
    requires Sound(s) && i < |s.jobs|
    ensures s.jobs[i].sid < |s.g.states| && |Apply(s, JobStep(i, outcome)).jobs| == |s.jobs|
    ensures JobMoves(s.g.states[s.jobs[i].sid], s.jobs[i], Apply(s, JobStep(i, outcome)).jobs[i], outcome)
  {
    hide AdvanceJob, Registry.Valid, Registry.Attempt;
    if s.jobs[i].phase != JobReady {
      hide JobMoves;
      AdvanceJobMoves(s.g, s.jobs[i], outcome);
    }
  }

  /** Other steps leave a job as it was. A new one waits for its lane, and belongs to a state that was begun. */
  lemma OtherJobStep(s: Machine, e: Event, i: nat)
    requires Inv(s) && Sound(s) && i < |Apply(s, e).jobs| && !(e.JobStep? && e.job == i)
    ensures if i < |s.jobs| then Apply(s, e).jobs[i] == s.jobs[i]
            else Apply(s, e).jobs[i].phase == JobQueued && Apply(s, e).jobs[i].sid < |s.g.states|
                 && s.g.states[Apply(s, e).jobs[i].sid].runToken > 0
  {
    hide Advance, AdvanceJob, Registry.Valid, CancelAny, Cancel, CauseOf, Registry.Attempt, Inv, Registry.Begin,
         Registry.Release, Registry.Update, Registry.Delete;
    if e.RunStep? && e.run < |s.runs| && Unreleased(s.runs[e.run]) {
      InvHasRun(s, e.run);
      TokenIsStarted(s.g, s.runs[e.run]);
    }
  }

  lemma TokensGrow(s: Machine, e: Event, sid: nat)
    requires Sound(s) && sid < |s.g.states|
    ensures sid < |Apply(s, e).g.states| && s.g.states[sid].runToken <= Apply(s, e).g.states[sid].runToken
  {
    hide Apply, EntryOf;
    StepFollows(s, e, sid);
  }

  lemma {:induction false} JobsAreStarted(events: seq<Event>, i: nat)
    requires i < |After(events).jobs|
    ensures var s := After(events);
            s.jobs[i].sid < |s.g.states| && s.g.states[s.jobs[i].sid].runToken > 0
  {
    hide Apply, Inv, Sound;
    if events != [] {
      var init, e := events[..|events| - 1], events[|events| - 1];
      var s := After(init);
      AfterHasInv(init);
      InvIsSound(s);
      if e.JobStep? && e.job == i {
        JobsStay(s, e);
        OwnJobStep(s, i, e.outcome);
        JobsAreStarted(init, i);
      } else {
        OtherJobStep(s, e, i);
        if i < |s.jobs| {
          JobsAreStarted(init, i);
        }
      }
      TokensGrow(s, e, After(events).jobs[i].sid);
    }
  }

  lemma JobsStay(s: Machine, e: Event)
    requires Sound(s) && e.JobStep?
    ensures |Apply(s, e).jobs| == |s.jobs|
  {
    hide AdvanceJob, Registry.Valid, Registry.Attempt;
  }

  /** What a job sees of a message that is not deleted is what was written last. */
  lemma JobSees(events: seq<Event>, i: nat, e: Event)
    requires i < |After(events).jobs| && e.JobStep? && e.job == i
    ensures var s, j := After(events), After(events).jobs[i];
            && j.sid < |s.g.states|
            && EditsAt(events + [e], |events|, j.sid) == s.g.states[j.sid].revision
            && (!s.g.states[j.sid].deleted ==>
                  SettledAt(events + [e], |events|, i, j.sid, s.g.states[j.sid].revision)
                  && (j.phase == JobTop ==> TopAt(events + [e], |events|, i, s.g.states[j.sid].message)))
  {
    var s, j := After(events), After(events).jobs[i];
    JobsAreStarted(events, i);
    StateFollowsLog(events, j.sid);
    var log := Log(events, j.sid);
    assert (events + [e])[..|events|] == events;
    hide After, Log, IsRemoved, LastWritten, Writes, Starts, Edits;
    StartsWrite(log);
  }

  lemma JobToldMoves(events: seq<Event>, i: nat, q: Job, outcome: Outcome)
    requires i < |After(events).jobs| && JobTold(events, i, After(events).jobs[i])
    requires After(events).jobs[i].sid < |After(events).g.states|
    requires JobMoves(After(events).g.states[After(events).jobs[i].sid], After(events).jobs[i], q, outcome)
    ensures JobTold(events + [JobStep(i, outcome)], i, q)
  {
    var e, j := JobStep(i, outcome), After(events).jobs[i];
    var more, n := events + [e], |events|;
    JobSees(events, i, e);
    SeenStays(events, e, i, j.sid, j.message, j.revBefore);
    if q.phase == JobWorked {
      assert UpdatedAt(more, n, i, j.message) by {
        assert more[..n] == events && more[n] == e;
      }
      UpdatesNow(events, e, i, j.sid, j.message, j.revBefore);
    } else if q.phase == JobStoring {
      SettlesNow(events, e, i, j.sid, j.message, j.revBefore);
    }
    hide After, TopAt, UpdatedAt, Updated, SettledAt, Settled, EditsAt;
  }

  lemma UpdatesNow(events: seq<Event>, e: Event, i: nat, sid: nat, message: Message, revision: nat)
    requires Seen(events, i, sid, message, revision) && UpdatedAt(events + [e], |events|, i, message)
    ensures Updated(events + [e], i, sid, message, revision)
  {
    var top :| TopAt(events, top, i, message) && EditsAt(events, top, sid) == revision;
    assert top < |events|;
    TopStays(events, e, top, i, sid, message);
    hide UpdatedAt;
  }

  lemma SettlesNow(events: seq<Event>, e: Event, i: nat, sid: nat, message: Message, revision: nat)
    requires Updated(events, i, sid, message, revision) && SettledAt(events + [e], |events|, i, sid, revision)
    ensures Settled(events + [e], i, sid)
  {
    var top, updated :| top < updated && TopAt(events, top, i, message) && UpdatedAt(events, updated, i, message)
                        && EditsAt(events, top, sid) == revision;
    assert updated < |events|;
    TopStays(events, e, top, i, sid, message);
    UpdateStays(events, e, updated, i, message);
    hide UpdatedAt, SettledAt, EditsAt, TopAt;
  }

  // ---------- Every history ----------

  lemma {:induction false} AlwaysJobTold(events: seq<Event>, i: nat)
    requires i < |After(events).jobs|
    ensures JobTold(events, i, After(events).jobs[i])
  {
    hide Apply, Inv, Sound, JobTold, JobMoves;
    if events != [] {
      var init, e := events[..|events| - 1], events[|events| - 1];
      var s := After(init);
      AfterHasInv(init);
      InvIsSound(s);
      assert events == init + [e];
      if e.JobStep? && e.job == i {
        JobsStay(s, e);
        AlwaysJobTold(init, i);
        OwnJobStep(s, i, e.outcome);
        JobToldMoves(init, i, After(events).jobs[i], e.outcome);
      } else {
        OtherJobStep(s, e, i);
        if i < |s.jobs| {
          AlwaysJobTold(init, i);
          JobToldStays(init, e, i, s.jobs[i]);
        } else {
          QueuedIsTold(events, i, After(events).jobs[i]);
        }
      }
    }
  }

  lemma QueuedIsTold(events: seq<Event>, i: nat, j: Job)
    requires j.phase == JobQueued
    ensures JobTold(events, i, j)
  {}

  /** Over every history: a job that goes on to store the reply has updated the memory with a message that was
      the last one written, and not deleted, when it took its snapshot; and after the update the message was
      still not deleted, and not edited in between. */
  lemma MemoryIsUpToDate(events: seq<Event>, i: nat)
    returns (top: int, updated: int, settled: int, message: Message)
    requires i < |After(events).jobs| && After(events).jobs[i].phase == JobStoring
    ensures top < updated < settled < |events|
    ensures TopAt(events, top, i, message) && UpdatedAt(events, updated, i, message)
    ensures var sid := After(events).jobs[i].sid;
            && !IsRemoved(Log(events[..settled], sid))
            && Edits(Log(events[..settled], sid)) == Edits(Log(events[..top], sid))
  {
    hide After, Log, IsRemoved, Edits, UpdatedAt;
    AlwaysJobTold(events, i);
    var sid := After(events).jobs[i].sid;
    var revision: nat;
    top, updated, settled, message, revision :|
      && top < updated < settled && TopAt(events, top, i, message) && UpdatedAt(events, updated, i, message)
      && EditsAt(events, top, sid) == revision && SettledAt(events, settled, i, sid, revision);
  }
}
