/** What runs and jobs get to: another round after an edit, and the end of an undisturbed one. */
module ProtocolProgress {
  import opened Wrappers
  import opened Contexts
  import opened Processor
  import opened Protocol
  import opened ProtocolAttempts
  import opened ProtocolMemory
  import opened ProtocolRuns
  import opened ProtocolCauses

  // ---------- Steps of one run ----------

  lemma OneMore(events: seq<Event>, e: Event)
    ensures Sound(After(events)) && After(events + [e]) == Apply(After(events), e)
  {
    hide Apply, Inv;
    AfterHasInv(events);
    InvIsSound(After(events));
    assert (events + [e])[..|events|] == events;
  }

  /** The run's next step, with the same outcome of any outside call, so many times. */
  function Own(i: nat, outcome: Outcome, n: nat): seq<Event> {
    seq(n, _ => RunStep(i, outcome))
  }

  lemma OwnStep(events: seq<Event>, i: nat, outcome: Outcome, n: nat)
    requires n > 0
    ensures events + Own(i, outcome, n) == events + [RunStep(i, outcome)] + Own(i, outcome, n - 1)
  {
    assert Own(i, outcome, n) == [RunStep(i, outcome)] + Own(i, outcome, n - 1);
  }

  /** A step that changes the run alone. */
  lemma RunAdvancesAlone(events: seq<Event>, i: nat, outcome: Outcome)
    requires i < |After(events).runs| && Unreleased(After(events).runs[i])
    requires After(events).runs[i].phase != Prepared && After(events).runs[i].phase != Finishing
    ensures var s := After(events);
            && Sound(s) && RunExists(s.g, s.runs[i])
            && After(events + [RunStep(i, outcome)]) == s.(runs := s.runs[i := Advance(s.g, s.runs[i], outcome)])
  {
    hide Advance, After;
    OneMore(events, RunStep(i, outcome));
  }

  /** Why a run stops: it finds its message deleted; a call outside fails, other than the computation of the
      reply; that computation fails and was not cancelled, or was but there is no newer revision; the run's
      context is cancelled before it sends; or its work is done. */
  predicate Stops(g: Registry, r: Run, outcome: Outcome)
    requires g.Valid() && RunExists(g, r) && Unreleased(r)
  {
    var st := g.states[r.sid];
    || (st.deleted && r.phase in {Started, AtTop, Interrupted, Decided, Sent})
    || (st.deleted && r.phase == Exited && r.outbound.Some?)
    || (outcome.Failure? && r.phase in {Ensuring, Preparing, Sending})
    || (r.phase == Failing && !IsCancelled(g.contexts, r.attempt))
    || (r.phase == Interrupted && st.revision == r.revBefore)
    || (r.phase == Unchecked && IsCancelled(g.contexts, r.ctx))
    || r.phase == Finishing
  }

  lemma AdvanceStops(g: Registry, r: Run, outcome: Outcome)
    requires g.Valid() && RunExists(g, r) && Unreleased(r) && r.phase !in {Prepared, Finishing, Returned}
    ensures Advance(g, r, outcome).phase == Returned <==> Stops(g, r, outcome)
  {
    hide Registry.Valid, CauseOf;
  }

  /** A run stops for one of these reasons, and whenever there is one. */
  lemma StopsExactly(s: Machine, i: nat, outcome: Outcome)
    requires Sound(s) && i < |s.runs| && Unreleased(s.runs[i]) && s.runs[i].phase != Returned
    ensures Apply(s, RunStep(i, outcome)).runs[i].phase == Returned <==> Stops(s.g, s.runs[i], outcome)
  {
    hide Registry.Valid, Advance, Registry.Attempt;
    if s.runs[i].phase != Prepared && s.runs[i].phase != Finishing {
      AdvanceStops(s.g, s.runs[i], outcome);
    }
  }

  // ---------- Another round ----------

  /** An edit while a live computation runs cancels it with that cause. */
  lemma EditInterrupts(events: seq<Event>, sid: nat, kind: Kind, k: nat)
    requires var s := After(events);
             && sid < |s.g.states| && k < |s.handlers| && !s.handlers[k].done
             && s.handlers[k].sid == sid && s.handlers[k].edit.Some?
    requires Sound(After(events)) && !After(events).g.states[sid].deleted
    requires CancelOf(After(events).g.states[sid], kind).Some?
    requires Live(After(events).g.contexts, CancelOf(After(events).g.states[sid], kind).value)
    ensures var s, t := After(events), After(events + [Handle(k)]);
            && t.runs == s.runs && t.jobs == s.jobs && Sound(t)
            && t.g.states == s.g.states[sid := t.g.states[sid]]
            && t.g.states[sid].message == s.handlers[k].edit.value && !t.g.states[sid].deleted
            && t.g.states[sid].revision == s.g.states[sid].revision + 1
            && IsCancelled(t.g.contexts, CancelOf(s.g.states[sid], kind).value)
  {
    hide Apply, Sound, CauseOf;
    OneMore(events, Handle(k));
    OneMore(events + [Handle(k)], Handle(k));
    HandledEdit(After(events), sid, kind, k);
  }

  lemma HandledEdit(s: Machine, sid: nat, kind: Kind, k: nat)
    requires Sound(s) && sid < |s.g.states| && k < |s.handlers| && !s.handlers[k].done
    requires s.handlers[k].sid == sid && s.handlers[k].edit.Some?
    requires !s.g.states[sid].deleted && CancelOf(s.g.states[sid], kind).Some?
    requires Live(s.g.contexts, CancelOf(s.g.states[sid], kind).value)
    ensures var t := Apply(s, Handle(k));
            && t.runs == s.runs && t.jobs == s.jobs && sid < |t.g.states|
            && t.g.states == s.g.states[sid := t.g.states[sid]]
            && t.g.states[sid].message == s.handlers[k].edit.value && !t.g.states[sid].deleted
            && t.g.states[sid].revision == s.g.states[sid].revision + 1
            && WellFormed(t.g.contexts) && |t.g.contexts| == |s.g.contexts|
            && IsCancelled(t.g.contexts, CancelOf(s.g.states[sid], kind).value)
  {
    InterruptedCause(s.g, sid, CancelOf(s.g.states[sid], kind).value);
    hide Registry.Interrupted, CauseOf, Registry.Delete;
  }

  lemma InterruptedCause(g: Registry, sid: nat, c: nat)
    requires g.Valid() && sid < |g.states| && Live(g.contexts, c)
    requires Some(c) == g.states[sid].memoryCancel || Some(c) == g.states[sid].replyCancel
    ensures CauseOf(g.Interrupted(sid, MessageUpdated), c) == Some(MessageUpdated)
  {
    var memory, reply := g.states[sid].memoryCancel, g.states[sid].replyCancel;
    var cs := CancelAny(g.contexts, memory, MessageUpdated);
    if memory == Some(c) {
      CancelGives(g.contexts, c, MessageUpdated);
      if reply.Some? {
        CancelKeepsCauses(cs, reply.value, MessageUpdated, c);
      }
    } else {
      if memory.Some? {
        CancelSparesOrGives(g.contexts, memory.value, MessageUpdated, c);
      }
      if CauseOf(cs, c).None? {
        CancelGives(cs, c, MessageUpdated);
      }
    }
  }

  lemma CancelGives(cs: seq<Context>, c: nat, cause: Cause)
    requires WellFormed(cs) && Live(cs, c)
    ensures CauseOf(Cancel(cs, c, cause), c) == Some(cause)
  {}

  /** A run that waits for a live reply context has it registered. */
  lemma LiveReply(events: seq<Event>, i: nat)
    requires i < |After(events).runs| && Awaiting(After(events).runs[i])
    requires Sound(After(events)) && Live(After(events).g.contexts, After(events).runs[i].attempt)
    ensures var s, r := After(events), After(events).runs[i];
            && r.sid < |s.g.states| && s.g.states[r.sid].replyCancel == Some(r.attempt)
            && !s.g.states[r.sid].deleted && r.revBefore <= s.g.states[r.sid].revision
  {
    var s := After(events);
    var r := s.runs[i];
    AlwaysExact(events);
    AfterHasInv(events);
    InvHasRun(s, i);
    assert ReplyOk(s.g, s.issues, r);
    var j :| && 0 <= j < |s.issues|
             && s.issues[j].sid == r.sid && s.issues[j].kind == Reply && s.issues[j].ctx == r.attempt;
    hide After, Inv, Exact, Sound;
    LiveAttemptExactly(s, j);
  }

  lemma LiveMemory(events: seq<Event>, i: nat)
    requires i < |After(events).jobs| && Working(After(events).jobs[i])
    requires Sound(After(events)) && Live(After(events).g.contexts, After(events).jobs[i].attempt)
    ensures var s, j := After(events), After(events).jobs[i];
            && j.sid < |s.g.states| && s.g.states[j.sid].memoryCancel == Some(j.attempt)
            && !s.g.states[j.sid].deleted && j.revBefore <= s.g.states[j.sid].revision
  {
    var s := After(events);
    var j := s.jobs[i];
    AlwaysMemoryExact(events);
    AfterHasInv(events);
    assert JobOk(s.g, j) && MemoryOk(s.g, s.runs, s.issues, j);
    var k :| && 0 <= k < |s.issues|
             && s.issues[k].sid == j.sid && s.issues[k].kind == Memory && s.issues[k].ctx == j.attempt;
    hide After, Inv, MemoryExact, Sound;
    LiveAttemptExactly(s, k);
  }

  /** The steps by which a run, or a job, learns that its computation was in vain. */
  function Rounds(outcome: Outcome): nat {
    if outcome.Failure? then 3 else 2
  }

  /** A computation in vain: the message was edited since the run's snapshot, and a failure is put down to
      that. */
  ghost predicate InVain(s: Machine, i: nat)
    requires Sound(s) && i < |s.runs|
  {
    var r, st := s.runs[i], s.g.states[s.runs[i].sid];
    && r.phase == Deciding && !st.deleted && st.revision != r.revBefore && IsCancelled(s.g.contexts, r.attempt)
  }

  /** After a computation in vain a run goes back to the top of its loop, whatever the outcome is, and takes its
      next snapshot of the message as it is then. */
  lemma InVainGoesRound(events: seq<Event>, i: nat, outcome: Outcome)
    requires Sound(After(events)) && i < |After(events).runs| && InVain(After(events), i)
    ensures var later := After(events + Own(i, outcome, Rounds(outcome)));
            && i < |later.runs| && later.runs[i].phase == AtTop && later.runs[i].sid == After(events).runs[i].sid
            && later.g == After(events).g
    ensures var later := After(events + Own(i, outcome, Rounds(outcome)) + [RunStep(i, outcome)]);
            && i < |later.runs| && later.runs[i].phase == Preparing
            && later.runs[i].sid == After(events).runs[i].sid < |After(events).g.states|
            && later.runs[i].message == later.runs[i].basis == After(events).g.states[later.runs[i].sid].message
  {
    hide After, Inv, Sound, CauseOf, Registry.Valid;
    var step := [RunStep(i, outcome)];
    RunAdvancesAlone(events, i, outcome);
    RunAdvancesAlone(events + step, i, outcome);
    if outcome.Failure? {
      RunAdvancesAlone(events + step + step, i, outcome);
      assert Own(i, outcome, 3) == step + step + step;
      assert events + Own(i, outcome, 3) == events + step + step + step;
    } else {
      assert Own(i, outcome, 2) == step + step;
      assert events + Own(i, outcome, 2) == events + step + step;
    }
    RunAdvancesAlone(events + Own(i, outcome, Rounds(outcome)), i, outcome);
  }

  /** Whatever becomes of a computation that an edit finds live: the run goes back to the top of its loop,
      and next takes its snapshot of the edited message. */
  lemma EditLeadsToAnotherRound(events: seq<Event>, i: nat, k: nat, outcome: Outcome)
    requires var s := After(events);
             && i < |s.runs| && s.runs[i].phase == Deciding && Sound(s) && Live(s.g.contexts, s.runs[i].attempt)
             && k < |s.handlers| && !s.handlers[k].done
             && s.handlers[k].sid == s.runs[i].sid && s.handlers[k].edit.Some?
    ensures var later := events + [Handle(k)] + Own(i, outcome, Rounds(outcome));
            && i < |After(later).runs| && After(later).runs[i].phase == AtTop
            && i < |After(later + [RunStep(i, outcome)]).runs|
            && After(later + [RunStep(i, outcome)]).runs[i].phase == Preparing
            && After(later + [RunStep(i, outcome)]).runs[i].message == After(events).handlers[k].edit.value
  {
    hide After, Inv, Sound, Live, CauseOf, Registry.Valid;
    LiveReply(events, i);
    EditInterrupts(events, After(events).runs[i].sid, Reply, k);
    InVainGoesRound(events + [Handle(k)], i, outcome);
  }

  // ---------- Another update ----------

  function OwnJob(i: nat, outcome: Outcome, n: nat): seq<Event> {
    seq(n, _ => JobStep(i, outcome))
  }

  lemma JobAdvancesAlone(events: seq<Event>, i: nat, outcome: Outcome)
    requires i < |After(events).jobs| && After(events).jobs[i].phase != JobReady
    ensures var s := After(events);
            && Sound(s) && JobExists(s.g, s.jobs[i])
            && After(events + [JobStep(i, outcome)]) == s.(jobs := s.jobs[i := AdvanceJob(s.g, s.jobs[i], outcome)])
  {
    hide AdvanceJob, After;
    OneMore(events, JobStep(i, outcome));
  }

  ghost predicate UpdateInVain(s: Machine, i: nat)
    requires Sound(s) && i < |s.jobs|
  {
    var j, st := s.jobs[i], s.g.states[s.jobs[i].sid];
    && j.phase == JobWorking && !st.deleted && st.revision != j.revBefore && IsCancelled(s.g.contexts, j.attempt)
  }

  lemma InVainUpdatesAgain(events: seq<Event>, i: nat, outcome: Outcome)
    requires Sound(After(events)) && i < |After(events).jobs| && UpdateInVain(After(events), i)
    ensures var later := After(events + OwnJob(i, outcome, Rounds(outcome)));
            && i < |later.jobs| && later.jobs[i].phase == JobTop && later.g == After(events).g
    ensures var later := After(events + OwnJob(i, outcome, Rounds(outcome)) + [JobStep(i, outcome)]);
            && i < |later.jobs| && later.jobs[i].phase == JobReady
            && later.jobs[i].sid == After(events).jobs[i].sid < |After(events).g.states|
            && later.jobs[i].message == After(events).g.states[later.jobs[i].sid].message
  {
    hide After, Inv, Sound, CauseOf, Registry.Valid;
    var step := [JobStep(i, outcome)];
    JobAdvancesAlone(events, i, outcome);
    JobAdvancesAlone(events + step, i, outcome);
    if outcome.Failure? {
      JobAdvancesAlone(events + step + step, i, outcome);
      assert OwnJob(i, outcome, 3) == step + step + step;
      assert events + OwnJob(i, outcome, 3) == events + step + step + step;
    } else {
      assert OwnJob(i, outcome, 2) == step + step;
      assert events + OwnJob(i, outcome, 2) == events + step + step;
    }
    JobAdvancesAlone(events + OwnJob(i, outcome, Rounds(outcome)), i, outcome);
  }

  /** Whatever becomes of a memory update that an edit finds live: the job goes back to the top of its loop, and
      next updates with the edited message. */
  lemma EditLeadsToAnotherUpdate(events: seq<Event>, i: nat, k: nat, outcome: Outcome)
    requires var s := After(events);
             && i < |s.jobs| && s.jobs[i].phase == JobWorking && Sound(s) && Live(s.g.contexts, s.jobs[i].attempt)
             && k < |s.handlers| && !s.handlers[k].done
             && s.handlers[k].sid == s.jobs[i].sid && s.handlers[k].edit.Some?
    ensures var later := events + [Handle(k)] + OwnJob(i, outcome, Rounds(outcome));
            && i < |After(later).jobs| && After(later).jobs[i].phase == JobTop
            && i < |After(later + [JobStep(i, outcome)]).jobs|
            && After(later + [JobStep(i, outcome)]).jobs[i].phase == JobReady
            && After(later + [JobStep(i, outcome)]).jobs[i].message == After(events).handlers[k].edit.value
  {
    hide After, Inv, Sound, Live, CauseOf, Registry.Valid;
    LiveMemory(events, i);
    EditInterrupts(events, After(events).jobs[i].sid, Memory, k);
    InVainUpdatesAgain(events + [Handle(k)], i, outcome);
  }

  /** A job ends when it finds its message deleted, when its update fails without being cancelled by an edit,
      or when it has updated the memory and there is no reply to store, or it has stored it. It stores a reply
      exactly when it has updated the memory with the present message, and there is one. */
  lemma JobEndsExactly(g: Registry, j: Job, outcome: Outcome)
    requires g.Valid() && JobExists(g, j) && j.phase != JobDone && j.phase != JobReady
    ensures var st, next := g.states[j.sid], AdvanceJob(g, j, outcome).phase;
            && (next == JobStoring
                <==> j.phase == JobWorked && !st.deleted && st.revision == j.revBefore && j.reply.Some?)
            && (next == JobDone
                <==> || (st.deleted && j.phase in {JobQueued, JobTop, JobInterrupted, JobWorked})
                     || (j.phase == JobFailing && !IsCancelled(g.contexts, j.attempt))
                     || (j.phase == JobInterrupted && st.revision == j.revBefore)
                     || (j.phase == JobWorked && st.revision == j.revBefore && j.reply.None?)
                     || j.phase == JobStoring)
  {
    hide Registry.Valid, CauseOf;
  }

  // ---------- Undisturbed runs ----------

  /** An unreleased run with a live context. */
  ghost predicate Alive(s: Machine, i: nat) {
    Reachable(s) && Sound(s) && i < |s.runs| && Unreleased(s.runs[i]) && Live(s.g.contexts, s.runs[i].ctx)
  }

  lemma AliveMeans(s: Machine, i: nat)
    requires Alive(s, i)
    ensures s.g.Valid() && i < |s.runs| && RunExists(s.g, s.runs[i]) && Unreleased(s.runs[i])
    ensures var r := s.runs[i];
            && !s.g.states[r.sid].deleted && !IsCancelled(s.g.contexts, r.ctx)
            && r.token == s.g.states[r.sid].runToken && Live(s.g.contexts, r.root)
  {
    LiveRunExactly(s, i);
  }

  ghost function After1(s: Machine, i: nat, reply: Option<string>): Machine {
    if Sound(s) then Apply(s, RunStep(i, Success(reply))) else s
  }

  /** What follows a phase when nothing interferes and every call outside succeeds. */
  function Next(phase: Phase, replies: bool): Phase {
    match phase
    case Started => Ensuring
    case Ensuring => AtTop
    case AtTop => Preparing
    case Preparing => Prepared
    case Prepared => Deciding
    case Deciding => Decided
    case Decided => Exited
    case Exited => if replies then Unchecked else Finishing
    case Unchecked => Sending
    case Sending => Sent
    case Sent => Finishing
    case Finishing => Returned
    case _ => phase
  }

  predicate AtSnapshot(g: Registry, r: Run) {
    r.sid < |g.states| && r.message == g.states[r.sid].message && r.revBefore == g.states[r.sid].revision
  }

  /** A step of a live run that changes the run alone. */
  lemma Step(s: Machine, i: nat, reply: Option<string>) returns (t: Machine)
    requires Alive(s, i) && s.runs[i].phase !in {Prepared, Finishing, Returned}
    requires s.runs[i].phase !in {Started, Ensuring, AtTop} ==> AtSnapshot(s.g, s.runs[i])
    requires s.runs[i].phase in {Decided, Exited, Unchecked, Sending, Sent} ==> s.runs[i].outbound == reply
    requires s.runs[i].phase !in {Failing, Interrupted}
    ensures t == After1(s, i, reply) && Alive(t, i)
    ensures t.g == s.g && t.jobs == s.jobs && |t.runs| == |s.runs|
    ensures var r, q := s.runs[i], t.runs[i];
            && q.sid == r.sid && q.ctx == r.ctx && q.phase == Next(r.phase, reply.Some?)
            && (r.phase !in {Started, Ensuring} ==> AtSnapshot(t.g, q))
            && (r.phase in {Deciding, Decided, Exited, Unchecked, Sending, Sent} ==> q.outbound == reply)
  {
    t := Reach(s, RunStep(i, Success(reply)));
    AliveMeans(s, i);
    UndisturbedAdvance(s.g, s.runs[i], reply);
    hide Advance, Reachable, Inv, Registry.Valid, CauseOf;
    ReachedIsSound(t);
  }

  lemma UndisturbedAdvance(g: Registry, r: Run, reply: Option<string>)
    requires g.Valid() && RunExists(g, r) && Unreleased(r) && !g.states[r.sid].deleted
    requires !IsCancelled(g.contexts, r.ctx)
    requires r.phase !in {Prepared, Finishing, Returned, Failing, Interrupted}
    requires r.phase !in {Started, Ensuring, AtTop} ==> AtSnapshot(g, r)
    requires r.phase in {Decided, Exited, Unchecked, Sending, Sent} ==> r.outbound == reply
    ensures var q := Advance(g, r, Success(reply));
            && Unreleased(q) && q.sid == r.sid && q.ctx == r.ctx && q.phase == Next(r.phase, reply.Some?)
            && (r.phase !in {Started, Ensuring} ==> AtSnapshot(g, q))
            && (r.phase in {Deciding, Decided, Exited, Unchecked, Sending, Sent} ==> q.outbound == reply)
  {
    hide Registry.Valid, CauseOf;
  }

  lemma ReachedIsSound(s: Machine)
    requires Reachable(s)
    ensures Sound(s)
  {
    hide Inv;
    ReachableHasInv(s);
    InvIsSound(s);
  }

  lemma ReplyIsIssued(s: Machine, i: nat, reply: Option<string>) returns (t: Machine)
    requires Alive(s, i) && s.runs[i].phase == Prepared
    ensures t == After1(s, i, reply) && Alive(t, i)
    ensures |t.runs| == |s.runs| && t.jobs == s.jobs && |t.g.states| == |s.g.states| && s.runs[i].sid < |s.g.states|
    ensures t.runs[i] == s.runs[i].(phase := Deciding, attempt := |s.g.contexts|, decides := s.runs[i].decides + 1)
    ensures var a, b := s.g.states[s.runs[i].sid], t.g.states[s.runs[i].sid];
            b.message == a.message && b.revision == a.revision
  {
    t := Reach(s, RunStep(i, Success(reply)));
    AliveMeans(s, i);
    IssuedReply(s, i, Success(reply));
    AttemptSparesRoots(s, i);
    hide Advance, Reachable, Inv, Registry.Valid, CauseOf, Apply, Registry.Attempt;
    ReachedIsSound(t);
    LiveRunExactly(t, i);
  }

  /** What the critical section of `replyContext` does, seen from the run. */
  lemma IssuedReply(s: Machine, i: nat, outcome: Outcome)
    requires Sound(s) && i < |s.runs| && s.runs[i].phase == Prepared && !s.g.states[s.runs[i].sid].deleted
    ensures var r, t := s.runs[i], Apply(s, RunStep(i, outcome));
            && |t.runs| == |s.runs| && t.jobs == s.jobs && |t.g.states| == |s.g.states|
            && t.runs[i] == r.(phase := Deciding, attempt := |s.g.contexts|, decides := r.decides + 1)
            && t.g == s.g.Attempt(r.sid, Reply, r.ctx)
            && (var a, b := s.g.states[r.sid], t.g.states[r.sid];
                && b.message == a.message && b.revision == a.revision
                && b.deleted == a.deleted && b.runToken == a.runToken)
  {
    hide Advance, CancelAny, CauseOf;
  }

  lemma AttemptSparesRoots(s: Machine, i: nat)
    requires Reachable(s) && Sound(s) && i < |s.runs| && Unreleased(s.runs[i])
    requires Live(s.g.contexts, s.runs[i].root) && !s.g.states[s.runs[i].sid].deleted
    ensures Live(s.g.Attempt(s.runs[i].sid, Reply, s.runs[i].ctx).contexts, s.runs[i].root)
  {
    var events :| After(events) == s;
    AlwaysFree(events);
    AlwaysExact(events);
    var r := s.runs[i];
    assert RunExists(s.g, r) && Free(s.g, r) && Untouched(s.g, r.sid, Reply);
    var c := s.g.states[r.sid].replyCancel;
    CancelTouchesOne(s.g.contexts, c, MessageUpdated);
    hide After, Inv, Exact, AllFree, HandlesOk;
  }

  /** The machine after so many steps of one run, and the same outcome of any call outside. */
  ghost function Steps(s: Machine, i: nat, reply: Option<string>, n: nat): Machine {
    if n == 0 then s else After1(Steps(s, i, reply, n - 1), i, reply)
  }

  lemma FewSteps(s: Machine, i: nat, reply: Option<string>)
    ensures var t := After1(After1(After1(s, i, reply), i, reply), i, reply);
            && Steps(s, i, reply, 4) == After1(t, i, reply)
            && Steps(s, i, reply, 5) == After1(After1(t, i, reply), i, reply)
            && Steps(s, i, reply, 7) == After1(After1(After1(After1(t, i, reply), i, reply), i, reply), i, reply)
  {
    hide After1;
    assert Steps(s, i, reply, 1) == After1(s, i, reply);
    assert Steps(s, i, reply, 2) == After1(After1(s, i, reply), i, reply);
    assert Steps(s, i, reply, 4) == After1(After1(Steps(s, i, reply, 2), i, reply), i, reply);
    assert Steps(s, i, reply, 6) == After1(After1(Steps(s, i, reply, 4), i, reply), i, reply);
  }

  /** From its beginning to the computation of its reply. */
  lemma UndisturbedDecides(s: Machine, i: nat, reply: Option<string>) returns (t: Machine)
    requires Alive(s, i) && s.runs[i].phase == Started
    ensures Alive(t, i) && t == Steps(s, i, reply, 5)
    ensures t.runs[i].phase == Deciding && t.jobs == s.jobs && AtSnapshot(t.g, t.runs[i])
    ensures t.runs[i].sid == s.runs[i].sid < |s.g.states| && t.runs[i].ctx == s.runs[i].ctx
    ensures var a, b := s.g.states[s.runs[i].sid], t.g.states[s.runs[i].sid];
            a.message == b.message && a.revision == b.revision
  {
    hide Registry.Valid, Live, After1, Alive, Steps;
    FewSteps(s, i, reply);
    AliveMeans(s, i);
    t := Step(s, i, reply);
    t := Step(t, i, reply);
    t := Step(t, i, reply);
    t := Step(t, i, reply);
    t := ReplyIsIssued(t, i, reply);
  }

  /** From there to its end. */
  lemma UndisturbedEnds(s: Machine, i: nat, reply: Option<string>) returns (t: Machine)
    requires Alive(s, i) && s.runs[i].phase == Deciding && AtSnapshot(s.g, s.runs[i])
    ensures reply.Some? ==> i < |Steps(s, i, reply, 4).runs|
                            && Steps(s, i, reply, 4).runs[i].phase == Sending
                            && Steps(s, i, reply, 4).runs[i].outbound == reply
    ensures t == Steps(s, i, reply, if reply.Some? then 7 else 4)
    ensures i < |t.runs| && t.runs[i].phase == Returned
    ensures var r := s.runs[i];
            && r.sid < |s.g.states|
            && t.jobs == s.jobs + [Job(r.sid, r.ctx, 0, 0, s.g.states[r.sid].message, reply, JobQueued,
                                       s.g.states[r.sid].revision, 0)]
  {
    hide Registry.Valid, Live, After1, Alive, Steps;
    FewSteps(s, i, reply);
    AliveMeans(s, i);
    t := Step(s, i, reply);
    t := Step(t, i, reply);
    t := Step(t, i, reply);
    if reply.Some? {
      t := ReplyIsSent(t, i, reply);
    }
    t := JobIsLeft(t, i, reply);
  }

  lemma ReplyIsSent(s: Machine, i: nat, reply: Option<string>) returns (t: Machine)
    requires Alive(s, i) && s.runs[i].phase == Unchecked && AtSnapshot(s.g, s.runs[i])
    requires reply.Some? && s.runs[i].outbound == reply
    ensures i < |After1(s, i, reply).runs| && After1(s, i, reply).runs[i].phase == Sending
    ensures After1(s, i, reply).runs[i].outbound == reply
    ensures t == After1(After1(After1(s, i, reply), i, reply), i, reply) && Alive(t, i)
    ensures t.g == s.g && t.jobs == s.jobs && t.runs[i].sid == s.runs[i].sid && t.runs[i].ctx == s.runs[i].ctx
    ensures t.runs[i].phase == Finishing && AtSnapshot(t.g, t.runs[i]) && t.runs[i].outbound == reply
  {
    hide Registry.Valid, Live, After1, Alive;
    AliveMeans(s, i);
    t := Step(s, i, reply);
    AliveMeans(t, i);
    t := Step(t, i, reply);
    AliveMeans(t, i);
    t := Step(t, i, reply);
    AliveMeans(t, i);
  }

  lemma JobIsLeft(s: Machine, i: nat, reply: Option<string>) returns (t: Machine)
    requires Alive(s, i) && s.runs[i].phase == Finishing && AtSnapshot(s.g, s.runs[i]) && s.runs[i].outbound == reply
    ensures t == After1(s, i, reply)
    ensures i < |t.runs| && t.runs[i].phase == Returned
    ensures var r := s.runs[i];
            && r.sid < |s.g.states|
            && t.jobs == s.jobs + [Job(r.sid, r.ctx, 0, 0, s.g.states[r.sid].message, reply, JobQueued,
                                       s.g.states[r.sid].revision, 0)]
  {
    t := Reach(s, RunStep(i, Success(reply)));
    hide Advance;
  }

  lemma {:induction false} StepsAdd(s: Machine, i: nat, reply: Option<string>, m: nat, n: nat)
    ensures Steps(Steps(s, i, reply, m), i, reply, n) == Steps(s, i, reply, m + n)
    decreases n
  {
    hide After1;
    if n > 0 {
      StepsAdd(s, i, reply, m, n - 1);
    }
  }

  /** A live run that has begun, with which nothing interferes and for which every call outside succeeds, sends
      the reply it computes, if it computes one, and in either case leaves a job for the message it
      found, with that reply, and returns. */
  lemma UndisturbedRun(s: Machine, i: nat, reply: Option<string>)
    requires Alive(s, i) && s.runs[i].phase == Started
    ensures var sending := Steps(s, i, reply, 9);
            reply.Some? ==> i < |sending.runs| && sending.runs[i].phase == Sending && sending.runs[i].outbound == reply
    ensures var t := Steps(s, i, reply, if reply.Some? then 12 else 9);
            var r := s.runs[i];
            && i < |t.runs| && t.runs[i].phase == Returned && r.sid < |s.g.states|
            && t.jobs == s.jobs + [Job(r.sid, r.ctx, 0, 0, s.g.states[r.sid].message, reply, JobQueued,
                                       s.g.states[r.sid].revision, 0)]
  {
    hide Alive, Steps, AtSnapshot, Registry.Valid, Live, Unreleased;
    AliveMeans(s, i);
    var t := UndisturbedDecides(s, i, reply);
    AliveMeans(t, i);
    var u := UndisturbedEnds(t, i, reply);
    StepsAdd(s, i, reply, 5, 4);
    StepsAdd(s, i, reply, 5, 7);
  }
}
