/** Histories that show where the guarantees of the message-processing protocol end. */
module ProtocolLimits {
  import opened Wrappers
  import opened Contexts
  import opened Processor
  import opened Protocol

  // ---------- Single steps ----------

  lemma CallerAppears(s: Machine) returns (t: Machine)
    requires Reachable(s)
    ensures Reachable(t) && t == s.(g := s.g.(contexts := s.g.contexts + [Context(None, None)]))
  {
    t := Reach(s, NewCaller);
  }

  lemma Expires(s: Machine, root: nat, cause: Cause) returns (t: Machine)
    requires Reachable(s) && WellFormed(s.g.contexts) && root < |s.g.contexts| && s.g.contexts[root].parent.None?
    requires cause == Canceled || cause == DeadlineExceeded
    ensures Reachable(t) && t == s.(g := s.g.(contexts := Cancel(s.g.contexts, root, cause)))
  {
    t := Reach(s, Expire(root, cause));
  }

  lemma MessageArrives(s: Machine, message: Message, root: nat) returns (t: Machine)
    requires Reachable(s) && root < |s.g.contexts| && s.g.contexts[root].parent.None?
    ensures Reachable(t)
    ensures var (h, sid) := s.g.LoadOrStore(message.key);
            t == s.(g := h, runs := s.runs + [NewRun(message, sid, root)])
  {
    t := Reach(s, Arrive(message, root));
  }

  lemma RunBegins(s: Machine, i: nat) returns (t: Machine)
    requires Reachable(s) && i < |s.runs| && s.runs[i].phase == Loaded
    ensures Reachable(t) && s.g.Valid() && RunExists(s.g, s.runs[i])
    ensures var r := s.runs[i];
            var h := s.g.Begin(r.sid, r.message, r.root);
            t == s.(g := h, runs := s.runs[i := r.(token := h.states[r.sid].runToken, ctx := |s.g.contexts|,
                                                   phase := Started, startRevision := h.states[r.sid].revision)])
  {
    t := Reach(s, Event.Begin(i));
  }

  /** A step of a run that changes the run alone. */
  lemma RunMoves(s: Machine, i: nat, outcome: Outcome) returns (t: Machine)
    requires Reachable(s) && i < |s.runs| && Unreleased(s.runs[i])
    requires s.runs[i].phase != Prepared && s.runs[i].phase != Finishing
    ensures Reachable(t) && s.g.Valid() && RunExists(s.g, s.runs[i])
    ensures t == s.(runs := s.runs[i := Advance(s.g, s.runs[i], outcome)])
  {
    hide Advance;
    t := Reach(s, RunStep(i, outcome));
  }

  lemma RunIssuesReply(s: Machine, i: nat) returns (t: Machine)
    requires Reachable(s) && i < |s.runs| && s.runs[i].phase == Prepared
    ensures Reachable(t) && s.g.Valid() && RunExists(s.g, s.runs[i])
    ensures var r := s.runs[i];
            var h := s.g.Attempt(r.sid, Reply, r.ctx);
            t == s.(g := h, issues := s.issues + [Issue(r.sid, Reply, |h.contexts| - 1, s.g.states[r.sid].revision)],
                    runs := s.runs[i := r.(attempt := |h.contexts| - 1, phase := Deciding, decides := r.decides + 1)])
  {
    hide Apply, StepRun, Registry.Attempt;
    t := Reach(s, RunStep(i, Failure));
    ReachableIsSound(s);
    RunStepApplies(s, i, Failure);
    PreparedStep(s, i, Failure);
  }

  lemma RunStepApplies(s: Machine, i: nat, outcome: Outcome)
    requires Sound(s) && i < |s.runs| && Unreleased(s.runs[i])
    ensures Apply(s, RunStep(i, outcome)) == StepRun(s, i, outcome)
  {
    hide StepRun;
  }

  /** From its beginning a run gets to the point before its reply context when nothing is in its way. */
  lemma RunPrepares(s: Machine, i: nat) returns (t: Machine)
    requires Reachable(s) && i < |s.runs| && s.runs[i].phase == Started
    requires s.runs[i].sid < |s.g.states| && !s.g.states[s.runs[i].sid].deleted
    ensures Reachable(t)
    ensures var r, st := s.runs[i], s.g.states[s.runs[i].sid];
            t == s.(runs := s.runs[i := r.(message := st.message, revBefore := st.revision, phase := Prepared,
                                           topToken := st.runToken, basis := st.message)])
  {
    hide Reachable, Registry.Valid;
    t := RunMoves(s, i, Success(None));
    t := RunMoves(t, i, Success(None));
    t := RunMoves(t, i, Success(None));
    t := RunMoves(t, i, Success(None));
  }

  // ---------- Histories ----------

  const FIRST := Message("k", "first")
  const SECOND := Message("k", "second")
  const ROOT := Context(None, None)

  const BEGUN_STATE := MessageState(FIRST, 0, false, 1, Some(1), None, None)
  const BEGUN_RUN := NewRun(FIRST, 0, 0).(token := 1, ctx := 1, phase := Started)

  lemma InitialIsReachable()
    ensures Reachable(INITIAL)
  {
    assert After([]) == INITIAL;
  }

  /** One run that has begun. */
  lemma OneBegun() returns (s: Machine)
    ensures Reachable(s)
    ensures s == Machine(Registry(map["k" := 0], [BEGUN_STATE], [ROOT, Context(Some(0), None)]),
                         [BEGUN_RUN], [], [], [])
  {
    hide Reachable, Registry.Valid, RunExists;
    InitialIsReachable();
    s := CallerAppears(INITIAL);
    s := MessageArrives(s, FIRST, 0);
    s := RunBegins(s, 0);
  }

  /** The same run while its reply is computed. */
  const DECIDING_RUN := BEGUN_RUN.(phase := Deciding, topToken := 1, attempt := 2, decides := 1)
  const DECIDING_CONTEXTS := [ROOT, Context(Some(0), None), Context(Some(1), None)]

  lemma OneDeciding() returns (s: Machine)
    ensures Reachable(s)
    ensures s == Machine(Registry(map["k" := 0], [BEGUN_STATE.(replyCancel := Some(2))], DECIDING_CONTEXTS),
                         [DECIDING_RUN], [], [], [Issue(0, Reply, 2, 0)])
  {
    hide Reachable, Registry.Valid, RunExists;
    s := OneBegun();
    s := RunPrepares(s, 0);
    s := RunIssuesReply(s, 0);
  }

  /** A run whose caller's deadline has passed goes on to send, although a duplicate start has
      replaced its message meanwhile: the cancellation comes second and leaves no trace. */
  lemma DeadlineHidesDuplicate() returns (s: Machine)
    ensures Reachable(s) && |s.runs| == 2 && s.runs[0].phase == Sending
    ensures s.runs[0].passed == Some(DeadlineExceeded) && s.runs[0].basis == FIRST && s.runs[0].exitMessage == SECOND
  {
    hide Reachable, Registry.Valid, RunExists;
    s := OneDeciding();
    s := Expires(s, 0, DeadlineExceeded);
    s := MessageArrives(s, SECOND, 0);
    s := SecondRunBegins(s);
    s := RunMoves(s, 0, Success(Some("reply")));
    s := RunMoves(s, 0, Failure);
    s := RunMoves(s, 0, Failure);
    assert s.g.contexts[1].parent == Some(0) && CauseOf(s.g.contexts, 0) == Some(DeadlineExceeded);
    s := RunMoves(s, 0, Failure);
  }

  lemma SecondRunBegins(s: Machine) returns (t: Machine)
    requires Reachable(s) && s.g.byKey == map["k" := 0]
    requires s.g.states == [BEGUN_STATE.(replyCancel := Some(2))]
    requires s.g.contexts == [ROOT.(own := Some(DeadlineExceeded)), Context(Some(0), None), Context(Some(1), None)]
    requires s.runs == [DECIDING_RUN, NewRun(SECOND, 0, 0)]
    ensures Reachable(t) && |t.runs| == 2 && t.runs[0] == DECIDING_RUN
    ensures t.g.states == [MessageState(SECOND, 0, false, 2, Some(3), None, None)]
    ensures t.g.contexts == s.g.contexts + [Context(Some(0), None)]
  {
    hide Reachable, Registry.Valid, RunExists;
    t := RunBegins(s, 1);
    var cs := s.g.contexts;
    assert CauseOf(cs, 0).Some? && CauseOf(cs, 1).Some? && CauseOf(cs, 2).Some?;
  }

  lemma RunReleases(s: Machine, i: nat) returns (t: Machine)
    requires Reachable(s) && i < |s.runs| && s.runs[i].phase == Returned
    ensures Reachable(t) && s.g.Valid() && RunExists(s.g, s.runs[i])
    ensures var r := s.runs[i];
            t == s.(g := s.g.Release(r.sid, r.token),
                    runs := s.runs[i := if s.g.states[r.sid].runToken == r.token
                                        then r.(phase := Unregistering, releasedAt := Some(|s.g.contexts|))
                                        else r.(phase := Done)])
  {
    t := Reach(s, Event.Release(i));
  }

  lemma RunUnregisters(s: Machine, i: nat) returns (t: Machine)
    requires Reachable(s) && i < |s.runs| && s.runs[i].phase == Unregistering
    ensures Reachable(t)
    ensures t == s.(g := s.g.Unregister(s.runs[i].key, s.runs[i].sid),
                    runs := s.runs[i := s.runs[i].(phase := Done, unregistered := true)])
  {
    t := Reach(s, Event.Unregister(i));
  }

  /** A stale run's late reply context cancels that of the run that replaced it. The newer run then
      returns without a reply, although it is live and holds the token, its message is not deleted,
      and no edit or deletion ever arrived. */
  lemma StaleRunSilencesReply() returns (s: Machine)
    ensures Reachable(s) && Sound(s) && s.handlers == [] && |s.runs| == 2
    ensures s.runs[1].phase == Returned && s.runs[1].outbound.None? && s.runs[1].decides == 1
    ensures Live(s.g.contexts, s.runs[1].ctx) && s.runs[1].token == s.g.states[s.runs[1].sid].runToken
    ensures !s.g.states[s.runs[1].sid].deleted && s.g.states[s.runs[1].sid].revision == 0
  {
    hide Reachable, Registry.Valid, RunExists, Sound;
    s := TwoReplying();
    s := RunMoves(s, 1, Failure);
    s := RunMoves(s, 1, Failure);
    s := RunMoves(s, 1, Failure);
    ReachableIsSound(s);
    assert CauseOf(s.g.contexts, 0).None? && CauseOf(s.g.contexts, 2).None?;
  }

  const REPLYING_RUN :=
    NewRun(FIRST, 0, 0).(token := 2, ctx := 2, phase := Deciding, topToken := 2, attempt := 3, decides := 1)
  const REPLYING_CONTEXTS :=
    [ROOT, Context(Some(0), Some(MessageUpdated)), Context(Some(0), None), Context(Some(2), None)]

  /** A first run about to issue its reply context, and a second one that has issued its own. */
  lemma SecondReplying() returns (s: Machine)
    ensures Reachable(s) && s.handlers == [] && |s.runs| == 2
    ensures s.runs[0] == BEGUN_RUN.(phase := Prepared, topToken := 1) && s.runs[1] == REPLYING_RUN
    ensures s.g.states == [MessageState(FIRST, 0, false, 2, Some(2), None, Some(3))]
    ensures s.g.contexts == REPLYING_CONTEXTS
  {
    hide Reachable, Registry.Valid, RunExists, Sound;
    s := OneBegun();
    s := RunPrepares(s, 0);
    s := MessageArrives(s, FIRST, 0);
    assert CauseOf(s.g.contexts, 0).None? && CauseOf(s.g.contexts, 1).None?;
    s := RunBegins(s, 1);
    assert s.g.contexts == REPLYING_CONTEXTS[..3];
    s := RunPrepares(s, 1);
    s := RunIssuesReply(s, 1);
  }

  lemma TwoReplying() returns (s: Machine)
    ensures Reachable(s) && s.handlers == [] && |s.runs| == 2 && s.runs[1] == REPLYING_RUN
    ensures s.g.states == [MessageState(FIRST, 0, false, 2, Some(2), None, Some(4))]
    ensures s.g.contexts == REPLYING_CONTEXTS[3 := Context(Some(2), Some(MessageUpdated))] + [Context(Some(1), None)]
  {
    hide Reachable, Registry.Valid, RunExists, Sound;
    s := SecondReplying();
    var cs := REPLYING_CONTEXTS;
    assert CauseOf(cs, 0).None? && CauseOf(cs, 2).None? && CauseOf(cs, 3).None?;
    s := RunIssuesReply(s, 0);
  }

  lemma ReachableIsSound(s: Machine)
    requires Reachable(s)
    ensures Sound(s) && s.g.Valid()
  {
    ReachableHasInv(s);
  }

  /** A run that begins between another's release and the removal of its state from the map runs on
      outside the map: edits and deletions of its message no longer reach it. */
  lemma OrphanedRunMissesDelete() returns (s: Machine)
    ensures Reachable(s) && Sound(s) && |s.runs| == 2 && s.handlers == []
    ensures Unreleased(s.runs[1]) && Live(s.g.contexts, s.runs[1].ctx)
    ensures Apply(s, DeleteArrives("k")) == s && Apply(s, EditArrives(SECOND)) == s
  {
    hide Reachable, Registry.Valid, RunExists, Sound, Apply;
    s := OneBegun();
    s := RunMoves(s, 0, Success(None));
    s := RunMoves(s, 0, Failure);
    s := RunReleases(s, 0);
    s := MessageArrives(s, SECOND, 0);
    s := RunBegins(s, 1);
    assert s.g.contexts == [ROOT, Context(Some(0), None), Context(Some(0), None)];
    s := RunUnregisters(s, 0);
    ReachableIsSound(s);
    assert CauseOf(s.g.contexts, 0).None?;
    NothingArrives(s, "k", SECOND);
  }

  lemma NothingArrives(s: Machine, key: Key, message: Message)
    requires Sound(s) && key !in s.g.byKey && message.key == key
    ensures Apply(s, DeleteArrives(key)) == s && Apply(s, EditArrives(message)) == s
  {}

  // ---------- A run's release and its own background job ----------

  lemma RunLeavesJob(s: Machine, i: nat) returns (t: Machine)
    requires Reachable(s) && i < |s.runs| && s.runs[i].phase == Finishing
    ensures Reachable(t) && s.g.Valid() && RunExists(s.g, s.runs[i])
    ensures var r := s.runs[i];
            t == s.(jobs := s.jobs + [Job(r.sid, r.ctx, 0, 0, r.message, r.outbound, JobQueued,
                                          s.g.states[r.sid].revision, 0)],
                    runs := s.runs[i := r.(phase := Returned)])
  {
    hide Advance;
    t := Reach(s, RunStep(i, Failure));
  }

  lemma JobMoves(s: Machine, i: nat, outcome: Outcome) returns (t: Machine)
    requires Reachable(s) && i < |s.jobs| && s.jobs[i].phase != JobReady
    ensures Reachable(t) && s.g.Valid() && JobExists(s.g, s.jobs[i])
    ensures t == s.(jobs := s.jobs[i := AdvanceJob(s.g, s.jobs[i], outcome)])
  {
    hide AdvanceJob;
    t := Reach(s, JobStep(i, outcome));
  }

  lemma JobIssuesMemory(s: Machine, i: nat) returns (t: Machine)
    requires Reachable(s) && i < |s.jobs| && s.jobs[i].phase == JobReady
    ensures Reachable(t) && s.g.Valid() && JobExists(s.g, s.jobs[i])
    ensures var j := s.jobs[i];
            var h := s.g.Attempt(j.sid, Memory, j.ctx);
            t == s.(g := h, issues := s.issues + [Issue(j.sid, Memory, |h.contexts| - 1, s.g.states[j.sid].revision)],
                    jobs := s.jobs[i := j.(attempt := |h.contexts| - 1, phase := JobWorking, updates := j.updates + 1)])
  {
    hide Apply, StepJob, Registry.Attempt;
    t := Reach(s, JobStep(i, Failure));
    ReachableIsSound(s);
    JobStepApplies(s, i, Failure);
    JobReadyStep(s, i, Failure);
  }

  lemma JobStepApplies(s: Machine, i: nat, outcome: Outcome)
    requires Sound(s) && i < |s.jobs|
    ensures Apply(s, JobStep(i, outcome)) == StepJob(s, i, outcome)
  {
    hide StepJob;
  }

  lemma JobReadyStep(s: Machine, i: nat, outcome: Outcome)
    requires s.g.Valid() && i < |s.jobs| && JobExists(s.g, s.jobs[i]) && s.jobs[i].phase == JobReady
    ensures var j := s.jobs[i];
            var h := s.g.Attempt(j.sid, Memory, j.ctx);
            StepJob(s, i, outcome)
            == s.(g := h, issues := s.issues + [Issue(j.sid, Memory, |h.contexts| - 1, s.g.states[j.sid].revision)],
                  jobs := s.jobs[i := j.(attempt := |h.contexts| - 1, phase := JobWorking, updates := j.updates + 1)])
  {
    hide Registry.Attempt, AdvanceJob;
  }

  /** A run that has decided not to reply, and left its job behind. */
  lemma OneJobLeft() returns (s: Machine)
    ensures Reachable(s) && s.handlers == [] && |s.runs| == 1 && s.runs[0].phase == Returned
    ensures s.runs[0].sid == 0 && s.runs[0].token == 1
    ensures s.g.states == [BEGUN_STATE.(replyCancel := Some(2))] && s.g.contexts == DECIDING_CONTEXTS
    ensures s.jobs == [Job(0, 1, 0, 0, FIRST, None, JobQueued, 0, 0)]
  {
    hide Reachable, Registry.Valid, RunExists;
    s := OneDeciding();
    s := RunMoves(s, 0, Success(None));
    s := RunMoves(s, 0, Failure);
    s := RunMoves(s, 0, Failure);
    s := RunLeavesJob(s, 0);
  }

  lemma OneJobWorking() returns (s: Machine)
    ensures Reachable(s) && s.handlers == [] && |s.runs| == 1 && s.runs[0].phase == Returned
    ensures s.runs[0].sid == 0 && s.runs[0].token == 1
    ensures s.g.states == [BEGUN_STATE.(replyCancel := Some(2), memoryCancel := Some(3))]
    ensures s.g.contexts == DECIDING_CONTEXTS + [Context(Some(1), None)]
    ensures s.jobs == [Job(0, 1, 0, 3, FIRST, None, JobWorking, 0, 1)]
  {
    hide Reachable, Registry.Valid, RunExists, JobExists;
    s := OneJobLeft();
    s := JobMoves(s, 0, Failure);
    s := JobMoves(s, 0, Failure);
    s := JobIssuesMemory(s, 0);
  }

  /** A run's own release interrupts the memory update that the run left behind, and the update gives up:
      with one run, and no edit, deletion or duplicate start. */
  lemma OwnReleaseStopsMemory() returns (s: Machine)
    ensures Reachable(s) && Sound(s) && s.handlers == [] && |s.runs| == 1 && |s.jobs| == 1
    ensures s.jobs[0].attempt < |s.g.contexts| && CauseOf(s.g.contexts, s.jobs[0].attempt) == Some(MessageUpdated)
    ensures s.jobs[0].phase == JobDone && s.jobs[0].updates == 1 && Live(s.g.contexts, s.jobs[0].ctx)
    ensures !s.g.states[s.jobs[0].sid].deleted && s.g.states[s.jobs[0].sid].revision == s.jobs[0].startRevision
  {
    hide Reachable, Registry.Valid, RunExists, JobExists, Sound;
    s := OneJobWorking();
    InterruptedContexts(s.g.contexts);
    s := RunReleases(s, 0);
    var cs := s.g.contexts;
    assert cs == ReleasedContexts();
    s := JobMoves(s, 0, Failure);
    s := JobMoves(s, 0, Failure);
    s := JobMoves(s, 0, Failure);
    ReachableIsSound(s);
  }

  function ReleasedContexts(): seq<Context> {
    [ROOT, Context(Some(0), None), Context(Some(1), Some(MessageUpdated)), Context(Some(1), Some(MessageUpdated))]
  }

  lemma InterruptedContexts(cs: seq<Context>)
    requires cs == DECIDING_CONTEXTS + [Context(Some(1), None)]
    ensures WellFormed(cs)
    ensures CancelAny(CancelAny(cs, Some(3), MessageUpdated), Some(2), MessageUpdated) == ReleasedContexts()
    ensures WellFormed(ReleasedContexts()) && CauseOf(ReleasedContexts(), 3) == Some(MessageUpdated)
    ensures Live(ReleasedContexts(), 1)
  {
    assert CauseOf(cs, 0).None? && CauseOf(cs, 1).None? && CauseOf(cs, 2).None? && CauseOf(cs, 3).None?;
    var ds := Cancel(cs, 3, MessageUpdated);
    assert CauseOf(ds, 0).None? && CauseOf(ds, 1).None? && CauseOf(ds, 2).None?;
    var es := ReleasedContexts();
    assert CauseOf(es, 0).None? && CauseOf(es, 1).None?;
  }
}
