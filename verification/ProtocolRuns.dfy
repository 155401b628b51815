/** When a run's context is alive: who can cancel it, and who cannot. */
module ProtocolRuns {
  import opened Wrappers
  import opened Contexts
  import opened Processor
  import opened Protocol
  import opened ProtocolAttempts

  // ---------- The invariant ----------

  /** No context is registered as the run of two states. */
  ghost predicate RunsApart(g: Registry) {
    forall i, j :: 0 <= i < j < |g.states| && g.states[i].runCancel.Some? ==>
      g.states[i].runCancel != g.states[j].runCancel
  }

  /** A run's context hangs on its caller's. While the run holds the token, only a deletion has cancelled it. */
  ghost predicate Free(g: Registry, r: Run)
    requires g.Valid() && RunExists(g, r)
  {
    && g.contexts[r.root].parent.None?
    && (Begun(r) ==>
          && g.contexts[r.ctx].parent == Some(r.root)
          && (Unreleased(r) && r.token == g.states[r.sid].runToken ==>
                && (g.contexts[r.ctx].own.Some? ==> g.states[r.sid].deleted)
                && (g.states[r.sid].deleted ==> !Live(g.contexts, r.ctx))))
  }

  ghost predicate AllFree(s: Machine) {
    && s.g.Valid() && RunsApart(s.g)
    && forall i :: 0 <= i < |s.runs| ==> RunExists(s.g, s.runs[i]) && Free(s.g, s.runs[i])
  }

  // ---------- What keeps a run free ----------

  lemma FreeKept(g: Registry, h: Registry, r: Run)
    requires g.Valid() && RunExists(g, r) && Free(g, r)
    requires h.Valid() && |g.states| <= |h.states| && Extends(g.contexts, h.contexts)
    requires ParentsKept(g.contexts, h.contexts)
    requires Unreleased(r) && r.token == h.states[r.sid].runToken ==>
               && r.token == g.states[r.sid].runToken
               && h.contexts[r.ctx].own == g.contexts[r.ctx].own
               && h.states[r.sid].deleted == g.states[r.sid].deleted
    ensures RunExists(h, r) && Free(h, r)
  {
    hide Registry.Valid;
  }

  /** An operation on one state, seen from a run that holds its token. */
  lemma OneStateChanges(g: Registry, h: Registry, sid: nat, r: Run)
    requires g.Valid() && h.Valid() && HandlesOk(g) && RunsApart(g) && RunOk(g, r)
    requires sid < |g.states| && |h.states| == |g.states| && |g.contexts| <= |h.contexts|
    requires forall i :: 0 <= i < |g.states| && i != sid ==> h.states[i] == g.states[i]
    requires forall x :: 0 <= x < |g.contexts| && h.contexts[x].own != g.contexts[x].own ==>
               Some(x) in {g.states[sid].runCancel, g.states[sid].memoryCancel, g.states[sid].replyCancel}
    ensures Unreleased(r) && r.token == g.states[r.sid].runToken && r.sid != sid ==>
              h.contexts[r.ctx].own == g.contexts[r.ctx].own
  {
    hide Registry.Valid, SnapshotOk, ExitOk, DecidesOk, Live;
    if Unreleased(r) && r.token == g.states[r.sid].runToken && r.sid != sid {
      assert g.states[r.sid].runCancel == Some(r.ctx);
      assert Apart(g, sid, Memory) && Apart(g, sid, Reply);
    }
  }

  /** An operation that calls no run handle, seen from a run of the same state that holds its token. */
  lemma AttemptsChange(g: Registry, h: Registry, sid: nat, r: Run)
    requires g.Valid() && HandlesOk(g) && RunOk(g, r) && sid < |g.states| && |g.contexts| <= |h.contexts|
    requires forall x :: 0 <= x < |g.contexts| && h.contexts[x].own != g.contexts[x].own ==>
               Some(x) in {g.states[sid].memoryCancel, g.states[sid].replyCancel}
    ensures Unreleased(r) && r.token == g.states[r.sid].runToken ==>
              h.contexts[r.ctx].own == g.contexts[r.ctx].own
  {
    hide Registry.Valid, SnapshotOk, ExitOk, DecidesOk, Live;
    if Unreleased(r) && r.token == g.states[r.sid].runToken {
      assert g.states[r.sid].runCancel == Some(r.ctx);
      assert Apart(g, sid, Memory) && Apart(g, sid, Reply);
    }
  }

  // ---------- Every operation ----------

  lemma BeginKeepsFree(g: Registry, sid: nat, message: Message, parent: nat, r: Run)
    requires g.Valid() && HandlesOk(g) && RunsApart(g) && RunOk(g, r) && Free(g, r)
    requires sid < |g.states| && parent < |g.contexts|
    ensures var h := g.Begin(sid, message, parent);
            h.Valid() && RunsApart(h) && RunExists(h, r) && Free(h, r)
  {
    var h, st := g.Begin(sid, message, parent), g.states[sid];
    var cs0 := CancelAny(g.contexts, st.runCancel, MessageUpdated);
    var cs1 := CancelAny(cs0, st.memoryCancel, MessageUpdated);
    CancelTouchesOne(g.contexts, st.runCancel, MessageUpdated);
    CancelTouchesOne(cs0, st.memoryCancel, MessageUpdated);
    CancelTouchesOne(cs1, st.replyCancel, MessageUpdated);
    BeginKeepsParents(g, sid, message, parent);
    BeginEvolves(g, sid, message, parent);
    BeginIsApart(g, sid, message, parent);
    hide CancelAny, HandlesOk, RunsApart, Free, SnapshotOk, ExitOk, DecidesOk, Live;
    OneStateChanges(g, h, sid, r);
    assert Unreleased(r) ==> r.token <= g.states[r.sid].runToken;
    FreeKept(g, h, r);
  }

  lemma BeginIsApart(g: Registry, sid: nat, message: Message, parent: nat)
    requires g.Valid() && RunsApart(g) && sid < |g.states| && parent < |g.contexts|
    ensures g.Begin(sid, message, parent).Valid() && RunsApart(g.Begin(sid, message, parent))
  {
    hide CancelAny;
    var h := g.Begin(sid, message, parent);
    assert h.states[sid].runCancel == Some(|g.contexts|);
    forall i | 0 <= i < |g.states|
      ensures g.HandlesExist(g.states[i])
    {}
  }

  /** An operation that forgets or keeps the run handle and calls only attempt handles. */
  lemma QuietKeepsFree(g: Registry, h: Registry, sid: nat, r: Run)
    requires g.Valid() && h.Valid() && HandlesOk(g) && RunsApart(g) && RunOk(g, r) && Free(g, r)
    requires sid < |g.states| && |h.states| == |g.states| && HandlesEvolve(g, h) && ParentsKept(g.contexts, h.contexts)
    requires forall i :: 0 <= i < |g.states| && i != sid ==> h.states[i] == g.states[i]
    requires h.states[sid].runToken == g.states[sid].runToken && h.states[sid].deleted == g.states[sid].deleted
    requires forall x :: 0 <= x < |g.contexts| && h.contexts[x].own != g.contexts[x].own ==>
               Some(x) in {g.states[sid].memoryCancel, g.states[sid].replyCancel}
    requires h.states[sid].runCancel == g.states[sid].runCancel || h.states[sid].runCancel.None?
    ensures RunsApart(h) && RunExists(h, r) && Free(h, r)
  {
    AttemptsChange(g, h, sid, r);
    assert HandlesEvolve(g, h) ==> Extends(g.contexts, h.contexts);
    hide HandlesOk, Free, TokenOk, SnapshotOk, ExitOk, DecidesOk, Registry.Valid, HandlesEvolve, Extends;
    FreeKept(g, h, r);
  }

  lemma ReleaseKeepsFree(g: Registry, sid: nat, token: nat, r: Run)
    requires g.Valid() && HandlesOk(g) && RunsApart(g) && RunOk(g, r) && Free(g, r) && sid < |g.states|
    ensures var h := g.Release(sid, token);
            h.Valid() && RunsApart(h) && RunExists(h, r) && Free(h, r)
  {
    var h := g.Release(sid, token);
    ReleaseEvolves(g, sid, token);
    InterruptedTouches(g, sid, MessageUpdated);
    OperationsKeepParents(g, sid, MessageUpdated);
    hide HandlesOk, RunsApart, Free, RunOk, Registry.Interrupted, Registry.Valid, HandlesEvolve;
    assert h.Valid() by { ReleaseGrows(g, sid, token); }
    QuietKeepsFree(g, h, sid, r);
  }

  lemma UpdateKeepsFree(g: Registry, sid: nat, message: Message, r: Run)
    requires g.Valid() && HandlesOk(g) && RunsApart(g) && RunOk(g, r) && Free(g, r) && sid < |g.states|
    ensures var h := g.Update(sid, message);
            h.Valid() && RunsApart(h) && RunExists(h, r) && Free(h, r)
  {
    var h := g.Update(sid, message);
    UpdateEvolves(g, sid, message);
    InterruptedTouches(g, sid, MessageUpdated);
    OperationsKeepParents(g, sid, MessageUpdated);
    assert h.Valid() && HandlesEvolve(g, h);
    hide HandlesOk, RunsApart, Free, RunOk, Registry.Interrupted, Registry.Valid, HandlesEvolve;
    QuietKeepsFree(g, h, sid, r);
  }

  lemma AttemptKeepsFree(g: Registry, sid: nat, kind: Kind, parent: nat, r: Run)
    requires g.Valid() && HandlesOk(g) && RunsApart(g) && RunOk(g, r) && Free(g, r)
    requires sid < |g.states| && parent < |g.contexts|
    ensures var h := g.Attempt(sid, kind, parent);
            h.Valid() && RunsApart(h) && RunExists(h, r) && Free(h, r)
  {
    var h := g.Attempt(sid, kind, parent);
    AttemptEvolves(g, sid, kind, parent);
    AttemptKeepsParents(g, sid, kind, parent);
    CancelTouchesOne(g.contexts, CancelOf(g.states[sid], kind), MessageUpdated);
    assert h.Valid() && HandlesEvolve(g, h);
    hide HandlesOk, RunsApart, Free, RunOk, Registry.Valid, HandlesEvolve, CancelAny, CauseOf;
    QuietKeepsFree(g, h, sid, r);
  }

  lemma DeleteKeepsFree(g: Registry, sid: nat, r: Run)
    requires g.Valid() && HandlesOk(g) && RunsApart(g) && RunOk(g, r) && Free(g, r) && sid < |g.states|
    ensures var h := g.Delete(sid);
            h.Valid() && RunsApart(h) && RunExists(h, r) && Free(h, r)
  {
    var h := g.Delete(sid);
    var cs := g.Interrupted(sid, MessageDeleted);
    DeleteEvolves(g, sid);
    InterruptedTouches(g, sid, MessageDeleted);
    OperationsKeepParents(g, sid, MessageDeleted);
    CancelTouchesOne(cs, g.states[sid].runCancel, MessageDeleted);
    CancelAnyExtends(cs, g.states[sid].runCancel, MessageDeleted);
    assert h.Valid() && Extends(g.contexts, h.contexts);
    OneStateChanges(g, h, sid, r);
    hide HandlesOk, Registry.Interrupted, Registry.Valid, CancelAny, SnapshotOk, ExitOk, DecidesOk, Extends;
    if r.sid == sid && Unreleased(r) && r.token == g.states[sid].runToken {
      assert RunExists(h, r) && Free(h, r);
    } else {
      hide Free;
      FreeKept(g, h, r);
    }
  }

  // ---------- Every step ----------

  /** A step that changes one run, after the registry, in nothing that matters here. */
  lemma RunChanges(s: Machine, i: nat, q: Run)
    requires AllFree(s) && i < |s.runs| && RunExists(s.g, q)
    requires q.sid == s.runs[i].sid && q.root == s.runs[i].root && Begun(s.runs[i])
    requires q.ctx == s.runs[i].ctx && q.token == s.runs[i].token && (Unreleased(q) ==> Unreleased(s.runs[i]))
    ensures AllFree(s.(runs := s.runs[i := q]))
  {
    hide Registry.Valid, RunsApart, Live;
  }

  lemma RegistryChanges(s: Machine, h: Registry)
    requires AllFree(s) && h.Valid() && RunsApart(h)
    requires forall i :: 0 <= i < |s.runs| ==> RunExists(h, s.runs[i]) && Free(h, s.runs[i])
    ensures AllFree(s.(g := h))
  {}

  lemma BeginStepFree(s: Machine, i: nat)
    requires Inv(s) && Sound(s) && HandlesOk(s.g) && AllFree(s) && i < |s.runs| && s.runs[i].phase == Loaded
    ensures AllFree(Apply(s, Event.Begin(i)))
  {
    var r := s.runs[i];
    assert RunExists(s.g, r) && Free(s.g, r);
    var h := s.g.Begin(r.sid, r.message, r.root);
    var t := Apply(s, Event.Begin(i));
    BeganIsFree(s.g, r, t.runs[i]);
    assert s.g.Valid() && RunsApart(s.g);
    hide Inv, Sound, HandlesOk, RunsApart, Registry.Valid, Registry.Begin;
    assert h.Valid() && RunsApart(h) by { BeginIsApart(s.g, r.sid, r.message, r.root); }
    forall k | 0 <= k < |s.runs|
      ensures RunExists(h, s.runs[k]) && Free(h, s.runs[k])
    {
      InvHasRun(s, k);
      hide Free, RunExists;
      BeginKeepsFree(s.g, r.sid, r.message, r.root, s.runs[k]);
    }
    hide Free, RunExists;
  }

  lemma BeganIsFree(g: Registry, r: Run, q: Run)
    requires g.Valid() && RunExists(g, r) && Free(g, r)
    requires q == r.(token := q.token, ctx := |g.contexts|, phase := Started, startRevision := q.startRevision)
    ensures var h := g.Begin(r.sid, r.message, r.root);
            h.Valid() && RunExists(h, q) && Free(h, q)
  {
    BeginEvolves(g, r.sid, r.message, r.root);
    BeginKeepsParents(g, r.sid, r.message, r.root);
    hide CancelAny;
  }

  lemma ReleaseStepFree(s: Machine, i: nat)
    requires Inv(s) && Sound(s) && HandlesOk(s.g) && AllFree(s) && i < |s.runs| && s.runs[i].phase == Returned
    ensures AllFree(Apply(s, Event.Release(i)))
  {
    var r := s.runs[i];
    var h := s.g.Release(r.sid, r.token);
    var t := Apply(s, Event.Release(i));
    assert s.g.Valid() && RunsApart(s.g) && RunExists(s.g, r) && Free(s.g, r);
    hide Inv, Sound, HandlesOk, RunsApart, Registry.Valid, Registry.Release, Free, RunExists;
    assert h.Valid() && RunsApart(h) by {
      InvHasRun(s, i);
      ReleaseKeepsFree(s.g, r.sid, r.token, r);
    }
    forall k | 0 <= k < |s.runs|
      ensures RunExists(h, s.runs[k]) && Free(h, s.runs[k])
    {
      InvHasRun(s, k);
      ReleaseKeepsFree(s.g, r.sid, r.token, s.runs[k]);
    }
    RegistryChanges(s, h);
    ReleasedExists(h, r, t.runs[i]);
    RunChanges(s.(g := h), i, t.runs[i]);
  }

  lemma ReleasedExists(g: Registry, r: Run, q: Run)
    requires RunExists(g, r) && r.phase == Returned && (q.phase == Unregistering || q.phase == Done)
    requires q == r.(phase := q.phase, releasedAt := q.releasedAt)
    ensures RunExists(g, q)
  {}

  lemma HandleStepFree(s: Machine, i: nat)
    requires Inv(s) && Sound(s) && HandlesOk(s.g) && AllFree(s) && i < |s.handlers| && !s.handlers[i].done
    ensures AllFree(Apply(s, Handle(i)))
  {
    var e := s.handlers[i];
    var h := if e.edit.Some? then s.g.Update(e.sid, e.edit.value) else s.g.Delete(e.sid);
    assert s.g.Valid() && RunsApart(s.g);
    HandledIsApart(s.g, e);
    hide Inv, Sound, HandlesOk, RunsApart, Registry.Valid, Registry.Update, Registry.Delete;
    forall k | 0 <= k < |s.runs|
      ensures RunExists(h, s.runs[k]) && Free(h, s.runs[k])
    {
      InvHasRun(s, k);
      hide Free, RunExists;
      if e.edit.Some? {
        UpdateKeepsFree(s.g, e.sid, e.edit.value, s.runs[k]);
      } else {
        DeleteKeepsFree(s.g, e.sid, s.runs[k]);
      }
    }
    hide Free, RunExists;
    RegistryChanges(s, h);
  }

  lemma HandledIsApart(g: Registry, e: Handler)
    requires g.Valid() && RunsApart(g) && e.sid < |g.states|
    ensures e.edit.Some? ==> g.Update(e.sid, e.edit.value).Valid() && RunsApart(g.Update(e.sid, e.edit.value))
    ensures e.edit.None? ==> g.Delete(e.sid).Valid() && RunsApart(g.Delete(e.sid))
  {
    hide CancelAny, Registry.Interrupted;
  }

  lemma AttemptStepFree(s: Machine, sid: nat, kind: Kind, parent: nat)
    requires Inv(s) && HandlesOk(s.g) && AllFree(s) && sid < |s.g.states| && parent < |s.g.contexts|
    ensures AllFree(s.(g := s.g.Attempt(sid, kind, parent)))
  {
    var h := s.g.Attempt(sid, kind, parent);
    assert s.g.Valid() && RunsApart(s.g);
    AttemptIsApart(s.g, sid, kind, parent);
    hide Inv, HandlesOk, RunsApart, Registry.Valid, Registry.Attempt;
    forall k | 0 <= k < |s.runs|
      ensures RunExists(h, s.runs[k]) && Free(h, s.runs[k])
    {
      InvHasRun(s, k);
      hide Free, RunExists;
      AttemptKeepsFree(s.g, sid, kind, parent, s.runs[k]);
    }
    hide Free, RunExists;
    RegistryChanges(s, h);
  }

  lemma AttemptIsApart(g: Registry, sid: nat, kind: Kind, parent: nat)
    requires g.Valid() && RunsApart(g) && sid < |g.states| && parent < |g.contexts|
    ensures g.Attempt(sid, kind, parent).Valid() && RunsApart(g.Attempt(sid, kind, parent))
  {
    hide CancelAny, CauseOf;
  }

  lemma ContextsStepFree(s: Machine, e: Event)
    requires Inv(s) && Sound(s) && AllFree(s) && (e.NewCaller? || e.Expire?)
    ensures AllFree(Apply(s, e))
  {
    var h := Apply(s, e).g;
    if e.Expire? && e.root < |s.g.contexts| {
      CancelTouchesOne(s.g.contexts, Some(e.root), e.cause);
      CancelExtends(s.g.contexts, e.root, e.cause);
    } else {
      AddExtends(s.g.contexts, Context(None, None));
    }
    hide Inv, CauseOf, CancelAny;
    assert h.Valid() && Extends(s.g.contexts, h.contexts) && ParentsKept(s.g.contexts, h.contexts);
    forall k | 0 <= k < |s.runs|
      ensures RunExists(h, s.runs[k]) && Free(h, s.runs[k])
    {
      assert RunExists(s.g, s.runs[k]) && Free(s.g, s.runs[k]);
      hide Registry.Valid, Extends, ParentsKept, Live;
      FreeKept(s.g, h, s.runs[k]);
    }
  }

  lemma ArrivalStepFree(s: Machine, message: Message, root: nat)
    requires Inv(s) && Sound(s) && AllFree(s)
    ensures AllFree(Apply(s, Arrive(message, root)))
  {
    var t := Apply(s, Arrive(message, root));
    hide Inv;
    if t != s {
      assert t.g.Valid() && RunsApart(t.g);
      forall k | 0 <= k < |s.runs|
        ensures RunExists(t.g, s.runs[k]) && Free(t.g, s.runs[k])
      {
        assert RunExists(s.g, s.runs[k]) && Free(s.g, s.runs[k]);
      }
    }
  }

  lemma RunStepFree(s: Machine, i: nat, outcome: Outcome)
    requires Inv(s) && Sound(s) && HandlesOk(s.g) && AllFree(s) && i < |s.runs| && Unreleased(s.runs[i])
    ensures AllFree(Apply(s, RunStep(i, outcome)))
  {
    var t := Apply(s, RunStep(i, outcome));
    RunStepKeepsInv(s, i, outcome);
    InvHasRun(t, i);
    RunKeepsPlace(s, i, outcome);
    assert RunExists(s.g, s.runs[i]);
    hide Inv, Sound, HandlesOk, AllFree, Registry.Attempt, Apply, RunExists;
    if s.runs[i].phase == Prepared {
      AttemptStepFree(s, s.runs[i].sid, Reply, s.runs[i].ctx) by { PlaceExists(s.g, s.runs[i]); }
      RunChanges(s.(g := t.g), i, t.runs[i]);
      FreeOfRecords(s.(g := t.g, runs := t.runs), t);
    } else {
      RunChanges(s, i, t.runs[i]);
      FreeOfRecords(s.(runs := t.runs), t);
    }
  }

  lemma PlaceExists(g: Registry, r: Run)
    requires RunExists(g, r) && Begun(r)
    ensures r.sid < |g.states| && r.ctx < |g.contexts|
  {}

  lemma FreeOfRecords(s: Machine, t: Machine)
    requires AllFree(s) && t.g == s.g && t.runs == s.runs
    ensures AllFree(t)
  {}

  lemma RunKeepsPlace(s: Machine, i: nat, outcome: Outcome)
    requires Sound(s) && i < |s.runs| && Unreleased(s.runs[i])
    ensures var r, t := s.runs[i], Apply(s, RunStep(i, outcome));
            && |t.runs| == |s.runs| && t.runs == s.runs[i := t.runs[i]]
            && t.g == (if r.phase == Prepared then s.g.Attempt(r.sid, Reply, r.ctx) else s.g)
            && t.runs[i].sid == r.sid && t.runs[i].root == r.root && t.runs[i].ctx == r.ctx
            && t.runs[i].token == r.token
  {
    hide Registry.Valid, CauseOf, Registry.Attempt;
  }

  lemma JobStepFree(s: Machine, i: nat, outcome: Outcome)
    requires Inv(s) && Sound(s) && HandlesOk(s.g) && AllFree(s) && i < |s.jobs|
    ensures AllFree(Apply(s, JobStep(i, outcome)))
  {
    var j, t := s.jobs[i], Apply(s, JobStep(i, outcome));
    assert JobExists(s.g, j);
    hide Inv, HandlesOk, AllFree, Registry.Attempt, AdvanceJob, Registry.Valid;
    if j.phase == JobReady {
      AttemptStepFree(s, j.sid, Memory, j.ctx);
      FreeOfRecords(s.(g := t.g), t);
    } else {
      FreeOfRecords(s, t);
    }
  }

  lemma UnregisterStepFree(s: Machine, i: nat)
    requires Inv(s) && Sound(s) && AllFree(s) && i < |s.runs| && s.runs[i].phase == Unregistering
    ensures AllFree(Apply(s, Event.Unregister(i)))
  {
    hide Inv;
    var h := s.g.Unregister(s.runs[i].key, s.runs[i].sid);
    assert h.Valid() && RunsApart(h);
    RegistryChanges(s, h);
    assert RunExists(h, s.runs[i].(phase := Done, unregistered := true));
    RunChanges(s.(g := h), i, s.runs[i].(phase := Done, unregistered := true));
  }

  lemma ApplyKeepsFree(s: Machine, e: Event)
    requires Inv(s) && Exact(s) && AllFree(s)
    ensures Sound(s) && AllFree(Apply(s, e))
  {
    InvIsSound(s);
    assert HandlesOk(s.g);
    hide Inv, Exact, AllFree, HandlesOk, StepRun, StepJob;
    match e {
      case NewCaller => ContextsStepFree(s, e);
      case Expire(_, _) => ContextsStepFree(s, e);
      case Arrive(message, root) => ArrivalStepFree(s, message, root);
      case Begin(i) => if i < |s.runs| && s.runs[i].phase == Loaded { BeginStepFree(s, i); }
      case RunStep(i, outcome) => if i < |s.runs| && Unreleased(s.runs[i]) { RunStepFree(s, i, outcome); }
      case Release(i) => if i < |s.runs| && s.runs[i].phase == Returned { ReleaseStepFree(s, i); }
      case Unregister(i) => if i < |s.runs| && s.runs[i].phase == Unregistering { UnregisterStepFree(s, i); }
      case EditArrives(_) => FreeOfRecords(s, Apply(s, e));
      case DeleteArrives(_) => FreeOfRecords(s, Apply(s, e));
      case Handle(i) => if i < |s.handlers| && !s.handlers[i].done { HandleStepFree(s, i); }
      case JobStep(i, outcome) => if i < |s.jobs| { JobStepFree(s, i, outcome); }
    }
  }

  lemma {:induction false} AlwaysFree(events: seq<Event>)
    ensures AllFree(After(events))
  {
    hide AllFree, Exact, Apply, Inv;
    if events == [] {
      InitialIsFree();
    } else {
      var init := events[..|events| - 1];
      AlwaysFree(init);
      AlwaysExact(init);
      AfterHasInv(init);
      ApplyKeepsFree(After(init), events[|events| - 1]);
    }
  }

  lemma InitialIsFree()
    ensures AllFree(INITIAL)
  {}

  // ---------- Every reachable state ----------

  /** The context of an unreleased run is live if and only if the run holds its state's token, its message is
      not deleted, and its caller's context is live. In particular no edit, no attempt of any run and no
      other run's release ever cancels it. */
  lemma LiveRunExactly(s: Machine, i: nat)
    requires Reachable(s) && i < |s.runs| && Unreleased(s.runs[i])
    ensures Sound(s)
    ensures var r, st := s.runs[i], s.g.states[s.runs[i].sid];
            Live(s.g.contexts, r.ctx) <==> r.token == st.runToken && !st.deleted && Live(s.g.contexts, r.root)
  {
    var events :| After(events) == s;
    AlwaysFree(events);
    AfterHasInv(events);
    InvHasRun(s, i);
    InvIsSound(s);
    hide After, Inv, SnapshotOk, ExitOk, DecidesOk;
  }
}
