/** What becomes of a run's context after the run has released its state: background jobs go on under it. */
module ProtocolReleases {
  import opened Wrappers
  import opened Contexts
  import opened Processor
  import opened Protocol
  import opened ProtocolAttempts
  import opened ProtocolRuns

  /** No state has a handle of the context. */
  ghost predicate Unlisted(g: Registry, c: nat) {
    forall i :: 0 <= i < |g.states| ==>
      Some(c) !in {g.states[i].runCancel, g.states[i].memoryCancel, g.states[i].replyCancel}
  }

  /** An operation leaves a context alone that is nobody's. */
  ghost predicate Spares(g: Registry, h: Registry, c: nat)
    requires c < |g.contexts|
  {
    Unlisted(g, c) ==> Unlisted(h, c) && c < |h.contexts| && h.contexts[c] == g.contexts[c]
  }

  // ---------- Every operation ----------

  lemma BeginSpares(g: Registry, sid: nat, message: Message, parent: nat, c: nat)
    requires g.Valid() && sid < |g.states| && parent < |g.contexts| && c < |g.contexts|
    ensures Spares(g, g.Begin(sid, message, parent), c)
  {
    hide CancelAny;
    var st := g.states[sid];
    var cs0 := CancelAny(g.contexts, st.runCancel, MessageUpdated);
    var cs1 := CancelAny(cs0, st.memoryCancel, MessageUpdated);
    CancelTouchesOne(g.contexts, st.runCancel, MessageUpdated);
    CancelTouchesOne(cs0, st.memoryCancel, MessageUpdated);
    CancelTouchesOne(cs1, st.replyCancel, MessageUpdated);
  }

  lemma InterruptionSpares(g: Registry, sid: nat, cause: Cause, c: nat)
    requires g.Valid() && sid < |g.states| && c < |g.contexts| && Unlisted(g, c)
    ensures g.Interrupted(sid, cause)[c] == g.contexts[c]
  {
    hide Registry.Interrupted;
    InterruptedTouches(g, sid, cause);
  }

  lemma OthersSpare(g: Registry, sid: nat, token: nat, message: Message, c: nat)
    requires g.Valid() && sid < |g.states| && c < |g.contexts|
    ensures Spares(g, g.Release(sid, token), c) && Spares(g, g.Update(sid, message), c) && Spares(g, g.Delete(sid), c)
  {
    if Unlisted(g, c) {
      InterruptionSpares(g, sid, MessageUpdated, c);
      InterruptionSpares(g, sid, MessageDeleted, c);
      CancelTouchesOne(g.Interrupted(sid, MessageDeleted), g.states[sid].runCancel, MessageDeleted);
    }
    hide Registry.Interrupted, CancelAny;
  }

  lemma AttemptSparesIt(g: Registry, sid: nat, kind: Kind, parent: nat, c: nat)
    requires g.Valid() && sid < |g.states| && parent < |g.contexts| && c < |g.contexts|
    ensures Spares(g, g.Attempt(sid, kind, parent), c)
  {
    CancelTouchesOne(g.contexts, CancelOf(g.states[sid], kind), MessageUpdated);
    hide CancelAny, CauseOf;
  }

  // ---------- Every step ----------

  lemma StepSpares(s: Machine, e: Event, c: nat)
    requires Sound(s) && c < |s.g.contexts| && s.g.contexts[c].parent.Some?
    ensures Spares(s.g, Apply(s, e).g, c)
  {
    hide Registry.Begin, Registry.Release, Registry.Update, Registry.Delete, Registry.Attempt, Registry.Valid, Advance,
         AdvanceJob, CauseOf;
    match e {
      case Begin(i) =>
        if i < |s.runs| && s.runs[i].phase == Loaded {
          BeginSpares(s.g, s.runs[i].sid, s.runs[i].message, s.runs[i].root, c);
        }
      case RunStep(i, _) =>
        if i < |s.runs| && s.runs[i].phase == Prepared {
          AttemptSparesIt(s.g, s.runs[i].sid, Reply, s.runs[i].ctx, c);
        }
      case Release(i) =>
        if i < |s.runs| {
          OthersSpare(s.g, s.runs[i].sid, s.runs[i].token, BLANK.message, c);
        }
      case Handle(i) =>
        if i < |s.handlers| {
          var edit := s.handlers[i].edit;
          OthersSpare(s.g, s.handlers[i].sid, 0, if edit.Some? then edit.value else BLANK.message, c);
        }
      case JobStep(i, _) =>
        if i < |s.jobs| && s.jobs[i].phase == JobReady {
          AttemptSparesIt(s.g, s.jobs[i].sid, Memory, s.jobs[i].ctx, c);
        }
      case Arrive(_, _) =>
      case Unregister(_) =>
      case NewCaller =>
      case Expire(_, _) =>
      case EditArrives(_) =>
      case DeleteArrives(_) =>
    }
  }

  /** The run has released its state while it held the token, and no handle of its context is left. */
  ghost predicate Gone(s: Machine, i: nat) {
    && i < |s.runs| && s.runs[i].releasedAt.Some? && s.runs[i].phase in {Unregistering, Phase.Done}
    && s.runs[i].ctx < |s.g.contexts| && s.g.contexts[s.runs[i].ctx].parent == Some(s.runs[i].root)
    && Unlisted(s.g, s.runs[i].ctx)
  }

  lemma StaysGone(s: Machine, e: Event, i: nat)
    requires Sound(s) && Gone(s, i)
    ensures var t := Apply(s, e);
            && Gone(t, i) && t.runs[i].ctx == s.runs[i].ctx && t.runs[i].root == s.runs[i].root
            && t.g.contexts[s.runs[i].ctx] == s.g.contexts[s.runs[i].ctx]
  {
    StepSpares(s, e, s.runs[i].ctx);
    hide Unlisted, Registry.Valid, Registry.Begin, Registry.Release, Registry.Update, Registry.Delete, Registry.Attempt,
         Advance, AdvanceJob, CauseOf;
  }

  /** A release that holds the token leaves no handle of the run's context. */
  lemma ReleaseUnlists(s: Machine, i: nat)
    requires Inv(s) && Exact(s) && AllFree(s) && i < |s.runs| && s.runs[i].phase == Returned
    requires s.runs[i].sid < |s.g.states| && s.runs[i].token == s.g.states[s.runs[i].sid].runToken
    ensures Sound(s) && Gone(Apply(s, Event.Release(i)), i)
  {
    InvIsSound(s);
    InvHasRun(s, i);
    var r := s.runs[i];
    assert RunExists(s.g, r) && Free(s.g, r) && TokenOk(s.g, r);
    var h := s.g.Release(r.sid, r.token);
    assert HandlesOk(s.g) && RunsApart(s.g);
    forall j | 0 <= j < |h.states|
      ensures Some(r.ctx) !in {h.states[j].runCancel, h.states[j].memoryCancel, h.states[j].replyCancel}
    {
      assert Apart(s.g, j, Memory) && Apart(s.g, j, Reply);
    }
    OperationsKeepParents(s.g, r.sid, MessageUpdated);
    hide Inv, Exact, AllFree, HandlesOk, Sound, RunOk, Registry.Interrupted;
  }

  // ---------- Every history ----------

  /** A run is marked as released by such a release alone. */
  lemma MarkedByRelease(s: Machine, e: Event, i: nat)
    requires Sound(s) && i < |Apply(s, e).runs| && Apply(s, e).runs[i].releasedAt.Some?
    ensures i < |s.runs|
    ensures || s.runs[i].releasedAt.Some?
            || (e == Event.Release(i) && s.runs[i].phase == Returned && s.runs[i].sid < |s.g.states|
                && s.runs[i].token == s.g.states[s.runs[i].sid].runToken)
  {
    hide Registry.Valid, Registry.Begin, Registry.Release, Registry.Update, Registry.Delete, Registry.Attempt, Advance,
         AdvanceJob, CauseOf;
    if e.RunStep? && e.run < |s.runs| && Unreleased(s.runs[e.run]) {
      StepKeepsMark(s, e.run, e.outcome);
    }
  }

  lemma StepKeepsMark(s: Machine, i: nat, outcome: Outcome)
    requires s.g.Valid() && i < |s.runs| && RunExists(s.g, s.runs[i]) && Begun(s.runs[i])
    ensures |StepRun(s, i, outcome).runs| == |s.runs|
    ensures StepRun(s, i, outcome).runs[i].releasedAt == s.runs[i].releasedAt
  {
    hide Registry.Valid, IsCancelled, CauseOf, Registry.Attempt;
  }

  lemma {:induction false} AlwaysGone(events: seq<Event>, i: nat)
    requires i < |After(events).runs| && After(events).runs[i].releasedAt.Some?
    ensures Gone(After(events), i)
  {
    hide Apply, Inv, Exact, Sound, AllFree, Gone;
    if events != [] {
      var init, e := events[..|events| - 1], events[|events| - 1];
      var s := After(init);
      AfterHasInv(init);
      InvIsSound(s);
      MarkedByRelease(s, e, i);
      if s.runs[i].releasedAt.Some? {
        AlwaysGone(init, i);
        StaysGone(s, e, i);
      } else {
        AlwaysExact(init);
        AlwaysFree(init);
        ReleaseUnlists(s, i);
      }
    }
  }

  lemma {:induction false} GoneStays(events: seq<Event>, more: seq<Event>, i: nat)
    requires Gone(After(events), i)
    ensures var s, t := After(events), After(events + more);
            && Gone(t, i) && i < |s.runs| && t.runs[i].ctx == s.runs[i].ctx < |s.g.contexts| <= |t.g.contexts|
            && t.runs[i].root == s.runs[i].root && t.g.contexts[s.runs[i].ctx] == s.g.contexts[s.runs[i].ctx]
    decreases |more|
  {
    hide Apply, Inv, Sound, Unlisted;
    if more == [] {
      assert events + more == events;
    } else {
      var init, e := more[..|more| - 1], more[|more| - 1];
      GoneStays(events, init, i);
      var s := After(events + init);
      AfterHasInv(events + init);
      InvIsSound(s);
      assert (events + more)[..|events + more| - 1] == events + init;
      StaysGone(s, e, i);
      ContextsGrow(s, e);
    }
  }

  lemma ContextsGrow(s: Machine, e: Event)
    requires Sound(s)
    ensures |s.g.contexts| <= |Apply(s, e).g.contexts|
  {
    hide CauseOf, Advance, AdvanceJob;
  }

  /** Once a run has released its state while it held the token, its context, under which its background job goes
      on, is live if and only if it was not cancelled before and the caller's context is live: no later
      start, edit, deletion or release ever cancels it. */
  lemma ReleasedContextStays(events: seq<Event>, more: seq<Event>, i: nat)
    requires i < |After(events).runs| && After(events).runs[i].releasedAt.Some?
    ensures var s, t := After(events), After(events + more);
            && s.g.Valid() && t.g.Valid() && i < |t.runs| && t.runs[i].ctx == s.runs[i].ctx < |s.g.contexts|
            && (Live(t.g.contexts, t.runs[i].ctx)
                <==> s.g.contexts[s.runs[i].ctx].own.None? && Live(t.g.contexts, t.runs[i].root))
  {
    AlwaysGone(events, i);
    GoneStays(events, more, i);
    AfterHasInv(events);
    AfterHasInv(events + more);
    InvIsSound(After(events));
    InvIsSound(After(events + more));
    RootExists(After(events + more), i);
    hide After, Inv, Unlisted, Sound;
  }

  lemma RootExists(s: Machine, i: nat)
    requires Inv(s) && i < |s.runs|
    ensures s.runs[i].root < |s.g.contexts|
  {
    InvHasRun(s, i);
  }
}
