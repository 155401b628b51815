/** When a background job's memory context has been taken from it. */
module ProtocolMemory {
  import opened Wrappers
  import opened Contexts
  import opened Processor
  import opened Protocol
  import opened ProtocolAttempts

  // ---------- What can take a memory context away ----------

  /** The job has issued a memory context and has not yet come to terms with its outcome. */
  predicate Working(j: Job) {
    j.phase in {JobWorking, JobFailing, JobInterrupted, JobWorked}
  }

  /** The message is not deleted and is at the revision the job works on. */
  predicate Current(g: Registry, j: Job)
    requires j.sid < |g.states|
  {
    !g.states[j.sid].deleted && j.revBefore == g.states[j.sid].revision
  }

  ghost predicate IssuedMemory(issues: seq<Issue>, sid: nat, ctx: nat) {
    exists k :: 0 <= k < |issues| && issues[k].sid == sid && issues[k].kind == Memory && issues[k].ctx == ctx
  }

  /** Another memory context was issued for the state. Contexts are created in order, so a later one is a
      greater one. */
  ghost predicate LaterMemory(issues: seq<Issue>, sid: nat, ctx: nat) {
    exists k :: 0 <= k < |issues| && issues[k].sid == sid && issues[k].kind == Memory && issues[k].ctx > ctx
  }

  predicate BegunAfter(r: Run, sid: nat, ctx: nat) {
    Begun(r) && r.sid == sid && r.ctx > ctx
  }

  predicate ReleasedAfter(r: Run, sid: nat, ctx: nat) {
    r.sid == sid && r.releasedAt.Some? && r.releasedAt.value > ctx
  }

  /** A run of the state has begun since. */
  ghost predicate LaterBegin(runs: seq<Run>, sid: nat, ctx: nat) {
    exists i :: 0 <= i < |runs| && BegunAfter(runs[i], sid, ctx)
  }

  /** A run of the state has been released since while it held the token. */
  ghost predicate LaterRelease(runs: seq<Run>, sid: nat, ctx: nat) {
    exists i :: 0 <= i < |runs| && ReleasedAfter(runs[i], sid, ctx)
  }

  ghost predicate Displaced(runs: seq<Run>, issues: seq<Issue>, sid: nat, ctx: nat) {
    LaterMemory(issues, sid, ctx) || LaterBegin(runs, sid, ctx) || LaterRelease(runs, sid, ctx)
  }

  /** A working job's context is registered until something displaces it. */
  ghost predicate MemoryOk(g: Registry, runs: seq<Run>, issues: seq<Issue>, j: Job) {
    Working(j) ==>
      && j.sid < |g.states| && j.attempt < |g.contexts|
      && g.contexts[j.attempt].parent == Some(j.ctx)
      && IssuedMemory(issues, j.sid, j.attempt)
      && (Current(g, j) ==>
            (g.states[j.sid].memoryCancel == Some(j.attempt) <==> !Displaced(runs, issues, j.sid, j.attempt)))
  }

  ghost predicate MemoryExact(s: Machine) {
    && (forall i :: 0 <= i < |s.runs| && s.runs[i].releasedAt.Some? ==> s.runs[i].releasedAt.value <= |s.g.contexts|)
    && forall i :: 0 <= i < |s.jobs| ==> MemoryOk(s.g, s.runs, s.issues, s.jobs[i])
  }

  // ---------- How the records grow ----------

  lemma MemoryIssuesGrow(issues: seq<Issue>, a: Issue, sid: nat, ctx: nat)
    ensures IssuedMemory(issues, sid, ctx) ==> IssuedMemory(issues + [a], sid, ctx)
    ensures LaterMemory(issues + [a], sid, ctx)
       <==> LaterMemory(issues, sid, ctx) || (a.sid == sid && a.kind == Memory && a.ctx > ctx)
  {
    var more := issues + [a];
    assert more[|issues|] == a;
    if k :| 0 <= k < |issues| && issues[k].sid == sid && issues[k].kind == Memory && issues[k].ctx == ctx {
      assert more[k] == issues[k];
    }
    if k :| 0 <= k < |issues| && issues[k].sid == sid && issues[k].kind == Memory && issues[k].ctx > ctx {
      assert more[k] == issues[k];
    }
  }

  /** What replaces one run changes the record by what it adds. */
  lemma RunRecorded(runs: seq<Run>, i: nat, r: Run, sid: nat, ctx: nat)
    requires i < |runs|
    requires BegunAfter(runs[i], sid, ctx) ==> BegunAfter(r, sid, ctx)
    requires ReleasedAfter(runs[i], sid, ctx) ==> ReleasedAfter(r, sid, ctx)
    ensures LaterBegin(runs[i := r], sid, ctx) <==> LaterBegin(runs, sid, ctx) || BegunAfter(r, sid, ctx)
    ensures LaterRelease(runs[i := r], sid, ctx) <==> LaterRelease(runs, sid, ctx) || ReleasedAfter(r, sid, ctx)
  {
    hide BegunAfter, ReleasedAfter;
    var later := runs[i := r];
    assert later[i] == r;
    if j :| 0 <= j < |runs| && BegunAfter(runs[j], sid, ctx) {
      assert BegunAfter(later[j], sid, ctx);
    }
    if j :| 0 <= j < |runs| && ReleasedAfter(runs[j], sid, ctx) {
      assert ReleasedAfter(later[j], sid, ctx);
    }
  }

  lemma RunsGrow(runs: seq<Run>, r: Run, sid: nat, ctx: nat)
    requires !Begun(r) && r.releasedAt.None?
    ensures LaterBegin(runs + [r], sid, ctx) <==> LaterBegin(runs, sid, ctx)
    ensures LaterRelease(runs + [r], sid, ctx) <==> LaterRelease(runs, sid, ctx)
  {
    hide Begun;
    var later := runs + [r];
    if j :| 0 <= j < |runs| && BegunAfter(runs[j], sid, ctx) {
      assert BegunAfter(later[j], sid, ctx);
    }
    if j :| 0 <= j < |runs| && ReleasedAfter(runs[j], sid, ctx) {
      assert ReleasedAfter(later[j], sid, ctx);
    }
  }

  // ---------- What a step does to one job ----------

  /** The job is current only if it was before, with the same handle. */
  predicate Spared(g: Registry, h: Registry, j: Job) {
    j.sid < |g.states| && j.sid < |h.states|
    && (Current(h, j) ==> Current(g, j) && h.states[j.sid].memoryCancel == g.states[j.sid].memoryCancel)
  }

  /** The job's handle is gone, if the job is still current. */
  predicate Evicted(h: Registry, j: Job) {
    j.sid < |h.states| && (Current(h, j) ==> h.states[j.sid].memoryCancel != Some(j.attempt))
  }

  lemma MemoryKept(g: Registry, runs: seq<Run>, issues: seq<Issue>, h: Registry, later: seq<Run>, more: seq<Issue>,
                   j: Job)
    requires MemoryOk(g, runs, issues, j) && ParentsKept(g.contexts, h.contexts)
    requires IssuedMemory(issues, j.sid, j.attempt) ==> IssuedMemory(more, j.sid, j.attempt)
    requires Working(j) ==>
               || (&& Spared(g, h, j)
                   && (Displaced(later, more, j.sid, j.attempt) <==> Displaced(runs, issues, j.sid, j.attempt)))
               || (Evicted(h, j) && Displaced(later, more, j.sid, j.attempt))
    ensures MemoryOk(h, later, more, j)
  {
    hide Displaced, IssuedMemory;
  }

  lemma StatesKept(g: Registry, h: Registry, runs: seq<Run>, issues: seq<Issue>, j: Job)
    requires MemoryOk(g, runs, issues, j) && ParentsKept(g.contexts, h.contexts) && |g.states| <= |h.states|
    requires Working(j) ==> h.states[j.sid] == g.states[j.sid]
    ensures MemoryOk(h, runs, issues, j)
  {
    hide Displaced, IssuedMemory;
  }

  lemma RunUnmarked(g: Registry, runs: seq<Run>, i: nat, r: Run, issues: seq<Issue>, j: Job)
    requires MemoryOk(g, runs, issues, j) && i < |runs|
    requires r.sid == runs[i].sid && r.ctx == runs[i].ctx && r.releasedAt == runs[i].releasedAt
    requires Begun(r) == Begun(runs[i])
    ensures MemoryOk(g, runs[i := r], issues, j)
  {
    hide LaterMemory, LaterBegin, LaterRelease, IssuedMemory;
    RunRecorded(runs, i, r, j.sid, j.attempt);
    assert BegunAfter(r, j.sid, j.attempt) ==> LaterBegin(runs, j.sid, j.attempt) by {
      MarkedBegin(runs, i, r, j.sid, j.attempt);
    }
    assert ReleasedAfter(r, j.sid, j.attempt) ==> LaterRelease(runs, j.sid, j.attempt) by {
      MarkedRelease(runs, i, r, j.sid, j.attempt);
    }
  }

  lemma MarkedBegin(runs: seq<Run>, i: nat, r: Run, sid: nat, ctx: nat)
    requires i < |runs| && r.sid == runs[i].sid && r.ctx == runs[i].ctx && Begun(r) == Begun(runs[i])
    ensures BegunAfter(r, sid, ctx) ==> LaterBegin(runs, sid, ctx)
  {
    if BegunAfter(r, sid, ctx) {
      assert BegunAfter(runs[i], sid, ctx);
    }
  }

  lemma MarkedRelease(runs: seq<Run>, i: nat, r: Run, sid: nat, ctx: nat)
    requires i < |runs| && r.sid == runs[i].sid && r.releasedAt == runs[i].releasedAt
    ensures ReleasedAfter(r, sid, ctx) ==> LaterRelease(runs, sid, ctx)
  {
    if ReleasedAfter(r, sid, ctx) {
      assert ReleasedAfter(runs[i], sid, ctx);
    }
  }

  // ---------- Every operation ----------

  lemma BeginDisplaces(g: Registry, runs: seq<Run>, issues: seq<Issue>, i: nat, r: Run, j: Job)
    requires g.Valid() && i < |runs| && runs[i].sid < |g.states| && runs[i].root < |g.contexts|
    requires !Begun(runs[i]) && Begun(r) && r.sid == runs[i].sid && r.ctx == |g.contexts|
    requires r.releasedAt == runs[i].releasedAt && MemoryOk(g, runs, issues, j)
    ensures MemoryOk(g.Begin(runs[i].sid, runs[i].message, runs[i].root), runs[i := r], issues, j)
  {
    var h := g.Begin(runs[i].sid, runs[i].message, runs[i].root);
    BeginKeepsParents(g, runs[i].sid, runs[i].message, runs[i].root);
    hide CancelAny, LaterMemory, LaterBegin, LaterRelease, IssuedMemory, ParentsKept, Registry.Valid;
    if Working(j) {
      RunRecorded(runs, i, r, j.sid, j.attempt);
      MarkedRelease(runs, i, r, j.sid, j.attempt);
      MemoryKept(g, runs, issues, h, runs[i := r], issues, j);
    }
  }

  lemma ReleaseDisplaces(g: Registry, runs: seq<Run>, issues: seq<Issue>, i: nat, r: Run, j: Job)
    requires g.Valid() && i < |runs| && runs[i].sid < |g.states| && Begun(runs[i]) && Begun(r)
    requires r.sid == runs[i].sid && r.ctx == runs[i].ctx && g.states[r.sid].runToken == runs[i].token
    requires r.releasedAt == Some(|g.contexts|) && MemoryOk(g, runs, issues, j)
    requires runs[i].releasedAt.Some? ==> runs[i].releasedAt.value <= |g.contexts|
    ensures MemoryOk(g.Release(runs[i].sid, runs[i].token), runs[i := r], issues, j)
  {
    var h := g.Release(runs[i].sid, runs[i].token);
    OperationsKeepParents(g, runs[i].sid, MessageUpdated);
    hide Registry.Interrupted, LaterMemory, LaterBegin, LaterRelease, IssuedMemory, ParentsKept, Registry.Valid;
    if Working(j) {
      RunRecorded(runs, i, r, j.sid, j.attempt);
      MarkedBegin(runs, i, r, j.sid, j.attempt);
      MemoryKept(g, runs, issues, h, runs[i := r], issues, j);
    }
  }

  lemma HandlingSpares(g: Registry, sid: nat, edit: Option<Message>, runs: seq<Run>, issues: seq<Issue>, j: Job)
    requires g.Valid() && sid < |g.states| && JobOk(g, j) && MemoryOk(g, runs, issues, j)
    ensures MemoryOk(if edit.Some? then g.Update(sid, edit.value) else g.Delete(sid), runs, issues, j)
  {
    var h := if edit.Some? then g.Update(sid, edit.value) else g.Delete(sid);
    OperationsKeepParents(g, sid, MessageUpdated);
    hide Registry.Interrupted, CancelAny, Displaced, IssuedMemory, ParentsKept, Registry.Valid;
    if Working(j) {
      MemoryKept(g, runs, issues, h, runs, issues, j);
    }
  }

  lemma AttemptOnMemory(g: Registry, sid: nat, kind: Kind, parent: nat, runs: seq<Run>, issues: seq<Issue>,
                        revision: nat, j: Job)
    requires g.Valid() && sid < |g.states| && parent < |g.contexts| && MemoryOk(g, runs, issues, j)
    ensures MemoryOk(g.Attempt(sid, kind, parent), runs, issues + [Issue(sid, kind, |g.contexts|, revision)], j)
  {
    var h := g.Attempt(sid, kind, parent);
    var a := Issue(sid, kind, |g.contexts|, revision);
    AttemptKeepsParents(g, sid, kind, parent);
    hide CancelAny, CauseOf, LaterMemory, LaterBegin, LaterRelease, IssuedMemory, ParentsKept, Registry.Valid;
    if Working(j) {
      MemoryIssuesGrow(issues, a, j.sid, j.attempt);
      MemoryKept(g, runs, issues, h, runs, issues + [a], j);
    }
  }

  /** The newest context has nothing after it. */
  lemma NothingAfter(g: Registry, runs: seq<Run>, issues: seq<Issue>, a: Issue)
    requires a.ctx == |g.contexts| && a.kind == Memory
    requires forall i :: 0 <= i < |issues| ==> issues[i].ctx < a.ctx
    requires forall i :: 0 <= i < |runs| && Begun(runs[i]) ==> runs[i].ctx < a.ctx
    requires forall i :: 0 <= i < |runs| && runs[i].releasedAt.Some? ==> runs[i].releasedAt.value <= a.ctx
    ensures IssuedMemory(issues + [a], a.sid, a.ctx) && !Displaced(runs, issues + [a], a.sid, a.ctx)
  {
    assert (issues + [a])[|issues|] == a;
  }

  // ---------- Every step ----------

  lemma RunsCarry(s: Machine, i: nat, r: Run)
    requires MemoryExact(s) && i < |s.runs|
    requires r.sid == s.runs[i].sid && r.ctx == s.runs[i].ctx && r.releasedAt == s.runs[i].releasedAt
    requires Begun(r) == Begun(s.runs[i])
    ensures MemoryExact(s.(runs := s.runs[i := r]))
  {
    hide MemoryOk, Begun;
    forall k | 0 <= k < |s.jobs|
      ensures MemoryOk(s.g, s.runs[i := r], s.issues, s.jobs[k])
    {
      RunUnmarked(s.g, s.runs, i, r, s.issues, s.jobs[k]);
    }
  }

  lemma JobCarries(s: Machine, i: nat, j: Job)
    requires MemoryExact(s) && i < |s.jobs| && MemoryOk(s.g, s.runs, s.issues, j)
    ensures MemoryExact(s.(jobs := s.jobs[i := j]))
  {
    hide MemoryOk;
  }

  lemma StatesCarry(s: Machine, h: Registry)
    requires MemoryExact(s) && ParentsKept(s.g.contexts, h.contexts) && |s.g.states| <= |h.states|
    requires forall i :: 0 <= i < |s.g.states| ==> h.states[i] == s.g.states[i]
    ensures MemoryExact(s.(g := h))
  {
    hide Displaced, IssuedMemory;
    forall k | 0 <= k < |s.jobs|
      ensures MemoryOk(h, s.runs, s.issues, s.jobs[k])
    {
      StatesKept(s.g, h, s.runs, s.issues, s.jobs[k]);
    }
  }

  lemma ArrivalCarries(s: Machine, message: Message, root: nat)
    requires Sound(s) && MemoryExact(s)
    ensures MemoryExact(Apply(s, Arrive(message, root)))
  {
    var t := Apply(s, Arrive(message, root));
    hide MemoryOk, Registry.Valid;
    if t != s {
      var r := t.runs[|s.runs|];
      StatesCarry(s, t.g);
      var u := s.(g := t.g);
      forall k | 0 <= k < |s.jobs|
        ensures MemoryOk(t.g, t.runs, t.issues, t.jobs[k])
      {
        ArrivalUnmarked(u.g, u.runs, r, u.issues, u.jobs[k]);
      }
    }
  }

  lemma ArrivalUnmarked(g: Registry, runs: seq<Run>, r: Run, issues: seq<Issue>, j: Job)
    requires MemoryOk(g, runs, issues, j) && !Begun(r) && r.releasedAt.None?
    ensures MemoryOk(g, runs + [r], issues, j)
  {
    hide LaterMemory, LaterBegin, LaterRelease, IssuedMemory, Begun;
    RunsGrow(runs, r, j.sid, j.attempt);
  }

  lemma BeginCarries(s: Machine, i: nat)
    requires Sound(s) && MemoryExact(s) && i < |s.runs| && s.runs[i].phase == Loaded
    ensures MemoryExact(Apply(s, Event.Begin(i)))
  {
    var t := Apply(s, Event.Begin(i));
    var r := s.runs[i];
    assert RunExists(s.g, r);
    BeginKeepsParents(s.g, r.sid, r.message, r.root);
    forall k | 0 <= k < |s.jobs|
      ensures MemoryOk(t.g, t.runs, t.issues, t.jobs[k])
    {
      hide MemoryOk, CancelAny;
      BeginDisplaces(s.g, s.runs, s.issues, i, t.runs[i], s.jobs[k]);
    }
    hide MemoryOk, Registry.Begin, Registry.Valid;
  }

  lemma ReleaseCarries(s: Machine, i: nat)
    requires Sound(s) && MemoryExact(s) && i < |s.runs| && s.runs[i].phase == Returned
    ensures MemoryExact(Apply(s, Event.Release(i)))
  {
    var t := Apply(s, Event.Release(i));
    var r := s.runs[i];
    assert RunExists(s.g, r);
    hide MemoryOk, Registry.Interrupted, Registry.Valid;
    if s.g.states[r.sid].runToken == r.token {
      OperationsKeepParents(s.g, r.sid, MessageUpdated);
      forall k | 0 <= k < |s.jobs|
        ensures MemoryOk(t.g, t.runs, t.issues, t.jobs[k])
      {
        ReleaseDisplaces(s.g, s.runs, s.issues, i, t.runs[i], s.jobs[k]);
      }
    } else {
      RunsCarry(s, i, t.runs[i]);
    }
  }

  lemma HandlingCarries(s: Machine, i: nat)
    requires Inv(s) && MemoryExact(s) && i < |s.handlers| && !s.handlers[i].done
    ensures Sound(s) && MemoryExact(Apply(s, Handle(i)))
  {
    InvIsSound(s);
    var t := Apply(s, Handle(i));
    var e := s.handlers[i];
    OperationsKeepParents(s.g, e.sid, MessageUpdated);
    forall k | 0 <= k < |s.jobs|
      ensures MemoryOk(t.g, t.runs, t.issues, t.jobs[k])
    {
      assert JobOk(s.g, s.jobs[k]);
      hide MemoryOk, Registry.Interrupted, CancelAny, JobOk;
      HandlingSpares(s.g, e.sid, e.edit, s.runs, s.issues, s.jobs[k]);
    }
    hide MemoryOk, Inv, Registry.Interrupted, CancelAny;
  }

  lemma AttemptCarries(s: Machine, sid: nat, kind: Kind, parent: nat)
    requires s.g.Valid() && MemoryExact(s) && sid < |s.g.states| && parent < |s.g.contexts|
    ensures var h := s.g.Attempt(sid, kind, parent);
            MemoryExact(s.(g := h, issues := s.issues + [Issue(sid, kind, |h.contexts| - 1, s.g.states[sid].revision)]))
  {
    AttemptKeepsParents(s.g, sid, kind, parent);
    hide MemoryOk, Registry.Attempt, Registry.Valid;
    forall k | 0 <= k < |s.jobs|
      ensures MemoryOk(s.g.Attempt(sid, kind, parent), s.runs,
                       s.issues + [Issue(sid, kind, |s.g.contexts|, s.g.states[sid].revision)], s.jobs[k])
    {
      AttemptOnMemory(s.g, sid, kind, parent, s.runs, s.issues, s.g.states[sid].revision, s.jobs[k]);
    }
  }

  lemma AdvanceKeepsMarks(g: Registry, r: Run, outcome: Outcome)
    requires g.Valid() && RunExists(g, r) && Unreleased(r)
    ensures var q := Advance(g, r, outcome);
            q.sid == r.sid && q.ctx == r.ctx && q.releasedAt == r.releasedAt && Begun(q)
  {
    hide Registry.Valid, CauseOf;
  }

  lemma RunStepCarries(s: Machine, i: nat, outcome: Outcome)
    requires Sound(s) && MemoryExact(s) && i < |s.runs| && Unreleased(s.runs[i])
    ensures MemoryExact(StepRun(s, i, outcome))
  {
    var r := s.runs[i];
    assert RunExists(s.g, r);
    hide MemoryOk, Registry.Attempt, Advance, Registry.Valid;
    if r.phase == Prepared {
      AttemptCarries(s, r.sid, Reply, r.ctx);
      PreparedStep(s, i, outcome);
      var h := s.g.Attempt(r.sid, Reply, r.ctx);
      var u := s.(g := h, issues := s.issues + [Issue(r.sid, Reply, |h.contexts| - 1, s.g.states[r.sid].revision)]);
      RunsCarry(u, i, r.(attempt := |h.contexts| - 1, phase := Deciding, decides := r.decides + 1));
    } else if r.phase == Finishing {
      LeavingJob(s, i, outcome);
    } else {
      AdvanceKeepsMarks(s.g, r, outcome);
      RunsCarry(s, i, Advance(s.g, r, outcome));
    }
  }

  lemma LeavingJob(s: Machine, i: nat, outcome: Outcome)
    requires Sound(s) && MemoryExact(s) && i < |s.runs| && s.runs[i].phase == Finishing
    ensures RunExists(s.g, s.runs[i]) && MemoryExact(StepRun(s, i, outcome))
  {
    var r := s.runs[i];
    assert RunExists(s.g, r);
    var q := r.(phase := Returned);
    RunsCarry(s, i, q);
    var job := Job(r.sid, r.ctx, 0, 0, r.message, r.outbound, JobQueued, s.g.states[r.sid].revision, 0);
    assert MemoryOk(s.g, s.runs[i := q], s.issues, job);
    hide MemoryOk, Registry.Valid;
  }

  lemma AdvanceKeepsMemory(g: Registry, runs: seq<Run>, issues: seq<Issue>, j: Job, outcome: Outcome)
    requires g.Valid() && JobExists(g, j) && MemoryOk(g, runs, issues, j) && j.phase != JobReady
    ensures MemoryOk(g, runs, issues, AdvanceJob(g, j, outcome))
  {
    hide Displaced, IssuedMemory, CauseOf, Registry.Valid;
  }

  /** A job's own new context. */
  lemma NewMemoryOk(s: Machine, j: Job)
    requires Sound(s) && Exact(s) && MemoryExact(s) && JobExists(s.g, j)
    ensures var h := s.g.Attempt(j.sid, Memory, j.ctx);
            var a := Issue(j.sid, Memory, |s.g.contexts|, s.g.states[j.sid].revision);
            MemoryOk(h, s.runs, s.issues + [a],
                     j.(attempt := |s.g.contexts|, phase := JobWorking, updates := j.updates + 1))
  {
    var a := Issue(j.sid, Memory, |s.g.contexts|, s.g.states[j.sid].revision);
    assert IssuesOk(s.g, s.issues);
    forall i | 0 <= i < |s.runs| && Begun(s.runs[i])
      ensures s.runs[i].ctx < a.ctx
    {
      assert RunExists(s.g, s.runs[i]);
    }
    NothingAfter(s.g, s.runs, s.issues, a);
    AttemptKeepsParents(s.g, j.sid, Memory, j.ctx);
    hide Displaced, IssuedMemory, CancelAny, CauseOf, Exact;
  }

  lemma JobStepCarries(s: Machine, i: nat, outcome: Outcome)
    requires Sound(s) && Exact(s) && MemoryExact(s) && i < |s.jobs|
    ensures MemoryExact(StepJob(s, i, outcome))
  {
    var j := s.jobs[i];
    assert JobExists(s.g, j);
    hide MemoryOk, Exact, AdvanceJob;
    if j.phase == JobReady {
      AttemptCarries(s, j.sid, Memory, j.ctx);
      NewMemoryOk(s, j);
      AttemptKeepsParents(s.g, j.sid, Memory, j.ctx);
      hide Registry.Attempt, Registry.Valid;
      var h := s.g.Attempt(j.sid, Memory, j.ctx);
      var u := s.(g := h, issues := s.issues + [Issue(j.sid, Memory, |h.contexts| - 1, s.g.states[j.sid].revision)]);
      JobCarries(u, i, j.(attempt := |s.g.contexts|, phase := JobWorking, updates := j.updates + 1));
    } else {
      AdvanceKeepsMemory(s.g, s.runs, s.issues, j, outcome);
      JobCarries(s, i, AdvanceJob(s.g, j, outcome));
    }
  }

  lemma ContextsCarry(s: Machine, e: Event)
    requires Sound(s) && MemoryExact(s) && (e.NewCaller? || e.Expire?)
    ensures MemoryExact(Apply(s, e))
  {
    hide MemoryOk, CauseOf;
    if e.Expire? && e.root < |s.g.contexts| {
      CancelTouchesOne(s.g.contexts, Some(e.root), e.cause);
    }
    StatesCarry(s, Apply(s, e).g);
  }

  lemma ApplyCarries(s: Machine, e: Event)
    requires Inv(s) && Exact(s) && MemoryExact(s)
    ensures Sound(s) && MemoryExact(Apply(s, e))
  {
    InvIsSound(s);
    hide Inv, Exact, StepRun, StepJob, MemoryOk;
    match e {
      case NewCaller => ContextsCarry(s, e);
      case Expire(_, _) => ContextsCarry(s, e);
      case Arrive(message, root) => ArrivalCarries(s, message, root);
      case Begin(i) => if i < |s.runs| && s.runs[i].phase == Loaded { BeginCarries(s, i); }
      case RunStep(i, outcome) => if i < |s.runs| && Unreleased(s.runs[i]) { RunStepCarries(s, i, outcome); }
      case Release(i) => if i < |s.runs| && s.runs[i].phase == Returned { ReleaseCarries(s, i); }
      case Unregister(i) => UnregisterCarries(s, i);
      case EditArrives(_) =>
      case DeleteArrives(_) =>
      case Handle(i) => if i < |s.handlers| && !s.handlers[i].done { HandlingCarries(s, i); }
      case JobStep(i, outcome) => if i < |s.jobs| { JobStepCarries(s, i, outcome); }
    }
  }

  lemma UnregisterCarries(s: Machine, i: nat)
    requires Sound(s) && MemoryExact(s)
    ensures MemoryExact(Apply(s, Unregister(i)))
  {
    var t := Apply(s, Unregister(i));
    hide MemoryOk, Registry.Valid;
    if t != s {
      StatesCarry(s, t.g);
      RunsCarry(s.(g := t.g), i, t.runs[i]);
    }
  }

  lemma {:induction false} AlwaysMemoryExact(events: seq<Event>)
    ensures MemoryExact(After(events))
  {
    hide MemoryExact, Exact, Apply, Inv;
    if events == [] {
      assert MemoryExact(INITIAL) by { InitialMemory(); }
    } else {
      var init := events[..|events| - 1];
      AlwaysMemoryExact(init);
      AlwaysExact(init);
      AfterHasInv(init);
      ApplyCarries(After(init), events[|events| - 1]);
    }
  }

  lemma InitialMemory()
    ensures MemoryExact(INITIAL)
  {}

  // ---------- Every reachable state ----------

  /** A job with a live context, whose message is neither deleted nor edited since its snapshot, finds its
      memory context cancelled if and only if, after it was issued as the j-th, another memory context was
      issued for the state, a run of the state began, or one was released while it held the token. */
  lemma InterruptedExactly(s: Machine, i: nat) returns (j: nat)
    requires Reachable(s) && Sound(s) && i < |s.jobs| && Working(s.jobs[i])
    requires Live(s.g.contexts, s.jobs[i].ctx) && Current(s.g, s.jobs[i])
    ensures j < |s.issues| && s.issues[j] == Issue(s.jobs[i].sid, Memory, s.jobs[i].attempt, s.issues[j].revision)
    ensures !Live(s.g.contexts, s.jobs[i].attempt)
       <==> || (exists k :: j < k < |s.issues| && s.issues[k].sid == s.jobs[i].sid && s.issues[k].kind == Memory)
            || LaterBegin(s.runs, s.jobs[i].sid, s.jobs[i].attempt)
            || LaterRelease(s.runs, s.jobs[i].sid, s.jobs[i].attempt)
  {
    var events :| After(events) == s;
    AlwaysMemoryExact(events);
    ReachableIsExact(s);
    var job := s.jobs[i];
    assert MemoryOk(s.g, s.runs, s.issues, job) && IssuesOk(s.g, s.issues);
    hide LaterBegin, LaterRelease, Exact, Inv, Sound;
    j :| && 0 <= j < |s.issues|
         && s.issues[j].sid == job.sid && s.issues[j].kind == Memory && s.issues[j].ctx == job.attempt;
    LiveAttemptExactly(s, j);
    LaterMemoryMeans(s.g, s.issues, j);
  }

  lemma LaterMemoryMeans(g: Registry, issues: seq<Issue>, j: nat)
    requires IssuesOk(g, issues) && j < |issues|
    ensures LaterMemory(issues, issues[j].sid, issues[j].ctx)
       <==> exists k :: j < k < |issues| && issues[k].sid == issues[j].sid && issues[k].kind == Memory
  {
    forall k | 0 <= k < |issues|
      ensures issues[k].ctx > issues[j].ctx <==> k > j
    {}
  }
}
