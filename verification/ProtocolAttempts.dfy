/** When an attempt context is alive, and when a run's reply context has been taken from it. */
module ProtocolAttempts {
  import opened Wrappers
  import opened Contexts
  import opened Processor
  import opened Protocol

  // ---------- The handles of a registry ----------

  /** A registered attempt was cancelled by none but, perhaps, its parent, and its message is not deleted. */
  predicate Untouched(g: Registry, i: nat, kind: Kind)
    requires i < |g.states|
  {
    var c := CancelOf(g.states[i], kind);
    c.Some? ==>
      && c.value < |g.contexts| && g.contexts[c.value].own.None? && g.contexts[c.value].parent.Some?
      && !g.states[i].deleted
  }

  /** No context is registered twice, as an attempt or as a run. */
  ghost predicate Apart(g: Registry, i: nat, kind: Kind)
    requires i < |g.states|
  {
    var c := CancelOf(g.states[i], kind);
    c.Some? ==>
      forall j: nat :: j < |g.states| ==>
        && g.states[j].runCancel != c
        && forall other: Kind :: CancelOf(g.states[j], other) == c ==> i == j && kind == other
  }

  ghost predicate HandlesOk(g: Registry) {
    forall i: nat, kind: Kind :: i < |g.states| ==> Untouched(g, i, kind) && Apart(g, i, kind)
  }

  /** A handle is gone, or the same, or new. */
  predicate HandleFrom(a: Option<nat>, b: Option<nat>, next: nat) {
    b.None? || b == a || b == Some(next)
  }

  /** What an operation on one state may do: cancel that state's own handles, forget what it cancels, and
      register one new context. */
  ghost predicate TouchesOne(g: Registry, h: Registry, sid: nat)
    requires sid < |g.states| && sid < |h.states|
  {
    var a, b, n := g.states[sid], h.states[sid], |g.contexts|;
    && |h.states| == |g.states| && |g.contexts| <= |h.contexts|
    && (forall i :: 0 <= i < |g.states| && i != sid ==> h.states[i] == g.states[i])
    && (forall x :: 0 <= x < n ==>
          && h.contexts[x].parent == g.contexts[x].parent
          && (h.contexts[x].own == g.contexts[x].own || (Some(x) in {a.runCancel, a.memoryCancel, a.replyCancel}
                                                         && Some(x) != b.memoryCancel && Some(x) != b.replyCancel)))
    && HandleFrom(a.runCancel, b.runCancel, n)
    && HandleFrom(a.memoryCancel, b.memoryCancel, n)
    && HandleFrom(a.replyCancel, b.replyCancel, n)
    && (b.memoryCancel == Some(n) ==> b.replyCancel != Some(n) && b.runCancel != Some(n))
    && (b.replyCancel == Some(n) ==> b.runCancel != Some(n))
    && (b.memoryCancel == Some(n) || b.replyCancel == Some(n) ==>
          n < |h.contexts| && h.contexts[n].own.None? && h.contexts[n].parent.Some?)
    && (b.deleted ==> b.memoryCancel.None? && b.replyCancel.None?)
  }

  lemma TouchingOneKeepsHandles(g: Registry, h: Registry, sid: nat)
    requires g.Valid() && HandlesOk(g) && sid < |g.states| && sid < |h.states| && TouchesOne(g, h, sid)
    ensures HandlesOk(h)
  {
    assert Untouched(g, sid, Memory) && Untouched(g, sid, Reply) && Apart(g, sid, Memory) && Apart(g, sid, Reply);
    forall i: nat, kind: Kind | i < |h.states|
      ensures Untouched(h, i, kind) && Apart(h, i, kind)
    {
      assert Untouched(g, i, kind) && Apart(g, i, kind);
      assert kind == Memory || kind == Reply;
    }
  }

  lemma CancelTouchesOne(cs: seq<Context>, c: Option<nat>, cause: Cause)
    requires WellFormed(cs) && (c.Some? ==> c.value < |cs|)
    ensures forall x :: 0 <= x < |cs| ==> CancelAny(cs, c, cause)[x].parent == cs[x].parent
    ensures forall x :: 0 <= x < |cs| && c != Some(x) ==> CancelAny(cs, c, cause)[x].own == cs[x].own
  {}

  lemma BeginKeepsHandles(g: Registry, sid: nat, message: Message, parent: nat)
    requires g.Valid() && HandlesOk(g) && sid < |g.states| && parent < |g.contexts|
    ensures HandlesOk(g.Begin(sid, message, parent))
  {
    hide CancelAny, HandlesOk;
    var st := g.states[sid];
    var cs0 := CancelAny(g.contexts, st.runCancel, MessageUpdated);
    var cs1 := CancelAny(cs0, st.memoryCancel, MessageUpdated);
    CancelTouchesOne(g.contexts, st.runCancel, MessageUpdated);
    CancelTouchesOne(cs0, st.memoryCancel, MessageUpdated);
    CancelTouchesOne(cs1, st.replyCancel, MessageUpdated);
    TouchingOneKeepsHandles(g, g.Begin(sid, message, parent), sid);
  }

  lemma InterruptedTouches(g: Registry, sid: nat, cause: Cause)
    requires g.Valid() && sid < |g.states|
    ensures var cs, st := g.Interrupted(sid, cause), g.states[sid];
            forall x :: 0 <= x < |g.contexts| ==>
              && cs[x].parent == g.contexts[x].parent
              && (cs[x].own == g.contexts[x].own || Some(x) == st.memoryCancel || Some(x) == st.replyCancel)
  {
    hide CancelAny;
    CancelTouchesOne(g.contexts, g.states[sid].memoryCancel, cause);
    CancelTouchesOne(CancelAny(g.contexts, g.states[sid].memoryCancel, cause), g.states[sid].replyCancel, cause);
  }

  lemma ReleaseKeepsHandles(g: Registry, sid: nat, token: nat)
    requires g.Valid() && HandlesOk(g) && sid < |g.states|
    ensures HandlesOk(g.Release(sid, token))
  {
    hide HandlesOk, Registry.Interrupted;
    if g.states[sid].runToken == token {
      InterruptedTouches(g, sid, MessageUpdated);
      TouchingOneKeepsHandles(g, g.Release(sid, token), sid);
    }
  }

  lemma UpdateKeepsHandles(g: Registry, sid: nat, message: Message)
    requires g.Valid() && HandlesOk(g) && sid < |g.states|
    ensures HandlesOk(g.Update(sid, message))
  {
    hide HandlesOk, Registry.Interrupted;
    if !g.states[sid].deleted {
      InterruptedTouches(g, sid, MessageUpdated);
      TouchingOneKeepsHandles(g, g.Update(sid, message), sid);
    }
  }

  lemma DeleteKeepsHandles(g: Registry, sid: nat)
    requires g.Valid() && HandlesOk(g) && sid < |g.states|
    ensures HandlesOk(g.Delete(sid))
  {
    hide HandlesOk, Registry.Interrupted, CancelAny;
    InterruptedTouches(g, sid, MessageDeleted);
    CancelTouchesOne(g.Interrupted(sid, MessageDeleted), g.states[sid].runCancel, MessageDeleted);
    TouchingOneKeepsHandles(g, g.Delete(sid), sid);
  }

  lemma AttemptKeepsHandles(g: Registry, sid: nat, kind: Kind, parent: nat)
    requires g.Valid() && HandlesOk(g) && sid < |g.states| && parent < |g.contexts|
    ensures HandlesOk(g.Attempt(sid, kind, parent))
  {
    assert g.states[sid].deleted ==> g.states[sid].memoryCancel.None? && g.states[sid].replyCancel.None? by {
      assert Untouched(g, sid, Memory) && Untouched(g, sid, Reply);
    }
    assert Apart(g, sid, Memory) && Apart(g, sid, Reply);
    hide HandlesOk, CancelAny, CauseOf;
    CancelTouchesOne(g.contexts, CancelOf(g.states[sid], kind), MessageUpdated);
    TouchingOneKeepsHandles(g, g.Attempt(sid, kind, parent), sid);
  }

  // ---------- Issues and the runs that wait for them ----------

  ghost predicate ParentsKept(cs: seq<Context>, ds: seq<Context>) {
    |cs| <= |ds| && forall x :: 0 <= x < |cs| ==> ds[x].parent == cs[x].parent
  }

  /** Attempts are issued in the order of their contexts, each under a parent. */
  ghost predicate IssuesOk(g: Registry, issues: seq<Issue>) {
    && (forall i :: 0 <= i < |issues| ==> issues[i].ctx < |g.contexts| && g.contexts[issues[i].ctx].parent.Some?)
    && forall i, j :: 0 <= i < j < |issues| ==> issues[i].ctx < issues[j].ctx
  }

  /** The run has issued a reply context and has not yet come to terms with its outcome. */
  predicate Awaiting(r: Run) {
    r.phase in {Deciding, Failing, Interrupted, Decided}
  }

  /** The run holds its state's token, at the revision it works on, and the message is not deleted. */
  predicate Holds(g: Registry, r: Run)
    requires r.sid < |g.states|
  {
    var st := g.states[r.sid];
    r.token == st.runToken && !st.deleted && r.revBefore == st.revision
  }

  ghost predicate Later(issues: seq<Issue>, sid: nat, ctx: nat) {
    exists k :: 0 <= k < |issues| && issues[k].sid == sid && issues[k].kind == Reply && issues[k].ctx > ctx
  }

  ghost predicate Issued(issues: seq<Issue>, sid: nat, ctx: nat) {
    exists k :: 0 <= k < |issues| && issues[k].sid == sid && issues[k].kind == Reply && issues[k].ctx == ctx
  }

  /** A waiting run's context is registered until a later one is issued for its state. */
  ghost predicate ReplyOk(g: Registry, issues: seq<Issue>, r: Run) {
    Awaiting(r) ==>
      && r.sid < |g.states| && r.attempt < |g.contexts|
      && g.contexts[r.attempt].parent == Some(r.ctx)
      && Issued(issues, r.sid, r.attempt)
      && (Holds(g, r) ==> (g.states[r.sid].replyCancel == Some(r.attempt) <==> !Later(issues, r.sid, r.attempt)))
  }

  ghost predicate Exact(s: Machine) {
    && HandlesOk(s.g) && IssuesOk(s.g, s.issues)
    && forall i :: 0 <= i < |s.runs| ==> ReplyOk(s.g, s.issues, s.runs[i])
  }

  lemma IssuesGrow(issues: seq<Issue>, a: Issue, sid: nat, ctx: nat)
    ensures Issued(issues, sid, ctx) ==> Issued(issues + [a], sid, ctx)
    ensures Later(issues + [a], sid, ctx)
       <==> Later(issues, sid, ctx) || (a.sid == sid && a.kind == Reply && a.ctx > ctx)
  {
    var more := issues + [a];
    assert more[|issues|] == a;
    if k :| 0 <= k < |issues| && issues[k].sid == sid && issues[k].kind == Reply && issues[k].ctx == ctx {
      assert more[k] == issues[k];
    }
    if k :| 0 <= k < |issues| && issues[k].sid == sid && issues[k].kind == Reply && issues[k].ctx > ctx {
      assert more[k] == issues[k];
    }
  }

  /** What leaves a waiting run alone: it still holds its state only if it did before, with the same handle. */
  predicate Undisturbed(g: Registry, h: Registry, r: Run) {
    r.sid < |g.states| && r.sid < |h.states|
    && (Holds(h, r) ==> Holds(g, r) && h.states[r.sid].replyCancel == g.states[r.sid].replyCancel)
  }

  lemma ReplyKept(g: Registry, h: Registry, issues: seq<Issue>, r: Run)
    requires ReplyOk(g, issues, r) && ParentsKept(g.contexts, h.contexts) && (Awaiting(r) ==> Undisturbed(g, h, r))
    ensures ReplyOk(h, issues, r)
  {
    hide Later, Issued;
  }

  /** A new attempt of another kind or state leaves a run alone; a new reply for its state ends its turn. */
  lemma ReplyAfterIssue(g: Registry, h: Registry, issues: seq<Issue>, a: Issue, r: Run)
    requires ReplyOk(g, issues, r) && ParentsKept(g.contexts, h.contexts) && a.ctx >= |g.contexts|
    requires Awaiting(r) ==>
               if a.sid == r.sid && a.kind == Reply
               then r.sid < |h.states| && (Holds(h, r) ==> h.states[r.sid].replyCancel == Some(a.ctx))
               else Undisturbed(g, h, r)
    ensures ReplyOk(h, issues + [a], r)
  {
    hide Later, Issued;
    IssuesGrow(issues, a, r.sid, r.attempt);
  }

  // ---------- Every operation ----------

  lemma BeginUndisturbs(g: Registry, sid: nat, message: Message, parent: nat, r: Run)
    requires g.Valid() && sid < |g.states| && parent < |g.contexts| && RunOk(g, r) && Awaiting(r)
    ensures Undisturbed(g, g.Begin(sid, message, parent), r)
  {
    hide CancelAny, Live;
  }

  lemma BeginKeepsParents(g: Registry, sid: nat, message: Message, parent: nat)
    requires g.Valid() && sid < |g.states| && parent < |g.contexts|
    ensures ParentsKept(g.contexts, g.Begin(sid, message, parent).contexts)
  {
    hide CancelAny;
    var st := g.states[sid];
    var cs0 := CancelAny(g.contexts, st.runCancel, MessageUpdated);
    var cs1 := CancelAny(cs0, st.memoryCancel, MessageUpdated);
    CancelTouchesOne(g.contexts, st.runCancel, MessageUpdated);
    CancelTouchesOne(cs0, st.memoryCancel, MessageUpdated);
    CancelTouchesOne(cs1, st.replyCancel, MessageUpdated);
  }

  lemma ReleaseUndisturbs(g: Registry, sid: nat, token: nat, r: Run)
    requires g.Valid() && sid < |g.states| && RunOk(g, r) && (r.sid == sid ==> r.token != token)
    ensures Undisturbed(g, g.Release(sid, token), r)
  {
    hide Registry.Interrupted, Registry.Valid, CauseOf;
  }

  lemma UpdateUndisturbs(g: Registry, sid: nat, message: Message, r: Run)
    requires g.Valid() && sid < |g.states| && RunOk(g, r) && Awaiting(r)
    ensures Undisturbed(g, g.Update(sid, message), r)
  {
    hide Registry.Interrupted, Registry.Valid, CauseOf;
  }

  lemma DeleteUndisturbs(g: Registry, sid: nat, r: Run)
    requires g.Valid() && sid < |g.states| && RunOk(g, r)
    ensures Undisturbed(g, g.Delete(sid), r)
  {
    hide Registry.Interrupted, Registry.Valid, CauseOf, CancelAny;
  }

  lemma OperationsKeepParents(g: Registry, sid: nat, cause: Cause)
    requires g.Valid() && sid < |g.states|
    ensures ParentsKept(g.contexts, g.Interrupted(sid, cause))
    ensures ParentsKept(g.contexts, g.Delete(sid).contexts)
  {
    hide CancelAny, Registry.Interrupted;
    InterruptedTouches(g, sid, cause);
    InterruptedTouches(g, sid, MessageDeleted);
    CancelTouchesOne(g.Interrupted(sid, MessageDeleted), g.states[sid].runCancel, MessageDeleted);
  }

  lemma AttemptKeepsParents(g: Registry, sid: nat, kind: Kind, parent: nat)
    requires g.Valid() && sid < |g.states| && parent < |g.contexts|
    ensures var h := g.Attempt(sid, kind, parent);
            && ParentsKept(g.contexts, h.contexts) && |h.contexts| == |g.contexts| + 1
            && h.contexts[|g.contexts|].parent == Some(parent)
  {
    hide CauseOf;
    CancelTouchesOne(g.contexts, CancelOf(g.states[sid], kind), MessageUpdated);
  }

  lemma AttemptSpares(g: Registry, sid: nat, kind: Kind, parent: nat, r: Run)
    requires g.Valid() && sid < |g.states| && parent < |g.contexts| && r.sid < |g.states|
    ensures var h := g.Attempt(sid, kind, parent);
            if sid == r.sid && kind == Reply
            then r.sid < |h.states| && (Holds(h, r) ==> h.states[r.sid].replyCancel == Some(|g.contexts|))
            else Undisturbed(g, h, r)
  {
    hide CauseOf, CancelAny;
  }

  // ---------- Every step ----------

  lemma RegistryKeepsExact(s: Machine, h: Registry)
    requires Exact(s) && HandlesOk(h) && ParentsKept(s.g.contexts, h.contexts)
    requires forall i :: 0 <= i < |s.runs| && Awaiting(s.runs[i]) ==> Undisturbed(s.g, h, s.runs[i])
    ensures Exact(s.(g := h))
  {
    hide HandlesOk, Undisturbed, ReplyOk;
    forall i | 0 <= i < |s.runs|
      ensures ReplyOk(h, s.issues, s.runs[i])
    {
      ReplyKept(s.g, h, s.issues, s.runs[i]);
    }
  }

  lemma RunKeepsExact(s: Machine, i: nat, r: Run)
    requires Exact(s) && i < |s.runs| && ReplyOk(s.g, s.issues, r)
    ensures Exact(s.(runs := s.runs[i := r]))
  {
    hide HandlesOk, IssuesOk, ReplyOk;
  }

  lemma ContextsKeepExact(s: Machine, cs: seq<Context>)
    requires Inv(s) && Exact(s) && ParentsKept(s.g.contexts, cs)
    requires forall x :: 0 <= x < |s.g.contexts| && s.g.contexts[x].parent.Some? ==> cs[x].own == s.g.contexts[x].own
    ensures Exact(s.(g := s.g.(contexts := cs)))
  {
    var h := s.g.(contexts := cs);
    assert Sound(s) by { hide Sound; InvIsSound(s); }
    forall i: nat, kind: Kind | i < |h.states|
      ensures Untouched(h, i, kind) && Apart(h, i, kind)
    {
      assert Untouched(s.g, i, kind) && Apart(s.g, i, kind);
    }
    hide Inv;
    forall i | 0 <= i < |s.runs|
      ensures Undisturbed(s.g, h, s.runs[i])
    {
      assert RunExists(s.g, s.runs[i]);
    }
    hide HandlesOk;
    RegistryKeepsExact(s, h);
  }

  lemma ArrivalKeepsExact(s: Machine, message: Message, root: nat)
    requires Inv(s) && Exact(s)
    ensures Sound(s) && Exact(Apply(s, Arrive(message, root)))
  {
    assert Sound(s) by { hide Sound; InvIsSound(s); }
    var (h, sid) := s.g.LoadOrStore(message.key);
    forall i: nat, kind: Kind | i < |h.states|
      ensures Untouched(h, i, kind) && Apart(h, i, kind)
    {
      if i < |s.g.states| {
        assert Untouched(s.g, i, kind) && Apart(s.g, i, kind);
      }
    }
    hide Inv;
    forall i | 0 <= i < |s.runs|
      ensures Undisturbed(s.g, h, s.runs[i])
    {
      assert RunExists(s.g, s.runs[i]);
    }
    RegistryKeepsExact(s, h);
    hide HandlesOk, IssuesOk;
  }

  lemma OthersUndisturbed(s: Machine, h: Registry)
    requires Inv(s) && Exact(s) && HandlesOk(h) && ParentsKept(s.g.contexts, h.contexts)
    requires forall r: Run :: RunOk(s.g, r) && Awaiting(r) ==> Undisturbed(s.g, h, r)
    ensures Exact(s.(g := h))
  {
    hide HandlesOk, ParentsKept, Undisturbed, RunOk, Exact;
    forall i | 0 <= i < |s.runs| && Awaiting(s.runs[i])
      ensures Undisturbed(s.g, h, s.runs[i])
    {
      InvHasRun(s, i);
    }
    RegistryKeepsExact(s, h);
  }

  lemma BeginKeepsExact(s: Machine, i: nat)
    requires Inv(s) && Exact(s) && i < |s.runs| && s.runs[i].phase == Loaded
    ensures Sound(s) && Exact(Apply(s, Event.Begin(i)))
  {
    InvIsSound(s);
    var r := s.runs[i];
    assert RunExists(s.g, r);
    var h := s.g.Begin(r.sid, r.message, r.root);
    assert HandlesOk(s.g);
    hide Inv, Exact, HandlesOk, ParentsKept, Undisturbed, RunOk, Registry.Begin;
    BeginKeepsHandles(s.g, r.sid, r.message, r.root);
    BeginKeepsParents(s.g, r.sid, r.message, r.root);
    forall q: Run | RunOk(s.g, q) && Awaiting(q)
      ensures Undisturbed(s.g, h, q)
    {
      BeginUndisturbs(s.g, r.sid, r.message, r.root, q);
    }
    OthersUndisturbed(s, h);
    var t := Apply(s, Event.Begin(i));
    RunKeepsExact(s.(g := h), i, t.runs[i]);
  }

  lemma ReleaseKeepsExact(s: Machine, i: nat)
    requires Inv(s) && Exact(s) && i < |s.runs| && s.runs[i].phase == Returned
    ensures Sound(s) && Exact(Apply(s, Event.Release(i)))
  {
    InvIsSound(s);
    var r := s.runs[i];
    assert RunExists(s.g, r);
    var h := s.g.Release(r.sid, r.token);
    assert HandlesOk(s.g) && TokensDiffer(s.runs);
    hide Inv, Exact, HandlesOk, Undisturbed, RunOk, Registry.Interrupted;
    ReleaseKeepsHandles(s.g, r.sid, r.token);
    OperationsKeepParents(s.g, r.sid, MessageUpdated);
    forall j | 0 <= j < |s.runs| && Awaiting(s.runs[j])
      ensures Undisturbed(s.g, h, s.runs[j])
    {
      InvHasRun(s, j);
      ReleaseUndisturbs(s.g, r.sid, r.token, s.runs[j]);
    }
    RegistryKeepsExact(s, h);
    var t := Apply(s, Event.Release(i));
    RunKeepsExact(s.(g := h), i, t.runs[i]);
  }

  lemma HandlingKeepsExact(s: Machine, i: nat)
    requires Inv(s) && Exact(s) && i < |s.handlers| && !s.handlers[i].done
    ensures Sound(s) && Exact(Apply(s, Handle(i)))
  {
    InvIsSound(s);
    var e := s.handlers[i];
    var h := if e.edit.Some? then s.g.Update(e.sid, e.edit.value) else s.g.Delete(e.sid);
    assert HandlesOk(s.g);
    hide Inv, HandlesOk, Undisturbed, RunOk, IssuesOk, ReplyOk, Registry.Delete, Registry.Interrupted;
    OperationsKeepParents(s.g, e.sid, MessageUpdated);
    if e.edit.Some? {
      UpdateKeepsHandles(s.g, e.sid, e.edit.value);
    } else {
      DeleteKeepsHandles(s.g, e.sid);
    }
    forall q: Run | RunOk(s.g, q) && Awaiting(q)
      ensures Undisturbed(s.g, h, q)
    {
      if e.edit.Some? {
        UpdateUndisturbs(s.g, e.sid, e.edit.value, q);
      } else {
        DeleteUndisturbs(s.g, e.sid, q);
      }
    }
    OthersUndisturbed(s, h);
  }

  /** An attempt is issued: for a job, or for a run that is not waiting. */
  lemma AttemptKeepsExact(s: Machine, sid: nat, kind: Kind, parent: nat)
    requires Inv(s) && Exact(s) && s.g.Valid() && sid < |s.g.states| && parent < |s.g.contexts|
    ensures var h := s.g.Attempt(sid, kind, parent);
            Exact(s.(g := h, issues := s.issues + [Issue(sid, kind, |h.contexts| - 1, s.g.states[sid].revision)]))
  {
    var h := s.g.Attempt(sid, kind, parent);
    var a := Issue(sid, kind, |s.g.contexts|, s.g.states[sid].revision);
    AttemptKeepsHandles(s.g, sid, kind, parent);
    AttemptKeepsParents(s.g, sid, kind, parent);
    hide HandlesOk, Registry.Attempt, Undisturbed, ReplyOk;
    forall i | 0 <= i < |s.runs|
      ensures ReplyOk(h, s.issues + [a], s.runs[i])
    {
      assert RunExists(s.g, s.runs[i]) by { InvHasRun(s, i); }
      AttemptSpares(s.g, sid, kind, parent, s.runs[i]);
      ReplyAfterIssue(s.g, h, s.issues, a, s.runs[i]);
    }
  }

  lemma NewestIssue(issues: seq<Issue>, a: Issue)
    requires forall k :: 0 <= k < |issues| ==> issues[k].ctx < a.ctx
    requires a.kind == Reply
    ensures Issued(issues + [a], a.sid, a.ctx) && !Later(issues + [a], a.sid, a.ctx)
  {
    assert (issues + [a])[|issues|] == a;
  }

  lemma NewReplyOk(g: Registry, issues: seq<Issue>, r: Run, revision: nat)
    requires g.Valid() && RunExists(g, r) && Begun(r) && IssuesOk(g, issues)
    ensures var h := g.Attempt(r.sid, Reply, r.ctx);
            ReplyOk(h, issues + [Issue(r.sid, Reply, |g.contexts|, revision)],
                    r.(attempt := |g.contexts|, phase := Deciding, decides := r.decides + 1))
  {
    AttemptKeepsParents(g, r.sid, Reply, r.ctx);
    AttemptSpares(g, r.sid, Reply, r.ctx, r);
    NewestIssue(issues, Issue(r.sid, Reply, |g.contexts|, revision));
    hide Registry.Attempt, Issued, Later, Registry.Valid;
  }

  lemma ReplyIssueKeepsExact(s: Machine, i: nat, outcome: Outcome)
    requires Inv(s) && Exact(s) && i < |s.runs| && s.runs[i].phase == Prepared
    ensures Sound(s) && Exact(StepRun(s, i, outcome))
  {
    InvIsSound(s);
    hide StepRun, Registry.Attempt, HandlesOk, ReplyOk;
    ReplyIsIssued(s, i);
    assert RunExists(s.g, s.runs[i]);
    PreparedStep(s, i, outcome);
  }

  lemma ReplyIsIssued(s: Machine, i: nat)
    requires Inv(s) && Exact(s) && i < |s.runs| && s.runs[i].phase == Prepared && s.g.Valid()
    requires IssuesOk(s.g, s.issues) && RunExists(s.g, s.runs[i])
    ensures var r := s.runs[i];
            var h := s.g.Attempt(r.sid, Reply, r.ctx);
            Exact(s.(g := h, issues := s.issues + [Issue(r.sid, Reply, |h.contexts| - 1, s.g.states[r.sid].revision)],
                     runs := s.runs[i := r.(attempt := |h.contexts| - 1, phase := Deciding, decides := r.decides + 1)]))
  {
    hide Inv, Exact, IssuesOk, ReplyOk, Registry.Attempt;
    var r := s.runs[i];
    var h := s.g.Attempt(r.sid, Reply, r.ctx);
    var a := Issue(r.sid, Reply, |s.g.contexts|, s.g.states[r.sid].revision);
    AttemptKeepsParents(s.g, r.sid, Reply, r.ctx);
    AttemptKeepsExact(s, r.sid, Reply, r.ctx);
    NewReplyOk(s.g, s.issues, r, a.revision);
    RunKeepsExact(s.(g := h, issues := s.issues + [a]), i,
                  r.(attempt := |s.g.contexts|, phase := Deciding, decides := r.decides + 1));
  }

  lemma AdvanceKeepsReply(g: Registry, issues: seq<Issue>, r: Run, outcome: Outcome)
    requires g.Valid() && RunExists(g, r) && ReplyOk(g, issues, r) && r.phase != Prepared
    ensures ReplyOk(g, issues, Advance(g, r, outcome))
  {
    hide Issued, Later, CauseOf, Registry.Valid;
  }

  lemma RunStepKeepsExact(s: Machine, i: nat, outcome: Outcome)
    requires Inv(s) && Exact(s) && i < |s.runs| && Unreleased(s.runs[i])
    ensures Sound(s) && Exact(StepRun(s, i, outcome))
  {
    InvIsSound(s);
    var r := s.runs[i];
    if r.phase == Prepared {
      ReplyIssueKeepsExact(s, i, outcome);
    } else if r.phase == Finishing {
      hide Inv, HandlesOk, IssuesOk;
    } else {
      assert RunExists(s.g, r) && ReplyOk(s.g, s.issues, r);
      hide Inv, Exact, ReplyOk, Advance;
      AdvanceKeepsReply(s.g, s.issues, r, outcome);
      RunKeepsExact(s, i, Advance(s.g, r, outcome));
    }
  }

  lemma JobStepKeepsExact(s: Machine, i: nat, outcome: Outcome)
    requires Inv(s) && Exact(s) && i < |s.jobs|
    ensures Sound(s) && Exact(StepJob(s, i, outcome))
  {
    InvIsSound(s);
    assert JobExists(s.g, s.jobs[i]);
    if s.jobs[i].phase == JobReady {
      AttemptKeepsExact(s, s.jobs[i].sid, Memory, s.jobs[i].ctx);
    }
    hide Inv, HandlesOk, IssuesOk, ReplyOk, AdvanceJob, Registry.Attempt;
  }

  lemma ExpiryKeepsExact(s: Machine, root: nat, cause: Cause)
    requires Inv(s) && Exact(s) && root < |s.g.contexts| && s.g.contexts[root].parent.None?
    ensures s.g.Valid() && Exact(s.(g := s.g.(contexts := Cancel(s.g.contexts, root, cause))))
  {
    InvIsSound(s);
    hide Inv, Exact, CauseOf;
    CancelTouchesOne(s.g.contexts, Some(root), cause);
    ContextsKeepExact(s, Cancel(s.g.contexts, root, cause));
  }

  lemma ApplyKeepsExact(s: Machine, e: Event)
    requires Inv(s) && Exact(s)
    ensures Sound(s) && Exact(Apply(s, e))
  {
    InvIsSound(s);
    hide Inv, StepRun, StepJob, HandlesOk, IssuesOk, ReplyOk;
    match e {
      case NewCaller => ContextsKeepExact(s, s.g.contexts + [Context(None, None)]);
      case Expire(root, cause) =>
        if root < |s.g.contexts| && s.g.contexts[root].parent.None? {
          ExpiryKeepsExact(s, root, cause);
        }
      case Arrive(message, root) => ArrivalKeepsExact(s, message, root);
      case Begin(i) => if i < |s.runs| && s.runs[i].phase == Loaded { BeginKeepsExact(s, i); }
      case RunStep(i, outcome) => if i < |s.runs| && Unreleased(s.runs[i]) { RunStepKeepsExact(s, i, outcome); }
      case Release(i) => if i < |s.runs| && s.runs[i].phase == Returned { ReleaseKeepsExact(s, i); }
      case Unregister(i) => UnregisterKeepsExact(s, i);
      case EditArrives(_) =>
      case DeleteArrives(_) =>
      case Handle(i) => if i < |s.handlers| && !s.handlers[i].done { HandlingKeepsExact(s, i); }
      case JobStep(i, outcome) => if i < |s.jobs| { JobStepKeepsExact(s, i, outcome); }
    }
  }

  lemma UnregisterKeepsExact(s: Machine, i: nat)
    requires Inv(s) && Exact(s)
    ensures Sound(s) && Exact(Apply(s, Unregister(i)))
  {
    InvIsSound(s);
    var t := Apply(s, Unregister(i));
    hide Inv;
    if t != s {
      forall j: nat, kind: Kind | j < |t.g.states|
        ensures Untouched(t.g, j, kind) && Apart(t.g, j, kind)
      {
        assert Untouched(s.g, j, kind) && Apart(s.g, j, kind);
      }
    }
  }

  lemma {:induction false} AlwaysExact(events: seq<Event>)
    ensures Exact(After(events))
  {
    hide Exact, Apply, Inv;
    if events == [] {
      InitialIsExact();
    } else {
      var init := events[..|events| - 1];
      AlwaysExact(init);
      AfterHasInv(init);
      ApplyKeepsExact(After(init), events[|events| - 1]);
    }
  }

  lemma InitialIsExact()
    ensures Exact(INITIAL)
  {}

  // ---------- Every reachable state ----------

  lemma ReachableIsExact(s: Machine)
    requires Reachable(s)
    ensures Exact(s) && Inv(s) && Sound(s)
  {
    hide Exact, Inv, Sound;
    var events :| After(events) == s;
    AlwaysExact(events);
    ReachableHasInv(s);
    InvIsSound(s);
  }

  /** An attempt context is live if and only if it is the one its state has registered and its parent is
      live; it was then issued at the state's current revision, and its message is not deleted. */
  lemma LiveAttemptExactly(s: Machine, i: nat)
    requires Reachable(s) && i < |s.issues|
    ensures Sound(s) && s.issues[i].sid < |s.g.states| && s.issues[i].ctx < |s.g.contexts|
    ensures s.g.contexts[s.issues[i].ctx].parent.Some?
    ensures var a, st := s.issues[i], s.g.states[s.issues[i].sid];
            Live(s.g.contexts, a.ctx)
            <==> CancelOf(st, a.kind) == Some(a.ctx) && Live(s.g.contexts, s.g.contexts[a.ctx].parent.value)
    ensures var a, st := s.issues[i], s.g.states[s.issues[i].sid];
            Live(s.g.contexts, a.ctx) ==> a.revision == st.revision && !st.deleted
  {
    ReachableIsExact(s);
    var a := s.issues[i];
    assert IssueOk(s.g, a);
    assert Untouched(s.g, a.sid, a.kind);
  }

  /** At most one attempt of each kind is live for a state. */
  lemma OneLiveAttempt(s: Machine, i: nat, j: nat)
    requires Reachable(s) && Sound(s) && i < |s.issues| && j < |s.issues|
    requires s.issues[i].sid == s.issues[j].sid && s.issues[i].kind == s.issues[j].kind
    requires Live(s.g.contexts, s.issues[i].ctx) && Live(s.g.contexts, s.issues[j].ctx)
    ensures s.issues[i].ctx == s.issues[j].ctx
  {
    hide Sound;
    LiveAttemptExactly(s, i);
    LiveAttemptExactly(s, j);
  }

  /** A run that is live and holds its state's token, whose message is neither deleted nor edited since
      its snapshot, finds its reply context cancelled if and only if another reply context was issued for
      its state after its own, the j-th. */
  lemma SilencedExactly(s: Machine, i: nat) returns (j: nat)
    requires Reachable(s) && Sound(s) && i < |s.runs| && Awaiting(s.runs[i])
    requires Live(s.g.contexts, s.runs[i].ctx) && Holds(s.g, s.runs[i])
    ensures j < |s.issues| && s.issues[j].sid == s.runs[i].sid && s.issues[j].kind == Reply
    ensures s.issues[j].ctx == s.runs[i].attempt
    ensures !Live(s.g.contexts, s.runs[i].attempt)
       <==> exists k :: j < k < |s.issues| && s.issues[k].sid == s.runs[i].sid && s.issues[k].kind == Reply
  {
    ReachableIsExact(s);
    var r := s.runs[i];
    assert ReplyOk(s.g, s.issues, r) && IssuesOk(s.g, s.issues);
    j :| 0 <= j < |s.issues| && s.issues[j].sid == r.sid && s.issues[j].kind == Reply && s.issues[j].ctx == r.attempt;
    LiveAttemptExactly(s, j);
    LaterMeans(s.g, s.issues, j);
  }

  lemma LaterMeans(g: Registry, issues: seq<Issue>, j: nat)
    requires IssuesOk(g, issues) && j < |issues|
    ensures Later(issues, issues[j].sid, issues[j].ctx)
       <==> exists k :: j < k < |issues| && issues[k].sid == issues[j].sid && issues[k].kind == Reply
  {
    forall k | 0 <= k < |issues|
      ensures issues[k].ctx > issues[j].ctx <==> k > j
    {}
  }
}
