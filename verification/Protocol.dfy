/** The message-processing protocol as a step machine: runs that compute and send a reply, the
    background jobs they leave behind, and edits and deletions that race with both. A step is one
    critical section of the processor, one operation on its shared map, one check of a context, or
    the outcome of one call to the outside. */
module Protocol {
  import opened Wrappers
  import opened Contexts
  import opened Processor

  // ---------- The machine ----------

  datatype Phase =
    | Loaded         // the state was looked up or created
    | Started        // begun; about to look whether the message is deleted
    | Ensuring       // storing the chat
    | AtTop          // about to take the loop's first snapshot
    | Preparing      // the memory step before the reply
    | Prepared       // about to issue a reply context
    | Deciding       // computing the reply
    | Failing        // the computation failed; about to look at its context
    | Interrupted    // its context was cancelled; about to take a snapshot
    | Decided        // the computation succeeded; about to take a snapshot
    | Exited         // out of the loop
    | Unchecked      // not deleted; about to look at the run's context
    | Sending        // calling SendText
    | Sent           // about to take the snapshot after sending
    | Finishing      // about to start the background job
    | Returned       // about to release
    | Unregistering  // released while holding the token
    | Done

  /** A run of handleMessageProcessing. The fields after `phase` record history. */
  datatype Run = Run(
    key: Key, sid: nat, root: nat, message: Message, token: nat, ctx: nat,
    revBefore: nat, attempt: nat, outbound: Option<string>, phase: Phase,
    startRevision: nat,           // the state's revision when the run began
    topToken: nat,                // the state's token at the loop's first snapshot
    basis: Message,               // the message the reply was computed from
    exitMessage: Message,         // the message at the loop-exit snapshot
    exitToken: nat,               // the state's token at the loop-exit snapshot
    exitDeleted: bool,
    passed: Option<Cause>,        // the cause of the run's context at the check before sending
    decides: nat,                 // how often the reply was computed
    unregistered: bool,           // whether the run has passed its removal from the shared map
    releasedAt: Option<nat>)      // how many contexts there were when it released while it held the token

  datatype JobPhase =
    | JobQueued | JobTop | JobReady | JobWorking | JobFailing | JobInterrupted | JobWorked | JobStoring | JobDone

  /** A run of finishMessageMemory. */
  datatype Job = Job(
    sid: nat, ctx: nat, revBefore: nat, attempt: nat, message: Message, reply: Option<string>, phase: JobPhase,
    startRevision: nat, updates: nat)

  /** An edit or a deletion that has looked up a state and waits for its lock. */
  datatype Handler = Handler(sid: nat, edit: Option<Message>, done: bool)

  /** An attempt context as it was issued. */
  datatype Issue = Issue(sid: nat, kind: Kind, ctx: nat, revision: nat)

  datatype Machine = Machine(g: Registry, runs: seq<Run>, jobs: seq<Job>, handlers: seq<Handler>, issues: seq<Issue>)

  /** What an outside call returned: an error, or success with a reply, if there is one to send. */
  datatype Outcome = Failure | Success(outbound: Option<string>)

  datatype Event =
    | NewCaller
    | Expire(root: nat, cause: Cause)
    | Arrive(message: Message, root: nat)
    | Begin(run: nat)
    | RunStep(run: nat, outcome: Outcome)
    | Release(run: nat)
    | Unregister(run: nat)
    | EditArrives(message: Message)
    | DeleteArrives(key: Key)
    | Handle(handler: nat)
    | JobStep(job: nat, outcome: Outcome)

  const INITIAL := Machine(Registry(map[], [], []), [], [], [], [])

  function NewRun(message: Message, sid: nat, root: nat): Run {
    Run(message.key, sid, root, message, 0, 0, 0, 0, None, Loaded, 0, 0, message, message, 0, false, None, 0, false,
        None)
  }

  predicate Begun(r: Run) {
    r.phase != Loaded
  }

  predicate Unreleased(r: Run) {
    Begun(r) && r.phase != Unregistering && r.phase != Done
  }

  /** A step of a run between `begin` and its return that changes the run alone. */
  function Advance(g: Registry, r: Run, outcome: Outcome): Run
    requires g.Valid() && RunExists(g, r)
  {
    var st := g.states[r.sid];
    match r.phase
    case Started => r.(phase := if st.deleted then Returned else Ensuring)
    case Ensuring => r.(phase := if outcome.Failure? then Returned else AtTop)
    case AtTop =>
      if st.deleted then r.(message := st.message, phase := Returned)
      else r.(message := st.message, revBefore := st.revision, phase := Preparing,
              topToken := st.runToken, basis := st.message)
    case Preparing => r.(phase := if outcome.Failure? then Returned else Prepared)
    case Deciding =>
      if outcome.Failure? then r.(phase := Failing) else r.(outbound := outcome.outbound, phase := Decided)
    case Failing => r.(phase := if IsCancelled(g.contexts, r.attempt) then Interrupted else Returned)
    case Interrupted =>
      r.(message := st.message, phase := if st.deleted || st.revision == r.revBefore then Returned else AtTop)
    case Decided =>
      if st.deleted then r.(message := st.message, phase := Returned)
      else if st.revision != r.revBefore then r.(message := st.message, phase := AtTop)
      else r.(message := st.message, phase := Exited, exitMessage := st.message,
              exitToken := st.runToken, exitDeleted := st.deleted)
    case Exited =>
      r.(phase := if r.outbound.None? then Finishing else if st.deleted then Returned else Unchecked)
    case Unchecked =>
      if IsCancelled(g.contexts, r.ctx) then r.(phase := Returned)
      else r.(phase := Sending, passed := CauseOf(g.contexts, r.ctx))
    case Sending => r.(phase := if outcome.Failure? then Returned else Sent)
    case Sent => r.(message := st.message, phase := if st.deleted then Returned else Finishing)
    case _ => r
  }

  /** One step of a run between `begin` and its return. */
  function StepRun(s: Machine, i: nat, outcome: Outcome): Machine
    requires s.g.Valid() && i < |s.runs| && RunExists(s.g, s.runs[i]) && Begun(s.runs[i])
  {
    var r := s.runs[i];
    if r.phase == Prepared then
      var h := s.g.Attempt(r.sid, Reply, r.ctx);
      var ctx := |h.contexts| - 1;
      s.(g := h, issues := s.issues + [Issue(r.sid, Reply, ctx, s.g.states[r.sid].revision)],
         runs := s.runs[i := r.(attempt := ctx, phase := Deciding, decides := r.decides + 1)])
    else if r.phase == Finishing then
      s.(jobs := s.jobs + [Job(r.sid, r.ctx, 0, 0, r.message, r.outbound, JobQueued, s.g.states[r.sid].revision, 0)],
         runs := s.runs[i := r.(phase := Returned)])
    else s.(runs := s.runs[i := Advance(s.g, r, outcome)])
  }

  /** A step of a background job that changes the job alone. */
  function AdvanceJob(g: Registry, j: Job, outcome: Outcome): Job
    requires g.Valid() && JobExists(g, j)
  {
    var st := g.states[j.sid];
    match j.phase
    case JobQueued => j.(message := st.message, phase := if st.deleted then JobDone else JobTop)
    case JobTop =>
      if st.deleted then j.(message := st.message, phase := JobDone)
      else j.(message := st.message, revBefore := st.revision, phase := JobReady)
    case JobWorking => j.(phase := if outcome.Failure? then JobFailing else JobWorked)
    case JobFailing => j.(phase := if IsCancelled(g.contexts, j.attempt) then JobInterrupted else JobDone)
    case JobInterrupted =>
      j.(message := st.message, phase := if st.deleted || st.revision == j.revBefore then JobDone else JobTop)
    case JobWorked =>
      j.(message := st.message,
         phase := if st.deleted then JobDone else if st.revision != j.revBefore then JobTop
                  else if j.reply.None? then JobDone else JobStoring)
    case JobStoring => j.(phase := JobDone)
    case _ => j
  }

  /** One step of a background job. */
  function StepJob(s: Machine, i: nat, outcome: Outcome): Machine
    requires s.g.Valid() && i < |s.jobs| && JobExists(s.g, s.jobs[i])
  {
    var j := s.jobs[i];
    if j.phase == JobReady then
      var h := s.g.Attempt(j.sid, Memory, j.ctx);
      var ctx := |h.contexts| - 1;
      s.(g := h, issues := s.issues + [Issue(j.sid, Memory, ctx, s.g.states[j.sid].revision)],
         jobs := s.jobs[i := j.(attempt := ctx, phase := JobWorking, updates := j.updates + 1)])
    else s.(jobs := s.jobs[i := AdvanceJob(s.g, j, outcome)])
  }

  /** An event that is not possible in a state leaves it unchanged. */
  function Apply(s: Machine, e: Event): Machine
    requires Sound(s)
  {
    match e
    case NewCaller => s.(g := s.g.(contexts := s.g.contexts + [Context(None, None)]))
    case Expire(root, cause) =>
      if root < |s.g.contexts| && s.g.contexts[root].parent.None? && (cause == Canceled || cause == DeadlineExceeded)
      then s.(g := s.g.(contexts := Cancel(s.g.contexts, root, cause)))
      else s
    case Arrive(message, root) =>
      if root < |s.g.contexts| && s.g.contexts[root].parent.None? then
        var (h, sid) := s.g.LoadOrStore(message.key);
        s.(g := h, runs := s.runs + [NewRun(message, sid, root)])
      else s
    case Begin(i) =>
      if i < |s.runs| && s.runs[i].phase == Loaded then
        var r := s.runs[i];
        var h := s.g.Begin(r.sid, r.message, r.root);
        var st := h.states[r.sid];
        s.(g := h, runs := s.runs[i := r.(token := st.runToken, ctx := |s.g.contexts|, phase := Started,
                                          startRevision := st.revision)])
      else s
    case RunStep(i, outcome) => if i < |s.runs| && Unreleased(s.runs[i]) then StepRun(s, i, outcome) else s
    case Release(i) =>
      if i < |s.runs| && s.runs[i].phase == Returned then
        var r := s.runs[i];
        var held := s.g.states[r.sid].runToken == r.token;
        s.(g := s.g.Release(r.sid, r.token),
           runs := s.runs[i := if held then r.(phase := Unregistering, releasedAt := Some(|s.g.contexts|))
                               else r.(phase := Done)])
      else s
    case Unregister(i) =>
      if i < |s.runs| && s.runs[i].phase == Unregistering then
        s.(g := s.g.Unregister(s.runs[i].key, s.runs[i].sid),
           runs := s.runs[i := s.runs[i].(phase := Done, unregistered := true)])
      else s
    case EditArrives(message) =>
      if message.key in s.g.byKey
      then s.(handlers := s.handlers + [Handler(s.g.byKey[message.key], Some(message), false)]) else s
    case DeleteArrives(key) =>
      if key in s.g.byKey then s.(handlers := s.handlers + [Handler(s.g.byKey[key], None, false)]) else s
    case Handle(i) =>
      if i < |s.handlers| && !s.handlers[i].done then
        var h := s.handlers[i];
        s.(g := if h.edit.Some? then s.g.Update(h.sid, h.edit.value) else s.g.Delete(h.sid),
           handlers := s.handlers[i := h.(done := true)])
      else s
    case JobStep(i, outcome) => if i < |s.jobs| then StepJob(s, i, outcome) else s
  }

  // ---------- The invariant ----------

  /** What makes every step defined. */
  ghost predicate Sound(s: Machine) {
    && s.g.Valid()
    && (forall i :: 0 <= i < |s.runs| ==> RunExists(s.g, s.runs[i]))
    && (forall i :: 0 <= i < |s.jobs| ==> JobExists(s.g, s.jobs[i]))
    && forall i :: 0 <= i < |s.handlers| ==> s.handlers[i].sid < |s.g.states|
  }

  predicate RunExists(g: Registry, r: Run) {
    && r.sid < |g.states| && r.root < |g.contexts|
    && (Begun(r) ==> r.ctx < |g.contexts|)
    && (r.phase in {Deciding, Failing, Interrupted, Decided} ==> r.attempt < |g.contexts|)
  }

  predicate JobExists(g: Registry, j: Job) {
    && j.sid < |g.states| && j.ctx < |g.contexts|
    && (j.phase in {JobWorking, JobFailing, JobInterrupted, JobWorked} ==> j.attempt < |g.contexts|)
  }

  /** A run that holds its state's token is registered there; one that lost it before releasing is cancelled. */
  ghost predicate TokenOk(g: Registry, r: Run)
    requires g.Valid() && RunExists(g, r)
  {
    Begun(r) ==>
      && 1 <= r.token <= g.states[r.sid].runToken
      && (Unreleased(r) ==> if r.token == g.states[r.sid].runToken
                            then g.states[r.sid].runCancel == Some(r.ctx)
                            else !Live(g.contexts, r.ctx))
  }

  /** The loop's snapshot: the message can have changed since only with the revision or the token. */
  ghost predicate SnapshotOk(g: Registry, r: Run)
    requires g.Valid() && RunExists(g, r)
  {
    var st := g.states[r.sid];
    r.phase in {Preparing, Prepared, Deciding, Failing, Interrupted, Decided} ==>
      && r.token <= r.topToken <= st.runToken
      && r.startRevision <= r.revBefore <= st.revision
      && (r.topToken == st.runToken && r.revBefore == st.revision ==> r.basis == st.message)
  }

  ghost predicate ExitOk(g: Registry, r: Run)
    requires g.Valid() && RunExists(g, r)
  {
    && (r.phase in {Exited, Unchecked, Sending, Sent, Finishing} ==>
          && r.token <= r.topToken <= r.exitToken <= g.states[r.sid].runToken
          && !r.exitDeleted
          && (r.topToken == r.exitToken ==> r.basis == r.exitMessage))
    && (r.phase in {Sending, Sent} ==>
          r.passed == Some(DeadlineExceeded) || (r.passed.None? && r.exitToken == r.token))
  }

  /** Each computation of the reply but the first was caused by an edit of its own. */
  ghost predicate DecidesOk(g: Registry, r: Run)
    requires g.Valid() && RunExists(g, r)
  {
    var revision := g.states[r.sid].revision;
    if !Begun(r) then r.decides == 0
    else
      && r.startRevision <= revision
      && match r.phase
         case Started | Ensuring | AtTop => r.decides <= revision - r.startRevision
         case Preparing | Prepared => r.decides <= r.revBefore - r.startRevision
         case Deciding | Failing | Interrupted | Decided => r.decides <= r.revBefore - r.startRevision + 1
         case _ => r.decides <= revision - r.startRevision + 1
  }

  ghost predicate RunOk(g: Registry, r: Run)
    requires g.Valid()
  {
    RunExists(g, r) && TokenOk(g, r) && SnapshotOk(g, r) && ExitOk(g, r) && DecidesOk(g, r)
  }

  ghost predicate JobOk(g: Registry, j: Job)
    requires g.Valid()
  {
    && JobExists(g, j)
    && j.startRevision <= g.states[j.sid].revision
    && match j.phase
       case JobQueued | JobTop => j.updates <= g.states[j.sid].revision - j.startRevision
       case JobReady =>
         j.startRevision <= j.revBefore <= g.states[j.sid].revision && j.updates <= j.revBefore - j.startRevision
       case JobWorking | JobFailing | JobInterrupted | JobWorked =>
         j.startRevision <= j.revBefore <= g.states[j.sid].revision && j.updates <= j.revBefore - j.startRevision + 1
       case _ => j.updates <= g.states[j.sid].revision - j.startRevision + 1
  }

  /** A live attempt context is the registered one, of the current revision, of a message not deleted. */
  ghost predicate IssueOk(g: Registry, a: Issue)
    requires g.Valid()
  {
    && a.sid < |g.states| && a.ctx < |g.contexts|
    && (Live(g.contexts, a.ctx) ==>
          && CancelOf(g.states[a.sid], a.kind) == Some(a.ctx)
          && a.revision == g.states[a.sid].revision
          && !g.states[a.sid].deleted)
  }

  ghost predicate TokensDiffer(runs: seq<Run>) {
    forall i, j :: 0 <= i < j < |runs| && Begun(runs[i]) && Begun(runs[j]) && runs[i].sid == runs[j].sid ==>
      runs[i].token != runs[j].token
  }

  ghost predicate Inv(s: Machine) {
    && Sound(s)
    && (forall i :: 0 <= i < |s.runs| ==> RunOk(s.g, s.runs[i]))
    && (forall i :: 0 <= i < |s.jobs| ==> JobOk(s.g, s.jobs[i]))
    && (forall i :: 0 <= i < |s.issues| ==> IssueOk(s.g, s.issues[i]))
    && TokensDiffer(s.runs)
  }

  // ---------- How the registry evolves ----------

  /** What every operation but a release does to a state. */
  ghost predicate StateEvolves(g: Registry, h: Registry, i: nat)
    requires g.Valid() && h.Valid() && i < |g.states| && i < |h.states|
  {
    var a, b := g.states[i], h.states[i];
    && a.runToken <= b.runToken && a.revision <= b.revision
    && (a.runToken == b.runToken && a.revision == b.revision ==> a.message == b.message)
    && (if a.runToken == b.runToken then a.runCancel == b.runCancel
        else a.runCancel.Some? ==> !Live(h.contexts, a.runCancel.value))
  }

  /** An attempt handle stays as it is together with revision and deletion, or what it named is cancelled. */
  ghost predicate HandleEvolves(g: Registry, h: Registry, i: nat, kind: Kind)
    requires g.Valid() && h.Valid() && i < |g.states| && i < |h.states|
  {
    var a, b := g.states[i], h.states[i];
    || CancelOf(a, kind).None?
    || !Live(h.contexts, CancelOf(a, kind).value)
    || (CancelOf(b, kind) == CancelOf(a, kind) && a.revision == b.revision && a.deleted == b.deleted)
  }

  ghost predicate HandlesEvolve(g: Registry, h: Registry)
    requires g.Valid()
  {
    && h.Valid() && |g.states| <= |h.states| && Extends(g.contexts, h.contexts)
    && forall i :: 0 <= i < |g.states| ==> HandleEvolves(g, h, i, Memory) && HandleEvolves(g, h, i, Reply)
  }

  ghost predicate Evolves(g: Registry, h: Registry)
    requires g.Valid()
  {
    HandlesEvolve(g, h) && forall i :: 0 <= i < |g.states| ==> StateEvolves(g, h, i)
  }

  lemma InterruptedExtends(g: Registry, sid: nat, cause: Cause)
    requires g.Valid() && sid < |g.states|
    ensures var cs := g.Interrupted(sid, cause);
            (&& Extends(g.contexts, cs)
             && (g.states[sid].memoryCancel.Some? ==> !Live(cs, g.states[sid].memoryCancel.value))
             && (g.states[sid].replyCancel.Some? ==> !Live(cs, g.states[sid].replyCancel.value)))
  {
    var cs0 := CancelAny(g.contexts, g.states[sid].memoryCancel, cause);
    CancelAnyExtends(g.contexts, g.states[sid].memoryCancel, cause);
    CancelAnyExtends(cs0, g.states[sid].replyCancel, cause);
    ExtendsIsTransitive(g.contexts, cs0, g.Interrupted(sid, cause));
  }

  lemma BeginEvolves(g: Registry, sid: nat, message: Message, parent: nat)
    requires g.Valid() && sid < |g.states| && parent < |g.contexts|
    ensures Evolves(g, g.Begin(sid, message, parent))
  {
    hide CancelAny;
    var st := g.states[sid];
    var cs0 := CancelAny(g.contexts, st.runCancel, MessageUpdated);
    var cs1 := CancelAny(cs0, st.memoryCancel, MessageUpdated);
    var cs2 := CancelAny(cs1, st.replyCancel, MessageUpdated);
    CancelAnyExtends(g.contexts, st.runCancel, MessageUpdated);
    CancelAnyExtends(cs0, st.memoryCancel, MessageUpdated);
    CancelAnyExtends(cs1, st.replyCancel, MessageUpdated);
    AddExtends(cs2, Context(Some(parent), None));
    ExtendsIsTransitive(g.contexts, cs0, cs1);
    ExtendsIsTransitive(g.contexts, cs1, cs2);
    ExtendsIsTransitive(g.contexts, cs2, WithCancel(cs2, parent));
  }

  lemma UpdateEvolves(g: Registry, sid: nat, message: Message)
    requires g.Valid() && sid < |g.states|
    ensures Evolves(g, g.Update(sid, message))
  {
    InterruptedExtends(g, sid, MessageUpdated);
  }

  lemma DeleteEvolves(g: Registry, sid: nat)
    requires g.Valid() && sid < |g.states|
    ensures Evolves(g, g.Delete(sid))
  {
    InterruptedExtends(g, sid, MessageDeleted);
    var cs := g.Interrupted(sid, MessageDeleted);
    CancelAnyExtends(cs, g.states[sid].runCancel, MessageDeleted);
    ExtendsIsTransitive(g.contexts, cs, g.Delete(sid).contexts);
  }

  lemma ReleaseEvolves(g: Registry, sid: nat, token: nat)
    requires g.Valid() && sid < |g.states|
    ensures HandlesEvolve(g, g.Release(sid, token))
    ensures forall i :: 0 <= i < |g.states| ==>
              (i != sid || g.states[i].runToken != token ==> StateEvolves(g, g.Release(sid, token), i))
  {
    InterruptedExtends(g, sid, MessageUpdated);
  }

  lemma AttemptEvolves(g: Registry, sid: nat, kind: Kind, parent: nat)
    requires g.Valid() && sid < |g.states| && parent < |g.contexts|
    ensures var h := g.Attempt(sid, kind, parent);
            Evolves(g, h) && IssueOk(h, Issue(sid, kind, |h.contexts| - 1, g.states[sid].revision))
  {
    hide CancelAny;
    var h := g.Attempt(sid, kind, parent);
    if g.states[sid].deleted {
      var cs := WithCancel(g.contexts, parent);
      AddExtends(g.contexts, Context(Some(parent), None));
      CancelExtends(cs, |g.contexts|, MessageDeleted);
      ExtendsIsTransitive(g.contexts, cs, h.contexts);
    } else {
      var cs := CancelAny(g.contexts, CancelOf(g.states[sid], kind), MessageUpdated);
      CancelAnyExtends(g.contexts, CancelOf(g.states[sid], kind), MessageUpdated);
      AddExtends(cs, Context(Some(parent), None));
      ExtendsIsTransitive(g.contexts, cs, h.contexts);
    }
  }

  // ---------- What evolution keeps ----------

  lemma RunKept(g: Registry, h: Registry, r: Run)
    requires g.Valid() && HandlesEvolve(g, h) && RunOk(g, r)
    requires StateEvolves(g, h, r.sid)
    ensures RunOk(h, r)
  {}

  lemma JobKept(g: Registry, h: Registry, j: Job)
    requires g.Valid() && HandlesEvolve(g, h) && JobOk(g, j)
    requires g.states[j.sid].revision <= h.states[j.sid].revision
    ensures JobOk(h, j)
  {}

  lemma IssueKept(g: Registry, h: Registry, a: Issue)
    requires g.Valid() && HandlesEvolve(g, h) && IssueOk(g, a)
    ensures IssueOk(h, a)
  {
    assert a.kind == Memory || a.kind == Reply;
    assert HandleEvolves(g, h, a.sid, a.kind);
  }

  /** Every run, job and attempt context survives a change of the registry. */
  lemma InvKept(s: Machine, h: Registry)
    requires Inv(s) && Evolves(s.g, h)
    ensures Inv(s.(g := h))
  {
    hide RunOk, JobOk, IssueOk, HandlesEvolve, StateEvolves;
    EvolvesGrows(s.g, h);
    forall i | 0 <= i < |s.runs| ensures RunOk(h, s.runs[i]) && RunExists(h, s.runs[i]) {
      RunKeptWhole(s.g, h, s.runs[i]);
    }
    forall i | 0 <= i < |s.jobs| ensures JobOk(h, s.jobs[i]) && JobExists(h, s.jobs[i]) {
      JobKeptWhole(s.g, h, s.jobs[i]);
    }
    forall i | 0 <= i < |s.issues| ensures IssueOk(h, s.issues[i]) {
      IssueKept(s.g, h, s.issues[i]);
    }
  }

  lemma EvolvesGrows(g: Registry, h: Registry)
    requires g.Valid() && Evolves(g, h)
    ensures h.Valid() && |g.states| <= |h.states|
  {}

  lemma RunKeptWhole(g: Registry, h: Registry, r: Run)
    requires g.Valid() && Evolves(g, h) && RunOk(g, r)
    ensures RunOk(h, r) && RunExists(h, r)
  {
    RunKept(g, h, r);
  }

  lemma JobKeptWhole(g: Registry, h: Registry, j: Job)
    requires g.Valid() && Evolves(g, h) && JobOk(g, j)
    ensures JobOk(h, j) && JobExists(h, j)
  {
    assert StateEvolves(g, h, j.sid);
    JobKept(g, h, j);
  }

  // ---------- Every step keeps the invariant ----------

  /** Replacing one run by another of the same state and token keeps the tokens apart. */
  lemma RunReplaced(s: Machine, i: nat, r: Run)
    requires Inv(s) && i < |s.runs| && RunOk(s.g, r)
    requires r.sid == s.runs[i].sid && r.token == s.runs[i].token && Begun(s.runs[i])
    ensures Inv(s.(runs := s.runs[i := r]))
  {
    hide TokenOk, SnapshotOk, ExitOk, DecidesOk, RunExists, JobExists, JobOk, IssueOk, Registry.Valid;
  }

  lemma JobReplaced(s: Machine, i: nat, j: Job)
    requires Inv(s) && i < |s.jobs| && JobOk(s.g, j)
    ensures Inv(s.(jobs := s.jobs[i := j]))
  {
    hide RunOk, RunExists, JobExists, IssueOk, Registry.Valid, TokensDiffer;
  }

  lemma JobAdded(s: Machine, j: Job)
    requires Inv(s) && JobOk(s.g, j)
    ensures Inv(s.(jobs := s.jobs + [j]))
  {
    hide RunOk, RunExists, JobExists, IssueOk, Registry.Valid, TokensDiffer;
  }

  lemma IssueAdded(s: Machine, a: Issue)
    requires Inv(s) && IssueOk(s.g, a)
    ensures Inv(s.(issues := s.issues + [a]))
  {
    hide RunOk, RunExists, JobExists, JobOk, Registry.Valid, TokensDiffer;
  }

  /** An attempt context: issued, recorded, and found in order. */
  lemma AttemptKeepsInv(s: Machine, sid: nat, kind: Kind, parent: nat)
    requires Inv(s) && sid < |s.g.states| && parent < |s.g.contexts|
    ensures var h := s.g.Attempt(sid, kind, parent);
            Inv(s.(g := h, issues := s.issues + [Issue(sid, kind, |h.contexts| - 1, s.g.states[sid].revision)]))
  {
    hide Inv, HandlesEvolve, StateEvolves, IssueOk;
    assert s.g.Valid() by { InvIsSound(s); }
    var h := s.g.Attempt(sid, kind, parent);
    AttemptEvolves(s.g, sid, kind, parent);
    InvKept(s, h);
    IssueAdded(s.(g := h), Issue(sid, kind, |h.contexts| - 1, s.g.states[sid].revision));
  }

  lemma InvIsSound(s: Machine)
    requires Inv(s)
    ensures Sound(s) && s.g.Valid()
  {}

  lemma RunStepKeepsInv(s: Machine, i: nat, outcome: Outcome)
    requires Inv(s) && i < |s.runs| && Unreleased(s.runs[i])
    ensures Inv(StepRun(s, i, outcome))
  {
    hide Inv, RunOk, Advance;
    InvIsSound(s);
    if s.runs[i].phase == Prepared {
      PreparedKeepsInv(s, i, outcome);
    } else if s.runs[i].phase == Finishing {
      FinishingKeepsInv(s, i, outcome);
    } else {
      assert RunOk(s.g, s.runs[i]) by { InvHasRun(s, i); }
      RunAdvances(s.g, s.runs[i], outcome);
      RunReplaced(s, i, Advance(s.g, s.runs[i], outcome));
    }
  }

  lemma InvHasRun(s: Machine, i: nat)
    requires Inv(s) && i < |s.runs|
    ensures RunOk(s.g, s.runs[i])
  {}

  lemma PreparedStep(s: Machine, i: nat, outcome: Outcome)
    requires s.g.Valid() && i < |s.runs| && RunExists(s.g, s.runs[i]) && s.runs[i].phase == Prepared
    ensures var r := s.runs[i];
            var h := s.g.Attempt(r.sid, Reply, r.ctx);
            StepRun(s, i, outcome)
            == s.(g := h, issues := s.issues + [Issue(r.sid, Reply, |h.contexts| - 1, s.g.states[r.sid].revision)],
                  runs := s.runs[i := r.(attempt := |h.contexts| - 1, phase := Deciding, decides := r.decides + 1)])
  {
    hide Registry.Attempt, Advance;
  }

  lemma PreparedKeepsInv(s: Machine, i: nat, outcome: Outcome)
    requires Inv(s) && i < |s.runs| && s.runs[i].phase == Prepared
    ensures Inv(StepRun(s, i, outcome))
  {
    hide Inv, RunOk;
    InvIsSound(s);
    assert RunExists(s.g, s.runs[i]);
    AttemptKeepsRun(s, i, Reply);
    AttemptKeepsInv(s, s.runs[i].sid, Reply, s.runs[i].ctx);
    AttemptThenRun(s, i, outcome);
  }

  lemma AttemptThenRun(s: Machine, i: nat, outcome: Outcome)
    requires s.g.Valid() && i < |s.runs| && s.runs[i].phase == Prepared
    requires RunExists(s.g, s.runs[i])
    requires var r, t := s.runs[i], StepRun(s, i, outcome);
             Inv(s.(g := t.g, issues := t.issues)) && i < |t.runs| && RunOk(t.g, t.runs[i])
    ensures Inv(StepRun(s, i, outcome))
  {
    hide RunOk, Inv, Registry.Attempt;
    var t := StepRun(s, i, outcome);
    RunReplaced(s.(g := t.g, issues := t.issues), i, t.runs[i]);
  }

  lemma FinishingKeepsInv(s: Machine, i: nat, outcome: Outcome)
    requires Inv(s) && i < |s.runs| && s.runs[i].phase == Finishing
    ensures Inv(StepRun(s, i, outcome))
  {
    var r := s.runs[i];
    assert RunOk(s.g, r);
    var t := StepRun(s, i, outcome);
    JobAdded(s, t.jobs[|s.jobs|]);
    RunReplaced(s.(jobs := t.jobs), i, t.runs[i]);
  }

  lemma RunAdvances(g: Registry, r: Run, outcome: Outcome)
    requires g.Valid() && RunOk(g, r) && Unreleased(r)
    ensures RunOk(g, Advance(g, r, outcome))
    ensures Advance(g, r, outcome).sid == r.sid && Advance(g, r, outcome).token == r.token
  {
    TokenAdvances(g, r, outcome);
    SnapshotAdvances(g, r, outcome);
    ExitAdvances(g, r, outcome);
    DecidesAdvances(g, r, outcome);
    hide Registry.Valid, Advance, RunExists, TokenOk, SnapshotOk, ExitOk, DecidesOk;
  }

  lemma TokenAdvances(g: Registry, r: Run, outcome: Outcome)
    requires g.Valid() && RunExists(g, r) && TokenOk(g, r) && Unreleased(r)
    ensures var a := Advance(g, r, outcome);
            a.sid == r.sid && a.token == r.token && RunExists(g, a) && TokenOk(g, a)
  {
    hide Registry.Valid, CauseOf, Live;
  }

  lemma SnapshotAdvances(g: Registry, r: Run, outcome: Outcome)
    requires g.Valid() && RunOk(g, r) && Unreleased(r)
    ensures RunExists(g, Advance(g, r, outcome)) && SnapshotOk(g, Advance(g, r, outcome))
  {
    hide Registry.Valid, CauseOf, Live, ExitOk;
  }

  lemma ExitAdvances(g: Registry, r: Run, outcome: Outcome)
    requires g.Valid() && RunOk(g, r) && Unreleased(r)
    ensures RunExists(g, Advance(g, r, outcome)) && ExitOk(g, Advance(g, r, outcome))
  {
    hide Registry.Valid, CauseOf, DecidesOk;
  }

  lemma DecidesAdvances(g: Registry, r: Run, outcome: Outcome)
    requires g.Valid() && RunOk(g, r) && Unreleased(r)
    ensures RunExists(g, Advance(g, r, outcome)) && DecidesOk(g, Advance(g, r, outcome))
  {
    hide Registry.Valid, CauseOf, Live, ExitOk, TokenOk;
  }

  lemma AttemptKeepsRun(s: Machine, i: nat, kind: Kind)
    requires Inv(s) && i < |s.runs| && s.runs[i].phase == Prepared
    ensures var r := s.runs[i];
            var h := s.g.Attempt(r.sid, Reply, r.ctx);
            RunOk(h, r.(attempt := |h.contexts| - 1, phase := Deciding, decides := r.decides + 1))
  {
    var r := s.runs[i];
    assert RunOk(s.g, r);
    AttemptEvolves(s.g, r.sid, Reply, r.ctx);
    RunKept(s.g, s.g.Attempt(r.sid, Reply, r.ctx), r);
  }

  lemma JobStepKeepsInv(s: Machine, i: nat, outcome: Outcome)
    requires Inv(s) && i < |s.jobs|
    ensures Inv(StepJob(s, i, outcome))
  {
    var j := s.jobs[i];
    assert JobOk(s.g, j);
    var t := StepJob(s, i, outcome);
    if j.phase == JobReady {
      AttemptKeepsInv(s, j.sid, Memory, j.ctx);
      var h := s.g.Attempt(j.sid, Memory, j.ctx);
      AttemptEvolves(s.g, j.sid, Memory, j.ctx);
      JobKeptWhole(s.g, h, j);
      JobReplaced(s.(g := h, issues := t.issues), i, t.jobs[i]);
    } else if j.phase != JobDone {
      JobAdvances(s.g, j, outcome);
      JobReplaced(s, i, t.jobs[i]);
    }
  }

  lemma JobAdvances(g: Registry, j: Job, outcome: Outcome)
    requires g.Valid() && JobOk(g, j) && j.phase != JobReady
    ensures JobOk(g, AdvanceJob(g, j, outcome))
  {
    hide Registry.Valid, CauseOf;
  }

  lemma BeginKeepsInv(s: Machine, i: nat)
    requires Inv(s) && i < |s.runs| && s.runs[i].phase == Loaded
    ensures Inv(Apply(s, Begin(i)))
  {
    var r := s.runs[i];
    assert RunOk(s.g, r);
    var h := s.g.Begin(r.sid, r.message, r.root);
    BeginEvolves(s.g, r.sid, r.message, r.root);
    InvKept(s, h);
    var t := Apply(s, Begin(i));
    assert RunOk(h, t.runs[i]);
    NewTokenDiffers(s, i, t.runs[i]);
    InvFromParts(s.(g := h), i, t.runs[i]);
  }

  lemma InvFromParts(s: Machine, i: nat, r: Run)
    requires Inv(s) && i < |s.runs| && RunOk(s.g, r) && TokensDiffer(s.runs[i := r])
    ensures Inv(s.(runs := s.runs[i := r]))
  {
    hide TokenOk, SnapshotOk, ExitOk, DecidesOk, RunExists, JobExists, JobOk, IssueOk, Registry.Valid, TokensDiffer;
  }

  lemma NewTokenDiffers(s: Machine, i: nat, r: Run)
    requires Inv(s) && i < |s.runs| && r.sid == s.runs[i].sid && r.sid < |s.g.states|
    requires r.token == s.g.states[r.sid].runToken + 1
    ensures TokensDiffer(s.runs[i := r])
  {
    hide SnapshotOk, ExitOk, DecidesOk, JobOk, IssueOk;
    forall j | 0 <= j < |s.runs| && j != i && Begun(s.runs[j]) && s.runs[j].sid == r.sid
      ensures s.runs[j].token < r.token
    {
      assert RunOk(s.g, s.runs[j]);
    }
  }

  lemma ReleaseKeepsInv(s: Machine, i: nat)
    requires Inv(s) && i < |s.runs| && s.runs[i].phase == Returned
    ensures Inv(Apply(s, Release(i)))
  {
    hide IssueOk, HandlesEvolve, Registry.Release;
    var r := s.runs[i];
    var h := s.g.Release(r.sid, r.token);
    var t := Apply(s, Release(i));
    ReleaseEvolves(s.g, r.sid, r.token);
    ReleaseGrows(s.g, r.sid, r.token);
    forall j | 0 <= j < |t.runs| ensures RunOk(h, t.runs[j]) {
      ReleaseKeepsRun(s, i, j);
    }
    forall j | 0 <= j < |s.jobs| ensures JobOk(h, s.jobs[j]) {
      assert JobOk(s.g, s.jobs[j]);
      JobKept(s.g, h, s.jobs[j]);
    }
    forall j | 0 <= j < |s.issues| ensures IssueOk(h, s.issues[j]) {
      IssueKept(s.g, h, s.issues[j]);
    }
  }

  lemma ReleaseGrows(g: Registry, sid: nat, token: nat)
    requires g.Valid() && sid < |g.states|
    ensures var h := g.Release(sid, token);
            (h.Valid() && |h.states| == |g.states| && |h.contexts| == |g.contexts|
             && forall i :: 0 <= i < |g.states| ==> h.states[i].revision == g.states[i].revision)
  {}

  lemma ReleaseKeepsRun(s: Machine, i: nat, j: nat)
    requires Inv(s) && i < |s.runs| && s.runs[i].phase == Returned && j < |s.runs|
    ensures RunOk(s.g.Release(s.runs[i].sid, s.runs[i].token), Apply(s, Release(i)).runs[j])
  {
    var r := s.runs[i];
    var h := s.g.Release(r.sid, r.token);
    assert RunOk(s.g, r) && RunOk(s.g, s.runs[j]);
    ReleaseEvolves(s.g, r.sid, r.token);
    if j == i {
      ReleasedRunOk(s.g, r, Apply(s, Release(i)).runs[i]);
    } else if s.runs[j].sid != r.sid || s.g.states[r.sid].runToken != r.token {
      hide RunOk;
      RunKept(s.g, h, s.runs[j]);
    } else {
      assert Begun(s.runs[j]) ==> s.runs[j].token != r.token;
      OtherRunOk(s.g, s.runs[j], r.token);
    }
  }

  lemma ReleasedRunOk(g: Registry, r: Run, q: Run)
    requires g.Valid() && RunOk(g, r) && r.phase == Returned && (q.phase == Unregistering || q.phase == Done)
    requires q == r.(phase := q.phase, releasedAt := q.releasedAt)
    ensures RunOk(g.Release(r.sid, r.token), q)
  {
    ReleaseEvolves(g, r.sid, r.token);
    ReleaseGrows(g, r.sid, r.token);
    hide Registry.Valid;
  }

  lemma OtherRunOk(g: Registry, r: Run, token: nat)
    requires g.Valid() && RunOk(g, r) && g.states[r.sid].runToken == token && (Begun(r) ==> r.token != token)
    ensures RunOk(g.Release(r.sid, token), r)
  {
    ReleaseEvolves(g, r.sid, token);
    ReleaseGrows(g, r.sid, token);
    hide Registry.Valid;
  }

  lemma ArriveKeepsInv(s: Machine, message: Message, root: nat)
    requires Inv(s)
    ensures Inv(Apply(s, Arrive(message, root)))
  {
    var (h, sid) := s.g.LoadOrStore(message.key);
    assert Evolves(s.g, h);
    InvKept(s, h);
    if root < |s.g.contexts| {
      RunAdded(s.(g := h), NewRun(message, sid, root));
    }
  }

  lemma RunAdded(s: Machine, r: Run)
    requires Inv(s) && RunOk(s.g, r) && !Begun(r)
    ensures Inv(s.(runs := s.runs + [r]))
  {
    hide TokenOk, SnapshotOk, ExitOk, DecidesOk, RunExists, JobExists, JobOk, IssueOk, Registry.Valid;
  }

  lemma ContextsChange(s: Machine, cs: seq<Context>)
    requires Inv(s) && Extends(s.g.contexts, cs)
    ensures Inv(s.(g := s.g.(contexts := cs)))
  {
    var h := s.g.(contexts := cs);
    assert Evolves(s.g, h);
    InvKept(s, h);
  }

  lemma ApplyKeepsInv(s: Machine, e: Event)
    requires Inv(s)
    ensures Inv(Apply(s, e))
  {
    match e {
      case NewCaller =>
        AddExtends(s.g.contexts, Context(None, None));
        ContextsChange(s, s.g.contexts + [Context(None, None)]);
      case Expire(root, cause) =>
        if root < |s.g.contexts| {
          CancelExtends(s.g.contexts, root, cause);
          ContextsChange(s, Cancel(s.g.contexts, root, cause));
        }
      case Arrive(message, root) => ArriveKeepsInv(s, message, root);
      case Begin(i) => if i < |s.runs| && s.runs[i].phase == Loaded { BeginKeepsInv(s, i); }
      case RunStep(i, outcome) => if i < |s.runs| && Unreleased(s.runs[i]) { RunStepKeepsInv(s, i, outcome); }
      case Release(i) => if i < |s.runs| && s.runs[i].phase == Returned { ReleaseKeepsInv(s, i); }
      case Unregister(i) => if i < |s.runs| && s.runs[i].phase == Unregistering { UnregisterKeepsInv(s, i); }
      case EditArrives(_) => HandlersChange(s, Apply(s, e).handlers);
      case DeleteArrives(_) => HandlersChange(s, Apply(s, e).handlers);
      case Handle(i) => if i < |s.handlers| && !s.handlers[i].done { HandleKeepsInv(s, i); }
      case JobStep(i, outcome) => if i < |s.jobs| { JobStepKeepsInv(s, i, outcome); }
    }
  }

  lemma UnregisterKeepsInv(s: Machine, i: nat)
    requires Inv(s) && i < |s.runs| && s.runs[i].phase == Unregistering
    ensures Inv(Apply(s, Unregister(i)))
  {
    var h := s.g.Unregister(s.runs[i].key, s.runs[i].sid);
    assert Evolves(s.g, h);
    InvKept(s, h);
    UnregisteredRunOk(h, s.runs[i]) by {
      assert RunOk(h, s.runs[i]);
    }
    hide Inv, RunOk;
    RunReplaced(s.(g := h), i, s.runs[i].(phase := Done, unregistered := true));
  }

  lemma UnregisteredRunOk(g: Registry, r: Run)
    requires g.Valid() && RunOk(g, r) && r.phase == Unregistering
    ensures RunOk(g, r.(phase := Done, unregistered := true))
  {}

  lemma HandlersChange(s: Machine, handlers: seq<Handler>)
    requires Inv(s) && forall i :: 0 <= i < |handlers| ==> handlers[i].sid < |s.g.states|
    ensures Inv(s.(handlers := handlers))
  {
    hide RunOk, JobOk, IssueOk, RunExists, JobExists, Registry.Valid, TokensDiffer;
  }

  lemma HandleKeepsInv(s: Machine, i: nat)
    requires Inv(s) && i < |s.handlers| && !s.handlers[i].done
    ensures Inv(Apply(s, Handle(i)))
  {
    var h := s.handlers[i];
    HandlersChange(s, s.handlers[i := h.(done := true)]);
    if h.edit.Some? {
      UpdateEvolves(s.g, h.sid, h.edit.value);
    } else {
      DeleteEvolves(s.g, h.sid);
    }
    InvKept(s.(handlers := s.handlers[i := h.(done := true)]), Apply(s, Handle(i)).g);
  }

  // ---------- Every reachable state ----------

  /** The state after a history of events; as `AfterHasInv` shows, it is always sound. */
  ghost function After(events: seq<Event>): Machine {
    if events == [] then INITIAL
    else
      var s := After(events[..|events| - 1]);
      if Sound(s) then Apply(s, events[|events| - 1]) else s
  }

  lemma {:induction false} AfterHasInv(events: seq<Event>)
    ensures Inv(After(events))
  {
    if events != [] {
      AfterHasInv(events[..|events| - 1]);
      var s := After(events[..|events| - 1]);
      ApplyKeepsInv(s, events[|events| - 1]);
      hide Inv, Apply;
      InvIsSound(s);
    }
  }

  ghost predicate Reachable(s: Machine) {
    exists events :: After(events) == s
  }

  lemma ReachableHasInv(s: Machine)
    requires Reachable(s)
    ensures Inv(s)
  {
    var events :| After(events) == s;
    AfterHasInv(events);
  }

  lemma Reach(s: Machine, e: Event) returns (t: Machine)
    requires Reachable(s)
    ensures Sound(s) && t == Apply(s, e) && Reachable(t)
  {
    hide Apply, Inv;
    var events :| After(events) == s;
    ReachableHasInv(s);
    InvIsSound(s);
    assert (events + [e])[..|events|] == events;
    t := After(events + [e]);
  }

  /** Whenever a run sends, its message was not deleted at the loop-exit snapshot, and was then exactly
      the message the reply was computed from: whatever edits, deletions, duplicate starts and
      releases took place; and its context was live when it looked at it. The one exception is a run whose
      context had passed its caller's deadline while a duplicate start took the token between the loop's two
      snapshots. */
  lemma SendIsCurrent(s: Machine, i: nat)
    requires Reachable(s) && i < |s.runs| && s.runs[i].phase in {Sending, Sent}
    ensures !s.runs[i].exitDeleted
    ensures s.runs[i].exitToken == s.runs[i].topToken ==> s.runs[i].exitMessage == s.runs[i].basis
    ensures s.runs[i].exitToken != s.runs[i].topToken ==> s.runs[i].passed == Some(DeadlineExceeded)
    ensures s.runs[i].passed != Some(DeadlineExceeded) ==>
              s.runs[i].passed.None? && s.runs[i].exitMessage == s.runs[i].basis
  {
    ReachableHasInv(s);
    InvHasRun(s, i);
  }

  /** Among the unreleased runs of a state only the holder of its token can have a live context. */
  lemma OneLiveRun(s: Machine, i: nat)
    requires Reachable(s) && Sound(s) && i < |s.runs| && Unreleased(s.runs[i]) && Live(s.g.contexts, s.runs[i].ctx)
    ensures s.runs[i].token == s.g.states[s.runs[i].sid].runToken
    ensures s.g.states[s.runs[i].sid].runCancel == Some(s.runs[i].ctx)
    ensures forall j :: 0 <= j < |s.runs| && j != i && s.runs[j].sid == s.runs[i].sid && Unreleased(s.runs[j]) ==>
              !Live(s.g.contexts, s.runs[j].ctx)
  {
    ReachableHasInv(s);
    InvHasRun(s, i);
    forall j | 0 <= j < |s.runs| && j != i && s.runs[j].sid == s.runs[i].sid && Unreleased(s.runs[j])
      ensures !Live(s.g.contexts, s.runs[j].ctx)
    {
      InvHasRun(s, j);
    }
  }

  /** A run computes its reply at most once more than its message was edited since it began. */
  lemma DecidesBounded(s: Machine, i: nat)
    requires Reachable(s) && i < |s.runs| && Begun(s.runs[i])
    ensures s.runs[i].sid < |s.g.states|
    ensures s.runs[i].decides <= s.g.states[s.runs[i].sid].revision - s.runs[i].startRevision + 1
  {
    ReachableHasInv(s);
    InvHasRun(s, i);
  }

  /** A background job updates the memory at most once more than the message was edited since it was left behind. */
  lemma UpdatesBounded(s: Machine, i: nat)
    requires Reachable(s) && i < |s.jobs|
    ensures s.jobs[i].sid < |s.g.states|
    ensures s.jobs[i].updates <= s.g.states[s.jobs[i].sid].revision - s.jobs[i].startRevision + 1
  {
    ReachableHasInv(s);
    assert JobOk(s.g, s.jobs[i]);
  }
}
