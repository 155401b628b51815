/** The memory lanes of a chat as a step machine: callers that hand tasks to a worker through a bounded
    channel and wait for the result, unless their context ends first. A step is one operation on a
    channel or on the shared map, one check of a context, or the return of a task's function. */
module Lanes {
  import opened Wrappers

  const CAPACITY: nat := 64

  datatype Queue = Prepare | Background

  /** What a task reports: its context's error, or what its function returned. */
  datatype TaskResult = ContextError | FnResult(error: Option<string>)

  datatype Phase =
    | Inline                        // a call without a chat runs its function itself
    | Looking                       // about to load the chat's lanes
    | Missed                        // found none; about to load or store
    | Entering                      // about to start the worker, unless it was started
    | Offering                      // about to enqueue, or to leave
    | Waiting                       // about to receive the result, or to leave
    | Returned(result: TaskResult)

  /** A call of runPrepare or runBackground, and its task. `delivered` records what was ever put into `done`. */
  datatype Call = Call(
    chat: string, phase: Phase, lane: Option<nat>, cancelled: bool, done: seq<TaskResult>, delivered: seq<TaskResult>)

  datatype Worker = Idle | Checking(task: nat) | Running(task: nat) | Finishing(task: nat, result: TaskResult)

  /** One lane. The fields after `jobs` record history: the tasks enqueued, taken, run and finished, in order. */
  datatype Lane = Lane(
    chat: string, started: bool, workers: seq<Worker>, jobs: seq<nat>,
    accepted: seq<nat>, taken: seq<nat>, ran: seq<nat>, finished: seq<nat>)

  /** All lanes and calls of one queue. */
  datatype Side = Side(lanes: seq<Lane>, calls: seq<Call>)

  datatype Step =
    | Cancel(call: nat)
    | InlineReturns(call: nat, error: Option<string>)
    | Enter(call: nat)
    | Offer(call: nat)
    | Leave(call: nat)
    | Receive(call: nat)
    | Take(lane: nat, worker: nat)
    | Check(lane: nat, worker: nat)
    | FnReturns(lane: nat, worker: nat, error: Option<string>)
    | Finish(lane: nat, worker: nat)

  function EmptyLane(chat: string): Lane {
    Lane(chat, false, [], [], [], [], [], [])
  }

  function NewCall(chat: string): Call {
    Call(chat, if chat == "" then Inline else Looking, None, false, [], [])
  }

  function WithCall(s: Side, i: nat, c: Call): Side
    requires i < |s.calls|
  {
    s.(calls := s.calls[i := c])
  }

  function WithLane(s: Side, l: nat, lane: Lane): Side
    requires l < |s.lanes|
  {
    s.(lanes := s.lanes[l := lane])
  }

  function WithWorker(lane: Lane, w: nat, worker: Worker): Lane
    requires w < |lane.workers|
  {
    lane.(workers := lane.workers[w := worker])
  }

  predicate LaneExists(s: Side, c: Call) {
    c.lane.Some? && c.lane.value < |s.lanes|
  }

  /** A step of a caller. */
  function CallStep(s: Side, e: Step): Side {
    match e
    case Cancel(i) =>
      if i < |s.calls| then WithCall(s, i, s.calls[i].(cancelled := true)) else s
    case InlineReturns(i, error) =>
      if i < |s.calls| && s.calls[i].phase == Inline
      then WithCall(s, i, s.calls[i].(phase := Returned(FnResult(error)))) else s
    case Enter(i) =>
      if i < |s.calls| && s.calls[i].phase == Entering && LaneExists(s, s.calls[i]) then
        var l := s.calls[i].lane.value;
        var lane := s.lanes[l];
        var started := if lane.started then lane else lane.(started := true, workers := lane.workers + [Idle]);
        WithCall(WithLane(s, l, started), i, s.calls[i].(phase := Offering))
      else s
    case Offer(i) =>
      if i < |s.calls| && s.calls[i].phase == Offering && LaneExists(s, s.calls[i])
         && |s.lanes[s.calls[i].lane.value].jobs| < CAPACITY
      then
        var l := s.calls[i].lane.value;
        var lane := s.lanes[l];
        WithCall(WithLane(s, l, lane.(jobs := lane.jobs + [i], accepted := lane.accepted + [i])), i,
                 s.calls[i].(phase := Waiting))
      else s
    case Leave(i) =>
      if i < |s.calls| && s.calls[i].phase in {Offering, Waiting} && s.calls[i].cancelled
      then WithCall(s, i, s.calls[i].(phase := Returned(ContextError))) else s
    case Receive(i) =>
      if i < |s.calls| && s.calls[i].phase == Waiting && s.calls[i].done != []
      then WithCall(s, i, s.calls[i].(phase := Returned(s.calls[i].done[0]), done := s.calls[i].done[1..])) else s
    case _ => s
  }

  /** Whether a worker can put a result into its task's channel, which holds one. */
  predicate CanFinish(s: Side, task: nat) {
    task < |s.calls| && |s.calls[task].done| < 1
  }

  /** A step of a worker. */
  function WorkerStep(s: Side, e: Step): Side
    requires e.Take? || e.Check? || e.FnReturns? || e.Finish?
  {
    var l, w := e.lane, e.worker;
    if l >= |s.lanes| || w >= |s.lanes[l].workers| then s
    else
      var lane := s.lanes[l];
      var worker := lane.workers[w];
      match e
      case Take(_, _) =>
        if worker == Idle && lane.jobs != [] then
          var task := lane.jobs[0];
          WithLane(s, l, WithWorker(lane, w, Checking(task)).(jobs := lane.jobs[1..], taken := lane.taken + [task]))
        else s
      case Check(_, _) =>
        if worker.Checking? && worker.task < |s.calls| then
          if s.calls[worker.task].cancelled
          then WithLane(s, l, WithWorker(lane, w, Finishing(worker.task, ContextError)))
          else WithLane(s, l, WithWorker(lane, w, Running(worker.task)).(ran := lane.ran + [worker.task]))
        else s
      case FnReturns(_, _, error) =>
        if worker.Running? then WithLane(s, l, WithWorker(lane, w, Finishing(worker.task, FnResult(error)))) else s
      case Finish(_, _) =>
        if worker.Finishing? && CanFinish(s, worker.task) then
          var c := s.calls[worker.task];
          WithCall(WithLane(s, l, WithWorker(lane, w, Idle).(finished := lane.finished + [worker.task])), worker.task,
                   c.(done := c.done + [worker.result], delivered := c.delivered + [worker.result]))
        else s
  }

  /** A step that is not possible in a state leaves it unchanged. */
  function SideStep(s: Side, e: Step): Side {
    if e.Take? || e.Check? || e.FnReturns? || e.Finish? then WorkerStep(s, e) else CallStep(s, e)
  }

  // ---------- The invariant ----------

  ghost predicate NoRepeats(q: seq<nat>) {
    forall i, j :: 0 <= i < j < |q| ==> q[i] != q[j]
  }

  /** The task the worker has taken and not finished. */
  function InHand(lane: Lane): seq<nat> {
    if lane.workers == [] || lane.workers[0] == Idle then [] else [lane.workers[0].task]
  }

  ghost predicate Started(lane: Lane) {
    |lane.workers| == if lane.started then 1 else 0
  }

  /** One worker takes the tasks one by one in the order in which they were enqueued. */
  ghost predicate InOrder(lane: Lane) {
    && Started(lane)
    && lane.accepted == lane.taken + lane.jobs
    && lane.taken == lane.finished + InHand(lane)
    && |lane.jobs| <= CAPACITY
    && NoRepeats(lane.accepted)
    && (lane.accepted != [] ==> lane.started)
  }

  /** What the worker is doing fits the record of what was run. */
  ghost predicate RanOk(s: Side, lane: Lane) {
    && NoRepeats(lane.ran)
    && (forall i :: i in lane.ran ==> i in lane.taken)
    && (lane.workers != [] ==>
          match lane.workers[0]
          case Idle => true
          case Checking(i) => i !in lane.ran
          case Running(i) => i in lane.ran
          case Finishing(i, r) =>
            if r == ContextError then i !in lane.ran && i < |s.calls| && s.calls[i].cancelled else i in lane.ran)
  }

  ghost predicate LaneOk(s: Side, l: nat)
    requires l < |s.lanes|
  {
    && InOrder(s.lanes[l]) && RanOk(s, s.lanes[l])
    && forall i :: i in s.lanes[l].accepted ==> i < |s.calls| && s.calls[i].lane == Some(l)
  }

  /** A finished task has exactly one result, of its own kind; any other has none. */
  ghost predicate ResultOk(c: Call, finished: bool, ran: bool) {
    if finished then
      && |c.delivered| == 1
      && (c.delivered[0] == ContextError <==> !ran)
      && (c.delivered[0] == ContextError ==> c.cancelled)
      && (if c.done == [] then c.phase.Returned? && c.phase.result in {c.delivered[0], ContextError}
          else c.done == c.delivered)
    else c.delivered == [] && c.done == []
  }

  ghost predicate CallOk(s: Side, i: nat)
    requires i < |s.calls|
  {
    var c := s.calls[i];
    && (c.lane.Some? ==> c.lane.value < |s.lanes| && s.lanes[c.lane.value].chat == c.chat && c.chat != "")
    && (c.phase in {Looking, Missed} ==> c.lane.None? && c.chat != "")
    && (c.phase == Inline ==> c.lane.None?)
    && (c.phase in {Entering, Offering, Waiting} ==> c.lane.Some?)
    && (c.lane.Some? ==>
          var lane := s.lanes[c.lane.value];
          && (c.phase in {Entering, Offering} ==> i !in lane.accepted)
          && (c.phase == Offering ==> lane.started)
          && (c.phase == Waiting ==> i in lane.accepted)
          && ResultOk(c, i in lane.finished, i in lane.ran))
    && (c.lane.None? ==> c.delivered == [] && c.done == [])
    && (c.phase == Returned(ContextError) ==> c.cancelled)
    && (c.phase.Returned? && c.phase.result.FnResult? && c.lane.Some? ==> c.delivered == [c.phase.result])
  }

  ghost predicate SideOk(s: Side) {
    && (forall l :: 0 <= l < |s.lanes| ==> LaneOk(s, l))
    && forall i :: 0 <= i < |s.calls| ==> CallOk(s, i)
  }

  /** Changing one call, with its lane and identity kept, keeps all lanes. */
  lemma CallChangeKeepsSide(s: Side, i: nat, c: Call)
    requires SideOk(s) && i < |s.calls| && CallOk(WithCall(s, i, c), i)
    requires c.lane == s.calls[i].lane && (s.calls[i].cancelled ==> c.cancelled)
    ensures SideOk(WithCall(s, i, c))
  {
    hide NoRepeats, InOrder, ResultOk;
    var t := WithCall(s, i, c);
    forall j | 0 <= j < |t.calls| ensures CallOk(t, j) {
      assert CallOk(s, j);
    }
    forall l | 0 <= l < |t.lanes| ensures LaneOk(t, l) {
      assert LaneOk(s, l);
    }
  }

  /** Changing one lane, in what concerns one task alone, keeps all others. */
  lemma LaneChangeKeepsSide(s: Side, l: nat, lane: Lane, i: nat, c: Call)
    requires SideOk(s) && l < |s.lanes| && i < |s.calls|
    requires lane.chat == s.lanes[l].chat && (s.lanes[l].started ==> lane.started)
    requires forall j | j != i ::
               && (j in lane.accepted <==> j in s.lanes[l].accepted)
               && (j in lane.finished <==> j in s.lanes[l].finished)
               && (j in lane.ran <==> j in s.lanes[l].ran)
    requires c.lane == s.calls[i].lane && (s.calls[i].cancelled ==> c.cancelled)
    requires LaneOk(WithCall(WithLane(s, l, lane), i, c), l) && CallOk(WithCall(WithLane(s, l, lane), i, c), i)
    ensures SideOk(WithCall(WithLane(s, l, lane), i, c))
  {
    hide NoRepeats, InOrder, ResultOk;
    var t := WithCall(WithLane(s, l, lane), i, c);
    forall j | 0 <= j < |t.calls| ensures CallOk(t, j) {
      assert CallOk(s, j);
    }
    forall k | 0 <= k < |t.lanes| ensures LaneOk(t, k) {
      if k != l {
        assert LaneOk(s, k);
      }
    }
  }

  lemma CallerMoves(s: Side, e: Step)
    requires SideOk(s) && (e.Cancel? || e.InlineReturns? || e.Leave? || e.Receive?)
    ensures SideOk(CallStep(s, e))
  {
    hide NoRepeats, InOrder, LaneOk;
    var t := CallStep(s, e);
    if t != s {
      assert CallOk(s, e.call);
      assert CallOk(t, e.call);
      CallChangeKeepsSide(s, e.call, t.calls[e.call]);
    }
  }

  lemma EnterKeepsSide(s: Side, i: nat)
    requires SideOk(s)
    ensures SideOk(CallStep(s, Enter(i)))
  {
    hide NoRepeats;
    var t := CallStep(s, Enter(i));
    if t != s {
      var l := s.calls[i].lane.value;
      assert LaneOk(s, l) && CallOk(s, i);
      LaneChangeKeepsSide(s, l, t.lanes[l], i, t.calls[i]);
    }
  }

  lemma OfferKeepsSide(s: Side, i: nat)
    requires SideOk(s)
    ensures SideOk(CallStep(s, Offer(i)))
  {
    var t := CallStep(s, Offer(i));
    if t != s {
      var l := s.calls[i].lane.value;
      assert LaneOk(s, l) && CallOk(s, i);
      LaneChangeKeepsSide(s, l, t.lanes[l], i, t.calls[i]);
    }
  }

  /** What a lane's worker has in hand was accepted and has no result yet. */
  lemma InHandIsOpen(s: Side, l: nat)
    requires SideOk(s) && l < |s.lanes| && s.lanes[l].workers != [] && s.lanes[l].workers[0] != Idle
    ensures var i := s.lanes[l].workers[0].task;
            && i < |s.calls| && CallOk(s, i) && s.calls[i].lane == Some(l)
            && i in s.lanes[l].accepted && i !in s.lanes[l].finished && CanFinish(s, i)
  {
    var lane := s.lanes[l];
    var i := lane.workers[0].task;
    assert LaneOk(s, l);
    assert lane.accepted == lane.finished + [i] + lane.jobs;
    assert lane.accepted[|lane.finished|] == i;
    assert forall k :: 0 <= k < |lane.finished| ==> lane.accepted[k] == lane.finished[k];
    assert i in lane.accepted && CallOk(s, i);
  }

  lemma TakenIsNew(lane: Lane)
    requires InOrder(lane) && lane.jobs != []
    ensures lane.jobs[0] !in lane.taken
  {
    assert lane.accepted[|lane.taken|] == lane.jobs[0];
    assert forall k :: 0 <= k < |lane.taken| ==> lane.accepted[k] == lane.taken[k];
  }

  lemma TakeKeepsSide(s: Side, l: nat, w: nat)
    requires SideOk(s)
    ensures SideOk(WorkerStep(s, Take(l, w)))
  {
    var t := WorkerStep(s, Take(l, w));
    if t != s {
      assert LaneOk(s, l);
      var lane := s.lanes[l];
      var i := lane.jobs[0];
      assert lane.accepted[|lane.taken|] == i && i in lane.accepted;
      assert CallOk(s, i);
      TakenIsNew(lane);
      assert t.lanes[l].taken + t.lanes[l].jobs == lane.accepted;
      assert t == WithCall(WithLane(s, l, t.lanes[l]), i, s.calls[i]);
      LaneChangeKeepsSide(s, l, t.lanes[l], i, s.calls[i]);
    }
  }

  lemma CheckKeepsSide(s: Side, l: nat, w: nat)
    requires SideOk(s)
    ensures SideOk(WorkerStep(s, Check(l, w)))
  {
    var t := WorkerStep(s, Check(l, w));
    if t != s {
      assert LaneOk(s, l);
      InHandIsOpen(s, l);
      var i := s.lanes[l].workers[w].task;
      assert t == WithCall(WithLane(s, l, t.lanes[l]), i, s.calls[i]);
      LaneChangeKeepsSide(s, l, t.lanes[l], i, s.calls[i]);
    }
  }

  lemma FnReturnsKeepsSide(s: Side, l: nat, w: nat, error: Option<string>)
    requires SideOk(s)
    ensures SideOk(WorkerStep(s, FnReturns(l, w, error)))
  {
    var t := WorkerStep(s, FnReturns(l, w, error));
    if t != s {
      assert LaneOk(s, l);
      InHandIsOpen(s, l);
      var i := s.lanes[l].workers[w].task;
      assert t == WithCall(WithLane(s, l, t.lanes[l]), i, s.calls[i]);
      LaneChangeKeepsSide(s, l, t.lanes[l], i, s.calls[i]);
    }
  }

  lemma FinishKeepsSide(s: Side, l: nat, w: nat)
    requires SideOk(s)
    ensures SideOk(WorkerStep(s, Finish(l, w)))
  {
    var t := WorkerStep(s, Finish(l, w));
    if t != s {
      assert LaneOk(s, l);
      InHandIsOpen(s, l);
      var i := s.lanes[l].workers[w].task;
      LaneChangeKeepsSide(s, l, t.lanes[l], i, t.calls[i]);
    }
  }

  lemma SideStepKeepsSide(s: Side, e: Step)
    requires SideOk(s)
    ensures SideOk(SideStep(s, e))
  {
    hide SideOk, CallStep, WorkerStep;
    match e
    case Enter(i) => EnterKeepsSide(s, i);
    case Offer(i) => OfferKeepsSide(s, i);
    case Take(l, w) => TakeKeepsSide(s, l, w);
    case Check(l, w) => CheckKeepsSide(s, l, w);
    case FnReturns(l, w, error) => FnReturnsKeepsSide(s, l, w, error);
    case Finish(l, w) => FinishKeepsSide(s, l, w);
    case _ => CallerMoves(s, e);
  }

  // ---------- The lanes of all chats ----------

  /** The shared map gives each chat a pair of lanes: the same index into either side. */
  datatype Locker = Locker(chats: map<string, nat>, prepare: Side, background: Side)
  {
    function Of(q: Queue): Side {
      if q == Prepare then prepare else background
    }

    function With(q: Queue, s: Side): Locker {
      if q == Prepare then this.(prepare := s) else this.(background := s)
    }
  }

  datatype Event =
    | Arrive(queue: Queue, chat: string)
    | Load(queue: Queue, call: nat)
    | LoadOrStore(queue: Queue, call: nat)
    | On(queue: Queue, step: Step)

  const EMPTY := Locker(map[], Side([], []), Side([], []))

  function Found(s: Side, i: nat, l: nat): Side
    requires i < |s.calls|
  {
    WithCall(s, i, s.calls[i].(phase := Entering, lane := Some(l)))
  }

  function Grown(s: Side, chat: string): Side {
    s.(lanes := s.lanes + [EmptyLane(chat)])
  }

  function Apply(k: Locker, e: Event): Locker {
    var s := k.Of(e.queue);
    match e
    case Arrive(q, chat) => k.With(q, s.(calls := s.calls + [NewCall(chat)]))
    case Load(q, i) =>
      if i < |s.calls| && s.calls[i].phase == Looking then
        if s.calls[i].chat in k.chats then k.With(q, Found(s, i, k.chats[s.calls[i].chat]))
        else k.With(q, WithCall(s, i, s.calls[i].(phase := Missed)))
      else k
    case LoadOrStore(q, i) =>
      if i < |s.calls| && s.calls[i].phase == Missed then
        var chat := s.calls[i].chat;
        if chat in k.chats then k.With(q, Found(s, i, k.chats[chat]))
        else
          var h := Locker(k.chats[chat := |s.lanes|], Grown(k.prepare, chat), Grown(k.background, chat));
          h.With(q, Found(h.Of(q), i, |s.lanes|))
      else k
    case On(q, step) => k.With(q, SideStep(s, step))
  }

  function After(events: seq<Event>): Locker {
    if events == [] then EMPTY else Apply(After(events[..|events| - 1]), events[|events| - 1])
  }

  /** Lanes and entries of the shared map correspond one to one. */
  ghost predicate Paired(k: Locker) {
    && |k.prepare.lanes| == |k.background.lanes|
    && (forall l :: 0 <= l < |k.prepare.lanes| ==>
          && k.prepare.lanes[l].chat == k.background.lanes[l].chat
          && k.prepare.lanes[l].chat in k.chats && k.chats[k.prepare.lanes[l].chat] == l)
    && forall chat :: chat in k.chats ==>
         k.chats[chat] < |k.prepare.lanes| && k.prepare.lanes[k.chats[chat]].chat == chat
  }

  ghost predicate Inv(k: Locker) {
    Paired(k) && SideOk(k.prepare) && SideOk(k.background)
  }

  lemma SideStepKeepsChats(s: Side, e: Step)
    ensures |SideStep(s, e).lanes| == |s.lanes| && |SideStep(s, e).calls| == |s.calls|
    ensures forall l :: 0 <= l < |s.lanes| ==> SideStep(s, e).lanes[l].chat == s.lanes[l].chat
  {}

  lemma ArrivalKeepsSide(s: Side, chat: string)
    requires SideOk(s)
    ensures SideOk(s.(calls := s.calls + [NewCall(chat)]))
  {
    hide InOrder, NoRepeats, ResultOk;
    var t := s.(calls := s.calls + [NewCall(chat)]);
    forall i | 0 <= i < |t.calls| ensures CallOk(t, i) {
      if i < |s.calls| {
        assert CallOk(s, i);
      }
    }
    forall l | 0 <= l < |t.lanes| ensures LaneOk(t, l) {
      assert LaneOk(s, l);
    }
  }

  lemma GrowthKeepsSide(s: Side, chat: string)
    requires SideOk(s)
    ensures SideOk(Grown(s, chat))
  {
    hide ResultOk;
    var t := Grown(s, chat);
    forall i | 0 <= i < |t.calls| ensures CallOk(t, i) {
      assert CallOk(s, i);
    }
    forall l | 0 <= l < |t.lanes| ensures LaneOk(t, l) {
      if l < |s.lanes| {
        assert LaneOk(s, l);
      }
    }
  }

  lemma MissKeepsSide(s: Side, i: nat)
    requires SideOk(s) && i < |s.calls| && s.calls[i].phase == Looking
    ensures SideOk(WithCall(s, i, s.calls[i].(phase := Missed)))
  {
    hide LaneOk;
    assert CallOk(s, i);
    CallChangeKeepsSide(s, i, s.calls[i].(phase := Missed));
  }

  lemma FoundKeepsSide(s: Side, i: nat, l: nat)
    requires SideOk(s) && i < |s.calls| && s.calls[i].phase in {Looking, Missed}
    requires l < |s.lanes| && s.lanes[l].chat == s.calls[i].chat
    ensures SideOk(Found(s, i, l))
  {
    hide InOrder, NoRepeats;
    assert CallOk(s, i);
    var t := Found(s, i, l);
    assert LaneOk(s, l);
    NothingFinishedOutside(s, l, i);
    forall j | 0 <= j < |t.calls| ensures CallOk(t, j) {
      if j != i {
        assert CallOk(s, j);
      }
    }
    forall m | 0 <= m < |t.lanes| ensures LaneOk(t, m) {
      assert LaneOk(s, m);
    }
  }

  lemma NothingFinishedOutside(s: Side, l: nat, i: nat)
    requires l < |s.lanes| && LaneOk(s, l) && i < |s.calls| && s.calls[i].lane != Some(l)
    ensures i !in s.lanes[l].accepted && i !in s.lanes[l].finished && i !in s.lanes[l].ran
  {
    var lane := s.lanes[l];
    assert forall j :: j in lane.finished ==> j in lane.taken;
    assert forall j :: j in lane.taken ==> j in lane.accepted;
  }

  /** Replacing a side by one with the same lanes' chats. */
  lemma SideReplaced(k: Locker, q: Queue, s: Side)
    requires Inv(k) && SideOk(s) && |s.lanes| == |k.Of(q).lanes|
    requires forall l :: 0 <= l < |s.lanes| ==> s.lanes[l].chat == k.Of(q).lanes[l].chat
    ensures Inv(k.With(q, s))
  {
    hide SideOk;
  }

  lemma GrownIsPaired(k: Locker, chat: string)
    requires Inv(k) && chat !in k.chats
    ensures Inv(Locker(k.chats[chat := |k.prepare.lanes|], Grown(k.prepare, chat), Grown(k.background, chat)))
  {
    GrowthKeepsSide(k.prepare, chat);
    GrowthKeepsSide(k.background, chat);
    hide SideOk;
  }

  lemma LookupKeepsInv(k: Locker, q: Queue, i: nat)
    requires Inv(k) && i < |k.Of(q).calls| && k.Of(q).calls[i].phase in {Looking, Missed}
    requires k.Of(q).calls[i].chat in k.chats
    ensures Inv(k.With(q, Found(k.Of(q), i, k.chats[k.Of(q).calls[i].chat])))
  {
    var s := k.Of(q);
    var l := k.chats[s.calls[i].chat];
    FoundKeepsSide(s, i, l);
    hide SideOk;
    SideReplaced(k, q, Found(s, i, l));
  }

  lemma ApplyKeepsInv(k: Locker, e: Event)
    requires Inv(k)
    ensures Inv(Apply(k, e))
  {
    var s := k.Of(e.queue);
    assert SideOk(s) && |k.prepare.lanes| == |k.background.lanes|;
    hide Inv, SideOk, SideStep, NewCall;
    match e {
      case Arrive(q, chat) =>
        ArrivalKeepsSide(s, chat);
        SideReplaced(k, q, s.(calls := s.calls + [NewCall(chat)]));
      case Load(q, i) =>
        if i < |s.calls| && s.calls[i].phase == Looking {
          if s.calls[i].chat in k.chats {
            LookupKeepsInv(k, q, i);
          } else {
            MissKeepsSide(s, i);
            SideReplaced(k, q, WithCall(s, i, s.calls[i].(phase := Missed)));
          }
        }
      case LoadOrStore(q, i) =>
        if i < |s.calls| && s.calls[i].phase == Missed {
          var chat := s.calls[i].chat;
          if chat in k.chats {
            LookupKeepsInv(k, q, i);
          } else {
            GrownIsPaired(k, chat);
            var h := Locker(k.chats[chat := |s.lanes|], Grown(k.prepare, chat), Grown(k.background, chat));
            LookupKeepsInv(h, q, i);
          }
        }
      case On(q, step) =>
        SideStepKeepsSide(s, step);
        SideStepKeepsChats(s, step);
        SideReplaced(k, q, SideStep(s, step));
    }
  }

  lemma {:induction false} AlwaysInv(events: seq<Event>)
    ensures Inv(After(events))
  {
    hide Apply;
    if events != [] {
      AlwaysInv(events[..|events| - 1]);
      ApplyKeepsInv(After(events[..|events| - 1]), events[|events| - 1]);
    }
  }

  // ---------- What the lanes promise ----------

  /** In every history a lane has at most one worker, which takes tasks in the order in which they were
      enqueued, each once, and finishes one before it takes the next; at most 64 wait. */
  lemma OneTaskAtATime(events: seq<Event>, q: Queue, l: nat)
    requires l < |After(events).Of(q).lanes|
    ensures var lane := After(events).Of(q).lanes[l];
            && |lane.workers| <= 1 && (lane.accepted != [] ==> |lane.workers| == 1)
            && lane.accepted == lane.finished + InHand(lane) + lane.jobs
            && |InHand(lane)| <= 1 && |lane.jobs| <= 64
            && NoRepeats(lane.accepted) && NoRepeats(lane.ran)
  {
    AlwaysInv(events);
    assert LaneOk(After(events).Of(q), l);
  }

  /** Calls of one queue use the same lane exactly when they are of the same chat. */
  lemma ChatsDoNotShareLanes(events: seq<Event>, q: Queue, i: nat, j: nat)
    requires i < |After(events).Of(q).calls| && After(events).Of(q).calls[i].lane.Some?
    requires j < |After(events).Of(q).calls| && After(events).Of(q).calls[j].lane.Some?
    ensures var calls := After(events).Of(q).calls;
            calls[i].lane == calls[j].lane <==> calls[i].chat == calls[j].chat
  {
    AlwaysInv(events);
    var s := After(events).Of(q);
    assert CallOk(s, i) && CallOk(s, j);
  }

  /** A task is given exactly one result when it is finished and none before; the result is its
      context's error exactly when its function was not run, and the caller returns that result,
      unless it left because its context had ended. */
  lemma OneResultEach(events: seq<Event>, q: Queue, i: nat)
    requires i < |After(events).Of(q).calls| && After(events).Of(q).calls[i].lane.Some?
    ensures var s := After(events).Of(q);
            var c := s.calls[i];
            && c.lane.value < |s.lanes|
            && var lane := s.lanes[c.lane.value];
            && |c.delivered| == (if i in lane.finished then 1 else 0)
            && (i in lane.finished ==> (c.delivered == [ContextError] <==> i !in lane.ran))
            && (c.phase.Returned? ==>
                  (c.phase.result == ContextError && c.cancelled) || c.delivered == [c.phase.result])
  {
    AlwaysInv(events);
    var s := After(events).Of(q);
    assert CallOk(s, i);
  }

  /** Reporting a result never blocks the worker, whether or not the caller is still there. */
  lemma FinishNeverBlocks(events: seq<Event>, q: Queue, l: nat, w: nat)
    requires l < |After(events).Of(q).lanes| && w < |After(events).Of(q).lanes[l].workers|
    requires After(events).Of(q).lanes[l].workers[w].Finishing?
    ensures var s := After(events).Of(q);
            && CanFinish(s, s.lanes[l].workers[w].task)
            && SideStep(s, Finish(l, w)).lanes[l].workers[w] == Idle
  {
    hide SideStep, SideOk, CanFinish, NoRepeats;
    AlwaysInv(events);
    OneTaskAtATime(events, q, l);
    InHandIsOpen(After(events).Of(q), l);
    FinishLeavesIdle(After(events).Of(q), l, w);
  }

  lemma FinishLeavesIdle(s: Side, l: nat, w: nat)
    requires l < |s.lanes| && w < |s.lanes[l].workers| && s.lanes[l].workers[w].Finishing?
    requires CanFinish(s, s.lanes[l].workers[w].task)
    ensures SideStep(s, Finish(l, w)).lanes[l].workers[w] == Idle
  {}

  /** The task was found cancelled when it was taken, or is about to be, and was not run. */
  ghost predicate Doomed(s: Side, l: nat, i: nat) {
    && l < |s.lanes| && i < |s.calls| && s.calls[i].cancelled && i !in s.lanes[l].ran && i in s.lanes[l].taken
    && (s.lanes[l].workers != [] ==> s.lanes[l].workers[0] != Running(i))
  }

  lemma WorkerLeavesDoomed(s: Side, e: Step, l: nat, i: nat)
    requires SideOk(s) && Doomed(s, l, i) && (e.Take? || e.Check? || e.FnReturns? || e.Finish?)
    ensures Doomed(WorkerStep(s, e), l, i)
  {
    hide ResultOk, CallOk;
    assert LaneOk(s, l);
    if e.Take? && e.lane == l && s.lanes[l].jobs != [] {
      TakenIsNew(s.lanes[l]);
    }
  }

  lemma CallerLeavesDoomed(s: Side, e: Step, l: nat, i: nat)
    requires SideOk(s) && Doomed(s, l, i)
    ensures Doomed(CallStep(s, e), l, i)
  {
    hide ResultOk, CallOk, NoRepeats;
    assert LaneOk(s, l);
  }

  lemma DoomedStays(k: Locker, e: Event, q: Queue, l: nat, i: nat)
    requires Inv(k) && Doomed(k.Of(q), l, i)
    ensures Doomed(Apply(k, e).Of(q), l, i)
  {
    hide SideOk, CallStep, WorkerStep, Paired;
    if e.On? && e.queue == q {
      if e.step.Take? || e.step.Check? || e.step.FnReturns? || e.step.Finish? {
        WorkerLeavesDoomed(k.Of(q), e.step, l, i);
      } else {
        CallerLeavesDoomed(k.Of(q), e.step, l, i);
      }
    }
  }

  lemma {:induction false} StaysDoomed(events: seq<Event>, more: seq<Event>, q: Queue, l: nat, i: nat)
    requires Doomed(After(events).Of(q), l, i)
    ensures Doomed(After(events + more).Of(q), l, i)
    decreases |more|
  {
    hide Apply, Inv, Doomed;
    if more == [] {
      assert events + more == events;
    } else {
      var init := more[..|more| - 1];
      assert (events + more)[..|events + more| - 1] == events + init;
      StaysDoomed(events, init, q, l, i);
      AlwaysInv(events + init);
      DoomedStays(After(events + init), more[|more| - 1], q, l, i);
    }
  }

  /** A task whose context has ended when the worker looks at it is never run. */
  lemma CancelledIsNeverRun(events: seq<Event>, more: seq<Event>, q: Queue, l: nat, i: nat)
    requires l < |After(events).Of(q).lanes| && After(events).Of(q).lanes[l].workers == [Checking(i)]
    requires i < |After(events).Of(q).calls| && After(events).Of(q).calls[i].cancelled
    ensures var later := After(events + more).Of(q);
            l < |later.lanes| && i !in later.lanes[l].ran
  {
    AlwaysInv(events);
    var s := After(events).Of(q);
    assert LaneOk(s, l);
    assert s.lanes[l].taken[|s.lanes[l].finished|] == i;
    StaysDoomed(events, more, q, l, i);
  }

  // ---------- Independence ----------

  /** The history without what happens in the background lanes. */
  function WithoutBackground(events: seq<Event>): seq<Event> {
    if events == [] then []
    else
      var e := events[|events| - 1];
      var rest := WithoutBackground(events[..|events| - 1]);
      if e.On? && e.queue == Background then rest else rest + [e]
  }

  predicate LookingUp(c: Call) {
    c.phase in {Looking, Missed}
  }

  /** The same chats, prepare lanes and lookups, whatever the background lanes hold. */
  ghost predicate Alike(k: Locker, m: Locker) {
    && k.chats == m.chats && k.prepare == m.prepare
    && |k.background.lanes| == |m.background.lanes| && |k.background.calls| == |m.background.calls|
    && forall i :: 0 <= i < |k.background.calls| ==>
         && k.background.calls[i].chat == m.background.calls[i].chat
         && (LookingUp(k.background.calls[i]) || LookingUp(m.background.calls[i]) ==>
               k.background.calls[i].phase == m.background.calls[i].phase)
  }

  lemma BackgroundStepKeepsLookups(s: Side, e: Step)
    ensures var t := SideStep(s, e);
            && |t.lanes| == |s.lanes| && |t.calls| == |s.calls|
            && forall i :: 0 <= i < |s.calls| ==>
                 && t.calls[i].chat == s.calls[i].chat
                 && (LookingUp(s.calls[i]) || LookingUp(t.calls[i]) ==> t.calls[i].phase == s.calls[i].phase)
  {}

  lemma PrepareEventKeepsAlike(k: Locker, m: Locker, e: Event)
    requires Inv(k) && Inv(m) && Alike(k, m) && e.queue == Prepare
    ensures Alike(Apply(k, e), Apply(m, e))
  {
    hide SideOk, SideStep, NewCall, LookingUp;
  }

  lemma ArrivalKeepsAlike(k: Locker, m: Locker, chat: string)
    requires Alike(k, m)
    ensures Alike(Apply(k, Arrive(Background, chat)), Apply(m, Arrive(Background, chat)))
  {
    hide NewCall;
  }

  lemma LoadKeepsAlike(k: Locker, m: Locker, i: nat)
    requires Alike(k, m)
    ensures Alike(Apply(k, Load(Background, i)), Apply(m, Load(Background, i)))
  {}

  lemma StoreKeepsAlike(k: Locker, m: Locker, i: nat)
    requires Alike(k, m)
    ensures Alike(Apply(k, LoadOrStore(Background, i)), Apply(m, LoadOrStore(Background, i)))
  {
    hide EmptyLane;
  }

  lemma ApplyKeepsAlike(k: Locker, m: Locker, e: Event)
    requires Inv(k) && Inv(m) && Alike(k, m) && !(e.On? && e.queue == Background)
    ensures Alike(Apply(k, e), Apply(m, e))
  {
    hide Inv, Alike, Apply;
    if e.queue == Prepare {
      PrepareEventKeepsAlike(k, m, e);
    } else if e.Arrive? {
      ArrivalKeepsAlike(k, m, e.chat);
    } else if e.Load? {
      LoadKeepsAlike(k, m, e.call);
    } else {
      StoreKeepsAlike(k, m, e.call);
    }
  }

  /** In every history, the prepare lanes and the shared map are what they would be if nothing ever
      happened in the background lanes: a slow background task delays no prepare step. */
  lemma {:induction false} BackgroundIsInvisible(events: seq<Event>)
    ensures Alike(After(events), After(WithoutBackground(events)))
  {
    hide Apply, Inv, Alike;
    if events == [] {
      assert Alike(EMPTY, EMPTY) by { LikeItself(); }
    } else {
      var init, e := events[..|events| - 1], events[|events| - 1];
      BackgroundIsInvisible(init);
      if e.On? && e.queue == Background {
        BackgroundStepIsInvisible(After(init), After(WithoutBackground(init)), e);
      } else {
        var kept := WithoutBackground(init);
        assert (kept + [e])[..|kept|] == kept;
        AlwaysInv(init);
        AlwaysInv(kept);
        ApplyKeepsAlike(After(init), After(kept), e);
      }
    }
  }

  lemma LikeItself()
    ensures Alike(EMPTY, EMPTY)
  {}

  lemma BackgroundStepIsInvisible(k: Locker, m: Locker, e: Event)
    requires Alike(k, m) && e.On? && e.queue == Background
    ensures Alike(Apply(k, e), m)
  {
    hide SideStep;
    BackgroundStepKeepsLookups(k.background, e.step);
  }
}
