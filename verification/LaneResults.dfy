/** What the callers of the memory lanes are told: what the functions of their own tasks returned. */
module LaneResults {
  import opened Wrappers
  import opened Lanes

  /** The task whose function a step returns from, and with what. */
  function ReturnsIn(s: Side, e: Step): set<(nat, Option<string>)> {
    match e
    case InlineReturns(i, error) => if i < |s.calls| && s.calls[i].phase == Inline then {(i, error)} else {}
    case FnReturns(l, w, error) =>
      if l < |s.lanes| && w < |s.lanes[l].workers| && s.lanes[l].workers[w].Running?
      then {(s.lanes[l].workers[w].task, error)} else {}
    case _ => {}
  }

  /** All that the functions of one queue's tasks have returned in a history. */
  function Reported(events: seq<Event>, q: Queue): set<(nat, Option<string>)> {
    if events == [] then {}
    else
      var init, e := events[..|events| - 1], events[|events| - 1];
      Reported(init, q) + if e.On? && e.queue == q then ReturnsIn(After(init).Of(q), e.step) else {}
  }

  predicate From(reported: set<(nat, Option<string>)>, i: nat, r: TaskResult) {
    r.FnResult? ==> (i, r.error) in reported
  }

  predicate CallFrom(reported: set<(nat, Option<string>)>, i: nat, c: Call) {
    && (forall r :: r in c.delivered ==> From(reported, i, r)) && (forall r :: r in c.done ==> From(reported, i, r))
    && (c.phase.Returned? ==> From(reported, i, c.phase.result))
  }

  predicate LaneFrom(reported: set<(nat, Option<string>)>, lane: Lane) {
    forall w :: 0 <= w < |lane.workers| && lane.workers[w].Finishing? ==>
      From(reported, lane.workers[w].task, lane.workers[w].result)
  }

  predicate AllFrom(reported: set<(nat, Option<string>)>, s: Side) {
    && (forall i :: 0 <= i < |s.calls| ==> CallFrom(reported, i, s.calls[i]))
    && forall l :: 0 <= l < |s.lanes| ==> LaneFrom(reported, s.lanes[l])
  }

  lemma MoreReported(reported: set<(nat, Option<string>)>, more: set<(nat, Option<string>)>, s: Side)
    requires AllFrom(reported, s)
    ensures AllFrom(reported + more, s)
  {}

  lemma StepReports(reported: set<(nat, Option<string>)>, s: Side, e: Step)
    requires AllFrom(reported, s)
    ensures AllFrom(reported + ReturnsIn(s, e), SideStep(s, e))
  {
    MoreReported(reported, ReturnsIn(s, e), s);
    if e.Take? || e.Check? || e.FnReturns? || e.Finish? {
      WorkerReports(reported + ReturnsIn(s, e), s, e);
    } else {
      CallerReports(reported + ReturnsIn(s, e), s, e);
    }
  }

  lemma WorkerReports(reported: set<(nat, Option<string>)>, s: Side, e: Step)
    requires AllFrom(reported, s) && ReturnsIn(s, e) <= reported && (e.Take? || e.Check? || e.FnReturns? || e.Finish?)
    ensures AllFrom(reported, WorkerStep(s, e))
  {
    var t := WorkerStep(s, e);
    if t != s {
      var lane := s.lanes[e.lane];
      assert LaneFrom(reported, lane);
      if e.FnReturns? {
        assert (lane.workers[e.worker].task, e.error) in ReturnsIn(s, e);
      }
      assert LaneFrom(reported, t.lanes[e.lane]);
      forall i | 0 <= i < |t.calls|
        ensures CallFrom(reported, i, t.calls[i])
      {
        assert CallFrom(reported, i, s.calls[i]);
      }
    }
  }

  lemma CallerReports(reported: set<(nat, Option<string>)>, s: Side, e: Step)
    requires AllFrom(reported, s) && ReturnsIn(s, e) <= reported
    ensures AllFrom(reported, CallStep(s, e))
  {
    var t := CallStep(s, e);
    if e.InlineReturns? && t != s {
      assert (e.call, e.error) in ReturnsIn(s, e);
    }
    forall i | 0 <= i < |t.calls|
      ensures CallFrom(reported, i, t.calls[i])
    {
      assert CallFrom(reported, i, s.calls[i]);
    }
    forall l | 0 <= l < |t.lanes|
      ensures LaneFrom(reported, t.lanes[l])
    {
      assert LaneFrom(reported, s.lanes[l]);
    }
  }

  lemma ApplyReports(reported: set<(nat, Option<string>)>, k: Locker, e: Event, q: Queue)
    requires AllFrom(reported, k.Of(q))
    ensures AllFrom(reported + (if e.On? && e.queue == q then ReturnsIn(k.Of(q), e.step) else {}), Apply(k, e).Of(q))
  {
    hide SideStep, ReturnsIn, AllFrom;
    if e.On? && e.queue == q {
      StepReports(reported, k.Of(q), e.step);
    } else {
      assert reported + {} == reported;
      if !e.On? {
        LookupReports(reported, k, e, q);
      }
    }
  }

  lemma LookupReports(reported: set<(nat, Option<string>)>, k: Locker, e: Event, q: Queue)
    requires AllFrom(reported, k.Of(q)) && !e.On?
    ensures AllFrom(reported, Apply(k, e).Of(q))
  {
    hide From;
    var s, t := k.Of(q), Apply(k, e).Of(q);
    forall i | 0 <= i < |t.calls|
      ensures CallFrom(reported, i, t.calls[i])
    {
      assert i < |s.calls| ==> CallFrom(reported, i, s.calls[i]);
    }
    forall l | 0 <= l < |t.lanes|
      ensures LaneFrom(reported, t.lanes[l])
    {
      assert l < |s.lanes| ==> LaneFrom(reported, s.lanes[l]);
    }
  }

  lemma {:induction false} AlwaysReported(events: seq<Event>, q: Queue)
    ensures AllFrom(Reported(events, q), After(events).Of(q))
  {
    hide Apply, AllFrom, ReturnsIn;
    if events == [] {
      EmptyReports(q);
    } else {
      AlwaysReported(events[..|events| - 1], q);
      ApplyReports(Reported(events[..|events| - 1], q), After(events[..|events| - 1]), events[|events| - 1], q);
    }
  }

  lemma EmptyReports(q: Queue)
    ensures AllFrom({}, EMPTY.Of(q))
  {}

  /** A caller that does not leave is told what the function of its own task returned, or that its context had
      ended and the function was not run; a call without a chat, what its function returned. */
  lemma CallersAreTold(events: seq<Event>, q: Queue, i: nat)
    requires i < |After(events).Of(q).calls| && After(events).Of(q).calls[i].phase.Returned?
    ensures var c := After(events).Of(q).calls[i];
            if c.phase.result.FnResult? then (i, c.phase.result.error) in Reported(events, q) else c.cancelled
  {
    AlwaysReported(events, q);
    AlwaysInv(events);
    assert CallOk(After(events).Of(q), i) && CallFrom(Reported(events, q), i, After(events).Of(q).calls[i]);
    hide After, Reported;
  }

  // ---------- Work goes on ----------

  lemma OneMore(events: seq<Event>, q: Queue, e: Step)
    ensures After(events + [On(q, e)]).Of(q) == SideStep(After(events).Of(q), e)
  {
    hide SideStep;
    assert (events + [On(q, e)])[..|events|] == events;
  }

  /** The next step of a lane's worker, given what a running function is to return. */
  function NextStep(lane: Lane, l: nat, error: Option<string>): Step
    requires lane.workers != []
  {
    match lane.workers[0]
    case Idle => Take(l, 0)
    case Checking(_) => Check(l, 0)
    case Running(_) => FnReturns(l, 0, error)
    case Finishing(_, _) => Finish(l, 0)
  }

  /** What a worker does next: it takes the first task that waits; it runs its function, unless the task's
      context has ended; it notes what the function returned; and it reports that, or the context's error. */
  predicate Proceeds(s: Side, l: nat, t: Side, error: Option<string>)
    requires l < |s.lanes| && l < |t.lanes| && s.lanes[l].workers != [] && t.lanes[l].workers != []
  {
    var lane, worker, next := s.lanes[l], s.lanes[l].workers[0], t.lanes[l].workers[0];
    && (worker.Idle? ==>
          lane.jobs != [] && next == Checking(lane.jobs[0]) && t.lanes[l].jobs == lane.jobs[1..])
    && (worker.Checking? ==>
          && worker.task < |s.calls|
          && next == if s.calls[worker.task].cancelled then Finishing(worker.task, ContextError)
                     else Running(worker.task))
    && (worker.Running? ==> next == Finishing(worker.task, FnResult(error)))
    && (worker.Finishing? ==>
          next == Idle && worker.task < |t.calls| && t.calls[worker.task].delivered == [worker.result])
  }

  /** While a task of a lane waits or is in hand, the lane has a worker, and its next step is possible. */
  lemma WorkGoesOn(events: seq<Event>, q: Queue, l: nat, error: Option<string>)
    requires l < |After(events).Of(q).lanes|
    requires InHand(After(events).Of(q).lanes[l]) + After(events).Of(q).lanes[l].jobs != []
    ensures After(events).Of(q).lanes[l].workers != []
    ensures var s := After(events).Of(q);
            var t := After(events + [On(q, NextStep(s.lanes[l], l, error))]).Of(q);
            l < |t.lanes| && t.lanes[l].workers != [] && Proceeds(s, l, t, error)
  {
    hide Inv, SideOk, SideStep, Proceeds, CanFinish, NoRepeats;
    var s := After(events).Of(q);
    OneTaskAtATime(events, q, l);
    SidesAreOk(events, q);
    var lane := s.lanes[l];
    OneMore(events, q, NextStep(lane, l, error));
    if lane.workers[0] != Idle {
      InHandIsOpen(s, l);
      NothingDelivered(s, l, lane.workers[0].task);
    }
    hide After, CallOk;
    StepProceeds(s, l, error);
  }

  lemma SidesAreOk(events: seq<Event>, q: Queue)
    ensures SideOk(After(events).Of(q))
  {
    AlwaysInv(events);
  }

  lemma StepProceeds(s: Side, l: nat, error: Option<string>)
    requires l < |s.lanes| && |s.lanes[l].workers| == 1
    requires s.lanes[l].workers[0] == Idle ==> s.lanes[l].jobs != []
    requires s.lanes[l].workers[0] != Idle ==>
               var i := s.lanes[l].workers[0].task;
               i < |s.calls| && CanFinish(s, i) && s.calls[i].delivered == []
    ensures var t := SideStep(s, NextStep(s.lanes[l], l, error));
            l < |t.lanes| && t.lanes[l].workers != [] && Proceeds(s, l, t, error)
  {}

  lemma NothingDelivered(s: Side, l: nat, i: nat)
    requires l < |s.lanes| && i < |s.calls| && CallOk(s, i) && s.calls[i].lane == Some(l)
    requires i !in s.lanes[l].finished
    ensures s.calls[i].delivered == []
  {}

  /** A caller whose turn it is can go on: it finds the lanes of its chat, starts their worker, hands over its
      task when there is room, and receives its result when there is one; and from the moment it has to wait
      it can leave when its context has ended. */
  lemma CallersGoOn(s: Side, i: nat)
    requires SideOk(s) && i < |s.calls|
    ensures var c := s.calls[i];
            && (c.phase == Entering ==> SideStep(s, Enter(i)).calls[i].phase == Offering)
            && (c.phase == Offering && c.lane.Some? && c.lane.value < |s.lanes|
                && |s.lanes[c.lane.value].jobs| < 64 ==>
                  && SideStep(s, Offer(i)).calls[i].phase == Waiting
                  && SideStep(s, Offer(i)).lanes[c.lane.value].jobs == s.lanes[c.lane.value].jobs + [i])
            && (c.phase == Waiting && c.done != [] ==>
                  c.done == c.delivered && SideStep(s, Receive(i)).calls[i].phase == Returned(c.delivered[0]))
            && (c.phase in {Offering, Waiting} && c.cancelled ==>
                  SideStep(s, Leave(i)).calls[i].phase == Returned(ContextError))
            && (c.phase == Inline ==>
                  forall error :: SideStep(s, InlineReturns(i, error)).calls[i].phase == Returned(FnResult(error)))
  {
    assert CallOk(s, i);
  }
}
