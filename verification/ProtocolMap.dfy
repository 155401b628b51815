/** Which runs the shared map still leads to, and so which runs edits and deletions can reach. */
module ProtocolMap {
  import opened Wrappers
  import opened Contexts
  import opened Processor
  import opened Protocol

  predicate Mapped(byKey: map<Key, nat>, r: Run) {
    r.key in byKey && byKey[r.key] == r.sid
  }

  /** A run of the state has passed its removal from the map. */
  ghost predicate Abandoned(runs: seq<Run>, sid: nat) {
    exists j :: 0 <= j < |runs| && runs[j].sid == sid && runs[j].unregistered
  }

  /** Runs of a state have one key, and the map leads no other key to it. */
  ghost predicate OneKey(byKey: map<Key, nat>, runs: seq<Run>) {
    && (forall i, j :: 0 <= i < |runs| && 0 <= j < |runs| && runs[i].sid == runs[j].sid ==> runs[i].key == runs[j].key)
    && (forall k, i :: k in byKey && 0 <= i < |runs| && byKey[k] == runs[i].sid ==> k == runs[i].key)
    && forall k, l :: k in byKey && l in byKey && byKey[k] == byKey[l] ==> k == l
  }

  /** A state is mapped exactly until a run of it has passed its removal. */
  ghost predicate MapOk(byKey: map<Key, nat>, runs: seq<Run>) {
    OneKey(byKey, runs) && forall i :: 0 <= i < |runs| ==> (Mapped(byKey, runs[i]) <==> !Abandoned(runs, runs[i].sid))
  }

  predicate SameOrigin(r: Run, q: Run) {
    q.key == r.key && q.sid == r.sid && q.unregistered == r.unregistered
  }

  lemma SameOriginsKeepMap(byKey: map<Key, nat>, runs: seq<Run>, later: seq<Run>)
    requires MapOk(byKey, runs) && |later| == |runs|
    requires forall i :: 0 <= i < |runs| ==> SameOrigin(runs[i], later[i])
    ensures MapOk(byKey, later)
  {
    forall i | 0 <= i < |later|
      ensures Abandoned(later, later[i].sid) == Abandoned(runs, runs[i].sid)
    {}
  }

  lemma AbandonedGrows(runs: seq<Run>, r: Run, sid: nat)
    ensures Abandoned(runs + [r], sid) <==> Abandoned(runs, sid) || (r.sid == sid && r.unregistered)
  {
    if j :| 0 <= j < |runs| && runs[j].sid == sid && runs[j].unregistered {
      assert (runs + [r])[j].sid == sid && (runs + [r])[j].unregistered;
    }
    if r.sid == sid && r.unregistered {
      assert (runs + [r])[|runs|] == r;
    }
  }

  /** A run arrives at the state its key leads to, or at a new one. */
  lemma ArrivalKeepsMap(byKey: map<Key, nat>, runs: seq<Run>, r: Run, states: nat)
    requires MapOk(byKey, runs) && !r.unregistered
    requires forall i :: 0 <= i < |runs| ==> runs[i].sid < states
    requires forall k :: k in byKey ==> byKey[k] < states
    requires r.sid == if r.key in byKey then byKey[r.key] else states
    ensures MapOk(if r.key in byKey then byKey else byKey[r.key := states], runs + [r])
  {
    hide Abandoned;
    forall sid: nat
      ensures Abandoned(runs + [r], sid) == Abandoned(runs, sid)
    {
      AbandonedGrows(runs, r, sid);
    }
    if r.key !in byKey {
      assert !Abandoned(runs, states) by { NoneOfState(runs, states); }
    } else if Abandoned(runs, r.sid) {
      var j := AbandonedBy(runs, r.sid);
    }
  }

  lemma NoneOfState(runs: seq<Run>, sid: nat)
    requires forall i :: 0 <= i < |runs| ==> runs[i].sid != sid
    ensures !Abandoned(runs, sid)
  {}

  lemma AbandonedBy(runs: seq<Run>, sid: nat) returns (j: nat)
    requires Abandoned(runs, sid)
    ensures j < |runs| && runs[j].sid == sid && runs[j].unregistered
  {
    j :| 0 <= j < |runs| && runs[j].sid == sid && runs[j].unregistered;
  }

  lemma RemovalKeepsMap(byKey: map<Key, nat>, runs: seq<Run>, i: nat, r: Run)
    requires MapOk(byKey, runs) && i < |runs| && r.key == runs[i].key && r.sid == runs[i].sid && r.unregistered
    ensures MapOk(if Mapped(byKey, r) then byKey - {r.key} else byKey, runs[i := r])
  {
    hide Abandoned;
    var later := runs[i := r];
    forall sid: nat
      ensures Abandoned(later, sid) == (sid == r.sid || Abandoned(runs, sid))
    {
      AbandonedAfterRemoval(runs, i, r, sid);
    }
  }

  lemma AbandonedAfterRemoval(runs: seq<Run>, i: nat, r: Run, sid: nat)
    requires i < |runs| && r.sid == runs[i].sid && r.unregistered
    ensures Abandoned(runs[i := r], sid) <==> sid == r.sid || Abandoned(runs, sid)
  {
    var later := runs[i := r];
    assert later[i] == r;
    if j :| 0 <= j < |runs| && runs[j].sid == sid && runs[j].unregistered {
      assert later[j].sid == sid && later[j].unregistered;
    }
  }

  // ---------- Every step ----------

  lemma AdvanceKeepsOrigin(g: Registry, r: Run, outcome: Outcome)
    requires g.Valid() && RunExists(g, r)
    ensures SameOrigin(r, Advance(g, r, outcome))
  {
    hide Registry.Valid, IsCancelled, CauseOf;
  }

  lemma RunStepKeepsOrigins(s: Machine, i: nat, outcome: Outcome)
    requires s.g.Valid() && i < |s.runs| && RunExists(s.g, s.runs[i]) && Begun(s.runs[i])
    ensures var t := StepRun(s, i, outcome);
            && t.g.byKey == s.g.byKey && |t.runs| == |s.runs|
            && forall j :: 0 <= j < |s.runs| ==> SameOrigin(s.runs[j], t.runs[j])
  {
    AdvanceKeepsOrigin(s.g, s.runs[i], outcome);
    hide Registry.Valid, Advance;
  }

  lemma MostStepsKeepOrigins(s: Machine, e: Event)
    requires Sound(s) && !e.Arrive? && !e.Unregister?
    ensures Apply(s, e).g.byKey == s.g.byKey && |Apply(s, e).runs| == |s.runs|
    ensures forall i :: 0 <= i < |s.runs| ==> SameOrigin(s.runs[i], Apply(s, e).runs[i])
  {
    if e.RunStep? && e.run < |s.runs| && Unreleased(s.runs[e.run]) {
      RunStepKeepsOrigins(s, e.run, e.outcome);
    }
    hide StepRun, AdvanceJob, Registry.Valid, CauseOf;
  }

  lemma ApplyKeepsMap(s: Machine, e: Event)
    requires Sound(s) && MapOk(s.g.byKey, s.runs)
    ensures MapOk(Apply(s, e).g.byKey, Apply(s, e).runs)
  {
    var t := Apply(s, e);
    hide MapOk, CauseOf;
    if e.Arrive? {
      if t != s {
        ArrivalKeepsMap(s.g.byKey, s.runs, t.runs[|s.runs|], |s.g.states|);
      }
    } else if e.Unregister? {
      if e.run < |s.runs| && s.runs[e.run].phase == Unregistering {
        RemovalKeepsMap(s.g.byKey, s.runs, e.run, t.runs[e.run]);
      }
    } else {
      MostStepsKeepOrigins(s, e);
      hide Apply;
      SameOriginsKeepMap(s.g.byKey, s.runs, t.runs);
    }
  }

  lemma {:induction false} AlwaysMapOk(events: seq<Event>)
    ensures MapOk(After(events).g.byKey, After(events).runs)
  {
    hide MapOk, Apply, Inv;
    if events == [] {
      assert MapOk(map[], []) by { EmptyMapOk(); }
    } else {
      var init := events[..|events| - 1];
      AlwaysMapOk(init);
      AfterHasInv(init);
      InvIsSound(After(init));
      ApplyKeepsMap(After(init), events[|events| - 1]);
    }
  }

  lemma EmptyMapOk()
    ensures MapOk(map[], [])
  {}

  /** The map leads to a run's state if and only if no run of that state has passed its removal. */
  lemma MappedExactly(s: Machine, i: nat)
    requires Reachable(s) && i < |s.runs|
    ensures Mapped(s.g.byKey, s.runs[i]) <==> !Abandoned(s.runs, s.runs[i].sid)
  {
    hide Abandoned;
    var events :| After(events) == s;
    AlwaysMapOk(events);
  }

  /** An edit or a deletion of a run's message reaches the run's state if and only if no run of that state
      has passed its removal from the map. */
  lemma ReachedExactly(s: Machine, i: nat, message: Message)
    requires Reachable(s) && i < |s.runs| && message.key == s.runs[i].key
    ensures Sound(s)
    ensures Apply(s, EditArrives(message)).handlers == s.handlers + [Handler(s.runs[i].sid, Some(message), false)]
       <==> !Abandoned(s.runs, s.runs[i].sid)
    ensures Apply(s, DeleteArrives(message.key)).handlers == s.handlers + [Handler(s.runs[i].sid, None, false)]
       <==> !Abandoned(s.runs, s.runs[i].sid)
  {
    hide Inv, Sound, Abandoned;
    ReachableHasInv(s);
    InvIsSound(s);
    MappedExactly(s, i);
    ArrivalsFollowMap(s, s.runs[i], message);
  }

  lemma ArrivalsFollowMap(s: Machine, r: Run, message: Message)
    requires Sound(s) && message.key == r.key
    ensures Apply(s, EditArrives(message)).handlers == s.handlers + [Handler(r.sid, Some(message), false)]
       <==> Mapped(s.g.byKey, r)
    ensures Apply(s, DeleteArrives(message.key)).handlers == s.handlers + [Handler(r.sid, None, false)]
       <==> Mapped(s.g.byKey, r)
  {
    var edit, deletion := Apply(s, EditArrives(message)).handlers, Apply(s, DeleteArrives(message.key)).handlers;
    var n := |s.handlers|;
    if message.key in s.g.byKey {
      assert edit[n].sid == s.g.byKey[message.key] && deletion[n].sid == s.g.byKey[message.key];
    }
  }
}
