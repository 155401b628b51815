/** For what cause the processor's operations cancel the contexts they cancel. */
module ProtocolCauses {
  import opened Wrappers
  import opened Contexts
  import opened Processor

  /** If the context was live, it has been cancelled for this cause. */
  ghost predicate Gets(cs: seq<Context>, ds: seq<Context>, handle: Option<nat>, cause: Cause)
    requires WellFormed(cs) && WellFormed(ds) && |cs| <= |ds|
  {
    handle.Some? && Live(cs, handle.value) ==> CauseOf(ds, handle.value) == Some(cause)
  }

  /** If the context was live, it is so still or has been cancelled for this cause. */
  ghost predicate MayGet(cs: seq<Context>, ds: seq<Context>, handle: Option<nat>, cause: Cause)
    requires WellFormed(cs) && WellFormed(ds) && |cs| <= |ds|
  {
    handle.Some? && Live(cs, handle.value) ==> CauseOf(ds, handle.value) in {None, Some(cause)}
  }

  lemma {:induction false} CancelSparesOrGives(cs: seq<Context>, j: nat, cause: Cause, i: nat)
    requires WellFormed(cs) && j < |cs| && Live(cs, i)
    ensures CauseOf(Cancel(cs, j, cause), i) in {None, Some(cause)}
    decreases i
  {
    if cs[i].own.None? && cs[i].parent.Some? {
      CancelSparesOrGives(cs, j, cause, cs[i].parent.value);
    }
  }

  /** One more call of a cancel function, with the same cause. */
  lemma OneCancels(cs: seq<Context>, ds: seq<Context>, called: Option<nat>, cause: Cause, handle: Option<nat>)
    requires WellFormed(cs) && WellFormed(ds) && |cs| == |ds| && (called.Some? ==> called.value < |ds|)
    ensures Gets(cs, ds, handle, cause) ==> Gets(cs, CancelAny(ds, called, cause), handle, cause)
    ensures MayGet(cs, ds, handle, cause) ==> MayGet(cs, CancelAny(ds, called, cause), handle, cause)
    ensures MayGet(cs, ds, called, cause) ==> Gets(cs, CancelAny(ds, called, cause), called, cause)
  {
    if called.Some? {
      if handle.Some? && Live(cs, handle.value) {
        if CauseOf(ds, handle.value).Some? {
          CancelKeepsCauses(ds, called.value, cause, handle.value);
        } else {
          CancelSparesOrGives(ds, called.value, cause, handle.value);
        }
      }
      if Live(cs, called.value) && CauseOf(ds, called.value).Some? {
        CancelKeepsCauses(ds, called.value, cause, called.value);
      }
    }
  }

  lemma ThreeCancel(cs: seq<Context>, a: Option<nat>, b: Option<nat>, c: Option<nat>, cause: Cause)
    requires WellFormed(cs) && (a.Some? ==> a.value < |cs|) && (b.Some? ==> b.value < |cs|)
    requires c.Some? ==> c.value < |cs|
    ensures var ds := CancelAny(CancelAny(CancelAny(cs, a, cause), b, cause), c, cause);
            Gets(cs, ds, a, cause) && Gets(cs, ds, b, cause) && Gets(cs, ds, c, cause)
  {
    var cs1 := CancelAny(cs, a, cause);
    var cs2 := CancelAny(cs1, b, cause);
    assert MayGet(cs, cs, a, cause) && MayGet(cs, cs, b, cause) && MayGet(cs, cs, c, cause);
    OneCancels(cs, cs, a, cause, b);
    OneCancels(cs, cs, a, cause, c);
    hide Gets, MayGet, CancelAny;
    OneCancels(cs, cs1, b, cause, a);
    OneCancels(cs, cs1, b, cause, c);
    OneCancels(cs, cs2, c, cause, a);
    OneCancels(cs, cs2, c, cause, b);
  }

  /** A handled edit, and a release by the token's holder, cancel both attempts as updated. */
  lemma EditCauses(g: Registry, sid: nat, message: Message)
    requires g.Valid() && sid < |g.states|
    ensures !g.states[sid].deleted ==>
              var h := g.Update(sid, message);
              && |g.contexts| == |h.contexts|
              && Gets(g.contexts, h.contexts, g.states[sid].memoryCancel, MessageUpdated)
              && Gets(g.contexts, h.contexts, g.states[sid].replyCancel, MessageUpdated)
    ensures var h := g.Release(sid, g.states[sid].runToken);
            && |g.contexts| == |h.contexts|
            && Gets(g.contexts, h.contexts, g.states[sid].memoryCancel, MessageUpdated)
            && Gets(g.contexts, h.contexts, g.states[sid].replyCancel, MessageUpdated)
  {
    hide Gets;
    ThreeCancel(g.contexts, g.states[sid].memoryCancel, g.states[sid].replyCancel, None, MessageUpdated);
  }

  /** A deletion cancels both attempts and the run as deleted. */
  lemma DeletionCauses(g: Registry, sid: nat)
    requires g.Valid() && sid < |g.states|
    ensures var st, h := g.states[sid], g.Delete(sid);
            && |g.contexts| == |h.contexts|
            && Gets(g.contexts, h.contexts, st.memoryCancel, MessageDeleted)
            && Gets(g.contexts, h.contexts, st.replyCancel, MessageDeleted)
            && Gets(g.contexts, h.contexts, st.runCancel, MessageDeleted)
  {
    hide Gets;
    ThreeCancel(g.contexts, g.states[sid].memoryCancel, g.states[sid].replyCancel, g.states[sid].runCancel,
                MessageDeleted);
  }

  lemma GetsStays(cs: seq<Context>, ds: seq<Context>, c: Context, handle: Option<nat>, cause: Cause)
    requires WellFormed(cs) && WellFormed(ds) && |cs| == |ds| && WellFormed(ds + [c]) && Gets(cs, ds, handle, cause)
    ensures Gets(cs, ds + [c], handle, cause)
  {
    if handle.Some? && Live(cs, handle.value) {
      AddKeepsCauses(ds, c, handle.value);
    }
  }

  /** A start cancels the previous run and both its attempts as updated. */
  lemma StartCauses(g: Registry, sid: nat, message: Message, parent: nat)
    requires g.Valid() && sid < |g.states| && parent < |g.contexts|
    ensures var st, h := g.states[sid], g.Begin(sid, message, parent);
            && WellFormed(h.contexts) && |g.contexts| < |h.contexts|
            && Gets(g.contexts, h.contexts, st.runCancel, MessageUpdated)
            && Gets(g.contexts, h.contexts, st.memoryCancel, MessageUpdated)
            && Gets(g.contexts, h.contexts, st.replyCancel, MessageUpdated)
  {
    var st := g.states[sid];
    ThreeCancel(g.contexts, st.runCancel, st.memoryCancel, st.replyCancel, MessageUpdated);
    hide Gets, CancelAny;
    var ds := CancelAny(CancelAny(CancelAny(g.contexts, st.runCancel, MessageUpdated), st.memoryCancel, MessageUpdated),
                        st.replyCancel, MessageUpdated);
    GetsStays(g.contexts, ds, Context(Some(parent), None), st.runCancel, MessageUpdated);
    GetsStays(g.contexts, ds, Context(Some(parent), None), st.memoryCancel, MessageUpdated);
    GetsStays(g.contexts, ds, Context(Some(parent), None), st.replyCancel, MessageUpdated);
  }

  /** An attempt on a message that is not deleted cancels the one before it as updated; on a deleted one, it is
      itself cancelled as deleted, unless its parent is cancelled already. */
  lemma AttemptCauses(g: Registry, sid: nat, kind: Kind, parent: nat)
    requires g.Valid() && sid < |g.states| && parent < |g.contexts|
    ensures var st, h := g.states[sid], g.Attempt(sid, kind, parent);
            && WellFormed(h.contexts) && |h.contexts| == |g.contexts| + 1
            && (!st.deleted ==> Gets(g.contexts, h.contexts, CancelOf(st, kind), MessageUpdated))
            && (st.deleted && Live(g.contexts, parent) ==> CauseOf(h.contexts, |g.contexts|) == Some(MessageDeleted))
  {
    var st := g.states[sid];
    if st.deleted {
      AddKeepsCauses(g.contexts, Context(Some(parent), None), parent);
    } else {
      ThreeCancel(g.contexts, CancelOf(st, kind), None, None, MessageUpdated);
      var ds := CancelAny(g.contexts, CancelOf(st, kind), MessageUpdated);
      GetsStays(g.contexts, ds, Context(Some(parent), None), CancelOf(st, kind), MessageUpdated);
    }
  }
}
