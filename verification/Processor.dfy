/** The registry of messages being processed. Each operation below is one critical section, or one
    atomic operation on the shared map, of the message processor. */
module Processor {
  import opened Wrappers
  import opened Contexts

  type Key = string

  datatype Message = Message(key: Key, text: string)

  datatype MessageState = MessageState(
    message: Message,
    revision: nat,
    deleted: bool,
    runToken: nat,
    runCancel: Option<nat>,
    memoryCancel: Option<nat>,
    replyCancel: Option<nat>)

  const BLANK := MessageState(Message("", ""), 0, false, 0, None, None, None)

  datatype Kind = Memory | Reply

  function CancelOf(st: MessageState, kind: Kind): Option<nat> {
    match kind
    case Memory => st.memoryCancel
    case Reply => st.replyCancel
  }

  function WithCancelOf(st: MessageState, kind: Kind, c: Option<nat>): MessageState {
    match kind
    case Memory => st.(memoryCancel := c)
    case Reply => st.(replyCancel := c)
  }

  /** The shared map from message keys to states, every state ever created, and every context. */
  datatype Registry = Registry(byKey: map<Key, nat>, states: seq<MessageState>, contexts: seq<Context>)
  {
    predicate Valid() {
      && WellFormed(contexts)
      && (forall k :: k in byKey ==> byKey[k] < |states|)
      && forall i :: 0 <= i < |states| ==> HandlesExist(states[i])
    }

    predicate HandlesExist(st: MessageState) {
      && (st.runCancel.Some? ==> st.runCancel.value < |contexts|)
      && (st.memoryCancel.Some? ==> st.memoryCancel.value < |contexts|)
      && (st.replyCancel.Some? ==> st.replyCancel.value < |contexts|)
    }

    /** The states with one cancelled memory and reply handle, in the source's order. */
    function Interrupted(sid: nat, cause: Cause): (cs: seq<Context>)
      requires Valid() && sid < |states|
      ensures WellFormed(cs) && |cs| == |contexts|
    {
      CancelAny(CancelAny(contexts, states[sid].memoryCancel, cause), states[sid].replyCancel, cause)
    }

    function LoadOrStore(key: Key): (Registry, nat) {
      if key in byKey then (this, byKey[key])
      else (Registry(byKey[key := |states|], states + [BLANK], contexts), |states|)
    }

    /** The locked part of `begin`; the run's context is the last one of the result. */
    function Begin(sid: nat, message: Message, parent: nat): Registry
      requires Valid() && sid < |states| && parent < |contexts|
    {
      var st := states[sid];
      var cs0 := CancelAny(contexts, st.runCancel, MessageUpdated);
      var cs1 := CancelAny(cs0, st.memoryCancel, MessageUpdated);
      var cs2 := CancelAny(cs1, st.replyCancel, MessageUpdated);
      Registry(byKey,
               states[sid := MessageState(message, st.revision, false, st.runToken + 1, Some(|contexts|), None, None)],
               WithCancel(cs2, parent))
    }

    /** The locked part of `release`: nothing, unless the run still holds the token. */
    function Release(sid: nat, token: nat): Registry
      requires Valid() && sid < |states|
    {
      var st := states[sid];
      if st.runToken != token then this
      else Registry(byKey,
                    states[sid := st.(runCancel := None, memoryCancel := None, replyCancel := None)],
                    Interrupted(sid, MessageUpdated))
    }

    /** `CompareAndDelete`, which follows a release that held the token, after its lock is let go. */
    function Unregister(key: Key, sid: nat): Registry {
      if key in byKey && byKey[key] == sid then this.(byKey := byKey - {key}) else this
    }

    function Update(sid: nat, message: Message): Registry
      requires Valid() && sid < |states|
    {
      var st := states[sid];
      if st.deleted then this
      else Registry(byKey,
                    states[sid := st.(message := message, revision := st.revision + 1,
                                      memoryCancel := None, replyCancel := None)],
                    Interrupted(sid, MessageUpdated))
    }

    function Delete(sid: nat): Registry
      requires Valid() && sid < |states|
    {
      var st := states[sid];
      Registry(byKey,
               states[sid := st.(deleted := true, memoryCancel := None, replyCancel := None)],
               CancelAny(Interrupted(sid, MessageDeleted), st.runCancel, MessageDeleted))
    }

    /** `memoryContext` and `replyContext`; the attempt's context is the last one of the result. */
    function Attempt(sid: nat, kind: Kind, parent: nat): Registry
      requires Valid() && sid < |states| && parent < |contexts|
    {
      var st := states[sid];
      if st.deleted then
        this.(contexts := Cancel(WithCancel(contexts, parent), |contexts|, MessageDeleted))
      else
        Registry(byKey,
                 states[sid := WithCancelOf(st, kind, Some(|contexts|))],
                 WithCancel(CancelAny(contexts, CancelOf(st, kind), MessageUpdated), parent))
    }
  }

  /** The message processor itself, whose methods run the source's statements one by one. */
  class MessageProcessor {
    var byKey: map<Key, nat>
    var states: seq<MessageState>
    var contexts: seq<Context>

    ghost function View(): Registry
      reads this
    {
      Registry(byKey, states, contexts)
    }

    constructor (contexts: seq<Context>)
      ensures View() == Registry(map[], [], contexts)
    {
      byKey, states, this.contexts := map[], [], contexts;
    }

    /** Calls a cancel function, if there is one. */
    method CallCancel(handle: Option<nat>, cause: Cause)
      requires WellFormed(contexts) && (handle.Some? ==> handle.value < |contexts|)
      modifies this`contexts
      ensures contexts == CancelAny(old(contexts), handle, cause)
    {
      if handle.Some? && CauseOf(contexts, handle.value).None? {
        contexts := contexts[handle.value := contexts[handle.value].(own := Some(cause))];
      }
    }

    method LoadOrStore(key: Key) returns (sid: nat)
      modifies this
      ensures (View(), sid) == old(View()).LoadOrStore(key)
    {
      if key in byKey {
        return byKey[key];
      }
      sid := |states|;
      states := states + [BLANK];
      byKey := byKey[key := sid];
    }

    method Begin(sid: nat, message: Message, parent: nat) returns (token: nat, ctx: nat)
      requires View().Valid() && sid < |states| && parent < |contexts|
      modifies this
      ensures View() == old(View()).Begin(sid, message, parent)
      ensures View().Valid() && ctx == |contexts| - 1 && token == states[sid].runToken
    {
      var st := states[sid].(message := message, deleted := false);
      st := st.(runToken := st.runToken + 1);
      token := st.runToken;
      CallCancel(st.runCancel, MessageUpdated);
      CallCancel(st.memoryCancel, MessageUpdated);
      CallCancel(st.replyCancel, MessageUpdated);
      ctx := |contexts|;
      contexts := WithCancel(contexts, parent);
      st := st.(runCancel := Some(ctx), memoryCancel := None, replyCancel := None);
      states := states[sid := st];
    }

    method Release(sid: nat, token: nat) returns (held: bool)
      requires View().Valid() && sid < |states|
      modifies this
      ensures View() == old(View()).Release(sid, token)
      ensures View().Valid() && held == (old(states[sid].runToken) == token)
    {
      var st := states[sid];
      if st.runToken != token {
        return false;
      }
      if st.memoryCancel.Some? {
        CallCancel(st.memoryCancel, MessageUpdated);
        st := st.(memoryCancel := None);
      }
      if st.replyCancel.Some? {
        CallCancel(st.replyCancel, MessageUpdated);
        st := st.(replyCancel := None);
      }
      st := st.(runCancel := None);
      states := states[sid := st];
      return true;
    }

    method Unregister(key: Key, sid: nat)
      modifies this
      ensures View() == old(View()).Unregister(key, sid)
    {
      if key in byKey && byKey[key] == sid {
        byKey := byKey - {key};
      }
    }

    method OnUpdated(sid: nat, message: Message)
      requires View().Valid() && sid < |states|
      modifies this
      ensures View() == old(View()).Update(sid, message) && View().Valid()
    {
      var st := states[sid];
      if st.deleted {
        return;
      }
      st := st.(message := message);
      st := st.(revision := st.revision + 1);
      if st.memoryCancel.Some? {
        CallCancel(st.memoryCancel, MessageUpdated);
        st := st.(memoryCancel := None);
      }
      if st.replyCancel.Some? {
        CallCancel(st.replyCancel, MessageUpdated);
        st := st.(replyCancel := None);
      }
      states := states[sid := st];
    }

    method OnDeleted(sid: nat)
      requires View().Valid() && sid < |states|
      modifies this
      ensures View() == old(View()).Delete(sid) && View().Valid()
    {
      var st := states[sid].(deleted := true);
      if st.memoryCancel.Some? {
        CallCancel(st.memoryCancel, MessageDeleted);
        st := st.(memoryCancel := None);
      }
      if st.replyCancel.Some? {
        CallCancel(st.replyCancel, MessageDeleted);
        st := st.(replyCancel := None);
      }
      if st.runCancel.Some? {
        CallCancel(st.runCancel, MessageDeleted);
      }
      states := states[sid := st];
    }

    method AttemptContext(sid: nat, kind: Kind, parent: nat) returns (ctx: nat)
      requires View().Valid() && sid < |states| && parent < |contexts|
      modifies this
      ensures View() == old(View()).Attempt(sid, kind, parent)
      ensures View().Valid() && ctx == |contexts| - 1
    {
      var st := states[sid];
      if st.deleted {
        ctx := |contexts|;
        contexts := WithCancel(contexts, parent);
        CallCancel(Some(ctx), MessageDeleted);
        return;
      }
      CallCancel(CancelOf(st, kind), MessageUpdated);
      ctx := |contexts|;
      contexts := WithCancel(contexts, parent);
      states := states[sid := WithCancelOf(st, kind, Some(ctx))];
    }
  }
}
