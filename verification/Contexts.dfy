/** Cancellable contexts: a tree in which the first cancellation to reach a context decides its cause. */
module Contexts {
  import opened Wrappers

  datatype Cause = MessageDeleted | MessageUpdated | Canceled | DeadlineExceeded

  /** A context: its parent, and the cause its own cancel function recorded, if it was the first. */
  datatype Context = Context(parent: Option<nat>, own: Option<Cause>)

  /** Contexts are named by their position; a parent is created before its children. */
  predicate WellFormed(cs: seq<Context>) {
    forall i :: 0 <= i < |cs| ==> cs[i].parent.Some? ==> cs[i].parent.value < i
  }

  /** `context.Cause`. */
  function CauseOf(cs: seq<Context>, i: nat): Option<Cause>
    requires WellFormed(cs) && i < |cs|
  {
    if cs[i].own.Some? || cs[i].parent.None? then cs[i].own
    else CauseOf(cs, cs[i].parent.value)
  }

  predicate Live(cs: seq<Context>, i: nat)
    requires WellFormed(cs)
  {
    i < |cs| && CauseOf(cs, i).None?
  }

  /** A context that is already cancelled keeps its cause. */
  function Cancel(cs: seq<Context>, i: nat, cause: Cause): (r: seq<Context>)
    requires WellFormed(cs) && i < |cs|
    ensures WellFormed(r) && |r| == |cs|
  {
    if CauseOf(cs, i).Some? then cs else cs[i := cs[i].(own := Some(cause))]
  }

  function CancelAny(cs: seq<Context>, i: Option<nat>, cause: Cause): (r: seq<Context>)
    requires WellFormed(cs) && (i.Some? ==> i.value < |cs|)
    ensures WellFormed(r) && |r| == |cs|
  {
    if i.Some? then Cancel(cs, i.value, cause) else cs
  }

  /** `context.WithCancelCause(parent)`: the new context is the last one. */
  function WithCancel(cs: seq<Context>, parent: nat): (r: seq<Context>)
    requires WellFormed(cs) && parent < |cs|
    ensures WellFormed(r) && |r| == |cs| + 1
  {
    cs + [Context(Some(parent), None)]
  }

  /** Contexts are only added, and a cancelled one stays cancelled for the same cause. */
  ghost predicate Extends(cs: seq<Context>, ds: seq<Context>)
    requires WellFormed(cs)
  {
    && WellFormed(ds) && |cs| <= |ds|
    && forall i :: 0 <= i < |cs| && !Live(cs, i) ==> CauseOf(ds, i) == CauseOf(cs, i)
  }

  lemma {:induction false} CancelKeepsCauses(cs: seq<Context>, j: nat, cause: Cause, i: nat)
    requires WellFormed(cs) && j < |cs| && i < |cs| && CauseOf(cs, i).Some?
    ensures CauseOf(Cancel(cs, j, cause), i) == CauseOf(cs, i)
    decreases i
  {
    if cs[i].own.None? && cs[i].parent.Some? {
      CancelKeepsCauses(cs, j, cause, cs[i].parent.value);
    }
  }

  lemma {:induction false} AddKeepsCauses(cs: seq<Context>, c: Context, i: nat)
    requires WellFormed(cs) && WellFormed(cs + [c]) && i < |cs|
    ensures CauseOf(cs + [c], i) == CauseOf(cs, i)
    decreases i
  {
    if cs[i].own.None? && cs[i].parent.Some? {
      AddKeepsCauses(cs, c, cs[i].parent.value);
    }
  }

  lemma CancelExtends(cs: seq<Context>, j: nat, cause: Cause)
    requires WellFormed(cs) && j < |cs|
    ensures Extends(cs, Cancel(cs, j, cause)) && !Live(Cancel(cs, j, cause), j)
  {
    forall i | 0 <= i < |cs| && !Live(cs, i)
      ensures CauseOf(Cancel(cs, j, cause), i) == CauseOf(cs, i)
    {
      CancelKeepsCauses(cs, j, cause, i);
    }
  }

  lemma CancelAnyExtends(cs: seq<Context>, j: Option<nat>, cause: Cause)
    requires WellFormed(cs) && (j.Some? ==> j.value < |cs|)
    ensures Extends(cs, CancelAny(cs, j, cause))
    ensures j.Some? ==> !Live(CancelAny(cs, j, cause), j.value)
  {
    if j.Some? {
      CancelExtends(cs, j.value, cause);
    }
  }

  lemma AddExtends(cs: seq<Context>, c: Context)
    requires WellFormed(cs) && WellFormed(cs + [c])
    ensures Extends(cs, cs + [c])
    ensures forall i :: 0 <= i < |cs| ==> CauseOf(cs + [c], i) == CauseOf(cs, i)
  {
    forall i | 0 <= i < |cs|
      ensures CauseOf(cs + [c], i) == CauseOf(cs, i)
    {
      AddKeepsCauses(cs, c, i);
    }
  }

  lemma ExtendsIsTransitive(cs: seq<Context>, ds: seq<Context>, es: seq<Context>)
    requires WellFormed(cs) && Extends(cs, ds) && Extends(ds, es)
    ensures Extends(cs, es)
  {
    forall i | 0 <= i < |cs| && !Live(cs, i)
      ensures CauseOf(es, i) == CauseOf(cs, i)
    {
      assert !Live(ds, i);
    }
  }

  /** `isContextCancelled`: a passed deadline does not count. */
  predicate IsCancelled(cs: seq<Context>, i: nat)
    requires WellFormed(cs) && i < |cs|
  {
    CauseOf(cs, i).Some? && CauseOf(cs, i) != Some(DeadlineExceeded)
  }
}
