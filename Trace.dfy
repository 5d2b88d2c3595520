/** The user callbacks the controller invokes, recorded in order, and what
    the order of those calls obeys. */
module Trace {
  import opened Profile

  datatype Hook = OnStart | OnMove | OnStop

  /** One callback invocation: which hook, the handler the profile held,
      and the element passed to it. */
  datatype Call = Call(hook: Hook, handler: Handler, target: ElemId)

  function Front(t: seq<Call>): seq<Call>
    requires t != []
  {
    t[..|t| - 1]
  }

  function Last(t: seq<Call>): Call
    requires t != []
  {
    t[|t| - 1]
  }

  /** A drag is open after `t`: its last start/stop call is an `onStart`. */
  predicate InDrag(t: seq<Call>)
  {
    if t == [] then false
    else if Last(t).hook == OnStart then true
    else if Last(t).hook == OnStop then false
    else InDrag(Front(t))
  }

  /** Every `onMove` and every `onStop` falls inside an open drag. */
  predicate WellFormed(t: seq<Call>)
  {
    t == [] || (WellFormed(Front(t)) && (Last(t).hook != OnStart ==> InDrag(Front(t))))
  }

  /** The number of calls of hook `h` in `t`. */
  function Count(t: seq<Call>, h: Hook): nat
  {
    if t == [] then 0 else Count(Front(t), h) + (if Last(t).hook == h then 1 else 0)
  }

  /** The hooks of the calls in `t`, in order. */
  function Hooks(t: seq<Call>): seq<Hook>
  {
    seq(|t|, i requires 0 <= i < |t| => t[i].hook)
  }

  lemma AppendFrontLast(t: seq<Call>, c: Call)
    ensures Front(t + [c]) == t && Last(t + [c]) == c
  {
  }

  /** Stops never outnumber starts, and while a drag is open they are
      strictly fewer. */
  lemma {:induction false} StopsNeverExceedStarts(t: seq<Call>)
    requires WellFormed(t)
    ensures Count(t, OnStop) <= Count(t, OnStart)
    ensures InDrag(t) ==> Count(t, OnStop) < Count(t, OnStart)
  {
    if t != [] {
      StopsNeverExceedStarts(Front(t));
    }
  }

  /** A stop that no later start reopens leaves the drag closed. */
  lemma {:induction false} ClosedAfterStop(t: seq<Call>, i: nat)
    requires i < |t| && t[i].hook == OnStop
    requires forall k :: i < k < |t| ==> t[k].hook != OnStart
    ensures !InDrag(t)
    decreases |t|
  {
    if i < |t| - 1 {
      assert forall k :: i < k < |Front(t)| ==> Front(t)[k] == t[k];
      ClosedAfterStop(Front(t), i);
    }
  }

  /** In a well-formed trace, each call other than a start finds a drag open. */
  lemma {:induction false} OpenBefore(t: seq<Call>, j: nat)
    requires WellFormed(t)
    requires j < |t| && t[j].hook != OnStart
    ensures InDrag(t[..j])
    decreases |t|
  {
    if j < |t| - 1 {
      assert Front(t)[..j] == t[..j];
      OpenBefore(Front(t), j);
    } else {
      assert Front(t) == t[..j];
    }
  }

  /** After an `onStop`, no `onMove` or further `onStop` comes before a new
      `onStart`. */
  lemma NoCallAfterStopUntilStart(t: seq<Call>, i: nat, j: nat)
    requires WellFormed(t)
    requires i < j < |t|
    requires t[i].hook == OnStop && t[j].hook != OnStart
    ensures exists k :: i < k < j && t[k].hook == OnStart
  {
    if forall k :: i < k < j ==> t[k].hook != OnStart {
      var u := t[..j];
      assert forall k :: i < k < |u| ==> u[k] == t[k];
      ClosedAfterStop(u, i);
      OpenBefore(t, j);
      assert false;
    }
  }
}
