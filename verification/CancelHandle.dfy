/**
 * The connection's PGcancel handle. Three operations, each under one mutex, allocate, use and free
 * it, so an interleaving is a sequence of them. Closing the connection is not under the mutex as a
 * whole: it cancels what runs, under the mutex, and drops the connection in a second step.
 */
module CancelHandle {
  import opened Basics

  /** A call into libpq; the number stands for the handle's address. */
  datatype LibCall = GetCancel(h: nat) | Cancel(h: nat) | FreeCancel(h: nat)

  /** Set and Reset bracket a query, it is cancelled from any thread, and closing takes two steps. */
  datatype Op = Set(granted: bool) | Reset | CancelExecution | CloseCancel | CloseFinish

  /** The handle field, whether the connection exists, and all libpq calls so far. */
  datatype View = View(open: bool, handle: Option<nat>, next: nat, calls: seq<LibCall>)

  function Opened(): View { View(true, None, 0, []) }

  function FreeHandle(v: View): View
  {
    if v.handle.Some? then v.(handle := None, calls := v.calls + [FreeCancel(v.handle.value)]) else v
  }

  function SendCancel(v: View): View
  {
    if v.handle.Some? then FreeHandle(v.(calls := v.calls + [Cancel(v.handle.value)])) else v
  }

  /** The effect of one operation; libpq may refuse a handle. */
  function Apply(v: View, op: Op): View
  {
    match op
    case Set(granted) =>
      var w := FreeHandle(v);
      if !w.open || !granted then w
      else w.(handle := Some(w.next), next := w.next + 1, calls := w.calls + [GetCancel(w.next)])
    case Reset => FreeHandle(v)
    case CancelExecution => SendCancel(v)
    case CloseCancel => if v.open then SendCancel(v) else v
    case CloseFinish => v.(open := false)
  }

  function Run(ops: seq<Op>): View
    decreases |ops|
  {
    if ops == [] then Opened() else Apply(Run(ops[..|ops| - 1]), ops[|ops| - 1])
  }

  class Connection {
    var open: bool
    var cancelConn: Option<nat>
    var next: nat
    var calls: seq<LibCall>

    function Now(): View reads this { View(open, cancelConn, next, calls) }

    constructor ()
      ensures Now() == Opened()
    {
      open, cancelConn, next, calls := true, None, 0, [];
    }

    method SetConnCancel(granted: bool)
      modifies this
      ensures Now() == Apply(old(Now()), Set(granted))
    {
      var oldCancelConn := cancelConn;
      cancelConn := None;
      if oldCancelConn.Some? { calls := calls + [FreeCancel(oldCancelConn.value)]; }
      if !open { return; }
      if granted {
        calls := calls + [GetCancel(next)];
        cancelConn, next := Some(next), next + 1;
      }
    }

    method ResetConnCancel()
      modifies this
      ensures Now() == Apply(old(Now()), Reset)
    {
      var oldCancelConn := cancelConn;
      cancelConn := None;
      if oldCancelConn.Some? { calls := calls + [FreeCancel(oldCancelConn.value)]; }
    }

    method CancelRunning()
      modifies this
      ensures Now() == Apply(old(Now()), CancelExecution)
    {
      if cancelConn.Some? {
        var handle := cancelConn.value;
        cancelConn := None;
        calls := calls + [Cancel(handle)];
        calls := calls + [FreeCancel(handle)];
      }
    }

    /** The first half of closing: an open connection is cancelled. */
    method CloseCancelling()
      modifies this
      ensures Now() == Apply(old(Now()), CloseCancel)
    {
      if open { CancelRunning(); }
    }

    /** The second half: the connection is finished and forgotten, its handle is not looked at. */
    method CloseFinishing()
      modifies this
      ensures Now() == Apply(old(Now()), CloseFinish)
    {
      open := false;
    }
  }

  // ----- every interleaving

  ghost predicate AllocatedIn(calls: seq<LibCall>, h: nat) { GetCancel(h) in calls }

  ghost predicate FreedIn(calls: seq<LibCall>, h: nat) { FreeCancel(h) in calls }

  /** Calls are made at most once per handle, after its allocation and never after it was freed. */
  ghost predicate Orderly(calls: seq<LibCall>)
  {
    && (forall i, j :: 0 <= i < j < |calls| ==> calls[i] != calls[j])
    && (forall j :: 0 <= j < |calls| && !calls[j].GetCancel? ==> AllocatedIn(calls[..j], calls[j].h))
    && (forall i, j :: 0 <= i < j < |calls| && calls[i].FreeCancel? ==> calls[i].h != calls[j].h)
  }

  /** Exactly the handle in the field is allocated and not freed; it was not used yet. */
  ghost predicate OneLive(v: View)
  {
    && (forall i :: 0 <= i < |v.calls| ==> v.calls[i].h < v.next)
    && (forall h: nat :: AllocatedIn(v.calls, h) && !FreedIn(v.calls, h) <==> v.handle == Some(h))
    && (v.handle.Some? ==> Cancel(v.handle.value) !in v.calls)
  }

  ghost predicate Valid(v: View)
  {
    Orderly(v.calls) && OneLive(v)
  }

  lemma CallOnLive(calls: seq<LibCall>, c: LibCall)
    requires Orderly(calls) && c !in calls && !FreedIn(calls, c.h)
    requires c.GetCancel? || AllocatedIn(calls, c.h)
    requires c.GetCancel? ==> forall i :: 0 <= i < |calls| ==> calls[i].h != c.h
    ensures Orderly(calls + [c])
  {
    var more := calls + [c];
    assert more[..|calls|] == calls;
    forall j | 0 <= j < |more| && !more[j].GetCancel? ensures AllocatedIn(more[..j], more[j].h) {
      if j < |calls| { assert more[..j] == calls[..j]; }
    }
  }

  lemma FreeKeepsValid(v: View)
    requires Valid(v)
    ensures Valid(FreeHandle(v)) && FreeHandle(v).handle == None
  {
    if v.handle.Some? {
      assert AllocatedIn(v.calls, v.handle.value);
      CallOnLive(v.calls, FreeCancel(v.handle.value));
    }
  }

  lemma SendKeepsValid(v: View)
    requires Valid(v)
    ensures Valid(SendCancel(v)) && SendCancel(v).handle == None
  {
    if v.handle.Some? {
      var h := v.handle.value;
      assert AllocatedIn(v.calls, h);
      CallOnLive(v.calls, Cancel(h));
      CallOnLive(v.calls + [Cancel(h)], FreeCancel(h));
    }
  }

  lemma ApplyKeepsValid(v: View, op: Op)
    requires Valid(v)
    ensures Valid(Apply(v, op))
  {
    match op
    case Set(granted) =>
      FreeKeepsValid(v);
      var w := FreeHandle(v);
      if w.open && granted { CallOnLive(w.calls, GetCancel(w.next)); }
    case Reset => FreeKeepsValid(v);
    case CancelExecution => SendKeepsValid(v);
    case CloseCancel => SendKeepsValid(v);
    case CloseFinish =>
  }

  /**
   * Under every interleaving: no handle is freed twice or used after being freed, at most one is
   * live, all others are freed, and none is sent twice.
   */
  lemma {:induction false} RunKeepsValid(ops: seq<Op>)
    ensures Valid(Run(ops))
    decreases |ops|
  {
    if ops != [] {
      RunKeepsValid(ops[..|ops| - 1]);
      ApplyKeepsValid(Run(ops[..|ops| - 1]), ops[|ops| - 1]);
    }
  }

  ghost function Sets(ops: seq<Op>): nat
  {
    if ops == [] then 0 else Sets(ops[..|ops| - 1]) + (if ops[|ops| - 1].Set? then 1 else 0)
  }

  ghost function Requests(calls: seq<LibCall>): nat
  {
    if calls == [] then 0 else Requests(calls[..|calls| - 1]) + (if calls[|calls| - 1].Cancel? then 1 else 0)
  }

  lemma RequestsOneMore(calls: seq<LibCall>, c: LibCall)
    ensures Requests(calls + [c]) == Requests(calls) + (if c.Cancel? then 1 else 0)
  {
    assert (calls + [c])[..|calls|] == calls;
  }

  /** Under every interleaving: at most one cancel request is sent per SetConnCancel. */
  lemma {:induction false} OneRequestPerSet(ops: seq<Op>)
    ensures Requests(Run(ops).calls) + (if Run(ops).handle.Some? then 1 else 0) <= Sets(ops)
    decreases |ops|
  {
    if ops != [] {
      OneRequestPerSet(ops[..|ops| - 1]);
      var v := Run(ops[..|ops| - 1]);
      RequestsAfter(v, ops[|ops| - 1]);
    }
  }

  lemma RequestsAfter(v: View, op: Op)
    ensures var w := Apply(v, op);
            Requests(w.calls) + (if w.handle.Some? then 1 else 0)
            <= Requests(v.calls) + (if v.handle.Some? then 1 else 0) + (if op.Set? then 1 else 0)
  {
    if v.handle.Some? {
      var h := v.handle.value;
      RequestsOneMore(v.calls, FreeCancel(h));
      RequestsOneMore(v.calls, Cancel(h));
      RequestsOneMore(v.calls + [Cancel(h)], FreeCancel(h));
    }
    if op.Set? { RequestsOneMore(FreeHandle(v).calls, GetCancel(v.next)); }
  }

  /** A cancel sends exactly one request if a query is bracketed by a live handle, else none. */
  lemma CancelReachesLiveQuery(ops: seq<Op>)
    ensures Requests(Run(ops + [CancelExecution]).calls) ==
            Requests(Run(ops).calls) + (if Run(ops).handle.Some? then 1 else 0)
    ensures Run(ops).open ==> Run(ops + [Set(true)]).handle.Some?
  {
    assert (ops + [CancelExecution])[..|ops|] == ops && (ops + [Set(true)])[..|ops|] == ops;
    var v := Run(ops);
    if v.handle.Some? {
      RequestsOneMore(v.calls, Cancel(v.handle.value));
      RequestsOneMore(v.calls + [Cancel(v.handle.value)], FreeCancel(v.handle.value));
    }
  }

  // ----- which operations ask the server to cancel

  ghost predicate OpenAt(ops: seq<Op>, i: nat)
    requires i <= |ops|
  {
    CloseFinish !in ops[..i]
  }

  /** Operation i sets the handle field or clears it. */
  ghost predicate Touches(ops: seq<Op>, i: nat)
    requires i < |ops|
  {
    ops[i].Set? || ops[i].Reset? || ops[i].CancelExecution? || (ops[i].CloseCancel? && OpenAt(ops, i))
  }

  /** The last operation on the handle before operation n was a granted Set on an open connection. */
  ghost predicate LiveAt(ops: seq<Op>, n: nat)
    requires n <= |ops|
  {
    exists i :: 0 <= i < n && ops[i] == Set(true) && OpenAt(ops, i) && forall j :: i < j < n ==> !Touches(ops, j)
  }

  /** Operation i is a cancel, asked for or by closing an open connection, that finds a live handle. */
  ghost predicate Asks(ops: seq<Op>, i: nat)
    requires i < |ops|
  {
    (ops[i].CancelExecution? || (ops[i].CloseCancel? && OpenAt(ops, i))) && LiveAt(ops, i)
  }

  /** How many operations do so. */
  ghost function Asking(ops: seq<Op>): nat
    decreases |ops|
  {
    if ops == [] then 0 else Asking(ops[..|ops| - 1]) + (if Asks(ops, |ops| - 1) then 1 else 0)
  }

  /** What is said of an operation depends only on those before it. */
  lemma SameBefore(ops: seq<Op>, init: seq<Op>, i: nat)
    requires init <= ops && i <= |init|
    ensures OpenAt(ops, i) == OpenAt(init, i) && LiveAt(ops, i) == LiveAt(init, i)
    ensures i < |init| ==> Asks(ops, i) == Asks(init, i)
  {
    assert forall j :: 0 <= j <= i ==> ops[..j] == init[..j];
    assert forall j :: 0 <= j < i ==> Touches(ops, j) == Touches(init, j);
    if LiveAt(ops, i) {
      var k :| 0 <= k < i && ops[k] == Set(true) && OpenAt(ops, k) && forall j :: k < j < i ==> !Touches(ops, j);
      assert init[k] == Set(true) && OpenAt(init, k);
    }
    if LiveAt(init, i) {
      var k :| 0 <= k < i && init[k] == Set(true) && OpenAt(init, k) && forall j :: k < j < i ==> !Touches(init, j);
      assert ops[k] == Set(true) && OpenAt(ops, k);
    }
  }

  lemma LiveOneMore(ops: seq<Op>)
    requires ops != []
    ensures var n := |ops| - 1;
            LiveAt(ops, n + 1) <==> if Touches(ops, n) then ops[n] == Set(true) && OpenAt(ops, n) else LiveAt(ops, n)
  {
    var n := |ops| - 1;
    if LiveAt(ops, n + 1) {
      var i :| 0 <= i < n + 1 && ops[i] == Set(true) && OpenAt(ops, i)
               && forall j :: i < j < n + 1 ==> !Touches(ops, j);
    }
    if LiveAt(ops, n) && !Touches(ops, n) {
      var i :| 0 <= i < n && ops[i] == Set(true) && OpenAt(ops, i) && forall j :: i < j < n ==> !Touches(ops, j);
      assert forall j :: i < j < n + 1 ==> !Touches(ops, j);
    }
  }

  /** A handle is in the field exactly when the history of operations says so. */
  lemma {:induction false} HandleIsLive(ops: seq<Op>)
    ensures Run(ops).open == OpenAt(ops, |ops|) && (Run(ops).handle.Some? <==> LiveAt(ops, |ops|))
    decreases |ops|
  {
    if ops == [] { assert ops[..0] == []; return; }
    var init, n := ops[..|ops| - 1], |ops| - 1;
    HandleIsLive(init);
    SameBefore(ops, init, n);
    LiveOneMore(ops);
    assert ops[..n + 1] == init + [ops[n]] && ops[..n] == init;
  }

  lemma RequestsOfApply(v: View, op: Op)
    ensures Requests(Apply(v, op).calls) == Requests(v.calls) +
              (if (op.CancelExecution? || (op.CloseCancel? && v.open)) && v.handle.Some? then 1 else 0)
  {
    if v.handle.Some? {
      var h := v.handle.value;
      RequestsOneMore(v.calls, FreeCancel(h));
      RequestsOneMore(v.calls, Cancel(h));
      RequestsOneMore(v.calls + [Cancel(h)], FreeCancel(h));
    }
    if op.Set? { RequestsOneMore(FreeHandle(v).calls, GetCancel(v.next)); }
  }

  /**
   * Under every interleaving: exactly as many requests are sent as cancels found a live handle. A
   * reset, a new handle and the end of the connection send none.
   */
  lemma {:induction false} RequestsAreCancels(ops: seq<Op>)
    ensures Requests(Run(ops).calls) == Asking(ops)
    decreases |ops|
  {
    if ops == [] { return; }
    var init, n := ops[..|ops| - 1], |ops| - 1;
    RequestsAreCancels(init);
    HandleIsLive(init);
    SameBefore(ops, init, n);
    RequestsOfApply(Run(init), ops[n]);
  }

  lemma {:induction false} RequestsCountCancels(calls: seq<LibCall>, h: nat)
    ensures Cancel(h) in calls ==> Requests(calls) > 0
    decreases |calls|
  {
    if calls != [] { RequestsCountCancels(calls[..|calls| - 1], h); }
  }

  lemma {:induction false} NobodyAsks(ops: seq<Op>)
    requires forall i :: 0 <= i < |ops| ==> !ops[i].CancelExecution? && !ops[i].CloseCancel?
    ensures Asking(ops) == 0
    decreases |ops|
  {
    if ops != [] { NobodyAsks(ops[..|ops| - 1]); }
  }

  /** Queries that are bracketed and never cancelled, on a connection that is not closed under way, send none. */
  lemma NoCancelNoRequest(ops: seq<Op>, h: nat)
    requires forall i :: 0 <= i < |ops| ==> ops[i].Set? || ops[i].Reset? || ops[i].CloseFinish?
    ensures Cancel(h) !in Run(ops).calls
  {
    RequestsAreCancels(ops);
    NobodyAsks(ops);
    RequestsCountCancels(Run(ops).calls, h);
  }

  /** Every handle ever allocated is freed. */
  ghost predicate AllFreed(v: View)
  {
    forall h: nat :: AllocatedIn(v.calls, h) ==> FreedIn(v.calls, h)
  }

  lemma AllFreedWithoutHandle(ops: seq<Op>)
    ensures AllFreed(Run(ops)) <==> Run(ops).handle.None?
  {
    RunKeepsValid(ops);
    var v := Run(ops);
    if v.handle.Some? { assert AllocatedIn(v.calls, v.handle.value) && !FreedIn(v.calls, v.handle.value); }
  }

  /** After Reset or CancelExecution no handle is live, whatever came before. */
  lemma NothingLiveAfterEnd(ops: seq<Op>, op: Op)
    requires op.Reset? || op.CancelExecution?
    ensures AllFreed(Run(ops + [op]))
  {
    AllFreedWithoutHandle(ops + [op]);
    assert (ops + [op])[..|ops|] == ops;
  }

  /** A connection that is being closed by one thread while others go on with the handle. */
  ghost function Closing(before: seq<Op>, during: seq<Op>): seq<Op>
  {
    before + [CloseCancel] + during + [CloseFinish]
  }

  ghost predicate HandleOpsOnly(ops: seq<Op>)
  {
    forall i :: 0 <= i < |ops| ==> ops[i].Set? || ops[i].Reset? || ops[i].CancelExecution?
  }

  /** What closing has left once the operations of other threads in between are done. */
  lemma {:induction false} HandleWhileClosing(before: seq<Op>, during: seq<Op>)
    requires HandleOpsOnly(during)
    ensures var v := Run(before + [CloseCancel] + during);
            && v.open == Run(before).open
            && (v.handle.Some? <==>
                  if during == [] then !v.open && Run(before).handle.Some?
                  else v.open && during[|during| - 1] == Set(true))
    decreases |during|
  {
    var ops := before + [CloseCancel] + during;
    if during == [] {
      assert ops[..|ops| - 1] == before;
    } else {
      HandleWhileClosing(before, during[..|during| - 1]);
      assert ops[..|ops| - 1] == before + [CloseCancel] + during[..|during| - 1];
    }
  }

  /**
   * Closing an open connection leaves nothing live if and only if the last operation of another
   * thread between its two steps, if any, is not a granted SetConnCancel.
   */
  lemma ClosedCleanlyExactlyWhen(before: seq<Op>, during: seq<Op>)
    requires HandleOpsOnly(during) && Run(before).open
    ensures !Run(Closing(before, during)).open
    ensures AllFreed(Run(Closing(before, during))) <==> (during == [] || during[|during| - 1] != Set(true))
  {
    HandleWhileClosing(before, during);
    AllFreedWithoutHandle(Closing(before, during));
    assert Closing(before, during)[..|Closing(before, during)| - 1] == before + [CloseCancel] + during;
  }

  /** A connection already closed: the test at the start skips the cancel, so a handle left over stays. */
  lemma ClosedTwice(before: seq<Op>, during: seq<Op>)
    requires HandleOpsOnly(during) && !Run(before).open
    ensures AllFreed(Run(Closing(before, during))) <==> (during != [] || AllFreed(Run(before)))
  {
    HandleWhileClosing(before, during);
    AllFreedWithoutHandle(before);
    AllFreedWithoutHandle(Closing(before, during));
    assert Closing(before, during)[..|Closing(before, during)| - 1] == before + [CloseCancel] + during;
  }

  /** The race: a worker that asks for its handle while the connection is being closed keeps it. */
  lemma HandleOutlivesClose()
    ensures var v := Run(Closing([], [Set(true)])); !v.open && AllocatedIn(v.calls, 0) && !FreedIn(v.calls, 0)
  {
    var none: seq<Op> := [];
    ClosedCleanlyExactlyWhen(none, [Set(true)]);
    RunKeepsValid(Closing(none, [Set(true)]));
    var ops := Closing(none, [Set(true)]);
    assert ops == [CloseCancel, Set(true), CloseFinish];
    assert ops[..2] == [CloseCancel, Set(true)] && ops[..2][..1] == [CloseCancel] && ops[..2][..1][..0] == none;
    assert Run(ops[..2][..1]) == Opened();
    assert Run(ops[..2]).handle == Some(0);
  }
}
