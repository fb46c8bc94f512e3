/** What every interleaving of the query thread with its callers keeps. */
module QueryWorkerSafety {
  import opened Basics
  import opened QueryWorker

  ghost predicate InExecute(p: Phase)
  {
    !(p.Idle? || p.Between? || p.Stopped?)
  }

  // ----- order and events

  /** The indices of the outcomes that raised an event, in order. */
  ghost function EventsOf(outcomes: seq<Outcome>): seq<int>
    decreases |outcomes|
  {
    if outcomes == [] then []
    else
      var n := |outcomes| - 1;
      EventsOf(outcomes[..n]) + (if outcomes[n].raised then [n] else [])
  }

  /** Queries run in the order added, each once, and each finished one raised exactly its event. */
  ghost predicate InOrder(s: State)
  {
    && -1 <= s.current < |s.queries|
    && s.executed == s.queries[..s.current + 1]
    && |s.log.outcomes| == (if InExecute(s.phase) then s.current else s.current + 1)
    && s.log.events == EventsOf(s.log.outcomes)
    && (forall o :: o in s.log.outcomes ==> (o.raised <==> o.rc != Cancelled || s.eventOnCancel))
  }

  /** t differs from s at most inside the running Execute: nothing started or finished. */
  ghost predicate SameQueue(s: State, t: State)
  {
    && t.queries == s.queries && t.current == s.current && t.executed == s.executed
    && t.eventOnCancel == s.eventOnCancel && t.cancelled == s.cancelled && t.multi == s.multi
    && s.log.kept <= t.log.kept
    && t.log.outcomes == s.log.outcomes && t.log.events == s.log.events
    && (InExecute(t.phase) <==> InExecute(s.phase))
  }

  /** The running Execute ended in t with outcome o. */
  ghost predicate Ended(s: State, t: State, o: Outcome)
  {
    && InExecute(s.phase) && t.phase.Between?
    && t.queries == s.queries && t.current == s.current && t.executed == s.executed
    && t.eventOnCancel == s.eventOnCancel && t.cancelled == s.cancelled && t.multi == s.multi
    && s.log.kept <= t.log.kept
    && t.log.outcomes == s.log.outcomes + [o]
    && t.log.events == s.log.events + (if o.raised then [s.current] else [])
    && (o.raised <==> o.rc != Cancelled || s.eventOnCancel)
  }

  ghost predicate MovesOn(s: State, t: State)
  {
    SameQueue(s, t) || (|t.log.outcomes| > 0 && Ended(s, t, t.log.outcomes[|t.log.outcomes| - 1]))
  }

  lemma FinishMovesOn(s: State, s1: State, rc: ReturnCode, chosen: Option<PgResult>, log: Log, keep: Option<PgResult>)
    requires InExecute(s.phase) && SameQueue(s, s1.(phase := s.phase))
    requires log.outcomes == s.log.outcomes && log.events == s.log.events && log.kept == s.log.kept
    ensures MovesOn(s, Finish(s1, rc, chosen, log, keep))
  {
    var t := Finish(s1, rc, chosen, log, keep);
    assert Ended(s, t, t.log.outcomes[|s.log.outcomes|]);
  }

  lemma ConsumeFailedMovesOn(s: State, env: Env, held: Option<PgResult>)
    requires InExecute(s.phase)
    ensures MovesOn(s, ConsumeFailed(s, env, held))
  {
    var s1 := s.(call := s.call.(clean := false));
    FinishMovesOn(s, s1, Cancelled, None, Free(s.log, held), None);
    FinishMovesOn(s, s1, if env.lost then ConnLost else ConsumeError, None, s.log, None);
  }

  lemma OutMovesOn(s: State)
    requires s.phase.Out?
    ensures MovesOn(s, AtOut(s))
  {
    var chosen := if s.call.result.Some? then s.call.result else s.call.lastResult;
    FinishMovesOn(s, s, Cancelled, None, Free(s.log, s.call.result), None);
    FinishMovesOn(s, s, Failed(FatalError), None, s.log, None);
    if chosen.Some? { FinishMovesOn(s, s, Failed(chosen.value.status), chosen, Free(s.log, chosen), None); }
    FinishMovesOn(s, s, Succeeded, chosen, s.log, chosen);
  }

  lemma HeadMovesOn(s: State) requires InExecute(s.phase) ensures MovesOn(s, AtHead(s)) {}

  lemma GetMovesOn(s: State, env: Env) requires InExecute(s.phase) ensures MovesOn(s, AtGet(s, env)) {}

  lemma CountMovesOn(s: State, res: PgResult) requires InExecute(s.phase) ensures MovesOn(s, AtCount(s, res)) {}

  lemma DrainGetMovesOn(s: State) requires InExecute(s.phase) ensures MovesOn(s, AtDrainGet(s)) {}

  lemma DrainMovesOn(s: State, env: Env)
    requires s.phase.Drain?
    ensures MovesOn(s, AtDrain(s, env))
  {
    if !env.ok && s.cancelled { ConsumeFailedMovesOn(s, env, s.call.result); }
    else { assert SameQueue(s, AtDrain(s, env)); }
  }

  lemma CopyMovesOn(s: State)
    requires s.phase.Copy?
    ensures MovesOn(s, AtCopy(s, s.phase.rows, s.phase.ended))
  {
    assert SameQueue(s, AtCopy(s, s.phase.rows, s.phase.ended));
  }

  lemma CopyReadMovesOn(s: State, env: Env)
    requires s.phase.CopyRead?
    ensures MovesOn(s, AtCopyRead(s, env))
  {
    if !env.ok { ConsumeFailedMovesOn(s, env, s.call.result); }
    else { assert SameQueue(s, AtCopyRead(s, env)); }
  }

  lemma ExecuteMovesOn(s: State, env: Env)
    requires InExecute(s.phase)
    ensures MovesOn(s, WorkerStep(s, env))
  {
    match s.phase
    case Head => HeadMovesOn(s);
    case Consume => ConsumeFailedMovesOn(s, env, s.call.lastResult);
    case Busy =>
    case Get => GetMovesOn(s, env);
    case Count(res) => CountMovesOn(s, res);
    case Drain => DrainMovesOn(s, env);
    case DrainGet => DrainGetMovesOn(s);
    case Copy(_, _) => CopyMovesOn(s);
    case CopyRead => CopyReadMovesOn(s, env);
    case Out => OutMovesOn(s);
  }

  lemma MovingOnInOrder(s: State, t: State)
    requires InOrder(s) && MovesOn(s, t)
    ensures InOrder(t)
  {
    if !SameQueue(s, t) {
      assert t.log.outcomes[..s.current] == s.log.outcomes;
    }
  }

  /** The state in which the next query has been picked but not yet sent. */
  ghost function Picked(s: State): State
    requires 0 <= s.current + 1 < |s.queries|
  {
    var q := s.queries[s.current + 1];
    s.(phase := Head, current := s.current + 1, executed := s.executed + [q])
  }

  lemma BeginMovesOn(s: State, env: Env)
    requires InOrder(s) && s.phase.Idle? && s.current + 1 < |s.queries|
    ensures InOrder(Picked(s)) && MovesOn(Picked(s), BeginQuery(s, env))
  {
    var q := s.queries[s.current + 1];
    assert s.queries[..s.current + 1] + [q] == s.queries[..s.current + 2];
    var c := IDLE_CALL.(toRetrieve := q.toRetrieve, pending := s.call.pending, clean := false);
    var s1 := s.(current := s.current + 1, executed := s.executed + [q], call := c);
    FinishMovesOn(Picked(s), s1, ConnLost, None, s.log, None);
    FinishMovesOn(Picked(s), s1, StringInvalid, None, s.log, None);
    FinishMovesOn(Picked(s), s1, SendError, None, s.log, None);
  }

  lemma StepInOrder(s: State, a: Action)
    requires InOrder(s)
    ensures InOrder(Step(s, a))
  {
    match a
    case AddQuery(q) => assert (s.queries + [q])[..s.current + 1] == s.queries[..s.current + 1];
    case CancelThread =>
    case Work(env) =>
      if InExecute(s.phase) {
        ExecuteMovesOn(s, env);
        MovingOnInOrder(s, Step(s, a));
      } else if s.phase.Idle? && s.current + 1 < |s.queries| {
        BeginMovesOn(s, env);
        MovingOnInOrder(Picked(s), BeginQuery(s, env));
      }
  }

  // ----- inside one Execute

  /** Nothing is lost from the stream, a clean Execute drains it, and the server is asked to cancel at most once. */
  ghost predicate StreamOk(c: Call, p: Phase)
  {
    && c.sent == c.taken + c.pending
    && (p.Out? && c.clean ==> c.pending == [])
    && c.cancelCalls == (if c.connCancelled then 1 else 0)
    && (!p.Out? ==> c.clean)
    && (p.Drain? || p.DrainGet? || !c.clean ==> c.result.Some? && IsError(c.result.value.status))
  }

  /** Without cancellation, the variables hold what replaying the taken results gives. */
  ghost predicate ReplayOk(c: Call, p: Phase)
  {
    var r := Replay(c.taken, c.toRetrieve);
    match p
    case Count(res) => r == Tally(Selection(c.count, c.result, c.lastResult, Scanning), res, c.toRetrieve)
    case Copy(_, _) => r == Selection(c.count, c.result, c.lastResult, AfterCopy)
    case CopyRead => r == Selection(c.count, c.result, c.lastResult, AfterCopy)
    case Drain => r == Selection(c.count, c.result, c.lastResult, Errored)
    case DrainGet => r == Selection(c.count, c.result, c.lastResult, Errored)
    case Out => r.result == c.result && r.last == c.lastResult
    case _ => r == Selection(c.count, c.result, c.lastResult, Scanning)
  }

  /** Results still inside libpq have ids from here on; all others were handed out before. */
  ghost function Frontier(pending: seq<PgResult>, nextId: nat): nat
  {
    if pending == [] then nextId else pending[0].id
  }

  /** No result was freed twice, none handed to a caller was freed, none still pending was touched. */
  ghost predicate PoolOk(pending: seq<PgResult>, log: Log)
  {
    && (forall i, j :: 0 <= i < j < |pending| ==> pending[i].id < pending[j].id)
    && (forall i :: 0 <= i < |pending| ==> pending[i].id < log.nextId)
    && (forall id :: id in log.freed ==> log.freed[id] == 1 && id < Frontier(pending, log.nextId) && id !in log.kept)
    && (forall id :: id in log.kept ==> id < Frontier(pending, log.nextId))
  }

  /** The id is in the worker's hands: handed out, neither freed nor given to a caller. */
  ghost predicate Owned(id: nat, pending: seq<PgResult>, log: Log)
  {
    id < Frontier(pending, log.nextId) && id !in log.freed && id !in log.kept
  }

  ghost predicate HeldOk(c: Call, p: Phase, log: Log)
  {
    && PoolOk(c.pending, log)
    && (c.result.Some? ==> Owned(c.result.value.id, c.pending, log))
    && (c.lastResult.Some? ==> Owned(c.lastResult.value.id, c.pending, log))
    && (p.Count? ==> Owned(p.res.id, c.pending, log))
    && (c.result.Some? && c.lastResult.Some? ==> c.result.value.id != c.lastResult.value.id)
    && (p.Count? && c.result.Some? ==> c.result.value.id != p.res.id)
    && (p.Count? && c.lastResult.Some? ==> c.lastResult.value.id != p.res.id)
  }

  ghost predicate ExecOk(s: State)
  {
    && StreamOk(s.call, s.phase)
    && (!s.cancelled ==> ReplayOk(s.call, s.phase) && !s.call.connCancelled)
    && HeldOk(s.call, s.phase, s.log)
  }

  lemma TakeOk(c: Call, log: Log)
    requires c.pending != [] && c.sent == c.taken + c.pending && PoolOk(c.pending, log)
    ensures var (r, d) := Take(c);
            && d.sent == d.taken + d.pending && PoolOk(d.pending, log) && Owned(r.id, d.pending, log)
            && Frontier(c.pending, log.nextId) <= r.id < Frontier(d.pending, log.nextId)
            && Replay(d.taken, c.toRetrieve) == Feed(Replay(c.taken, c.toRetrieve), r, c.toRetrieve)
  {
    var (r, d) := Take(c);
    assert c.pending == [r] + d.pending;
    assert d.taken[..|d.taken| - 1] == c.taken;
  }

  lemma FreeOk(pending: seq<PgResult>, log: Log, r: Option<PgResult>)
    requires PoolOk(pending, log) && (r.Some? ==> Owned(r.value.id, pending, log))
    ensures PoolOk(pending, Free(log, r))
  {
  }

  /** Taking a result disturbs nothing held and makes the new one fit either place. */
  lemma TakenHeldOk(c: Call, log: Log)
    requires c.pending != [] && c.sent == c.taken + c.pending && HeldOk(c, Get, log)
    ensures var (r, d) := Take(c);
            HeldOk(d, Count(r), log) && HeldOk(d.(result := Some(r)), Drain, log)
  {
    TakeOk(c, log);
  }

  lemma CountHeldOk(c: Call, res: PgResult, log: Log)
    requires HeldOk(c, Count(res), log)
    ensures HeldOk(c.(result := Some(res), count := c.count + 1), Head, log)
    ensures HeldOk(c.(lastResult := Some(res), count := c.count + 1), Head, Free(log, c.lastResult))
  {
    FreeOk(c.pending, log, c.lastResult);
  }

  // ----- between two Executes

  /** At rest: nothing freed twice, and after a clean Execute nothing left on the connection. */
  ghost predicate RestOk(s: State)
  {
    (s.call.clean ==> s.call.pending == []) && PoolOk(s.call.pending, s.log)
  }

  /**
   * A clean Execute left the connection drained; if it was not cancelled either, it reported the
   * result its stream should yield, as a success exactly if that is no error. Others are no success.
   */
  ghost predicate OutcomeOk(o: Outcome, n: int)
  {
    && (o.clean ==> o.drained)
    && (o.rc == Succeeded ==> o.clean)
    && (o.rc.Failed? ==> o.rc.status == if o.chosen.Some? then o.chosen.value.status else FatalError)
    && (o.clean && o.rc != Cancelled ==>
          && o.chosen == Choice(o.sent, n)
          && o.rc == (if o.chosen.None? then Failed(FatalError)
                      else if IsError(o.chosen.value.status) then Failed(o.chosen.value.status)
                      else Succeeded))
  }

  /** A result reported as a success is in the caller's hands. */
  ghost predicate HandedOut(o: Outcome, log: Log)
  {
    o.rc == Succeeded ==> o.chosen.Some? && o.chosen.value.id in log.kept
  }

  ghost predicate LastOutcomeOk(s: State, n: int)
  {
    && |s.log.outcomes| > 0 && OutcomeOk(s.log.outcomes[|s.log.outcomes| - 1], n)
    && (s.log.outcomes[|s.log.outcomes| - 1].rc == Cancelled ==> s.cancelled)
    && HandedOut(s.log.outcomes[|s.log.outcomes| - 1], s.log)
  }

  /** Either still inside a consistent Execute, or just out of it with a correct outcome. */
  ghost predicate GoesWell(t: State, n: int)
  {
    if InExecute(t.phase) then ExecOk(t) && t.call.toRetrieve == n
    else RestOk(t) && LastOutcomeOk(t, n)
  }

  lemma ConsumeFailedGoesWell(s: State, env: Env, held: Option<PgResult>)
    requires ExecOk(s) && (held.Some? ==> Owned(held.value.id, s.call.pending, s.log))
    ensures GoesWell(ConsumeFailed(s, env, held), s.call.toRetrieve)
  {
    FreeOk(s.call.pending, s.log, held);
  }

  /** Steps that only move on to another statement. */
  lemma MoveGoesWell(s: State, p: Phase)
    requires ExecOk(s)
    requires ((s.phase.Consume? || s.phase.Busy?) && (p.Head? || p.Busy? || p.Get?))
             || (s.phase.Drain? && p.DrainGet?)
             || ((s.phase.Copy? || s.phase.CopyRead?) && (p.Copy? || p.CopyRead?))
             || (s.phase.Head? && p.Consume?)
             || ((s.phase.Get? || s.phase.DrainGet? || s.phase.Copy?) && s.call.pending == [] && p.Out?)
    ensures GoesWell(s.(phase := p), s.call.toRetrieve)
  {
  }

  lemma HeadGoesWell(s: State)
    requires ExecOk(s) && s.phase.Head?
    ensures GoesWell(AtHead(s), s.call.toRetrieve)
  {
    FreeOk(s.call.pending, s.log, s.call.lastResult);
    if !s.cancelled { MoveGoesWell(s, Consume); }
  }

  lemma GetGoesWell(s: State, env: Env)
    requires ExecOk(s) && s.phase.Get?
    ensures GoesWell(AtGet(s, env), s.call.toRetrieve)
  {
    if s.call.pending == [] { MoveGoesWell(s, Out); return; }
    var copy := Copy(env.rows, env.ended);
    TakenStreamOk(s.call, s.log, copy);
    TakenHeldOk(s.call, s.log);
    var (r, c) := Take(s.call);
    if IsError(r.status) { assert AtGet(s, env) == s.(phase := Drain, call := c.(result := Some(r))); }
    else if r.status == CopyOut { assert AtGet(s, env) == s.(phase := copy, call := c); }
    else { assert AtGet(s, env) == s.(phase := Count(r), call := c); }
  }

  /** A result taken while scanning fits where its kind leads. */
  lemma TakenStreamOk(c: Call, log: Log, copy: Phase)
    requires c.pending != [] && StreamOk(c, Get) && PoolOk(c.pending, log) && copy.Copy?
    ensures var (r, d) := Take(c);
            && StreamOk(d, copy) && StreamOk(d, Count(r))
            && (IsError(r.status) ==> StreamOk(d.(result := Some(r)), Drain))
            && (ReplayOk(c, Get) ==>
                  if IsError(r.status) then ReplayOk(d.(result := Some(r)), Drain)
                  else if r.status == CopyOut then ReplayOk(d, copy)
                  else ReplayOk(d, Count(r)))
  {
    TakeOk(c, log);
  }

  lemma CountGoesWell(s: State, res: PgResult)
    requires ExecOk(s) && s.phase == Count(res)
    ensures GoesWell(AtCount(s, res), s.call.toRetrieve)
  {
    CountKeepsStream(s, res);
    CountKeepsHeld(s, res);
  }

  lemma CountKeepsStream(s: State, res: PgResult)
    requires ExecOk(s) && s.phase == Count(res)
    ensures StreamOk(AtCount(s, res).call, Head) && (!s.cancelled ==> ReplayOk(AtCount(s, res).call, Head))
  {
  }

  lemma CountKeepsHeld(s: State, res: PgResult)
    requires ExecOk(s) && s.phase == Count(res)
    ensures HeldOk(AtCount(s, res).call, Head, AtCount(s, res).log)
  {
    CountHeldOk(s.call, res, s.log);
  }

  lemma DrainGoesWell(s: State, env: Env)
    requires ExecOk(s) && s.phase.Drain?
    ensures GoesWell(AtDrain(s, env), s.call.toRetrieve)
  {
    if env.ok { MoveGoesWell(s, DrainGet); }
    else if s.cancelled { ConsumeFailedGoesWell(s, env, s.call.result); }
  }

  lemma DrainGetGoesWell(s: State)
    requires ExecOk(s) && s.phase.DrainGet?
    ensures GoesWell(AtDrainGet(s), s.call.toRetrieve)
  {
    if s.call.pending == [] { MoveGoesWell(s, Out); return; }
    TakeOk(s.call, s.log);
    var (r, d) := Take(s.call);
    FreeOk(d.pending, s.log, Some(r));
  }

  lemma CopyGoesWell(s: State)
    requires ExecOk(s) && s.phase.Copy?
    ensures GoesWell(AtCopy(s, s.phase.rows, s.phase.ended), s.call.toRetrieve)
  {
    if s.phase.rows > 0 || !s.phase.ended { CopyWaitGoesWell(s); return; }
    if s.call.pending == [] { MoveGoesWell(s, Out); return; }
    TakeOk(s.call, s.log);
    TakenHeldOk(s.call, s.log);
  }

  lemma CopyWaitGoesWell(s: State)
    requires ExecOk(s) && s.phase.Copy? && (s.phase.rows > 0 || !s.phase.ended)
    ensures GoesWell(AtCopy(s, s.phase.rows, s.phase.ended), s.call.toRetrieve)
  {
    var t := AtCopy(s, s.phase.rows, s.phase.ended);
    if !s.cancelled { MoveGoesWell(s, t.phase); }
  }

  lemma CopyReadGoesWell(s: State, env: Env)
    requires ExecOk(s) && s.phase.CopyRead?
    ensures GoesWell(AtCopyRead(s, env), s.call.toRetrieve)
  {
    if env.ok { MoveGoesWell(s, Copy(env.rows, env.ended)); } else { ConsumeFailedGoesWell(s, env, s.call.result); }
  }

  lemma KeepOk(pending: seq<PgResult>, log: Log, r: PgResult)
    requires PoolOk(pending, log) && Owned(r.id, pending, log)
    ensures PoolOk(pending, log.(kept := log.kept + {r.id}))
  {
  }

  /** Finishing with a log that keeps the pool in order and an outcome that is right. */
  lemma FinishGoesWell(s: State, rc: ReturnCode, chosen: Option<PgResult>, log: Log, keep: Option<PgResult>, n: int)
    requires s.call.clean ==> s.call.pending == []
    requires PoolOk(s.call.pending, log) && (keep.Some? ==> Owned(keep.value.id, s.call.pending, log))
    requires rc.Failed? ==> rc.status == if chosen.Some? then chosen.value.status else FatalError
    requires (rc == Succeeded ==> s.call.clean && chosen.Some? && keep == chosen) && (rc == Cancelled ==> s.cancelled)
    requires s.call.clean && rc != Cancelled ==>
               && chosen == Choice(s.call.sent, n)
               && rc == (if chosen.None? then Failed(FatalError)
                         else if IsError(chosen.value.status) then Failed(chosen.value.status)
                         else Succeeded)
    ensures GoesWell(Finish(s, rc, chosen, log, keep), n)
  {
    if keep.Some? { KeepOk(s.call.pending, log, keep.value); }
  }

  lemma OutGoesWell(s: State)
    requires ExecOk(s) && s.phase.Out?
    ensures GoesWell(AtOut(s), s.call.toRetrieve)
  {
    var chosen := if s.call.result.Some? then s.call.result else s.call.lastResult;
    var n := s.call.toRetrieve;
    assert s.call.clean ==> s.call.taken == s.call.sent;
    if s.cancelled {
      FreeOk(s.call.pending, s.log, s.call.result);
      FinishGoesWell(s, Cancelled, None, Free(s.log, s.call.result), None, n);
    } else if chosen.None? {
      FinishGoesWell(s, Failed(FatalError), None, s.log, None, n);
    } else if IsError(chosen.value.status) {
      FreeOk(s.call.pending, s.log, chosen);
      FinishGoesWell(s, Failed(chosen.value.status), chosen, Free(s.log, chosen), None, n);
    } else {
      FinishGoesWell(s, Succeeded, chosen, s.log, chosen, n);
    }
  }

  lemma ExecuteGoesWell(s: State, env: Env)
    requires InExecute(s.phase) && ExecOk(s)
    ensures GoesWell(WorkerStep(s, env), s.call.toRetrieve)
  {
    match s.phase
    case Head => HeadGoesWell(s);
    case Consume => if env.ok { MoveGoesWell(s, Busy); } else { ConsumeFailedGoesWell(s, env, s.call.lastResult); }
    case Busy => MoveGoesWell(s, if env.busy then Head else Get);
    case Get => GetGoesWell(s, env);
    case Count(res) => CountGoesWell(s, res);
    case Drain => DrainGoesWell(s, env);
    case DrainGet => DrainGetGoesWell(s);
    case Copy(_, _) => CopyGoesWell(s);
    case CopyRead => CopyReadGoesWell(s, env);
    case Out => OutGoesWell(s);
  }

  lemma FreshOk(answer: seq<Status>, log: Log)
    requires PoolOk([], log)
    ensures PoolOk(Fresh(answer, log.nextId), log.(nextId := log.nextId + |answer|))
  {
  }

  lemma SentGoesWell(s: State, answer: seq<Status>, n: int)
    requires PoolOk([], s.log)
    ensures GoesWell(StartReading(s, n, answer), n)
  {
    FreshOk(answer, s.log);
    assert Replay([], n) == Selection(0, None, None, Scanning);
  }

  lemma UnsentGoesWell(s: State, env: Env)
    requires RestOk(s) && s.phase.Idle? && 0 <= s.current + 1 < |s.queries|
    requires !env.send.Sent? || s.call.pending != []
    ensures GoesWell(BeginQuery(s, env), s.queries[s.current + 1].toRetrieve)
  {
    var q := s.queries[s.current + 1];
    var c := IDLE_CALL.(toRetrieve := q.toRetrieve, pending := s.call.pending, clean := false);
    var s1 := s.(current := s.current + 1, executed := s.executed + [q], call := c);
    var rc := match env.send
              case NotConnected => ConnLost
              case Unencodable => StringInvalid
              case _ => SendError;
    FinishGoesWell(s1, rc, None, s.log, None, q.toRetrieve);
  }

  lemma SentBegins(s: State, env: Env)
    requires RestOk(s) && s.phase.Idle? && 0 <= s.current + 1 < |s.queries|
    requires env.send.Sent? && s.call.pending == []
    ensures GoesWell(BeginQuery(s, env), s.queries[s.current + 1].toRetrieve)
  {
    var q := s.queries[s.current + 1];
    var c := IDLE_CALL.(toRetrieve := q.toRetrieve, clean := false);
    var s1 := s.(current := s.current + 1, executed := s.executed + [q], call := c);
    assert BeginQuery(s, env) == StartReading(s1, q.toRetrieve, env.send.answer);
    SentGoesWell(s1, env.send.answer, q.toRetrieve);
  }

  lemma BeginGoesWell(s: State, env: Env)
    requires RestOk(s) && s.phase.Idle? && 0 <= s.current + 1 < |s.queries|
    ensures GoesWell(BeginQuery(s, env), s.queries[s.current + 1].toRetrieve)
  {
    if env.send.Sent? && s.call.pending == [] { SentBegins(s, env); } else { UnsentGoesWell(s, env); }
  }

  /** A query that is sent gets the server's results, in order, each under an address of its own. */
  lemma SentIsAnswered(s: State, env: Env)
    requires s.phase.Idle? && 0 <= s.current + 1 < |s.queries| && env.send.Sent? && s.call.pending == []
    ensures var t := BeginQuery(s, env);
            && t.phase.Head? && |t.call.sent| == |env.send.answer| && t.call.pending == t.call.sent
            && (forall i :: 0 <= i < |t.call.sent| ==> t.call.sent[i].status == env.send.answer[i])
            && (forall i, j :: 0 <= i < j < |t.call.sent| ==> t.call.sent[i].id != t.call.sent[j].id)
            && (forall i :: 0 <= i < |t.call.sent| ==> s.log.nextId <= t.call.sent[i].id)
  {
  }

  // ----- every run

  ghost predicate OutcomesOk(s: State)
  {
    && |s.log.outcomes| <= |s.queries|
    && forall i :: 0 <= i < |s.log.outcomes| ==>
         && OutcomeOk(s.log.outcomes[i], s.queries[i].toRetrieve)
         && (s.log.outcomes[i].rc == Cancelled ==> s.cancelled) && HandedOut(s.log.outcomes[i], s.log)
  }

  ghost predicate Inv(s: State)
  {
    && InOrder(s) && OutcomesOk(s)
    && (if InExecute(s.phase) then ExecOk(s) && s.call.toRetrieve == s.queries[s.current].toRetrieve else RestOk(s))
  }

  lemma MovingOnKeepsInv(s: State, t: State)
    requires InOrder(s) && OutcomesOk(s) && InExecute(s.phase) && MovesOn(s, t)
    requires GoesWell(t, s.queries[s.current].toRetrieve)
    ensures Inv(t)
  {
    MovingOnInOrder(s, t);
    if !SameQueue(s, t) {
      var o := t.log.outcomes[|t.log.outcomes| - 1];
      assert t.log.outcomes == s.log.outcomes + [o];
      forall i | 0 <= i < |t.log.outcomes|
        ensures OutcomeOk(t.log.outcomes[i], t.queries[i].toRetrieve)
        ensures t.log.outcomes[i].rc == Cancelled ==> t.cancelled
        ensures HandedOut(t.log.outcomes[i], t.log)
      {
        if i < |s.log.outcomes| { assert t.log.outcomes[i] == s.log.outcomes[i]; }
      }
    }
  }

  /** Calls from other threads touch neither the running Execute nor what is past. */
  lemma OtherThreadsKeepInv(s: State, a: Action)
    requires Inv(s) && !a.Work?
    ensures Inv(Step(s, a))
  {
    StepInOrder(s, a);
    var t := Step(s, a);
    assert forall i :: 0 <= i < |s.queries| ==> t.queries[i] == s.queries[i];
  }

  lemma ExecuteKeepsInv(s: State, env: Env)
    requires Inv(s) && InExecute(s.phase)
    ensures Inv(WorkerStep(s, env))
  {
    ExecuteMovesOn(s, env);
    ExecuteGoesWell(s, env);
    MovingOnKeepsInv(s, WorkerStep(s, env));
  }

  lemma BeginKeepsInv(s: State, env: Env)
    requires Inv(s) && s.phase.Idle? && s.current + 1 < |s.queries|
    ensures Inv(BeginQuery(s, env))
  {
    BeginMovesOn(s, env);
    BeginGoesWell(s, env);
    MovingOnKeepsInv(Picked(s), BeginQuery(s, env));
  }

  lemma StepKeepsInv(s: State, a: Action)
    requires Inv(s)
    ensures Inv(Step(s, a))
  {
    if !a.Work? { OtherThreadsKeepInv(s, a); }
    else if InExecute(s.phase) { ExecuteKeepsInv(s, a.env); }
    else if s.phase.Idle? && s.current + 1 < |s.queries| { BeginKeepsInv(s, a.env); }
  }

  lemma {:induction false} RunKeepsInv(multi: bool, eventOnCancel: bool, actions: seq<Action>)
    ensures Inv(Run(Start(multi, eventOnCancel), actions))
    decreases |actions|
  {
    if actions != [] {
      var init := actions[..|actions| - 1];
      RunKeepsInv(multi, eventOnCancel, init);
      StepKeepsInv(Run(Start(multi, eventOnCancel), init), actions[|actions| - 1]);
    }
  }

  lemma {:induction false} EventsOfIsExact(outcomes: seq<Outcome>)
    ensures var e := EventsOf(outcomes);
            && (forall i, j :: 0 <= i < j < |e| ==> e[i] < e[j])
            && (forall i :: i in e <==> 0 <= i < |outcomes| && outcomes[i].raised)
    decreases |outcomes|
  {
    if outcomes != [] {
      var n := |outcomes| - 1;
      EventsOfIsExact(outcomes[..n]);
      var before, e := EventsOf(outcomes[..n]), EventsOf(outcomes);
      forall i, j | 0 <= i < j < |e| ensures e[i] < e[j] { assert before[i] in before; }
    }
  }

  /** The queries that other threads added, in order. */
  ghost function Added(actions: seq<Action>): seq<Query>
    decreases |actions|
  {
    if actions == [] then []
    else
      var a := actions[|actions| - 1];
      Added(actions[..|actions| - 1]) + (if a.AddQuery? then [a.query] else [])
  }

  lemma {:induction false} QueueIsWhatWasAdded(multi: bool, eventOnCancel: bool, actions: seq<Action>)
    ensures Run(Start(multi, eventOnCancel), actions).queries == Added(actions)
    decreases |actions|
  {
    if actions != [] {
      var init, a := actions[..|actions| - 1], actions[|actions| - 1];
      QueueIsWhatWasAdded(multi, eventOnCancel, init);
      RunKeepsInv(multi, eventOnCancel, init);
      var s := Run(Start(multi, eventOnCancel), init);
      if a.Work? {
        if InExecute(s.phase) { ExecuteMovesOn(s, a.env); }
        else if s.phase.Idle? && s.current + 1 < |s.queries| { BeginMovesOn(s, a.env); }
      }
    }
  }

  /**
   * Over any interleaving: queries are executed in the order added and each at most once; each
   * finished one raised exactly one event, except none if it was cancelled with such events off.
   */
  lemma QueueIsServedInOrder(multi: bool, eventOnCancel: bool, actions: seq<Action>)
    ensures var s := Run(Start(multi, eventOnCancel), actions);
            && s.executed <= Added(actions) && |s.executed| - 1 <= |s.log.outcomes| <= |s.executed|
            && (forall i, j :: 0 <= i < j < |s.log.events| ==> s.log.events[i] < s.log.events[j])
            && (forall i :: i in s.log.events <==>
                  0 <= i < |s.log.outcomes| && (s.log.outcomes[i].rc != Cancelled || s.eventOnCancel))
  {
    RunKeepsInv(multi, eventOnCancel, actions);
    QueueIsWhatWasAdded(multi, eventOnCancel, actions);
    EventsOfIsExact(Run(Start(multi, eventOnCancel), actions).log.outcomes);
  }

  /**
   * Over any interleaving: an Execute that saw no send or consume failure drained its result stream,
   * and if not cancelled reported the result its stream should yield.
   */
  lemma ExecuteDrainsAndSelects(multi: bool, eventOnCancel: bool, actions: seq<Action>, i: nat)
    requires i < |Run(Start(multi, eventOnCancel), actions).log.outcomes|
    ensures var s := Run(Start(multi, eventOnCancel), actions);
            && i < |s.queries| && OutcomeOk(s.log.outcomes[i], s.queries[i].toRetrieve)
            && (s.log.outcomes[i].rc == Cancelled ==> s.cancelled)
            && HandedOut(s.log.outcomes[i], s.log)
  {
    RunKeepsInv(multi, eventOnCancel, actions);
  }

  /** Over any interleaving: no result is freed twice, and none that a caller was given is freed. */
  lemma ResultsAreFreedOnce(multi: bool, eventOnCancel: bool, actions: seq<Action>, id: nat)
    ensures var log := Run(Start(multi, eventOnCancel), actions).log;
            log.freed[id] <= 1 && !(id in log.freed && id in log.kept)
  {
    RunKeepsInv(multi, eventOnCancel, actions);
  }

  /** How failures to send and to read are reported. */
  lemma FailuresAreReported(s: State, env: Env)
    ensures s.phase.Idle? && 0 <= s.current + 1 < |s.queries| && !env.send.Sent? ==>
              var t := WorkerStep(s, env);
              && |t.log.outcomes| == |s.log.outcomes| + 1
              && t.log.outcomes[|s.log.outcomes|].rc ==
                   if env.send.NotConnected? then ConnLost
                   else if env.send.Unencodable? then StringInvalid else SendError
    ensures (s.phase.Consume? || s.phase.CopyRead?) && !env.ok ==>
              var t := WorkerStep(s, env);
              && |t.log.outcomes| == |s.log.outcomes| + 1
              && t.log.outcomes[|s.log.outcomes|].rc ==
                   if s.cancelled then Cancelled else if env.lost then ConnLost else ConsumeError
  {
  }

  /** After an error result, a failure to read the rest keeps the error to be reported, unless cancelled. */
  lemma ErrorSurvivesFailure(s: State, env: Env)
    requires s.phase.Drain? && !env.ok
    ensures var t := WorkerStep(s, env);
            if s.cancelled then
              && |t.log.outcomes| == |s.log.outcomes| + 1
              && t.log.outcomes[|s.log.outcomes|].rc == Cancelled
            else t.phase.Out? && t.call.result == s.call.result && t.log == s.log
  {
  }

  /** Over any interleaving: when a query is sent after a clean one, nothing is pending on the connection. */
  lemma ConnectionIsReusable(multi: bool, eventOnCancel: bool, actions: seq<Action>)
    ensures var s := Run(Start(multi, eventOnCancel), actions);
            s.phase.Idle? && s.call.clean ==> s.call.pending == []
  {
    RunKeepsInv(multi, eventOnCancel, actions);
  }

  /** Over any interleaving: one Execute asks the server to cancel at most once, and only if it is cancelled. */
  lemma CancelIsRequestedOnce(multi: bool, eventOnCancel: bool, actions: seq<Action>)
    ensures var s := Run(Start(multi, eventOnCancel), actions);
            InExecute(s.phase) ==> s.call.cancelCalls <= (if s.cancelled then 1 else 0)
  {
    RunKeepsInv(multi, eventOnCancel, actions);
  }

  // ----- after a cancel

  ghost predicate ReportsNothing(o: Outcome)
  {
    o.chosen.None? && (o.rc.Cancelled? || o.rc.ConnLost? || o.rc.StringInvalid? || o.rc.SendError?)
  }

  /**
   * Once cancelled, the worker stays so, hands out and reports no more results and starts at most the
   * query it was about to pick.
   */
  ghost predicate WindsDown(s: State, t: State)
  {
    && s.log.outcomes <= t.log.outcomes
    && (forall i :: |s.log.outcomes| <= i < |t.log.outcomes| ==> ReportsNothing(t.log.outcomes[i]))
    && t.cancelled && t.log.kept == s.log.kept
    && |t.executed| + (if t.phase.Idle? then 1 else 0) <= |s.executed| + (if s.phase.Idle? then 1 else 0)
  }

  lemma CancelledFail(s: State, env: Env, held: Option<PgResult>)
    requires s.cancelled && InExecute(s.phase)
    ensures WindsDown(s, ConsumeFailed(s, env, held))
  {
  }

  lemma CancelledOut(s: State) requires s.cancelled && s.phase.Out? ensures WindsDown(s, AtOut(s)) {}

  lemma CancelledFinish(s: State, env: Env)
    requires s.cancelled && (s.phase.Consume? || s.phase.Drain? || s.phase.CopyRead?)
    ensures WindsDown(s, WorkerStep(s, env))
  {
    CancelledFail(s, env, s.call.lastResult);
    CancelledFail(s, env, s.call.result);
  }

  lemma CancelledMove(s: State, env: Env)
    requires s.cancelled && (s.phase.Head? || s.phase.Busy? || s.phase.DrainGet?)
    ensures WindsDown(s, WorkerStep(s, env))
  {
  }

  lemma CancelledGet(s: State, env: Env) requires s.cancelled && s.phase.Get? ensures WindsDown(s, AtGet(s, env)) {}

  lemma CancelledCount(s: State) requires s.cancelled && s.phase.Count? ensures WindsDown(s, AtCount(s, s.phase.res)) {}

  lemma CancelledCopy(s: State)
    requires s.cancelled && s.phase.Copy?
    ensures WindsDown(s, AtCopy(s, s.phase.rows, s.phase.ended))
  {
  }

  lemma CancelledBegin(s: State, env: Env)
    requires s.cancelled && s.phase.Idle? && 0 <= s.current + 1 < |s.queries|
    ensures WindsDown(s, BeginQuery(s, env))
  {
  }

  lemma CancelledWork(s: State, env: Env)
    requires s.cancelled
    ensures WindsDown(s, WorkerStep(s, env))
  {
    match s.phase
    case Idle => if 0 <= s.current + 1 < |s.queries| { CancelledBegin(s, env); }
    case Head => CancelledMove(s, env);
    case Consume => CancelledFinish(s, env);
    case Busy => CancelledMove(s, env);
    case Get => CancelledGet(s, env);
    case Count(_) => CancelledCount(s);
    case Drain => CancelledFinish(s, env);
    case DrainGet => CancelledMove(s, env);
    case Copy(_, _) => CancelledCopy(s);
    case CopyRead => CancelledFinish(s, env);
    case Out => CancelledOut(s);
    case _ =>
  }

  /** From any cancelled state on, whatever happens: no result is handed out and at most one more query starts. */
  lemma {:induction false} CancelStopsTheQueue(s: State, actions: seq<Action>)
    requires s.cancelled
    ensures WindsDown(s, Run(s, actions))
    decreases |actions|
  {
    if actions != [] {
      var init, a := actions[..|actions| - 1], actions[|actions| - 1];
      CancelStopsTheQueue(s, init);
      if a.Work? { CancelledWork(Run(s, init), a.env); }
    }
  }
}
