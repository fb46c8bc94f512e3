/**
 * When an Execute ends. Each wait that libpq imposes (busy, or COPY data still to be taken) buys the
 * worker a few steps; apart from those it ends within a number of steps that depends on the results
 * alone, unless it is cancelled in the middle of COPY data: then nothing reads the rest.
 */
module QueryWorkerProgress {
  import opened QueryWorker
  import opened QueryWorkerSafety

  /** Cancelled with the buffered COPY data used up and its end not read yet. */
  ghost predicate Stuck(s: State)
  {
    s.cancelled && s.phase == Copy(0, false)
  }

  /** Whatever libpq answers and other threads do, a stuck worker stays stuck and finishes nothing. */
  lemma {:induction false} StuckForever(s: State, actions: seq<Action>)
    requires Stuck(s)
    ensures Stuck(Run(s, actions)) && Run(s, actions).log == s.log
    decreases |actions|
  {
    if actions != [] { StuckForever(s, actions[..|actions| - 1]); }
  }

  // ----- steps left

  ghost function Weight(p: Phase): nat
  {
    match p
    case Count(_) => 6
    case Head => 5
    case Consume => 4
    case Busy => 3
    case Get => 2
    case Drain => 3
    case DrainGet => 2
    case Copy(rows, _) => 3 + rows
    case CopyRead => 2
    case Out => 1
    case _ => 0
  }

  /** A bound on the steps left if libpq imposes no more waits. */
  ghost function StepsLeft(s: State): nat
  {
    6 * |s.call.pending| + Weight(s.phase)
  }

  /** What libpq imposes at this step: a busy answer, a read for more COPY data, and each row that comes. */
  ghost function Waits(s: State, env: Env): nat
  {
    match s.phase
    case Busy => if env.busy then 1 else 0
    case Get => env.rows
    case CopyRead => 1 + env.rows
    case _ => 0
  }

  lemma GetShortens(s: State, env: Env)
    requires s.phase.Get?
    ensures StepsLeft(AtGet(s, env)) + 1 <= StepsLeft(s) + 3 * env.rows
  {
  }

  lemma DrainGetShortens(s: State)
    requires s.phase.DrainGet?
    ensures StepsLeft(AtDrainGet(s)) + 1 <= StepsLeft(s)
  {
  }

  lemma CopyShortens(s: State)
    requires s.phase.Copy? && !Stuck(s)
    ensures StepsLeft(AtCopy(s, s.phase.rows, s.phase.ended)) + 1 <= StepsLeft(s)
  {
  }

  /** Every step inside Execute ends it or brings it nearer to its end, waits and the stuck state aside. */
  lemma StepAdvances(s: State, env: Env)
    requires InExecute(s.phase) && !Stuck(s)
    ensures var t := WorkerStep(s, env);
            !InExecute(t.phase) || StepsLeft(t) + 1 <= StepsLeft(s) + 3 * Waits(s, env)
  {
    match s.phase
    case Get => GetShortens(s, env);
    case DrainGet => DrainGetShortens(s);
    case Copy(_, _) => CopyShortens(s);
    case _ =>
  }

  // ----- runs

  ghost function Works(actions: seq<Action>): nat
    decreases |actions|
  {
    if actions == [] then 0
    else Works(actions[..|actions| - 1]) + (if actions[|actions| - 1].Work? then 1 else 0)
  }

  ghost function WaitsIn(s: State, actions: seq<Action>): nat
    decreases |actions|
  {
    if actions == [] then 0
    else
      var init, a := actions[..|actions| - 1], actions[|actions| - 1];
      WaitsIn(s, init) + (if a.Work? then Waits(Run(s, init), a.env) else 0)
  }

  ghost predicate Finished(s: State, t: State)
  {
    |t.log.outcomes| > |s.log.outcomes|
  }

  lemma OutcomesStay(s: State, a: Action)
    ensures |Step(s, a).log.outcomes| >= |s.log.outcomes|
  {
    if a.Work? && InExecute(s.phase) { ExecuteMovesOn(s, a.env); }
  }

  /** The Execute that runs in s is still running in t, stuck or within its bound. */
  ghost predicate StillRunning(s: State, t: State, works: nat, waits: nat)
  {
    && InExecute(t.phase) && |t.log.outcomes| == |s.log.outcomes|
    && (Stuck(t) || StepsLeft(t) + works <= StepsLeft(s) + 3 * waits)
  }

  lemma OneMoreAction(s: State, t: State, a: Action, works: nat, waits: nat)
    requires StillRunning(s, t, works, waits)
    ensures var u := Step(t, a);
            || Finished(s, u)
            || (if a.Work? then StillRunning(s, u, works + 1, waits + Waits(t, a.env))
                else StillRunning(s, u, works, waits))
  {
    if a.Work? {
      ExecuteMovesOn(t, a.env);
      if !Stuck(t) { StepAdvances(t, a.env); }
    }
  }

  lemma {:induction false} RunAdvances(s: State, actions: seq<Action>)
    requires InExecute(s.phase)
    ensures var t := Run(s, actions); Finished(s, t) || StillRunning(s, t, Works(actions), WaitsIn(s, actions))
    decreases |actions|
  {
    if actions != [] {
      var init, a := actions[..|actions| - 1], actions[|actions| - 1];
      RunAdvances(s, init);
      if Finished(s, Run(s, init)) { OutcomesStay(Run(s, init), a); }
      else { OneMoreAction(s, Run(s, init), a, Works(init), WaitsIn(s, init)); }
    }
  }

  /** At some point of the run the Execute that runs in s gets stuck. */
  ghost predicate GetsStuck(s: State, actions: seq<Action>)
  {
    exists k :: 0 <= k <= |actions| && Stuck(Run(s, actions[..k])) && !Finished(s, Run(s, actions[..k]))
  }

  lemma {:induction false} RunConcat(s: State, a: seq<Action>, b: seq<Action>)
    ensures Run(s, a + b) == Run(Run(s, a), b)
    decreases |b|
  {
    if b == [] { assert a + b == a; }
    else {
      assert (a + b)[..|a + b| - 1] == a + b[..|b| - 1];
      RunConcat(s, a, b[..|b| - 1]);
    }
  }

  lemma RunSplit(s: State, actions: seq<Action>, k: nat)
    requires k <= |actions|
    ensures Run(s, actions) == Run(Run(s, actions[..k]), actions[k..])
  {
    RunConcat(s, actions[..k], actions[k..]);
    assert actions[..k] + actions[k..] == actions;
  }

  /**
   * Over any interleaving in which the worker gets more steps than the results and libpq's waits call
   * for: the Execute has ended if and only if it was at no point cancelled in the middle of COPY data.
   */
  lemma ExecuteEndsUnlessStuck(s: State, actions: seq<Action>)
    requires InExecute(s.phase) && Works(actions) > StepsLeft(s) + 3 * WaitsIn(s, actions)
    ensures Finished(s, Run(s, actions)) <==> !GetsStuck(s, actions)
  {
    RunAdvances(s, actions);
    assert actions[..|actions|] == actions;
    if GetsStuck(s, actions) {
      var k :| 0 <= k <= |actions| && Stuck(Run(s, actions[..k])) && !Finished(s, Run(s, actions[..k]));
      RunSplit(s, actions, k);
      StuckForever(Run(s, actions[..k]), actions[k..]);
    }
  }

  lemma {:induction false} UncancelledStays(s: State, actions: seq<Action>)
    requires !s.cancelled && forall i :: 0 <= i < |actions| ==> !actions[i].CancelThread?
    ensures !Run(s, actions).cancelled
    decreases |actions|
  {
    if actions != [] {
      var init, a := actions[..|actions| - 1], actions[|actions| - 1];
      UncancelledStays(s, init);
      if a.Work? { WorkLeavesFlag(Run(s, init), a.env); }
    }
  }

  lemma WorkLeavesFlag(s: State, env: Env)
    ensures WorkerStep(s, env).cancelled == s.cancelled
  {
    if InExecute(s.phase) { ExecuteMovesOn(s, env); }
  }

  /** So an Execute that nobody cancels ends. */
  lemma UncancelledExecuteEnds(s: State, actions: seq<Action>)
    requires InExecute(s.phase) && Works(actions) > StepsLeft(s) + 3 * WaitsIn(s, actions)
    requires !s.cancelled && forall i :: 0 <= i < |actions| ==> !actions[i].CancelThread?
    ensures Finished(s, Run(s, actions))
  {
    ExecuteEndsUnlessStuck(s, actions);
    forall k | 0 <= k <= |actions| ensures !Stuck(Run(s, actions[..k])) { UncancelledStays(s, actions[..k]); }
  }

  /**
   * The exception is real: if a COPY OUT result is next, libpq has none of its data yet and a cancel
   * comes right after the result is taken, the worker hangs whatever happens later.
   */
  lemma CancelledCopyHangs(s: State, env: Env, later: seq<Action>)
    requires s.phase.Get? && s.call.pending != [] && s.call.pending[0].status == CopyOut
    requires env.rows == 0 && !env.ended
    ensures var t := Run(Step(Step(s, Work(env)), CancelThread), later); Stuck(t) && !Finished(s, t)
  {
    StuckForever(Step(Step(s, Work(env)), CancelThread), later);
  }

  // ----- the cancel request

  ghost predicate Asked(c: Call)
  {
    c.connCancelled && c.cancelCalls == 1
  }

  lemma AskedGet(s: State, env: Env) requires Asked(s.call) ensures Asked(AtGet(s, env).call) {}

  lemma AskedCount(s: State, res: PgResult) requires Asked(s.call) ensures Asked(AtCount(s, res).call) {}

  lemma AskedDrain(s: State, env: Env) requires Asked(s.call) ensures Asked(AtDrain(s, env).call) {}

  lemma AskedDrainGet(s: State) requires Asked(s.call) ensures Asked(AtDrainGet(s).call) {}

  lemma AskedCopy(s: State, rows: nat, ended: bool) requires Asked(s.call) ensures Asked(AtCopy(s, rows, ended).call) {}

  lemma AskedStays(s: State, env: Env)
    requires InExecute(s.phase) && Asked(s.call)
    ensures Asked(WorkerStep(s, env).call)
  {
    match s.phase
    case Get => AskedGet(s, env);
    case Count(res) => AskedCount(s, res);
    case Drain => AskedDrain(s, env);
    case DrainGet => AskedDrainGet(s);
    case Copy(rows, ended) => AskedCopy(s, rows, ended);
    case _ =>
  }

  lemma {:induction false} AskedOnward(s: State, actions: seq<Action>)
    requires InExecute(s.phase) && Asked(s.call)
    ensures var t := Run(s, actions);
            Finished(s, t) || (InExecute(t.phase) && Asked(t.call) && t.log.outcomes == s.log.outcomes)
    decreases |actions|
  {
    if actions != [] {
      var init, a := actions[..|actions| - 1], actions[|actions| - 1];
      AskedOnward(s, init);
      OutcomesStay(Run(s, init), a);
      if !Finished(s, Run(s, init)) && a.Work? {
        ExecuteMovesOn(Run(s, init), a.env);
        AskedStays(Run(s, init), a.env);
      }
    }
  }

  /** A cancelled worker at the head of its loop, or with COPY data to take, asks the server to cancel, exactly once. */
  lemma CancelIsRequested(s: State, env: Env, actions: seq<Action>)
    requires s.cancelled && StreamOk(s.call, s.phase)
    requires s.phase.Head? || (s.phase.Copy? && (s.phase.rows > 0 || !s.phase.ended))
    ensures var t := Run(Step(s, Work(env)), actions); Finished(s, t) || t.call.cancelCalls == 1
  {
    AskedOnward(Step(s, Work(env)), actions);
  }
}
