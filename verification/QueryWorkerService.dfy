/**
 * The worker's loop over queries: whatever is added gets executed as long as nobody cancels, and a
 * worker that is cancelled or serves a single query stops.
 */
module QueryWorkerService {
  import opened QueryWorker
  import opened QueryWorkerSafety
  import opened QueryWorkerProgress

  /** How many results the server gives to a query sent at this step. */
  ghost function Answered(s: State, env: Env): nat
  {
    if s.phase.Idle? && 0 <= s.current + 1 < |s.queries| && env.send.Sent? then |env.send.answer| else 0
  }

  /** The steps that a step of the worker may bring with it, for results that come and for waits. */
  ghost function Charge(s: State, env: Env): nat
  {
    6 * Answered(s, env) + 3 * Waits(s, env)
  }

  /** The steps that a run calls for: seven for a query added, six for a result, three for a wait. */
  ghost function Charges(s: State, actions: seq<Action>): nat
    decreases |actions|
  {
    if actions == [] then 0
    else
      var init, a := actions[..|actions| - 1], actions[|actions| - 1];
      Charges(s, init) + (match a
                          case AddQuery(_) => 7
                          case CancelThread => 0
                          case Work(env) => Charge(Run(s, init), env))
  }

  ghost predicate NoCancel(actions: seq<Action>)
  {
    forall i :: 0 <= i < |actions| ==> !actions[i].CancelThread?
  }

  ghost predicate NoAdd(actions: seq<Action>)
  {
    forall i :: 0 <= i < |actions| ==> !actions[i].AddQuery?
  }

  lemma BeginShortens(s: State, env: Env)
    requires s.phase.Idle? && 0 <= s.current + 1 < |s.queries|
    ensures var t := BeginQuery(s, env);
            && t.queries == s.queries && t.current == s.current + 1
            && t.multi == s.multi && t.cancelled == s.cancelled
            && (t.phase.Between? || (t.phase.Head? && StepsLeft(t) == 5 + 6 * Answered(s, env)))
  {
  }

  // ----- a worker that serves every query

  ghost predicate Serving(s: State)
  {
    InOrder(s) && s.multi && !s.cancelled && !s.phase.Stopped?
  }

  /** Every query added so far has been executed and has ended. */
  ghost predicate Served(s: State)
  {
    !InExecute(s.phase) && s.current + 1 == |s.queries|
  }

  /** A bound on the worker's steps until then. */
  ghost function ToServe(s: State): int
  {
    7 * (|s.queries| - (s.current + 1))
    + (if InExecute(s.phase) then StepsLeft(s) + 2 else if s.phase.Between? then 2 else 1)
  }

  lemma ExecuteServes(s: State, env: Env)
    requires Serving(s) && InExecute(s.phase)
    ensures var t := WorkerStep(s, env);
            Serving(t) && ToServe(t) + 1 <= ToServe(s) + Charge(s, env)
  {
    ExecuteMovesOn(s, env);
    MovingOnInOrder(s, WorkerStep(s, env));
    StepAdvances(s, env);
  }

  /** Every step of a serving worker with queries left brings it nearer; with none left it only looks again. */
  lemma WorkServes(s: State, env: Env)
    requires Serving(s)
    ensures var t := WorkerStep(s, env);
            Serving(t) && (if Served(s) then Served(t) else ToServe(t) + 1 <= ToServe(s) + Charge(s, env))
  {
    StepInOrder(s, Work(env));
    if InExecute(s.phase) { ExecuteServes(s, env); }
    else if s.phase.Idle? && s.current + 1 < |s.queries| { BeginShortens(s, env); }
  }

  lemma OthersServe(s: State, a: Action)
    requires Serving(s) && a.AddQuery?
    ensures Serving(Step(s, a)) && ToServe(Step(s, a)) == ToServe(s) + 7
  {
    StepInOrder(s, a);
  }

  /** At some point of the run every query added till then is served. */
  ghost predicate GetsServed(s: State, actions: seq<Action>)
  {
    exists k :: 0 <= k <= |actions| && Served(Run(s, actions[..k]))
  }

  lemma ServedSooner(s: State, actions: seq<Action>, init: seq<Action>)
    requires init <= actions && GetsServed(s, init)
    ensures GetsServed(s, actions)
  {
    var k :| 0 <= k <= |init| && Served(Run(s, init[..k]));
    assert actions[..k] == init[..k];
  }

  lemma {:induction false} RunServes(s: State, actions: seq<Action>)
    requires Serving(s) && NoCancel(actions)
    ensures var t := Run(s, actions);
            Serving(t) && (GetsServed(s, actions) || ToServe(t) + Works(actions) <= ToServe(s) + Charges(s, actions))
    decreases |actions|
  {
    assert actions[..|actions|] == actions;
    if actions != [] {
      var init, a := actions[..|actions| - 1], actions[|actions| - 1];
      RunServes(s, init);
      if a.Work? { WorkServes(Run(s, init), a.env); } else { OthersServe(Run(s, init), a); }
      if GetsServed(s, init) { ServedSooner(s, actions, init); }
      else { assert init[..|init|] == init; }
    }
  }

  lemma StaysServing(s: State, actions: seq<Action>)
    requires Serving(s) && NoCancel(actions)
    ensures Serving(Run(s, actions))
  {
    RunServes(s, actions);
  }

  /** Over any interleaving without a cancel, a worker for several queries never stops. */
  lemma NeverStopsUncancelled(eventOnCancel: bool, actions: seq<Action>)
    requires NoCancel(actions)
    ensures !Run(Start(true, eventOnCancel), actions).phase.Stopped?
  {
    StaysServing(Start(true, eventOnCancel), actions);
  }

  lemma {:induction false} ServedStays(s: State, actions: seq<Action>)
    requires Serving(s) && Served(s) && NoCancel(actions) && NoAdd(actions)
    ensures Served(Run(s, actions)) && Run(s, actions).queries == s.queries
    decreases |actions|
  {
    if actions != [] {
      var init, a := actions[..|actions| - 1], actions[|actions| - 1];
      ServedStays(s, init);
      StaysServing(s, init);
      WorkServes(Run(s, init), a.env);
      LooksAgain(Run(s, init), a.env);
    }
  }

  lemma LooksAgain(s: State, env: Env)
    requires InOrder(s) && Served(s)
    ensures WorkerStep(s, env).queries == s.queries
  {
  }

  lemma ServedFromThen(s: State, actions: seq<Action>, k: nat)
    requires Serving(s) && NoCancel(actions) && NoAdd(actions)
    requires k <= |actions| && Served(Run(s, actions[..k]))
    ensures Served(Run(s, actions))
  {
    StaysServing(s, actions[..k]);
    ServedStays(Run(s, actions[..k]), actions[k..]);
    RunSplit(s, actions, k);
  }

  lemma ServesSomething(s: State, actions: seq<Action>)
    requires Serving(s) && NoCancel(actions) && Works(actions) > ToServe(s) + Charges(s, actions)
    ensures GetsServed(s, actions)
  {
    RunServes(s, actions);
  }

  /** Enough steps without another query added: the worker has served all it was given. */
  lemma EnoughStepsServe(s: State, actions: seq<Action>)
    requires Serving(s) && NoCancel(actions) && NoAdd(actions)
    requires Works(actions) > ToServe(s) + Charges(s, actions)
    ensures Served(Run(s, actions))
  {
    ServesSomething(s, actions);
    var k :| 0 <= k <= |actions| && Served(Run(s, actions[..k]));
    ServedFromThen(s, actions, k);
  }

  /**
   * Over any interleaving without a cancel in which the worker gets, after the last query was added,
   * more steps than what is left and what results and waits call for: it executed exactly the added
   * queries, in order, and each of them has its outcome.
   */
  lemma QueueIsServed(eventOnCancel: bool, before: seq<Action>, after: seq<Action>)
    requires NoCancel(before + after) && NoAdd(after)
    requires var s := Run(Start(true, eventOnCancel), before);
             Works(after) > ToServe(s) + Charges(s, after)
    ensures var t := Run(Start(true, eventOnCancel), before + after);
            && t.executed == Added(before + after) && |t.log.outcomes| == |Added(before + after)|
            && !t.phase.Stopped?
  {
    var s0 := Start(true, eventOnCancel);
    assert NoCancel(before) by {
      forall i | 0 <= i < |before| ensures !before[i].CancelThread? { assert (before + after)[i] == before[i]; }
    }
    assert NoCancel(after) by {
      forall i | 0 <= i < |after| ensures !after[i].CancelThread? { assert (before + after)[|before| + i] == after[i]; }
    }
    StaysServing(s0, before);
    EnoughStepsServe(Run(s0, before), after);
    RunConcat(s0, before, after);
    StaysServing(s0, before + after);
    QueueIsWhatWasAdded(true, eventOnCancel, before + after);
  }

  // ----- a worker that is to stop

  ghost predicate Ending(s: State)
  {
    !s.multi || s.cancelled
  }

  /** A bound on the steps until it stops; at most one query is still to be started. */
  ghost function ToStop(s: State): nat
  {
    if s.phase.Stopped? then 0
    else if s.phase.Between? then 1
    else if s.phase.Idle? then 8
    else StepsLeft(s) + 1
  }

  lemma FlagsStay(s: State, a: Action)
    ensures Step(s, a).multi == s.multi && (s.cancelled ==> Step(s, a).cancelled)
    ensures Ending(s) ==> Ending(Step(s, a))
  {
    if a.Work? {
      if InExecute(s.phase) { ExecuteMovesOn(s, a.env); }
      else if s.phase.Idle? && 0 <= s.current + 1 < |s.queries| { BeginShortens(s, a.env); }
    }
  }

  lemma WorkStops(s: State, env: Env)
    requires Ending(s) && !Stuck(s) && !s.phase.Stopped?
    ensures ToStop(WorkerStep(s, env)) + 1 <= ToStop(s) + Charge(s, env)
  {
    if InExecute(s.phase) {
      ExecuteMovesOn(s, env);
      StepAdvances(s, env);
    } else if s.phase.Idle? && 0 <= s.current + 1 < |s.queries| {
      BeginShortens(s, env);
    }
  }

  ghost predicate EverStuck(s: State, actions: seq<Action>)
  {
    exists k :: 0 <= k <= |actions| && Stuck(Run(s, actions[..k]))
  }

  ghost predicate StopsInTime(s: State, actions: seq<Action>)
  {
    var t := Run(s, actions);
    t.phase.Stopped? || Stuck(t) || ToStop(t) + Works(actions) <= ToStop(s) + Charges(s, actions)
  }

  lemma {:induction false} RunStops(s: State, actions: seq<Action>)
    requires Ending(s)
    ensures Ending(Run(s, actions)) && StopsInTime(s, actions)
    decreases |actions|
  {
    if actions != [] {
      var init, a := actions[..|actions| - 1], actions[|actions| - 1];
      RunStops(s, init);
      var t := Run(s, init);
      FlagsStay(t, a);
      if a.Work? && !t.phase.Stopped? && !Stuck(t) { WorkStops(t, a.env); }
    }
  }

  /**
   * From any cancelled state, and for a worker that serves a single query from any state: given enough
   * steps it has stopped if and only if it did not get stuck in COPY data.
   */
  lemma StopsUnlessStuck(s: State, actions: seq<Action>)
    requires Ending(s) && Works(actions) > ToStop(s) + Charges(s, actions)
    ensures Run(s, actions).phase.Stopped? <==> !EverStuck(s, actions)
  {
    RunStops(s, actions);
    assert actions[..|actions|] == actions;
    if EverStuck(s, actions) {
      var k :| 0 <= k <= |actions| && Stuck(Run(s, actions[..k]));
      StuckFromThen(s, actions, k);
    }
  }

  lemma StuckFromThen(s: State, actions: seq<Action>, k: nat)
    requires k <= |actions| && Stuck(Run(s, actions[..k]))
    ensures Stuck(Run(s, actions))
  {
    StuckForever(Run(s, actions[..k]), actions[k..]);
    RunSplit(s, actions, k);
  }

  // ----- a worker for a single query

  lemma SingleStep(s: State, a: Action)
    requires !s.multi && !s.phase.Idle?
    ensures var t := Step(s, a); !t.multi && !t.phase.Idle? && t.executed == s.executed
  {
    if a.Work? && InExecute(s.phase) { ExecuteMovesOn(s, a.env); }
  }

  lemma {:induction false} SingleRun(s: State, actions: seq<Action>)
    requires !s.multi && !s.phase.Idle?
    ensures var t := Run(s, actions); !t.multi && !t.phase.Idle? && t.executed == s.executed
    decreases |actions|
  {
    if actions != [] {
      SingleRun(s, actions[..|actions| - 1]);
      SingleStep(Run(s, actions[..|actions| - 1]), actions[|actions| - 1]);
    }
  }

  /** Until its first step the worker only sees its queue grow. */
  lemma {:induction false} BeforeFirstStep(eventOnCancel: bool, adds: seq<Action>)
    requires forall i :: 0 <= i < |adds| ==> !adds[i].Work?
    ensures var s := Run(Start(false, eventOnCancel), adds);
            s.phase.Idle? && !s.multi && s.current == -1 && s.executed == [] && s.queries == Added(adds)
    decreases |adds|
  {
    if adds != [] { BeforeFirstStep(eventOnCancel, adds[..|adds| - 1]); }
  }

  /** A worker for a single query looks once: it executes the first query there is by then, if any, and no other. */
  lemma SingleServesFirst(eventOnCancel: bool, adds: seq<Action>, env: Env, rest: seq<Action>)
    requires forall i :: 0 <= i < |adds| ==> !adds[i].Work?
    ensures Run(Step(Run(Start(false, eventOnCancel), adds), Work(env)), rest).executed ==
            if Added(adds) == [] then [] else [Added(adds)[0]]
  {
    BeforeFirstStep(eventOnCancel, adds);
    var s := Run(Start(false, eventOnCancel), adds);
    if Added(adds) != [] { BeginExecutes(s, env); }
    SingleRun(Step(s, Work(env)), rest);
  }

  lemma BeginExecutes(s: State, env: Env)
    requires s.phase.Idle? && 0 <= s.current + 1 < |s.queries|
    ensures var t := BeginQuery(s, env);
            t.executed == s.executed + [s.queries[s.current + 1]] && t.multi == s.multi && !t.phase.Idle?
  {
  }
}
