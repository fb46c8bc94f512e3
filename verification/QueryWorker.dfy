/**
 * The query thread: a queue worker over a nondeterministic libpq connection, as atomic steps.
 *
 * Other threads may append queries or raise the cancel flag between any two steps of the worker.
 * Every answer of libpq (send outcome, consumed or not, busy or not, the results themselves) comes
 * from the environment. The history fields record what happened; no step depends on them.
 */
module QueryWorker {
  import opened Basics

  datatype Status = TuplesOk | CommandOk | OtherOk | CopyIn | CopyOut | NonFatalError | FatalError | BadResponse

  predicate IsError(s: Status) { s.NonFatalError? || s.FatalError? || s.BadResponse? }

  /** A libpq result; `id` stands for its address. */
  datatype PgResult = PgResult(id: nat, status: Status)

  datatype Query = Query(text: string, toRetrieve: int)

  datatype ReturnCode =
    | ConnLost | StringInvalid | SendError | ConsumeError | Cancelled
    | Failed(status: Status)
    | Succeeded

  /** How one executed query ended. */
  datatype Outcome = Outcome(rc: ReturnCode, chosen: Option<PgResult>, sent: seq<PgResult>,
                             drained: bool, clean: bool, raised: bool)

  /**
   * Where the worker is: in the loop over queries, or at a statement of Execute. While COPY data is
   * read, libpq has `rows` rows in its buffer and perhaps the end of the data after them.
   */
  datatype Phase =
    | Idle | Between | Stopped
    | Head | Consume | Busy | Get | Count(res: PgResult) | Drain | DrainGet
    | Copy(rows: nat, ended: bool) | CopyRead
    | Out

  /** The variables of one Execute call, and the history of its result stream. */
  datatype Call = Call(
    toRetrieve: int,
    pending: seq<PgResult>,       // results libpq has not handed out yet
    result: Option<PgResult>, lastResult: Option<PgResult>, count: nat,
    connCancelled: bool,
    sent: seq<PgResult>,          // history: all results of this query
    taken: seq<PgResult>,         // history: those handed out so far
    clean: bool,                  // history: no send or consume failure so far
    cancelCalls: nat)             // history: cancel requests made by this call

  /** What the worker did to results and events. */
  datatype Log = Log(nextId: nat, freed: multiset<nat>, kept: set<nat>, outcomes: seq<Outcome>, events: seq<int>)

  datatype State = State(
    queries: seq<Query>, current: int, executed: seq<Query>,
    phase: Phase, cancelled: bool, multi: bool, eventOnCancel: bool,
    call: Call, log: Log)

  datatype Send = NotConnected | Unencodable | SendFailed | Sent(answer: seq<Status>)

  /** One answer of the environment; each step looks at the part it needs. `rows` and `ended` is COPY data read. */
  datatype Env = Env(ok: bool, lost: bool, busy: bool, rows: nat, ended: bool, send: Send)

  datatype Action = AddQuery(query: Query) | CancelThread | Work(env: Env)

  const IDLE_CALL := Call(0, [], None, None, 0, false, [], [], true, 0)

  function Start(multi: bool, eventOnCancel: bool): State
  {
    State([], -1, [], Idle, false, multi, eventOnCancel, IDLE_CALL, Log(0, multiset{}, {}, [], []))
  }

  // ----- steps

  function Fresh(answer: seq<Status>, nextId: nat): (r: seq<PgResult>)
    ensures |r| == |answer|
  {
    seq(|answer|, i requires 0 <= i < |answer| => PgResult(nextId + i, answer[i]))
  }

  function Free(log: Log, r: Option<PgResult>): Log
  {
    if r.Some? then log.(freed := log.freed + multiset{r.value.id}) else log
  }

  /** Ends the current Execute: `chosen` is the result reported, `keep` the one handed to the caller. */
  function Finish(s: State, rc: ReturnCode, chosen: Option<PgResult>, log: Log, keep: Option<PgResult>): State
  {
    var raised := rc != Cancelled || s.eventOnCancel;
    var o := Outcome(rc, chosen, s.call.sent, s.call.pending == [], s.call.clean, raised);
    s.(phase := Between,
       log := log.(outcomes := log.outcomes + [o],
                   events := if raised then log.events + [s.current] else log.events,
                   kept := if keep.Some? then log.kept + {keep.value.id} else log.kept))
  }

  /** A failed read from the connection: quits quietly when cancelled, else reports it. */
  function ConsumeFailed(s: State, env: Env, held: Option<PgResult>): State
  {
    var s1 := s.(call := s.call.(clean := false));
    if s.cancelled then Finish(s1, Cancelled, None, Free(s.log, held), None)
    else Finish(s1, if env.lost then ConnLost else ConsumeError, None, s.log, None)
  }

  function RequestCancel(c: Call): Call
  {
    if c.connCancelled then c else c.(connCancelled := true, cancelCalls := c.cancelCalls + 1)
  }

  function Take(c: Call): (PgResult, Call)
    requires c.pending != []
  {
    (c.pending[0], c.(pending := c.pending[1..], taken := c.taken + [c.pending[0]]))
  }

  /** Picks the next query and sends it; libpq refuses while results of an earlier one are pending. */
  function BeginQuery(s: State, env: Env): State
    requires s.phase.Idle? && 0 <= s.current + 1 < |s.queries|
  {
    var q := s.queries[s.current + 1];
    var c := IDLE_CALL.(toRetrieve := q.toRetrieve, pending := s.call.pending);
    var s1 := s.(current := s.current + 1, executed := s.executed + [q], call := c.(clean := false));
    match env.send
    case NotConnected => Finish(s1, ConnLost, None, s.log, None)
    case Unencodable => Finish(s1, StringInvalid, None, s.log, None)
    case SendFailed => Finish(s1, SendError, None, s.log, None)
    case Sent(answer) =>
      if s.call.pending != [] then Finish(s1, SendError, None, s.log, None)
      else StartReading(s1, q.toRetrieve, answer)
  }

  /** The query is sent: its results are to come. */
  function StartReading(s: State, toRetrieve: int, answer: seq<Status>): State
  {
    var results := Fresh(answer, s.log.nextId);
    s.(phase := Head, call := IDLE_CALL.(toRetrieve := toRetrieve, pending := results, sent := results),
       log := s.log.(nextId := s.log.nextId + |answer|))
  }

  function AtHead(s: State): State
  {
    if !s.cancelled then s.(phase := Consume)
    else s.(phase := Consume, call := RequestCancel(s.call).(lastResult := None), log := Free(s.log, s.call.lastResult))
  }

  function AtGet(s: State, env: Env): State
  {
    if s.call.pending == [] then s.(phase := Out)
    else
      var (r, c) := Take(s.call);
      if IsError(r.status) then s.(phase := Drain, call := c.(result := Some(r)))
      else if r.status == CopyOut then s.(phase := Copy(env.rows, env.ended), call := c)
      else s.(phase := Count(r), call := c)
  }

  function AtCount(s: State, res: PgResult): State
  {
    var c := s.call.(count := s.call.count + 1);
    if !s.cancelled && c.count == c.toRetrieve then s.(phase := Head, call := c.(result := Some(res)))
    else s.(phase := Head, call := c.(lastResult := Some(res)), log := Free(s.log, s.call.lastResult))
  }

  function AtDrain(s: State, env: Env): State
  {
    if env.ok then s.(phase := DrainGet)
    else if s.cancelled then ConsumeFailed(s, env, s.call.result)
    else s.(phase := Out, call := s.call.(clean := false))
  }

  function AtDrainGet(s: State): State
  {
    if s.call.pending == [] then s.(phase := Out)
    else
      var (r, c) := Take(s.call);
      s.(phase := Drain, call := c, log := Free(s.log, Some(r)))
  }

  /**
   * COPY data: buffered rows are taken one by one, and at the end of the data the next result counts as
   * the query's. More data is read only if the thread is not cancelled.
   */
  function AtCopy(s: State, rows: nat, ended: bool): State
  {
    var c := if s.cancelled then RequestCancel(s.call) else s.call;
    if rows > 0 then s.(phase := Copy(rows - 1, ended), call := c)
    else if !ended then s.(phase := if s.cancelled then Copy(0, false) else CopyRead, call := c)
    else if s.call.pending == [] then s.(phase := Out)
    else
      var (r, d) := Take(s.call);
      s.(phase := Count(r), call := d)
  }

  function AtCopyRead(s: State, env: Env): State
  {
    if env.ok then s.(phase := Copy(env.rows, env.ended)) else ConsumeFailed(s, env, s.call.result)
  }

  function AtOut(s: State): State
  {
    var chosen := if s.call.result.Some? then s.call.result else s.call.lastResult;
    if s.cancelled then Finish(s, Cancelled, None, Free(s.log, s.call.result), None)
    else if chosen.None? then Finish(s, Failed(FatalError), None, s.log, None)
    else if IsError(chosen.value.status) then
      Finish(s, Failed(chosen.value.status), chosen, Free(s.log, chosen), None)
    else Finish(s, Succeeded, chosen, s.log, chosen)
  }

  /** One atomic step of the worker. */
  function WorkerStep(s: State, env: Env): State
  {
    match s.phase
    case Idle => if 0 <= s.current + 1 < |s.queries| then BeginQuery(s, env) else s.(phase := Between)
    case Between => s.(phase := if !s.multi || s.cancelled then Stopped else Idle)
    case Stopped => s
    case Head => AtHead(s)
    case Consume => if env.ok then s.(phase := Busy) else ConsumeFailed(s, env, s.call.lastResult)
    case Busy => s.(phase := if env.busy then Head else Get)
    case Get => AtGet(s, env)
    case Count(res) => AtCount(s, res)
    case Drain => AtDrain(s, env)
    case DrainGet => AtDrainGet(s)
    case Copy(rows, ended) => AtCopy(s, rows, ended)
    case CopyRead => AtCopyRead(s, env)
    case Out => AtOut(s)
  }

  function Step(s: State, a: Action): State
  {
    match a
    case AddQuery(q) => s.(queries := s.queries + [q])
    case CancelThread => s.(cancelled := true)
    case Work(env) => WorkerStep(s, env)
  }

  /** Any interleaving of the worker with threads that add queries or cancel. */
  function Run(s: State, actions: seq<Action>): State
    decreases |actions|
  {
    if actions == [] then s else Step(Run(s, actions[..|actions| - 1]), actions[|actions| - 1])
  }

  // ----- what is selected

  datatype Mode = Scanning | AfterCopy | Errored
  datatype Selection = Selection(count: nat, result: Option<PgResult>, last: Option<PgResult>, mode: Mode)

  function Tally(p: Selection, r: PgResult, n: int): Selection
  {
    if p.count + 1 == n then Selection(p.count + 1, Some(r), p.last, Scanning)
    else Selection(p.count + 1, p.result, Some(r), Scanning)
  }

  function Feed(p: Selection, r: PgResult, n: int): Selection
  {
    match p.mode
    case Errored => p
    case AfterCopy => Tally(p, r, n)
    case Scanning =>
      if IsError(r.status) then p.(result := Some(r), mode := Errored)
      else if r.status == CopyOut then p.(mode := AfterCopy)
      else Tally(p, r, n)
  }

  function Replay(stream: seq<PgResult>, n: int): Selection
    decreases |stream|
  {
    if stream == [] then Selection(0, None, None, Scanning)
    else Feed(Replay(stream[..|stream| - 1], n), stream[|stream| - 1], n)
  }

  /** The result a stream with `n` as result to retrieve should yield. */
  function Choice(stream: seq<PgResult>, n: int): Option<PgResult>
  {
    var p := Replay(stream, n);
    if p.result.Some? then p.result else p.last
  }

  ghost predicate FirstErrorAt(stream: seq<PgResult>, i: nat)
  {
    i < |stream| && IsError(stream[i].status) && forall j :: 0 <= j < i ==> !IsError(stream[j].status)
  }

  lemma {:induction false} ReplayBeforeError(stream: seq<PgResult>, n: int)
    requires forall j :: 0 <= j < |stream| ==> !IsError(stream[j].status) && stream[j].status != CopyOut
    ensures var p := Replay(stream, n);
            && p.mode == Scanning && p.count == |stream|
            && p.result == (if 1 <= n <= |stream| then Some(stream[n - 1]) else None)
            && (!(1 <= n <= |stream|) ==> p.last == if stream == [] then None else Some(stream[|stream| - 1]))
    decreases |stream|
  {
    if stream != [] { ReplayBeforeError(stream[..|stream| - 1], n); }
  }

  lemma {:induction false} ReplayAfterError(stream: seq<PgResult>, n: int, i: nat)
    requires forall j :: 0 <= j < |stream| ==> stream[j].status != CopyOut
    requires FirstErrorAt(stream, i)
    ensures Replay(stream, n).mode == Errored && Replay(stream, n).result == Some(stream[i])
    decreases |stream|
  {
    var init := stream[..|stream| - 1];
    if i == |stream| - 1 { ReplayBeforeError(init, n); }
    else {
      assert FirstErrorAt(init, i);
      ReplayAfterError(init, n, i);
    }
  }

  /** Without COPY OUT: the first error if there is one, else the n-th result if there is one, else the last. */
  lemma ChoiceIsErrorOrNthOrLast(stream: seq<PgResult>, n: int)
    requires forall j :: 0 <= j < |stream| ==> stream[j].status != CopyOut
    ensures forall i: nat :: FirstErrorAt(stream, i) ==> Choice(stream, n) == Some(stream[i])
    ensures (forall j :: 0 <= j < |stream| ==> !IsError(stream[j].status)) ==>
              Choice(stream, n) ==
                if 1 <= n <= |stream| then Some(stream[n - 1])
                else if stream != [] then Some(stream[|stream| - 1])
                else None
  {
    forall i: nat | FirstErrorAt(stream, i) ensures Choice(stream, n) == Some(stream[i]) {
      ReplayAfterError(stream, n, i);
    }
    if forall j :: 0 <= j < |stream| ==> !IsError(stream[j].status) { ReplayBeforeError(stream, n); }
  }

  lemma {:induction false} ReplayOnward(a: seq<PgResult>, b: seq<PgResult>, tail: seq<PgResult>, n: int)
    requires Replay(a, n) == Replay(b, n)
    ensures Replay(a + tail, n) == Replay(b + tail, n)
    decreases |tail|
  {
    if tail == [] { assert a + tail == a && b + tail == b; }
    else {
      var init := tail[..|tail| - 1];
      assert (a + tail)[..|a + tail| - 1] == a + init && (b + tail)[..|b + tail| - 1] == b + init;
      ReplayOnward(a, b, init, n);
    }
  }

  lemma ReplaySnoc(stream: seq<PgResult>, r: PgResult, n: int)
    ensures Replay(stream + [r], n) == Feed(Replay(stream, n), r, n)
  {
    assert (stream + [r])[..|stream|] == stream;
  }

  /**
   * A COPY OUT result is passed over: the result after its data counts as if it had not been there, even
   * as an ordinary one if it is an error; at the end of the stream nothing of the COPY counts.
   */
  lemma CopyOutIsPassedOver(before: seq<PgResult>, copy: PgResult, r: PgResult, tail: seq<PgResult>, n: int)
    requires copy.status == CopyOut && Replay(before, n).mode == Scanning
    ensures Choice(before + [copy], n) == Choice(before, n)
    ensures !IsError(r.status) && r.status != CopyOut ==>
              Choice(before + [copy] + [r] + tail, n) == Choice(before + [r] + tail, n)
    ensures Replay(before, n).count + 1 == n ==> Choice(before + [copy] + [r], n) == Some(r)
    ensures Replay(before, n).count + 1 != n && Replay(before, n).result.None? ==>
              Choice(before + [copy] + [r], n) == Some(r)
  {
    ReplaySnoc(before, copy, n);
    ReplaySnoc(before + [copy], r, n);
    ReplaySnoc(before, r, n);
    if !IsError(r.status) && r.status != CopyOut { ReplayOnward(before + [copy] + [r], before + [r], tail, n); }
  }
}
