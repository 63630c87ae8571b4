/** The bounded evaluation gateway. */
module Gateway {
  import opened Wrappers

  datatype Settings = Settings(maxConcurrency: nat, maxQueue: nat, requestTimeout: real) {
    predicate Valid() {
      1 <= maxConcurrency <= 64 && maxQueue <= 1024 && 0.0 < requestTimeout <= 300.0
    }

    function Capacity(): nat {
      maxConcurrency + maxQueue
    }
  }

  datatype Failure = NotReady | Busy | TimedOut | BackendFailed | ValidationFailed

  datatype Execution<M> = Execution(material: M, startedAt: real, backendFinishedAt: real, validationFinishedAt: real)

  /** What backend and validator do: a value, one of the gateway's own errors, or any other exception. */
  datatype Returned<M> = Value(m: M) | GatewayError(failure: Failure) | OtherError

  /** A worker's future. `Settled(None)` is a cancelled one. */
  datatype Future<M> = NoFuture | Pending | Running(since: real) | Settled(result: Option<Result<Execution<M>, Failure>>)

  /** The done callback that gives the permit back: not registered, waiting for the future, about to
      run, or run. */
  datatype Callback = Absent | Listed | Due | Ran

  /** Where the calling thread is inside `evaluate`. */
  datatype Phase<M> = Waiting | Holding | Submitted | Awaiting | Expired | Replied(reply: Result<Execution<M>, Failure>)

  datatype Ticket<M> = Ticket(phase: Phase<M>, deadline: real, future: Future<M>, callback: Callback)

  /** `overReleased` records that the bounded semaphore raised because a permit came back twice. */
  datatype State<M> = State(free: nat, closed: bool, shutdown: bool, overReleased: bool, tickets: seq<Ticket<M>>)

  /** One atomic action of a caller, a worker or the closing thread on one request. */
  datatype Step<M> =
    | Acquire | GiveUp | Submit(accepted: bool) | Register
    | Start(now: real)
    | Finish(answer: Returned<M>, backendFinishedAt: real, validated: Returned<M>, validationFinishedAt: real)
    | Expire(now: real) | Cancel | Observe | Drop | RunCallback

  datatype Event<M> = Arrive(now: real, ready: bool) | Close | Shutdown | On(i: nat, step: Step<M>)

  function Initial<M>(settings: Settings): State<M> {
    State(settings.Capacity(), false, false, false, [])
  }

  /* ---- The worker's body and the caller's reading of it ---- */

  /** `_run_backend`: the deadline check, the backend, then the validator. */
  function RunBackend<M>(deadline: real, startedAt: real, answer: Returned<M>, backendFinishedAt: real,
                         validated: Returned<M>, validationFinishedAt: real): Result<Execution<M>, Failure>
  {
    if startedAt >= deadline then Err(TimedOut) else
    match answer
    case GatewayError(failure) => Err(failure)
    case OtherError => Err(BackendFailed)
    case Value(_) =>
      match validated
      case GatewayError(failure) => Err(failure)
      case OtherError => Err(ValidationFailed)
      case Value(material) => Ok(Execution(material, startedAt, backendFinishedAt, validationFinishedAt))
  }

  function ReplyTo<M>(result: Option<Result<Execution<M>, Failure>>, deadline: real): Result<Execution<M>, Failure> {
    match result
    case None => Err(BackendFailed)
    case Some(Err(failure)) => Err(failure)
    case Some(Ok(execution)) => if execution.validationFinishedAt > deadline then Err(TimedOut) else Ok(execution)
  }

  /* ---- Steps ---- */

  function Count<T>(f: T -> nat, ts: seq<T>): nat {
    if ts == [] then 0 else Count(f, ts[..|ts| - 1]) + f(ts[|ts| - 1])
  }

  function IsRunning<M>(t: Ticket<M>): nat {
    if t.future.Running? then 1 else 0
  }

  function RunningIn<M>(ts: seq<Ticket<M>>): nat {
    Count((t: Ticket<M>) => IsRunning(t), ts)
  }

  predicate Enabled<M>(settings: Settings, s: State<M>, t: Ticket<M>, step: Step<M>) {
    match step
    case Acquire => t.phase.Waiting? && s.free > 0
    case GiveUp => t.phase.Waiting? && s.free == 0
    case Submit(accepted) => t.phase.Holding? && (accepted ==> !s.shutdown)
    case Register => t.phase.Submitted?
    case Start(_) => t.future.Pending? && RunningIn(s.tickets) < settings.maxConcurrency
    case Finish(_, _, _, _) => t.future.Running?
    case Expire(now) => t.phase.Awaiting? && t.deadline <= now
    case Cancel => t.phase.Expired?
    case Observe => t.phase.Awaiting? && t.future.Settled?
    case Drop => t.future.Pending? && s.shutdown
    case RunCallback => t.callback.Due?
  }

  function Settle<M>(t: Ticket<M>, result: Option<Result<Execution<M>, Failure>>): Ticket<M> {
    t.(future := Settled(result), callback := if t.callback.Listed? then Due else t.callback)
  }

  function Cancelled<M>(t: Ticket<M>): Ticket<M> {
    if t.future.Pending? then Settle(t, None) else t
  }

  function Moved<M>(t: Ticket<M>, step: Step<M>): Ticket<M> {
    match step
    case Acquire => t.(phase := Holding)
    case GiveUp => t.(phase := Replied(Err(Busy)))
    case Submit(accepted) =>
      if accepted then t.(phase := Submitted, future := Pending) else t.(phase := Replied(Err(BackendFailed)))
    case Register => t.(phase := Awaiting, callback := if t.future.Settled? then Due else Listed)
    case Start(now) => t.(future := Running(now))
    case Finish(answer, backendFinishedAt, validated, validationFinishedAt) =>
      if !t.future.Running? then t else
      Settle(t, Some(RunBackend(t.deadline, t.future.since, answer, backendFinishedAt, validated, validationFinishedAt)))
    case Expire(_) => t.(phase := Expired)
    case Cancel => Cancelled(t).(phase := Replied(Err(TimedOut)))
    case Observe => if t.future.Settled? then t.(phase := Replied(ReplyTo(t.future.result, t.deadline))) else t
    case Drop => Cancelled(t)
    case RunCallback => t.(callback := Ran)
  }

  predicate Releases<M>(step: Step<M>) {
    step == Submit(false) || step.RunCallback?
  }

  /** A bounded semaphore raises rather than exceed its initial value. */
  function Release<M>(settings: Settings, s: State<M>): State<M> {
    if s.free < settings.Capacity() then s.(free := s.free + 1) else s.(overReleased := true)
  }

  function Permits<M>(settings: Settings, s: State<M>, step: Step<M>): State<M>
    requires step.Acquire? ==> s.free > 0
  {
    if step.Acquire? then s.(free := s.free - 1) else if Releases(step) then Release(settings, s) else s
  }

  function Admitted<M>(settings: Settings, s: State<M>, now: real, ready: bool): Ticket<M> {
    Ticket(if s.closed || !ready then Replied(Err(NotReady)) else Waiting, now + settings.requestTimeout, NoFuture, Absent)
  }

  /** The state after an event, or None when the event cannot happen. */
  function Next<M>(settings: Settings, s: State<M>, e: Event<M>): Option<State<M>> {
    match e
    case Arrive(now, ready) => Some(s.(tickets := s.tickets + [Admitted(settings, s, now, ready)]))
    case Close => if s.closed then None else Some(s.(closed := true))
    case Shutdown => if s.closed && !s.shutdown then Some(s.(shutdown := true)) else None
    case On(i, step) =>
      if i < |s.tickets| && Enabled(settings, s, s.tickets[i], step)
      then Some(Permits(settings, s, step).(tickets := s.tickets[i := Moved(s.tickets[i], step)]))
      else None
  }

  /** The state after a run of events. */
  function After<M>(settings: Settings, s: State<M>, run: seq<Event<M>>): Option<State<M>> {
    if run == [] then Some(s) else
    match After(settings, s, run[..|run| - 1])
    case None => None
    case Some(before) => Next(settings, before, run[|run| - 1])
  }

  /* ---- What every ticket looks like ---- */

  /** A request keeps its permit until submission fails or its callback has run. */
  function Holds<M>(t: Ticket<M>): nat {
    if t.phase.Holding? || (!t.future.NoFuture? && !t.callback.Ran?) then 1 else 0
  }

  function HeldIn<M>(ts: seq<Ticket<M>>): nat {
    Count((t: Ticket<M>) => Holds(t), ts)
  }

  ghost predicate CallbackOk<M>(t: Ticket<M>) {
    match t.phase
    case Waiting => t.future.NoFuture? && t.callback.Absent?
    case Holding => t.future.NoFuture? && t.callback.Absent?
    case Submitted => !t.future.NoFuture? && t.callback.Absent?
    case Awaiting => !t.future.NoFuture? && !t.callback.Absent?
    case Expired => !t.future.NoFuture? && !t.callback.Absent?
    case Replied(_) => t.future.NoFuture? <==> t.callback.Absent?
  }

  /** A callback is listed on an unsettled future, and due or run on a settled one. Executions began
      before the deadline, and an answer given to the caller was validated by then. */
  ghost predicate FutureOk<M>(t: Ticket<M>) {
    && (t.callback.Listed? ==> t.future.Pending? || t.future.Running?)
    && (t.callback.Due? || t.callback.Ran? ==> t.future.Settled?)
    && (t.future.Settled? && t.future.result.Some? && t.future.result.value.Ok? ==>
          t.future.result.value.value.startedAt < t.deadline)
    && (t.phase.Replied? && t.phase.reply.Ok? ==>
          && t.future == Settled(Some(t.phase.reply))
          && t.phase.reply.value.validationFinishedAt <= t.deadline)
  }

  ghost predicate TicketsOk<M>(ts: seq<Ticket<M>>) {
    forall i | 0 <= i < |ts| :: CallbackOk(ts[i]) && FutureOk(ts[i])
  }

  ghost predicate Inv<M>(settings: Settings, s: State<M>) {
    && !s.overReleased
    && s.free + HeldIn(s.tickets) == settings.Capacity()
    && RunningIn(s.tickets) <= settings.maxConcurrency
    && (s.shutdown ==> s.closed)
    && TicketsOk(s.tickets)
  }

  /* ---- Counting ---- */

  lemma {:induction false} CountUpdate<T>(f: T -> nat, ts: seq<T>, i: nat, t: T)
    requires i < |ts|
    ensures Count(f, ts[i := t]) + f(ts[i]) == Count(f, ts) + f(t)
  {
    var n := |ts| - 1;
    if i < n {
      assert ts[i := t][..n] == ts[..n][i := t];
      CountUpdate(f, ts[..n], i, t);
    } else {
      assert ts[i := t][..n] == ts[..n];
    }
  }

  lemma {:induction false} CountAppend<T>(f: T -> nat, ts: seq<T>, t: T)
    ensures Count(f, ts + [t]) == Count(f, ts) + f(t)
  {
    assert (ts + [t])[..|ts|] == ts;
  }

  lemma {:induction false} CountAtLeast<T>(f: T -> nat, ts: seq<T>, i: nat)
    requires i < |ts|
    ensures f(ts[i]) <= Count(f, ts)
  {
    if i < |ts| - 1 {
      CountAtLeast(f, ts[..|ts| - 1], i);
    }
  }

  lemma {:induction false} CountZero<T>(f: T -> nat, ts: seq<T>)
    ensures Count(f, ts) == 0 <==> forall i | 0 <= i < |ts| :: f(ts[i]) == 0
  {
    if ts != [] {
      CountZero(f, ts[..|ts| - 1]);
      assert forall i | 0 <= i < |ts| - 1 :: ts[..|ts| - 1][i] == ts[i];
    }
  }

  lemma {:induction false} CountSum<T>(f: T -> nat, g: T -> nat, h: T -> nat, ts: seq<T>)
    requires forall i | 0 <= i < |ts| :: f(ts[i]) == g(ts[i]) + h(ts[i])
    ensures Count(f, ts) == Count(g, ts) + Count(h, ts)
  {
    if ts != [] {
      CountSum(f, g, h, ts[..|ts| - 1]);
    }
  }

  /* ---- Conservation ---- */

  /** How one step of a request moves its permit. */
  lemma {:induction false} PermitMoves<M>(settings: Settings, s: State<M>, t: Ticket<M>, step: Step<M>)
    requires Enabled(settings, s, t, step) && CallbackOk(t) && FutureOk(t)
    ensures CallbackOk(Moved(t, step)) && FutureOk(Moved(t, step))
    ensures step.Acquire? ==> Holds(t) == 0 && Holds(Moved(t, step)) == 1
    ensures Releases(step) ==> Holds(t) == 1 && Holds(Moved(t, step)) == 0
    ensures !step.Acquire? && !Releases(step) ==> Holds(Moved(t, step)) == Holds(t)
    ensures IsRunning(Moved(t, step)) > IsRunning(t) ==> step.Start?
  {
  }

  lemma {:induction false} StepKeepsInv<M>(settings: Settings, s: State<M>, i: nat, step: Step<M>)
    requires Inv(settings, s) && Next(settings, s, On(i, step)).Some?
    ensures Inv(settings, Next(settings, s, On(i, step)).value)
  {
    var t, holds, running := s.tickets[i], (t: Ticket<M>) => Holds(t), (t: Ticket<M>) => IsRunning(t);
    PermitMoves(settings, s, t, step);
    CountUpdate(holds, s.tickets, i, Moved(t, step));
    CountUpdate(running, s.tickets, i, Moved(t, step));
    CountAtLeast(holds, s.tickets, i);
  }

  lemma {:induction false} NextKeepsInv<M>(settings: Settings, s: State<M>, e: Event<M>)
    requires Inv(settings, s) && Next(settings, s, e).Some?
    ensures Inv(settings, Next(settings, s, e).value)
  {
    match e
    case Arrive(now, ready) =>
      CountAppend((t: Ticket<M>) => Holds(t), s.tickets, Admitted(settings, s, now, ready));
      CountAppend((t: Ticket<M>) => IsRunning(t), s.tickets, Admitted(settings, s, now, ready));
    case Close =>
    case Shutdown =>
    case On(i, step) => StepKeepsInv(settings, s, i, step);
  }

  /** Whatever callers, workers and the closing thread do, in any order: every permit is either free or
      held by one request, no release ever exceeds the initial value, and the pool never runs more than
      its workers. */
  lemma {:induction false} SlotsAreConserved<M>(settings: Settings, run: seq<Event<M>>)
    requires After(settings, Initial(settings), run).Some?
    ensures Inv(settings, After(settings, Initial(settings), run).value)
    ensures var s := After(settings, Initial(settings), run).value;
            && !s.overReleased && s.free + HeldIn(s.tickets) == settings.maxConcurrency + settings.maxQueue
            && RunningIn(s.tickets) <= settings.maxConcurrency && (s.shutdown ==> s.closed)
  {
    if run != [] {
      SlotsAreConserved(settings, run[..|run| - 1]);
      NextKeepsInv(settings, After(settings, Initial(settings), run[..|run| - 1]).value, run[|run| - 1]);
    }
  }

  /* ---- Counting unfinished futures instead of pending callbacks ---- */

  function BeforeSubmit<M>(t: Ticket<M>): nat {
    if t.phase.Holding? then 1 else 0
  }

  function Undone<M>(t: Ticket<M>): nat {
    if t.future.Pending? || t.future.Running? then 1 else 0
  }

  /** A future that is done while its permit has not come back yet. */
  function Owing<M>(t: Ticket<M>): nat {
    if t.future.Settled? && !t.callback.Ran? then 1 else 0
  }

  /** Counting futures that are not done gives the capacity exactly when no done future still owes its
      permit, that is, outside the window between completion and callback. */
  lemma {:induction false} UndoneFuturesCount<M>(settings: Settings, s: State<M>)
    requires Inv(settings, s)
    ensures var before, undone := Count((t: Ticket<M>) => BeforeSubmit(t), s.tickets), Count((t: Ticket<M>) => Undone(t), s.tickets);
            && s.free + before + undone <= settings.Capacity()
            && (s.free + before + undone == settings.Capacity()
                <==> forall i | 0 <= i < |s.tickets| :: !(s.tickets[i].future.Settled? && !s.tickets[i].callback.Ran?))
  {
    var holds, before := (t: Ticket<M>) => Holds(t), (t: Ticket<M>) => BeforeSubmit(t);
    var undone, owing := (t: Ticket<M>) => Undone(t), (t: Ticket<M>) => Owing(t);
    var rest := (t: Ticket<M>) => Undone(t) + Owing(t);
    forall i | 0 <= i < |s.tickets|
      ensures holds(s.tickets[i]) == before(s.tickets[i]) + rest(s.tickets[i])
    {
      assert CallbackOk(s.tickets[i]) && FutureOk(s.tickets[i]);
    }
    CountSum(holds, before, rest, s.tickets);
    CountSum(rest, undone, owing, s.tickets);
    CountZero(owing, s.tickets);
    assert forall i | 0 <= i < |s.tickets| :: owing(s.tickets[i]) == Owing(s.tickets[i]);
  }

  /** Such a window is reachable: a lone request whose worker has just finished. */
  lemma {:induction false} WindowIsReachable(settings: Settings, m: int) returns (run: seq<Event<int>>)
    requires settings.Valid()
    ensures After(settings, Initial(settings), run).Some?
    ensures var s := After(settings, Initial(settings), run).value;
            && s.free == settings.Capacity() - 1
            && |s.tickets| == 1 && s.tickets[0].future.Settled? && s.tickets[0].callback.Due?
  {
    var start: State<int> := Initial(settings);
    var t := Ticket(Waiting, settings.requestTimeout, NoFuture, Absent);
    var admitted := start.(tickets := [t]);
    var held := start.(free := start.free - 1);
    var result := Ok(Execution(m, 0.0, 0.0, 0.0));
    run := [Arrive(0.0, true)];
    assert start.tickets + [t] == [t];
    Continued(settings, start, [], start, Arrive(0.0, true), admitted);
    assert [] + run == run;
    run := Alone(settings, run, admitted, Acquire, held.(tickets := [t.(phase := Holding)]));
    run := Alone(settings, run, held.(tickets := [t.(phase := Holding)]), Submit(true),
                 held.(tickets := [t.(phase := Submitted, future := Pending)]));
    run := Alone(settings, run, held.(tickets := [t.(phase := Submitted, future := Pending)]), Register,
                 held.(tickets := [t.(phase := Awaiting, future := Pending, callback := Listed)]));
    CountZero((t: Ticket<int>) => IsRunning(t), [t.(phase := Awaiting, future := Pending, callback := Listed)]);
    run := Alone(settings, run, held.(tickets := [t.(phase := Awaiting, future := Pending, callback := Listed)]), Start(0.0),
                 held.(tickets := [t.(phase := Awaiting, future := Running(0.0), callback := Listed)]));
    run := Alone(settings, run, held.(tickets := [t.(phase := Awaiting, future := Running(0.0), callback := Listed)]),
                 Finish(Value(m), 0.0, Value(m), 0.0),
                 held.(tickets := [t.(phase := Awaiting, future := Settled(Some(result)), callback := Due)]));
  }

  lemma {:induction false} Continued<M>(settings: Settings, start: State<M>, run: seq<Event<M>>, s: State<M>, e: Event<M>, s': State<M>)
    requires After(settings, start, run) == Some(s) && Next(settings, s, e) == Some(s')
    ensures After(settings, start, run + [e]) == Some(s')
  {
    assert (run + [e])[..|run|] == run;
  }

  lemma {:induction false} Alone<M>(settings: Settings, run: seq<Event<M>>, s: State<M>, step: Step<M>, s': State<M>) returns (longer: seq<Event<M>>)
    requires After(settings, Initial(settings), run) == Some(s) && |s.tickets| == 1
    requires Enabled(settings, s, s.tickets[0], step)
    requires s' == Permits(settings, s, step).(tickets := [Moved(s.tickets[0], step)])
    ensures After(settings, Initial(settings), longer) == Some(s')
  {
    assert s.tickets[0 := Moved(s.tickets[0], step)] == [Moved(s.tickets[0], step)];
    Continued(settings, Initial(settings), run, s, On(0, step), s');
    longer := run + [On(0, step)];
  }

  /* ---- Every permit comes back once ---- */

  /** How often a run takes or gives back the permit of request `i`. */
  function Occurrences<M>(run: seq<Event<M>>, i: nat, counted: Step<M> -> bool): nat {
    Count((e: Event<M>) => if e.On? && e.i == i && counted(e.step) then 1 else 0, run)
  }

  /** Of a request's permit: taken at most once, given back at most once, and out exactly while held. */
  lemma {:induction false} PermitIsReturnedOnce<M>(settings: Settings, run: seq<Event<M>>, i: nat)
    requires After(settings, Initial(settings), run).Some?
    ensures var s := After(settings, Initial(settings), run).value;
            var taken, returned := Occurrences(run, i, (step: Step<M>) => step.Acquire?), Occurrences(run, i, (step: Step<M>) => Releases(step));
            && taken <= 1
            && taken == returned + (if i < |s.tickets| then Holds(s.tickets[i]) else 0)
            && (i >= |s.tickets| || s.tickets[i].phase.Waiting? ==> taken == 0)
  {
    if run != [] {
      var earlier, e := run[..|run| - 1], run[|run| - 1];
      var before := After(settings, Initial(settings), earlier).value;
      PermitIsReturnedOnce(settings, earlier, i);
      SlotsAreConserved(settings, earlier);
      if e.On? && e.i == i {
        PermitMoves(settings, before, before.tickets[i], e.step);
      }
    }
  }

  /* ---- Progress ---- */

  /** Nothing of this request is left to happen. */
  predicate AtRest<M>(t: Ticket<M>) {
    t.phase.Replied? && (t.future.NoFuture? || (t.future.Settled? && t.callback.Ran?))
  }

  /** When nothing is left to happen every permit is free. */
  lemma {:induction false} QuietMeansFree<M>(settings: Settings, s: State<M>)
    requires Inv(settings, s) && forall i | 0 <= i < |s.tickets| :: AtRest(s.tickets[i])
    ensures s.free == settings.Capacity()
  {
    CountZero((t: Ticket<M>) => Holds(t), s.tickets);
  }

  /** Some action other than a timeout or a close is possible until every request is at rest. */
  lemma {:induction false} NeverStuck<M>(settings: Settings, s: State<M>, i: nat) returns (k: nat, step: Step<M>)
    requires settings.Valid() && Inv(settings, s) && i < |s.tickets| && !AtRest(s.tickets[i])
    ensures Next(settings, s, On(k, step)).Some? && !step.Expire? && !step.Drop?
  {
    var t := s.tickets[i];
    assert CallbackOk(t) && FutureOk(t);
    k := i;
    if t.phase.Waiting? {
      step := if s.free > 0 then Acquire else GiveUp;
    } else if t.phase.Holding? {
      step := Submit(false);
    } else if t.phase.Submitted? {
      step := Register;
    } else if t.phase.Expired? {
      step := Cancel;
    } else if t.callback.Due? {
      step := RunCallback;
    } else if t.future.Settled? {
      step := Observe;
    } else if t.future.Running? {
      step := Finish(OtherError, 0.0, OtherError, 0.0);
    } else if RunningIn(s.tickets) < settings.maxConcurrency {
      step := Start(0.0);
    } else {
      CountZero((t: Ticket<M>) => IsRunning(t), s.tickets);
      k :| 0 <= k < |s.tickets| && IsRunning(s.tickets[k]) != 0;
      step := Finish(OtherError, 0.0, OtherError, 0.0);
    }
  }

  /** An upper bound on what is left to happen to one request. */
  function Left<M>(t: Ticket<M>): nat {
    (match t.phase
     case Waiting => 9
     case Holding => 8
     case Submitted => 5
     case Awaiting => 3
     case Expired => 2
     case Replied(_) => 0)
    + (if t.future.Pending? then 2 else if t.future.Running? then 1 else 0)
    + (if t.callback.Listed? || t.callback.Due? then 1 else 0)
  }

  function Remaining<M>(s: State<M>): nat {
    Count((t: Ticket<M>) => Left(t), s.tickets) + (if s.closed then 0 else 1) + (if s.shutdown then 0 else 1)
  }

  function Arrivals<M>(run: seq<Event<M>>): nat {
    Count((e: Event<M>) => if e.Arrive? then 1 else 0, run)
  }

  lemma {:induction false} StepUsesUp<M>(settings: Settings, s: State<M>, t: Ticket<M>, step: Step<M>)
    requires Enabled(settings, s, t, step) && CallbackOk(t) && FutureOk(t)
    ensures Left(Moved(t, step)) < Left(t)
  {
  }

  lemma {:induction false} EventUsesUp<M>(settings: Settings, s: State<M>, e: Event<M>)
    requires Inv(settings, s) && Next(settings, s, e).Some?
    ensures Remaining(Next(settings, s, e).value) < Remaining(s) + if e.Arrive? then 10 else 0
  {
    match e
    case Arrive(now, ready) =>
      CountAppend((t: Ticket<M>) => Left(t), s.tickets, Admitted(settings, s, now, ready));
    case Close =>
    case Shutdown =>
    case On(i, step) =>
      StepUsesUp(settings, s, s.tickets[i], step);
      CountUpdate((t: Ticket<M>) => Left(t), s.tickets, i, Moved(s.tickets[i], step));
  }

  /** Every run is short, so a run that cannot be continued is reached, and there every permit is free. */
  lemma {:induction false} RunsEnd<M>(settings: Settings, run: seq<Event<M>>)
    requires After(settings, Initial(settings), run).Some?
    ensures |run| + Remaining(After(settings, Initial(settings), run).value) <= 10 * Arrivals(run) + 2
  {
    if run != [] {
      var earlier := run[..|run| - 1];
      RunsEnd(settings, earlier);
      SlotsAreConserved(settings, earlier);
      EventUsesUp(settings, After(settings, Initial(settings), earlier).value, run[|run| - 1]);
    }
  }

  /** A run in which only timeouts, closes and new arrivals could follow has given every permit back. */
  lemma {:induction false} FinishedRunsFreeEverything<M>(settings: Settings, run: seq<Event<M>>)
    requires settings.Valid() && After(settings, Initial(settings), run).Some?
    requires var s := After(settings, Initial(settings), run).value;
             forall i: nat, step: Step<M> | i < |s.tickets| && !step.Expire? && !step.Drop? :: Next(settings, s, On(i, step)).None?
    ensures After(settings, Initial(settings), run).value.free == settings.Capacity()
  {
    var s := After(settings, Initial(settings), run).value;
    SlotsAreConserved(settings, run);
    forall i | 0 <= i < |s.tickets|
      ensures AtRest(s.tickets[i])
    {
      if !AtRest(s.tickets[i]) {
        var k, step := NeverStuck(settings, s, i);
      }
    }
    QuietMeansFree(settings, s);
  }

  /** With all workers busy at most `maxQueue` submitted requests wait. */
  lemma {:induction false} QueueIsBounded<M>(settings: Settings, s: State<M>)
    requires Inv(settings, s) && RunningIn(s.tickets) == settings.maxConcurrency
    ensures Count((t: Ticket<M>) => if t.future.Pending? then 1 else 0, s.tickets) <= settings.maxQueue
  {
    var holds, running := (t: Ticket<M>) => Holds(t), (t: Ticket<M>) => IsRunning(t);
    var pending := (t: Ticket<M>) => if t.future.Pending? then 1 else 0;
    var other := (t: Ticket<M>) => if Holds(t) == 1 && !t.future.Pending? && !t.future.Running? then 1 else 0;
    var busy := (t: Ticket<M>) => running(t) + pending(t);
    forall i | 0 <= i < |s.tickets|
      ensures holds(s.tickets[i]) == busy(s.tickets[i]) + other(s.tickets[i])
    {
      assert CallbackOk(s.tickets[i]) && FutureOk(s.tickets[i]);
    }
    CountSum(holds, busy, other, s.tickets);
    CountSum(busy, running, pending, s.tickets);
  }

  /** An answered request ran its backend before the deadline and was validated by it. */
  lemma {:induction false} AnswersAreInTime<M>(settings: Settings, run: seq<Event<M>>, i: nat)
    requires After(settings, Initial(settings), run).Some?
    requires i < |After(settings, Initial(settings), run).value.tickets|
    requires var t := After(settings, Initial(settings), run).value.tickets[i];
             t.phase.Replied? && t.phase.reply.Ok?
    ensures var t := After(settings, Initial(settings), run).value.tickets[i];
            t.phase.reply.value.startedAt < t.deadline && t.phase.reply.value.validationFinishedAt <= t.deadline
  {
    SlotsAreConserved(settings, run);
    var t := After(settings, Initial(settings), run).value.tickets[i];
    assert FutureOk(t);
  }

  /* ---- The gateway as it runs ---- */

  /** What closing does to one request: a pending future is cancelled, and a callback it lists runs. */
  function Discard<M>(t: Ticket<M>, i: nat): seq<Event<M>> {
    if !t.future.Pending? then []
    else [On(i, Drop)] + if t.callback.Listed? then [On(i, RunCallback)] else []
  }

  function DiscardAll<M>(tickets: seq<Ticket<M>>, n: nat): seq<Event<M>>
    requires n <= |tickets|
  {
    if n == 0 then [Close, Shutdown] else DiscardAll(tickets, n - 1) + Discard(tickets[n - 1], n - 1)
  }

  class EvaluationGateway<M> {
    const settings: Settings
    var slots: nat
    var closed: bool
    var shutdown: bool
    var overReleased: bool
    var tickets: seq<Ticket<M>>

    ghost function View(): State<M>
      reads this
    {
      State(slots, closed, shutdown, overReleased, tickets)
    }

    constructor (settings: Settings)
      requires settings.Valid()
      ensures this.settings == settings && View() == Initial(settings)
    {
      this.settings := settings;
      slots := settings.maxConcurrency + settings.maxQueue;
      closed, shutdown, overReleased, tickets := false, false, false, [];
    }

    /** The checks before a slot is asked for. */
    method Admit(now: real, ready: bool) returns (i: nat)
      modifies this
      ensures i == |old(tickets)| && Next(settings, old(View()), Arrive(now, ready)) == Some(View())
    {
      i := |tickets|;
      var phase := if closed || !ready then Replied(Err(NotReady)) else Waiting;
      tickets := tickets + [Ticket(phase, now + settings.requestTimeout, NoFuture, Absent)];
    }

    /** The semaphore's acquire as it ends: with a permit, or timed out while there is none. */
    method AcquireSlot(i: nat) returns (acquired: bool)
      requires i < |tickets| && tickets[i].phase.Waiting?
      modifies this
      ensures acquired <==> old(slots) > 0
      ensures Next(settings, old(View()), On(i, if acquired then Acquire else GiveUp)) == Some(View())
    {
      acquired := slots > 0;
      if acquired {
        slots := slots - 1;
        tickets := tickets[i := tickets[i].(phase := Holding)];
      } else {
        tickets := tickets[i := tickets[i].(phase := Replied(Err(Busy)))];
      }
    }

    method ReleaseSlot()
      modifies this
      ensures View() == Release(settings, old(View()))
    {
      if slots < settings.maxConcurrency + settings.maxQueue {
        slots := slots + 1;
      } else {
        overReleased := true;
      }
    }

    /** Hands the request to the executor; a refused submission gives the slot back. */
    method SubmitBackend(i: nat, accepted: bool)
      requires i < |tickets| && tickets[i].phase.Holding? && (accepted ==> !shutdown)
      modifies this
      ensures Next(settings, old(View()), On(i, Submit(accepted))) == Some(View())
    {
      if accepted {
        tickets := tickets[i := tickets[i].(phase := Submitted, future := Pending)];
      } else {
        ReleaseSlot();
        tickets := tickets[i := tickets[i].(phase := Replied(Err(BackendFailed)))];
      }
    }

    /** Registers the done callback; on a future that is already done it is due at once. */
    method AddDoneCallback(i: nat)
      requires i < |tickets| && tickets[i].phase.Submitted?
      modifies this
      ensures Next(settings, old(View()), On(i, Register)) == Some(View())
    {
      var callback := if tickets[i].future.Settled? then Due else Listed;
      tickets := tickets[i := tickets[i].(phase := Awaiting, callback := callback)];
    }

    method RunDoneCallback(i: nat)
      requires i < |tickets| && tickets[i].callback.Due?
      modifies this
      ensures Next(settings, old(View()), On(i, RunCallback)) == Some(View())
    {
      ReleaseSlot();
      tickets := tickets[i := tickets[i].(callback := Ran)];
    }

    /** Cancels a future that has not started; a running or settled one is left alone. */
    method CancelFuture(i: nat)
      requires i < |tickets|
      modifies this`tickets
      ensures tickets == old(tickets)[i := Cancelled(old(tickets)[i])]
    {
      var t := tickets[i];
      if t.future.Pending? {
        var callback := if t.callback.Listed? then Due else t.callback;
        tickets := tickets[i := t.(future := Settled(None), callback := callback)];
      }
    }

    /** The caller's way out after its deadline. */
    method TimeOut(i: nat)
      requires i < |tickets| && tickets[i].phase.Expired?
      modifies this
      ensures Next(settings, old(View()), On(i, Cancel)) == Some(View())
    {
      CancelFuture(i);
      tickets := tickets[i := tickets[i].(phase := Replied(Err(TimedOut)))];
      assert tickets == old(tickets)[i := Moved(old(tickets)[i], Cancel)];
    }

    /** The caller reads a settled future. */
    method Collect(i: nat) returns (reply: Result<Execution<M>, Failure>)
      requires i < |tickets| && tickets[i].phase.Awaiting? && tickets[i].future.Settled?
      modifies this
      ensures Next(settings, old(View()), On(i, Observe)) == Some(View())
      ensures tickets[i].phase == Replied(reply)
    {
      var result := tickets[i].future.result;
      if result.None? {
        reply := Err(BackendFailed);
      } else if result.value.Ok? && result.value.value.validationFinishedAt > tickets[i].deadline {
        reply := Err(TimedOut);
      } else {
        reply := result.value;
      }
      tickets := tickets[i := tickets[i].(phase := Replied(reply))];
    }

    method DiscardAt(i: nat)
      requires i < |tickets| && shutdown
      modifies this
      ensures closed == old(closed) && shutdown && |tickets| == |old(tickets)|
      ensures forall k | 0 <= k < |tickets| && k != i :: tickets[k] == old(tickets)[k]
      ensures !tickets[i].future.Pending?
      ensures After(settings, old(View()), Discard(old(tickets)[i], i)) == Some(View())
    {
      ghost var before := View();
      if tickets[i].future.Pending? {
        var listed := tickets[i].callback.Listed?;
        CancelFuture(i);
        ghost var cancelled := View();
        Continued(settings, before, [], before, On(i, Drop), cancelled);
        ghost var drop: seq<Event<M>> := [On(i, Drop)];
        assert [] + drop == drop;
        if listed {
          RunDoneCallback(i);
          Continued(settings, before, drop, cancelled, On(i, RunCallback), View());
        }
      }
    }

    /** Discards every pending future; their callbacks run on the way. Closing twice changes nothing. */
    method CloseGateway()
      requires closed == shutdown
      modifies this
      ensures old(closed) ==> View() == old(View())
      ensures !old(closed) ==> After(settings, old(View()), DiscardAll(old(tickets), |old(tickets)|)) == Some(View())
      ensures !old(closed) ==> closed && shutdown && |tickets| == |old(tickets)|
                               && forall i | 0 <= i < |tickets| :: !tickets[i].future.Pending?
    {
      if closed {
        return;
      }
      ghost var before, was := View(), tickets;
      closed := true;
      shutdown := true;
      Closing(settings, before, View());
      for i := 0 to |tickets|
        invariant closed && shutdown && |tickets| == |was|
        invariant After(settings, before, DiscardAll(was, i)) == Some(View())
        invariant forall k | i <= k < |was| :: tickets[k] == was[k]
        invariant forall k | 0 <= k < i :: !tickets[k].future.Pending?
      {
        ghost var here := View();
        DiscardAt(i);
        AfterBoth(settings, before, DiscardAll(was, i), here, Discard(was[i], i));
      }
    }
  }

  lemma {:induction false} Closing<M>(settings: Settings, s: State<M>, s': State<M>)
    requires !s.closed && !s.shutdown && s' == s.(closed := true, shutdown := true)
    ensures After(settings, s, DiscardAll(s.tickets, 0)) == Some(s')
  {
    var first: seq<Event<M>> := [Close];
    assert [] + first == first && first + [Shutdown] == [Close, Shutdown];
    Continued(settings, s, [], s, Close, s.(closed := true));
    Continued(settings, s, first, s.(closed := true), Shutdown, s');
  }

  lemma {:induction false} AfterBoth<M>(settings: Settings, s: State<M>, run: seq<Event<M>>, mid: State<M>, more: seq<Event<M>>)
    requires After(settings, s, run) == Some(mid)
    ensures After(settings, s, run + more) == After(settings, mid, more)
  {
    if more == [] {
      assert run + more == run;
    } else {
      AfterBoth(settings, s, run, mid, more[..|more| - 1]);
      assert (run + more)[..|run + more| - 1] == run + more[..|more| - 1];
    }
  }
}
