/** What replies mean. */
module GatewayReplies {
  import opened Wrappers
  import opened Gateway

  /* ---- What a run says about one request ---- */

  ghost predicate HappenedAt<M>(run: seq<Event<M>>, k: nat, i: nat, step: Step<M>) {
    k < |run| && run[k] == On(i, step)
  }

  ghost predicate Happened<M>(run: seq<Event<M>>, i: nat, step: Step<M>) {
    exists k: nat :: HappenedAt(run, k, i, step)
  }

  /** Event `k` is the arrival of request `i`, the `i`-th counting from zero. */
  ghost predicate ArrivedAt<M>(run: seq<Event<M>>, k: nat, i: nat) {
    k < |run| && run[k].Arrive? && Arrivals(run[..k]) == i
  }

  /** It was turned away at the door: the backend was not ready or the gateway had been closed before. */
  ghost predicate TurnedAway<M>(run: seq<Event<M>>, i: nat) {
    exists k: nat :: ArrivedAt(run, k, i) && (!run[k].ready || Close in run[..k])
  }

  /** A worker started on request `i` at event `s` and finished at event `f`, later. */
  ghost predicate Worked<M>(run: seq<Event<M>>, i: nat, s: nat, f: nat) {
    && s < f < |run|
    && run[s].On? && run[s].i == i && run[s].step.Start?
    && run[f].On? && run[f].i == i && run[f].step.Finish?
  }

  /** Backend and validator both returned, after a start in time. */
  ghost predicate Completed<M>(run: seq<Event<M>>, i: nat, s: nat, f: nat, deadline: real) {
    && Worked(run, i, s, f) && run[s].step.now < deadline
    && run[f].step.answer.Value? && run[f].step.validated.Value?
  }

  /* ---- What a reply means ---- */

  /** It carries the validated material and the times of the worker that produced it, all in time. */
  ghost predicate OkMeans<M>(run: seq<Event<M>>, i: nat, deadline: real, x: Execution<M>) {
    exists s: nat, f: nat ::
      && Completed(run, i, s, f, deadline) && run[f].step.validationFinishedAt <= deadline
      && x.material == run[f].step.validated.m
      && x.startedAt == run[s].step.now
      && x.backendFinishedAt == run[f].step.backendFinishedAt
      && x.validationFinishedAt == run[f].step.validationFinishedAt
  }

  /** After a start in time, backend or validator raised this error of the gateway's own. */
  ghost predicate RaisedInside<M>(run: seq<Event<M>>, i: nat, deadline: real, failure: Failure) {
    exists s: nat, f: nat ::
      && Worked(run, i, s, f) && run[s].step.now < deadline
      && (run[f].step.answer == GatewayError(failure)
          || (run[f].step.answer.Value? && run[f].step.validated == GatewayError(failure)))
  }

  /** The caller gave up at or after its deadline, the worker began at or after it, or validation ended after it. */
  ghost predicate TooLate<M>(run: seq<Event<M>>, i: nat, deadline: real) {
    || (exists now :: Happened(run, i, Expire(now)) && deadline <= now && Happened(run, i, Cancel))
    || (exists s: nat, f: nat :: Worked(run, i, s, f) && run[s].step.now >= deadline)
    || (exists s: nat, f: nat :: Completed(run, i, s, f, deadline) && run[f].step.validationFinishedAt > deadline)
  }

  /** Submission failed, the closing gateway dropped the request, or the backend raised something else. */
  ghost predicate BackendBroke<M>(run: seq<Event<M>>, i: nat, deadline: real) {
    || Happened(run, i, Submit(false))
    || Happened(run, i, Drop)
    || (exists s: nat, f: nat :: Worked(run, i, s, f) && run[s].step.now < deadline && run[f].step.answer.OtherError?)
  }

  ghost predicate ValidatorBroke<M>(run: seq<Event<M>>, i: nat, deadline: real) {
    exists s: nat, f: nat ::
      Worked(run, i, s, f) && run[s].step.now < deadline && run[f].step.answer.Value? && run[f].step.validated.OtherError?
  }

  ghost predicate Means<M>(run: seq<Event<M>>, i: nat, deadline: real, reply: Result<Execution<M>, Failure>) {
    match reply
    case Ok(x) => OkMeans(run, i, deadline, x)
    case Err(failure) =>
      RaisedInside(run, i, deadline, failure)
      || match failure
         case NotReady => TurnedAway(run, i)
         case Busy => Happened(run, i, GiveUp)
         case TimedOut => TooLate(run, i, deadline)
         case BackendFailed => BackendBroke(run, i, deadline)
         case ValidationFailed => ValidatorBroke(run, i, deadline)
  }

  /* ---- What is kept about every request ---- */

  /** What a settled future holds of its worker. The caller's own deadline check comes later. */
  ghost predicate ResultMeans<M>(run: seq<Event<M>>, i: nat, deadline: real, result: Result<Execution<M>, Failure>) {
    if result.Ok? && result.value.validationFinishedAt > deadline then TooLate(run, i, deadline)
    else Means(run, i, deadline, result)
  }

  ghost predicate Traced<M>(settings: Settings, run: seq<Event<M>>, i: nat, t: Ticket<M>) {
    && (exists k: nat :: ArrivedAt(run, k, i) && t.deadline == run[k].now + settings.requestTimeout)
    && (t.future.Running? ==> Happened(run, i, Start(t.future.since)))
    && (t.future.Settled? && t.future.result.Some? ==> ResultMeans(run, i, t.deadline, t.future.result.value))
    && (t.future.Settled? && t.future.result.None? ==> t.phase.Replied? || Happened(run, i, Drop))
    && (t.phase.Expired? ==> exists now :: Happened(run, i, Expire(now)) && t.deadline <= now)
    && (t.phase.Replied? ==> Means(run, i, t.deadline, t.phase.reply))
  }

  /* ---- Longer runs say the same and more ---- */

  lemma {:induction false} StillHappened<M>(run: seq<Event<M>>, e: Event<M>, i: nat, step: Step<M>)
    ensures Happened(run, i, step) ==> Happened(run + [e], i, step)
    ensures e == On(i, step) ==> Happened(run + [e], i, step)
  {
    if k: nat :| HappenedAt(run, k, i, step) {
      assert HappenedAt(run + [e], k, i, step);
    }
    if e == On(i, step) {
      assert HappenedAt(run + [e], |run|, i, step);
    }
  }

  lemma {:induction false} StillArrived<M>(run: seq<Event<M>>, e: Event<M>, k: nat, i: nat)
    requires ArrivedAt(run, k, i)
    ensures ArrivedAt(run + [e], k, i) && (run + [e])[..k] == run[..k]
  {
    assert (run + [e])[..k] == run[..k];
  }

  lemma {:induction false} StillTurnedAway<M>(run: seq<Event<M>>, e: Event<M>, i: nat)
    requires TurnedAway(run, i)
    ensures TurnedAway(run + [e], i)
  {
    var k: nat :| ArrivedAt(run, k, i) && (!run[k].ready || Close in run[..k]);
    StillArrived(run, e, k, i);
  }

  lemma {:induction false} StillWorked<M>(run: seq<Event<M>>, e: Event<M>, i: nat, deadline: real)
    ensures forall s: nat, f: nat | Worked(run, i, s, f) ::
              Worked(run + [e], i, s, f) && (run + [e])[s] == run[s] && (run + [e])[f] == run[f]
    ensures forall s: nat, f: nat | Completed(run, i, s, f, deadline) :: Completed(run + [e], i, s, f, deadline)
  {
  }

  lemma {:induction false} StillLate<M>(run: seq<Event<M>>, e: Event<M>, i: nat, deadline: real)
    requires TooLate(run, i, deadline)
    ensures TooLate(run + [e], i, deadline)
  {
    StillHappened(run, e, i, Cancel);
    forall now { StillHappened(run, e, i, Expire(now)); }
    StillWorked(run, e, i, deadline);
  }

  lemma {:induction false} StillBroken<M>(run: seq<Event<M>>, e: Event<M>, i: nat, deadline: real)
    ensures BackendBroke(run, i, deadline) ==> BackendBroke(run + [e], i, deadline)
    ensures ValidatorBroke(run, i, deadline) ==> ValidatorBroke(run + [e], i, deadline)
  {
    StillHappened(run, e, i, Submit(false));
    StillHappened(run, e, i, Drop);
    StillWorked(run, e, i, deadline);
  }

  lemma {:induction false} StillRaised<M>(run: seq<Event<M>>, e: Event<M>, i: nat, deadline: real, failure: Failure)
    requires RaisedInside(run, i, deadline, failure)
    ensures RaisedInside(run + [e], i, deadline, failure)
  {
    StillWorked(run, e, i, deadline);
  }

  lemma {:induction false} StillOk<M>(run: seq<Event<M>>, e: Event<M>, i: nat, deadline: real, x: Execution<M>)
    requires OkMeans(run, i, deadline, x)
    ensures OkMeans(run + [e], i, deadline, x)
  {
    StillWorked(run, e, i, deadline);
  }

  lemma {:induction false} StillMeans<M>(run: seq<Event<M>>, e: Event<M>, i: nat, deadline: real, reply: Result<Execution<M>, Failure>)
    requires Means(run, i, deadline, reply)
    ensures Means(run + [e], i, deadline, reply)
  {
    match reply
    case Ok(x) => StillOk(run, e, i, deadline, x);
    case Err(failure) =>
      StillHappened(run, e, i, GiveUp);
      StillBroken(run, e, i, deadline);
      if RaisedInside(run, i, deadline, failure) {
        StillRaised(run, e, i, deadline, failure);
      } else if failure.TimedOut? {
        StillLate(run, e, i, deadline);
      } else if failure.NotReady? {
        StillTurnedAway(run, e, i);
      }
  }

  lemma {:induction false} StillTraced<M>(settings: Settings, run: seq<Event<M>>, e: Event<M>, i: nat, t: Ticket<M>)
    requires Traced(settings, run, i, t)
    ensures Traced(settings, run + [e], i, t)
  {
    var k: nat :| ArrivedAt(run, k, i) && t.deadline == run[k].now + settings.requestTimeout;
    StillArrived(run, e, k, i);
    forall now { StillHappened(run, e, i, Expire(now)); }
    StillHappened(run, e, i, Drop);
    if t.future.Running? {
      StillHappened(run, e, i, Start(t.future.since));
    }
    if t.phase.Replied? {
      StillMeans(run, e, i, t.deadline, t.phase.reply);
    }
    if t.future.Settled? && t.future.result.Some? {
      if TooLate(run, i, t.deadline) {
        StillLate(run, e, i, t.deadline);
      }
      if Means(run, i, t.deadline, t.future.result.value) {
        StillMeans(run, e, i, t.deadline, t.future.result.value);
      }
    }
  }

  /* ---- Every event keeps it ---- */

  lemma {:induction false} ArrivalTraced<M>(settings: Settings, run: seq<Event<M>>, s: State<M>, now: real, ready: bool)
    requires After(settings, Initial(settings), run) == Some(s) && |s.tickets| == Arrivals(run) && (s.closed ==> Close in run)
    ensures Traced(settings, run + [Arrive(now, ready)], |s.tickets|, Admitted(settings, s, now, ready))
  {
    var longer := run + [Arrive(now, ready)];
    assert longer[..|run|] == run;
    assert ArrivedAt(longer, |run|, |s.tickets|);
    assert !ready || s.closed ==> TurnedAway(longer, |s.tickets|);
  }

  /** A worker that finishes settles its future with what its start, its backend and its validator amount to. */
  lemma {:induction false} FinishTraced<M>(settings: Settings, run: seq<Event<M>>, i: nat, t: Ticket<M>, step: Step<M>)
    requires Traced(settings, run, i, t) && t.future.Running? && step.Finish?
    ensures ResultMeans(run + [On(i, step)], i, t.deadline,
                        RunBackend(t.deadline, t.future.since, step.answer, step.backendFinishedAt, step.validated, step.validationFinishedAt))
  {
    var longer := run + [On(i, step)];
    var s: nat :| HappenedAt(run, s, i, Start(t.future.since));
    assert longer[s] == run[s] && longer[|run|] == On(i, step);
    assert Worked(longer, i, s, |run|);
    assert t.future.since < t.deadline && step.answer.Value? && step.validated.Value? ==> Completed(longer, i, s, |run|, t.deadline);
  }

  lemma {:induction false} StepTraced<M>(settings: Settings, run: seq<Event<M>>, s: State<M>, i: nat, t: Ticket<M>, step: Step<M>)
    requires Traced(settings, run, i, t) && Enabled(settings, s, t, step) && CallbackOk(t)
    ensures Traced(settings, run + [On(i, step)], i, Moved(t, step))
  {
    var e := On(i, step);
    StillTraced(settings, run, e, i, t);
    StillHappened(run, e, i, step);
    if step.Finish? {
      FinishTraced(settings, run, i, t, step);
    }
  }

  ghost predicate AllTraced<M>(settings: Settings, run: seq<Event<M>>, s: State<M>) {
    && |s.tickets| == Arrivals(run) && (s.closed ==> Close in run)
    && forall i | 0 <= i < |s.tickets| :: Traced(settings, run, i, s.tickets[i])
  }

  lemma {:induction false} EventTraced<M>(settings: Settings, run: seq<Event<M>>, s: State<M>, e: Event<M>, s': State<M>)
    requires After(settings, Initial(settings), run) == Some(s) && Inv(settings, s) && Next(settings, s, e) == Some(s')
    requires AllTraced(settings, run, s)
    ensures AllTraced(settings, run + [e], s')
  {
    CountAppend((e: Event<M>) => if e.Arrive? then 1 else 0, run, e);
    forall i | 0 <= i < |s'.tickets|
      ensures Traced(settings, run + [e], i, s'.tickets[i])
    {
      if e.Arrive? && i == |s.tickets| {
        ArrivalTraced(settings, run, s, e.now, e.ready);
      } else if e.On? && e.i == i {
        StepTraced(settings, run, s, i, s.tickets[i], e.step);
      } else {
        StillTraced(settings, run, e, i, s.tickets[i]);
      }
    }
  }

  lemma {:induction false} RunTraced<M>(settings: Settings, run: seq<Event<M>>)
    requires After(settings, Initial(settings), run).Some?
    ensures AllTraced(settings, run, After(settings, Initial(settings), run).value)
  {
    if run != [] {
      var earlier, e := run[..|run| - 1], run[|run| - 1];
      RunTraced(settings, earlier);
      SlotsAreConserved(settings, earlier);
      var s := After(settings, Initial(settings), earlier).value;
      EventTraced(settings, earlier, s, e, Next(settings, s, e).value);
      assert earlier + [e] == run;
    }
  }

  /** Over every run: a request's deadline is its arrival plus the timeout, and its reply means what it says. An
      answer is the validated material of one worker of that request with that worker's own times, begun before the
      deadline and validated by it, and each error was caused by one of its own causes. */
  lemma {:induction false} RepliesMeanWhatTheySay<M>(settings: Settings, run: seq<Event<M>>, i: nat)
    requires After(settings, Initial(settings), run).Some?
    requires i < |After(settings, Initial(settings), run).value.tickets|
    ensures var t := After(settings, Initial(settings), run).value.tickets[i];
            && (exists k: nat :: ArrivedAt(run, k, i) && t.deadline == run[k].now + settings.requestTimeout)
            && (t.phase.Replied? ==> Means(run, i, t.deadline, t.phase.reply))
  {
    RunTraced(settings, run);
    assert Traced(settings, run, i, After(settings, Initial(settings), run).value.tickets[i]);
  }

  /* ---- When things may happen ---- */

  lemma {:induction false} ShutdownSeen<M>(settings: Settings, run: seq<Event<M>>)
    requires After(settings, Initial(settings), run).Some?
    ensures After(settings, Initial(settings), run).value.shutdown <==> Shutdown in run
    ensures After(settings, Initial(settings), run).value.closed <==> Close in run
  {
    if run != [] {
      var earlier, e := run[..|run| - 1], run[|run| - 1];
      ShutdownSeen(settings, earlier);
      assert run == earlier + [e];
      assert Shutdown in run <==> Shutdown in earlier || e == Shutdown;
      assert Close in run <==> Close in earlier || e == Close;
    }
  }

  lemma {:induction false} PrefixRuns<M>(settings: Settings, run: seq<Event<M>>, k: nat)
    requires After(settings, Initial(settings), run).Some? && k < |run|
    ensures After(settings, Initial(settings), run[..k]).Some?
    ensures Next(settings, After(settings, Initial(settings), run[..k]).value, run[k]).Some?
    decreases |run|
  {
    var n := |run| - 1;
    if k < n {
      PrefixRuns(settings, run[..n], k);
      assert run[..n][..k] == run[..k] && run[..n][k] == run[k];
    }
  }

  /** A caller gives up only while every permit is held by some request; requests are handed over only before the shutdown;
      a shutdown follows a close, and drops only what had not started. */
  lemma {:induction false} EventsHaveReasons<M>(settings: Settings, run: seq<Event<M>>, k: nat, i: nat)
    requires After(settings, Initial(settings), run).Some? && k < |run|
    ensures After(settings, Initial(settings), run[..k]).Some?
    ensures var s := After(settings, Initial(settings), run[..k]).value;
            && (run[k] == On(i, GiveUp) ==> HeldIn(s.tickets) == settings.maxConcurrency + settings.maxQueue)
            && (run[k] == On(i, Acquire) ==> HeldIn(s.tickets) < settings.maxConcurrency + settings.maxQueue)
            && (run[k] == On(i, Submit(true)) ==> Shutdown !in run[..k])
            && (run[k] == On(i, Drop) ==> Shutdown in run[..k] && i < |s.tickets| && s.tickets[i].future.Pending?)
            && (run[k] == Shutdown ==> Close in run[..k] && Shutdown !in run[..k])
            && (run[k] == Close ==> Close !in run[..k])
  {
    PrefixRuns(settings, run, k);
    SlotsAreConserved(settings, run[..k]);
    ShutdownSeen(settings, run[..k]);
  }
}
