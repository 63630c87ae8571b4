/** Coordinator calls as stretches of protocol events. */
module SessionCalls {
  import opened Wrappers
  import opened Contracts
  import opened SessionModel
  import opened SessionStore
  import opened SessionCoordinator
  import opened SessionProtocol

  /** One event more. */
  function Extended<P>(x: Execution<P>, e: Event<P>, s: System<P>): Execution<P> {
    Execution(x.trace + [e], x.states + [s])
  }

  ghost predicate EndsIn<P>(x: Execution<P>, s: System<P>) {
    |x.states| == |x.trace| + 1 && x.states[|x.trace|] == s
  }

  lemma {:induction false} ExtendedIsExecution<P>(config: Config, adapter: Adapter<P>, x: Execution<P>, s: System<P>, e: Event<P>, s': System<P>)
    requires IsExecution(config, adapter, x) && EndsIn(x, s) && Next(config, adapter, x.trace, s, e, s')
    ensures IsExecution(config, adapter, Extended(x, e, s')) && EndsIn(Extended(x, e, s'), s')
  {
    var y := Extended(x, e, s');
    forall i | 0 <= i < |y.trace|
      ensures NextAt(config, adapter, y, i)
    {
      if i < |x.trace| {
        assert NextAt(config, adapter, x, i);
        assert y.trace[..i] == x.trace[..i];
      } else {
        assert y.trace[..i] == x.trace;
      }
    }
  }

  /** What `answer` does by itself: its own job's events in order, then at most one look. */
  ghost predicate IsAnswering<P>(events: seq<Event<P>>, job: nat, id: string, answer: Answer) {
    && 1 <= |events| <= 4
    && events[0].Begin? && events[0].job == job && events[0].answer == answer && events[0].call.op == GetOp(id)
    && (|events| > 1 ==> events[1].Compute? && events[1].job == job)
    && (|events| > 2 ==> events[2].Commit? && events[2].job == job)
    && (|events| > 3 ==> events[2].reply.Stored? && events[3].Look? && events[3].call.op == GetOp(id))
  }

  /** `y` goes on from `x` by these events to the store `s` with the same other calls in flight. */
  ghost predicate GoesOn<P>(config: Config, adapter: Adapter<P>, x: Execution<P>, events: seq<Event<P>>, y: Execution<P>, s: System<P>) {
    IsExecution(config, adapter, y) && y.trace == x.trace + events && EndsIn(y, s)
  }

  lemma {:induction false} OneMore<P>(config: Config, adapter: Adapter<P>, x: Execution<P>, events: seq<Event<P>>, y: Execution<P>,
                                      s: System<P>, e: Event<P>, s': System<P>)
    requires GoesOn(config, adapter, x, events, y, s) && Next(config, adapter, y.trace, s, e, s')
    ensures GoesOn(config, adapter, x, events + [e], Extended(y, e, s'), s')
  {
    ExtendedIsExecution(config, adapter, y, s, e, s');
    assert x.trace + events + [e] == x.trace + (events + [e]);
  }

  /** The last step: read the session back. */
  lemma {:induction false} LookingIsAnEvent<P(!new)>(config: Config, adapter: Adapter<P>, x: Execution<P>, events: seq<Event<P>>, y: Execution<P>,
                                               s: System<P>, id: string, now: real, wall: int, store: Snapshot<P>,
                                               reply: Result<SessionState<P>, SessionError>) returns (look: Event<P>)
    requires config.Valid() && GoesOn(config, adapter, x, events, y, s) && FinalGet(config, s.store, id, now, wall, store, reply)
    ensures look.Look? && look.call.op == GetOp(id) && reply == AsResult(look.reply)
    ensures GoesOn(config, adapter, x, events + [look], Extended(y, look, System(store, s.jobs)), System(store, s.jobs))
  {
    var r :| Step(config, s.store, Call(now, wall, GetOp(id)), store, r) && reply == AsResult(r);
    look := Look(Call(now, wall, GetOp(id)), r);
    OneMore(config, adapter, x, events, y, s, look, System(store, s.jobs));
  }

  /** Storing a prepared answer. */
  lemma {:induction false} StoringIsEvents<P(!new)>(config: Config, adapter: Adapter<P>, x: Execution<P>, y: Execution<P>, s: System<P>,
                                              job: nat, id: string, answer: Answer, events: seq<Event<P>>, clock: Clock,
                                              store: Snapshot<P>, reply: Result<SessionState<P>, SessionError>)
    requires config.Valid() && GoesOn(config, adapter, x, events, y, s)
    requires |events| == 2 && IsAnswering(events, job, id, answer)
    requires job in s.jobs && s.jobs[job].Committing?
    requires StoreRun(config, s.store, CommitCall(s.jobs[job].snapshot, s.jobs[job].prepared, clock.second, clock.wall), id, clock, store, reply)
    ensures exists more, z :: IsAnswering(more, job, id, answer) && GoesOn(config, adapter, x, more, z, System(store, s.jobs - {job}))
  {
    var call := CommitCall(s.jobs[job].snapshot, s.jobs[job].prepared, clock.second, clock.wall);
    var s2, r2 :| Step(config, s.store, call, s2, r2) && match r2
                                                          case Failed(e) => store == s2 && reply == Err(e)
                                                          case _ => FinalGet(config, s2, id, clock.third, clock.wall, store, reply);
    var commit := Event.Commit(job, s.jobs[job].snapshot, s.jobs[job].prepared, call, r2);
    var stored := System(s2, s.jobs - {job});
    OneMore(config, adapter, x, events, y, s, commit, stored);
    assert IsAnswering(events + [commit], job, id, answer);
    if !r2.Failed? {
      CommitIsStored(config, s.store, call, s2, r2);
      LookIsLast(config, adapter, x, Extended(y, commit, stored), stored, job, id, answer, events + [commit], clock, store, reply);
    }
  }

  lemma {:induction false} LookIsLast<P(!new)>(config: Config, adapter: Adapter<P>, x: Execution<P>, y: Execution<P>, s: System<P>,
                                         job: nat, id: string, answer: Answer, events: seq<Event<P>>, clock: Clock,
                                         store: Snapshot<P>, reply: Result<SessionState<P>, SessionError>)
    requires config.Valid() && GoesOn(config, adapter, x, events, y, s)
    requires |events| == 3 && IsAnswering(events, job, id, answer) && events[2].reply.Stored?
    requires FinalGet(config, s.store, id, clock.third, clock.wall, store, reply)
    ensures exists more, z :: IsAnswering(more, job, id, answer) && GoesOn(config, adapter, x, more, z, System(store, s.jobs))
  {
    var look := LookingIsAnEvent(config, adapter, x, events, y, s, id, clock.third, clock.wall, store, reply);
    assert IsAnswering(events + [look], job, id, answer);
  }

  lemma {:induction false} CommitIsStored<P>(config: Config, s: Snapshot<P>, call: Call<P>, s': Snapshot<P>, reply: Reply<P>)
    requires config.Valid() && Step(config, s, call, s', reply) && call.op.CompareAndPutOp? && !reply.Failed?
    ensures reply.Stored?
  {
  }

  lemma {:induction false} ComputingIsEvents<P(!new)>(config: Config, adapter: Adapter<P>, x: Execution<P>, y: Execution<P>, s: System<P>,
                                                jobs: map<nat, Job<P>>, job: nat, id: string, state: SessionState<P>, answer: Answer,
                                                events: seq<Event<P>>, clock: Clock, store: Snapshot<P>,
                                                reply: Result<SessionState<P>, SessionError>)
    requires config.Valid() && GoesOn(config, adapter, x, events, y, s)
    requires |events| == 1 && IsAnswering(events, job, id, answer)
    requires job !in jobs && s.jobs == jobs[job := Reading(state, answer)]
    requires CommitRun(config, adapter, s.store, state, id, answer, clock, store, reply)
    ensures exists more, z :: IsAnswering(more, job, id, answer) && GoesOn(config, adapter, x, more, z, System(store, jobs))
  {
    var compute := Compute(job, clock.wall);
    var two := events + [compute];
    match Prepare(adapter, state, answer, clock.wall)
    case Err(e) =>
      assert s.jobs - {job} == jobs;
      OneMore(config, adapter, x, events, y, s, compute, System(store, jobs));
      assert IsAnswering(two, job, id, answer);
    case Ok(prepared) =>
      var s1 := System(s.store, s.jobs[job := Committing(state, prepared)]);
      OneMore(config, adapter, x, events, y, s, compute, s1);
      StoringIsEvents(config, adapter, x, Extended(y, compute, s1), s1, job, id, answer, two, clock, store, reply);
      assert s1.jobs - {job} == jobs;
  }

  /** Any call of `answer` on the store of an execution, among any other calls in flight, is an execution that
      goes on by that call's own events; so whatever holds of executions holds of coordinator calls. */
  lemma {:induction false} AnswerIsEvents<P(!new)>(config: Config, adapter: Adapter<P>, x: Execution<P>, s: System<P>, job: nat,
                                             id: string, answer: Answer, clock: Clock, store: Snapshot<P>,
                                             reply: Result<SessionState<P>, SessionError>)
    requires IsExecution(config, adapter, x) && EndsIn(x, s) && job !in s.jobs
    requires AnswerRun(config, adapter, s.store, id, answer, clock, store, reply)
    ensures exists events, y :: IsAnswering(events, job, id, answer) && GoesOn(config, adapter, x, events, y, System(store, s.jobs))
  {
    var call: Call<P> := Call(clock.first, clock.wall, GetOp(id));
    var s1, r1 :| Step(config, s.store, call, s1, r1)
                  && match r1
                     case Failed(e) => store == s1 && reply == Err(e)
                     case Stored => false
                     case Found(state) => CommitRun(config, adapter, s1, state, id, answer, clock, store, reply);
    var begin := Begin(job, answer, call, r1);
    var read := System(s1, if r1.Found? then s.jobs[job := Reading(r1.state, answer)] else s.jobs);
    assert x.trace + [] == x.trace;
    OneMore(config, adapter, x, [], x, s, begin, read);
    assert [] + [begin] == [begin];
    if r1.Found? {
      ComputingIsEvents(config, adapter, x, Extended(x, begin, read), read, s.jobs, job, id, r1.state, answer, [begin],
                        clock, store, reply);
    } else {
      assert IsAnswering([begin], job, id, answer);
    }
  }

  /** Opening: nothing, or the put of the opening state and at most one look. */
  ghost predicate IsOpeningCall<P>(events: seq<Event<P>>, origin: Origin, proposal: P) {
    && |events| <= 2
    && (|events| > 0 ==> events[0].OpenPut? && events[0].origin == origin && events[0].proposal == proposal)
    && (|events| > 1 ==> events[0].reply.Stored? && events[1].Look? && events[1].call.op == GetOp(origin.sessionId))
  }

  lemma {:induction false} PutIsStored<P>(config: Config, s: Snapshot<P>, call: Call<P>, s': Snapshot<P>, reply: Reply<P>)
    requires config.Valid() && Step(config, s, call, s', reply) && call.op.PutOp? && !reply.Failed?
    ensures reply.Stored?
  {
  }

  /** Likewise for `open` with an identifier that the execution has not opened. */
  lemma {:induction false} OpenIsEvents<P(!new)>(config: Config, adapter: Adapter<P>, x: Execution<P>, s: System<P>, origin: Origin,
                                           proposal: P, clock: Clock, store: Snapshot<P>,
                                           reply: Result<SessionState<P>, SessionError>)
    requires IsExecution(config, adapter, x) && EndsIn(x, s) && LogOf(x.trace, origin.sessionId).None?
    requires OpenRun(config, adapter, s.store, origin, proposal, clock, store, reply)
    ensures exists events, y :: IsOpeningCall(events, origin, proposal) && GoesOn(config, adapter, x, events, y, System(store, s.jobs))
  {
    var none: seq<Event<P>> := [];
    assert x.trace + none == x.trace;
    match OpeningState(adapter, origin, proposal, clock.wall)
    case Err(e) =>
      assert IsOpeningCall(none, origin, proposal) && GoesOn(config, adapter, x, none, x, System(store, s.jobs));
    case Ok(state) =>
      var call := Call(clock.first, clock.wall, PutOp(state));
      var s1, r1 :| Step(config, s.store, call, s1, r1)
                    && match r1
                       case Failed(e) => store == s1 && reply == Err(e)
                       case _ => FinalGet(config, s1, origin.sessionId, clock.second, clock.wall, store, reply);
      PuttingIsEvents(config, adapter, x, s, origin, proposal, call, clock, s1, r1, store, reply);
  }

  lemma {:induction false} PuttingIsEvents<P(!new)>(config: Config, adapter: Adapter<P>, x: Execution<P>, s: System<P>, origin: Origin,
                                              proposal: P, call: Call<P>, clock: Clock, s1: Snapshot<P>, r1: Reply<P>,
                                              store: Snapshot<P>, reply: Result<SessionState<P>, SessionError>)
    requires IsExecution(config, adapter, x) && EndsIn(x, s)
    requires Next(config, adapter, x.trace, s, OpenPut(origin, proposal, clock.wall, call, r1), System(s1, s.jobs))
    requires if r1.Failed? then store == s1 else FinalGet(config, s1, origin.sessionId, clock.second, clock.wall, store, reply)
    ensures exists events, y :: IsOpeningCall(events, origin, proposal) && GoesOn(config, adapter, x, events, y, System(store, s.jobs))
  {
    var put, after := OpenPut(origin, proposal, clock.wall, call, r1), System(s1, s.jobs);
    var none: seq<Event<P>> := [];
    assert x.trace + none == x.trace && none + [put] == [put];
    OneMore(config, adapter, x, none, x, s, put, after);
    assert IsOpeningCall([put], origin, proposal);
    if !r1.Failed? {
      PutIsStored(config, s.store, call, s1, r1);
      var look := LookingIsAnEvent(config, adapter, x, [put], Extended(x, put, after), after, origin.sessionId,
                                   clock.second, clock.wall, store, reply);
      assert IsOpeningCall([put] + [look], origin, proposal);
    }
  }
}
