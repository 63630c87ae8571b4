/** Concurrent `open` and `answer` calls as interleaved atomic store operations. */
module SessionProtocol {
  import opened Wrappers
  import opened Contracts
  import opened SessionModel
  import opened SessionStore
  import opened SessionCoordinator

  /** An `answer` call between two store operations. */
  datatype Job<P> =
    | Reading(snapshot: SessionState<P>, answer: Answer)
    | Committing(snapshot: SessionState<P>, prepared: Prepared<P>)

  datatype System<P> = System(store: Snapshot<P>, jobs: map<nat, Job<P>>)

  /** One atomic step. Every store operation may also purge expired rows and evict the oldest. */
  datatype Event<P> =
    | OpenPut(origin: Origin, proposal: P, built: int, call: Call<P>, reply: Reply<P>)
    | Begin(job: nat, answer: Answer, call: Call<P>, reply: Reply<P>)
    | Compute(job: nat, wall: int)
    | Commit(job: nat, snapshot: SessionState<P>, prepared: Prepared<P>, call: Call<P>, reply: Reply<P>)
    | Look(call: Call<P>, reply: Reply<P>)

  predicate IsOpening<P>(e: Event<P>, id: string) {
    e.OpenPut? && e.reply.Stored? && e.origin.sessionId == id
  }

  predicate IsAccepted<P>(e: Event<P>, id: string) {
    e.Commit? && e.reply.Stored? && e.prepared.next.origin.sessionId == id
  }

  /** What a trace says happened to one session: how it opened and which batches were accepted. */
  datatype Log<P> = Log(origin: Origin, opening: P, batches: seq<map<string, Value>>)

  ghost function LogOf<P>(trace: seq<Event<P>>, id: string): Option<Log<P>> {
    if trace == [] then None else
    var e, earlier := trace[|trace| - 1], LogOf(trace[..|trace| - 1], id);
    if IsOpening(e, id) then Some(Log(e.origin, e.proposal, []))
    else if IsAccepted(e, id) && earlier.Some?
    then Some(earlier.value.(batches := earlier.value.batches + [e.prepared.batch]))
    else earlier
  }

  function Fold<P>(adapter: Adapter<P>, opening: P, batches: seq<map<string, Value>>): Result<P, SessionError> {
    if batches == [] then Ok(opening) else
    match Fold(adapter, opening, batches[..|batches| - 1])
    case Err(e) => Err(e)
    case Ok(proposal) => adapter.apply(proposal, batches[|batches| - 1])
  }

  ghost predicate Next<P>(config: Config, adapter: Adapter<P>, trace: seq<Event<P>>, s: System<P>, e: Event<P>, s': System<P>)
    requires config.maxSessions > 0
  {
    match e
    case OpenPut(origin, proposal, built, call, reply) =>
      var opening := OpeningState(adapter, origin, proposal, built);
      && LogOf(trace, origin.sessionId).None?
      && opening.Ok? && call.op == PutOp(opening.value)
      && Step(config, s.store, call, s'.store, reply) && s'.jobs == s.jobs
    case Begin(job, answer, call, reply) =>
      && call.op.GetOp? && job !in s.jobs
      && Step(config, s.store, call, s'.store, reply)
      && s'.jobs == if reply.Found? then s.jobs[job := Reading(reply.state, answer)] else s.jobs
    case Compute(job, wall) =>
      && job in s.jobs && s.jobs[job].Reading? && s'.store == s.store
      && s'.jobs == (match Prepare(adapter, s.jobs[job].snapshot, s.jobs[job].answer, wall)
                     case Err(_) => s.jobs - {job}
                     case Ok(prepared) => s.jobs[job := Committing(s.jobs[job].snapshot, prepared)])
    case Commit(job, snapshot, prepared, call, reply) =>
      && job in s.jobs && s.jobs[job] == Committing(snapshot, prepared)
      && call == CommitCall(snapshot, prepared, call.now, call.wall)
      && Step(config, s.store, call, s'.store, reply) && s'.jobs == s.jobs - {job}
    case Look(call, reply) =>
      && call.op.GetOp?
      && Step(config, s.store, call, s'.store, reply) && s'.jobs == s.jobs
  }

  datatype Execution<P> = Execution(trace: seq<Event<P>>, states: seq<System<P>>)

  ghost predicate IsExecution<P>(config: Config, adapter: Adapter<P>, x: Execution<P>) {
    && config.Valid()
    && |x.states| == |x.trace| + 1
    && x.states[0] == System(Snapshot([], {}), map[])
    && forall i | 0 <= i < |x.trace| :: NextAt(config, adapter, x, i)
  }

  ghost predicate NextAt<P>(config: Config, adapter: Adapter<P>, x: Execution<P>, i: nat)
    requires config.maxSessions > 0 && |x.states| == |x.trace| + 1 && i < |x.trace|
  {
    Next(config, adapter, x.trace[..i], x.states[i], x.trace[i], x.states[i + 1])
  }

  /* ---- The invariant ---- */

  /** `state` is the session after its first `n` accepted batches. */
  ghost predicate Reflects<P>(adapter: Adapter<P>, log: Log<P>, state: SessionState<P>, n: nat) {
    && n <= |log.batches|
    && state.origin == log.origin
    && state.revision == n
    && Fold(adapter, log.opening, log.batches[..n]) == Ok(state.proposal)
    && |state.history| == n
    && (forall i | 0 <= i < n :: state.history[i].fromRevision == i && state.history[i].toRevision == i + 1)
    && RevisionStamped(state)
  }

  ghost predicate RowFaithful<P>(adapter: Adapter<P>, trace: seq<Event<P>>, row: Entry<P>) {
    var log := LogOf(trace, row.id);
    && row.id == row.state.origin.sessionId
    && log.Some?
    && Reflects(adapter, log.value, row.state, |log.value.batches|)
  }

  ghost predicate JobFaithful<P>(adapter: Adapter<P>, trace: seq<Event<P>>, job: Job<P>) {
    var log := LogOf(trace, job.snapshot.origin.sessionId);
    && log.Some?
    && Reflects(adapter, log.value, job.snapshot, job.snapshot.revision)
    && (job.Committing? ==> Advances(adapter, job.snapshot, job.prepared))
  }

  ghost predicate Inv<P>(adapter: Adapter<P>, trace: seq<Event<P>>, s: System<P>) {
    && UniqueIds(s.store.rows)
    && (forall row | row in s.store.rows :: RowFaithful(adapter, trace, row))
    && (forall job | job in s.jobs :: JobFaithful(adapter, trace, s.jobs[job]))
  }

  ghost predicate SameSession<P>(a: SessionState<P>, b: SessionState<P>) {
    a == b.(lastAccessed := a.lastAccessed)
  }

  /* ---- What one store operation can do to rows ---- */

  /** Every row after an operation was there before, up to its access time, or was just stored. */
  lemma {:induction false} RowsAfter<P>(config: Config, s: Snapshot<P>, call: Call<P>, s': Snapshot<P>, reply: Reply<P>, row': Entry<P>)
    requires config.Valid() && UniqueIds(s.rows) && Step(config, s, call, s', reply) && row' in s'.rows
    ensures || (exists row :: row in s.rows && row.id == row'.id && SameSession(row'.state, row.state))
            || (reply.Stored? && row'.id == call.op.Id() && row'.state == Touched(call.op.state, call.wall))
    ensures reply.Stored? && row'.id == call.op.Id() ==> row'.state == Touched(call.op.state, call.wall)
  {
    var kept: set<string> :| (s', reply) == After(config, Snapshot(Alive(s.rows, call.now, config.ttl), kept), call);
    var alive := Alive(s.rows, call.now, config.ttl);
    AliveRows(s.rows, call.now, config.ttl);
    var others := Without(alive, call.op.Id());
    WithoutLacks(alive, call.op.Id());
    if row' in alive {
      assert row' in s.rows;
    }
    if row' in others {
      assert row' in alive;
    }
  }

  lemma {:induction false} AliveRows<P>(rows: seq<Entry<P>>, now: real, ttl: real)
    requires UniqueIds(rows)
    ensures UniqueIds(Alive(rows, now, ttl))
    ensures forall row | row in Alive(rows, now, ttl) :: row in rows
  {
    var keep := (e: Entry<P>) => IsAlive(e, now, ttl);
    FilterUnique(keep, rows);
    forall row | row in Alive(rows, now, ttl)
      ensures row in rows
    {
      FilterMember(keep, rows, row);
    }
  }

  /** A read returns a resident state; a compare-and-put replaces a resident one it agrees with. */
  lemma {:induction false} ReplyMeaning<P>(config: Config, s: Snapshot<P>, call: Call<P>, s': Snapshot<P>, reply: Reply<P>) returns (row: Entry<P>)
    requires config.Valid() && UniqueIds(s.rows) && Step(config, s, call, s', reply)
    requires !reply.Failed? && !call.op.PutOp?
    ensures row in s.rows && row.id == call.op.Id()
    ensures reply.Found? ==> reply.state == Touched(row.state, call.wall)
    ensures call.op.CompareAndPutOp? ==>
              CompareError(row.state, call.op.state, call.op.expectedRevision, call.op.expectedClarification).None?
  {
    var kept: set<string> :| (s', reply) == After(config, Snapshot(Alive(s.rows, call.now, config.ttl), kept), call);
    var alive := Alive(s.rows, call.now, config.ttl);
    AliveRows(s.rows, call.now, config.ttl);
    row := Find(alive, call.op.Id()).value;
  }

  lemma {:induction false} AppendUnique<P>(rows: seq<Entry<P>>, row: Entry<P>)
    requires UniqueIds(rows) && forall e | e in rows :: e.id != row.id
    ensures UniqueIds(rows + [row])
  {
  }

  lemma {:induction false} UniqueAfter<P>(config: Config, s: Snapshot<P>, call: Call<P>, s': Snapshot<P>, reply: Reply<P>)
    requires config.Valid() && UniqueIds(s.rows) && Step(config, s, call, s', reply)
    ensures UniqueIds(s'.rows)
  {
    var kept: set<string> :| (s', reply) == After(config, Snapshot(Alive(s.rows, call.now, config.ttl), kept), call);
    var alive := Alive(s.rows, call.now, config.ttl);
    AliveRows(s.rows, call.now, config.ttl);
    var others := Without(alive, call.op.Id());
    WithoutUnique(alive, call.op.Id());
    WithoutLacks(alive, call.op.Id());
    EvictedUnique(others, config.maxSessions, call.op.Id());
    if !reply.Failed? {
      var row := s'.rows[|s'.rows| - 1];
      AppendUnique(if call.op.PutOp? then Evicted(others, config.maxSessions) else others, row);
    }
  }

  /* ---- Preservation ---- */

  lemma {:induction false} LogAfter<P>(trace: seq<Event<P>>, e: Event<P>, id: string)
    ensures !IsOpening(e, id) && !IsAccepted(e, id) ==> LogOf(trace + [e], id) == LogOf(trace, id)
    ensures IsOpening(e, id) ==> LogOf(trace + [e], id) == Some(Log(e.origin, e.proposal, []))
    ensures IsAccepted(e, id) && LogOf(trace, id).Some? ==>
              LogOf(trace + [e], id) == Some(LogOf(trace, id).value.(
                batches := LogOf(trace, id).value.batches + [e.prepared.batch]))
  {
    assert (trace + [e])[..|trace|] == trace;
  }

  /** Accepting one more batch does not change what an earlier state reflects. */
  lemma {:induction false} ReflectsLonger<P>(adapter: Adapter<P>, log: Log<P>, batch: map<string, Value>, state: SessionState<P>, n: nat)
    requires Reflects(adapter, log, state, n)
    ensures Reflects(adapter, log.(batches := log.batches + [batch]), state, n)
  {
    assert (log.batches + [batch])[..n] == log.batches[..n];
  }

  lemma {:induction false} JobSurvives<P>(config: Config, adapter: Adapter<P>, trace: seq<Event<P>>, s: System<P>, e: Event<P>, s': System<P>, job: Job<P>)
    requires config.maxSessions > 0 && Next(config, adapter, trace, s, e, s')
    requires JobFaithful(adapter, trace, job)
    ensures JobFaithful(adapter, trace + [e], job)
  {
    var id := job.snapshot.origin.sessionId;
    LogAfter(trace, e, id);
    if IsAccepted(e, id) {
      ReflectsLonger(adapter, LogOf(trace, id).value, e.prepared.batch, job.snapshot, job.snapshot.revision);
    }
  }

  /** The commit that the store accepts extends the log by its own batch. */
  lemma {:induction false} CommitReflects<P>(adapter: Adapter<P>, log: Log<P>, current: SessionState<P>, snapshot: SessionState<P>,
                          p: Prepared<P>, wall: int)
    requires Advances(adapter, snapshot, p)
    requires Reflects(adapter, log, current, |log.batches|)
    requires Reflects(adapter, log, snapshot, snapshot.revision)
    requires current.revision == snapshot.revision
    ensures current.proposal == snapshot.proposal
    ensures Reflects(adapter, log.(batches := log.batches + [p.batch]), Touched(p.next, wall), |log.batches| + 1)
  {
    var n := |log.batches|;
    var longer := log.batches + [p.batch];
    assert longer[..n + 1] == longer && longer[..n] == log.batches && log.batches[..n] == log.batches;
    forall i | 0 <= i < n
      ensures p.next.history[i] == snapshot.history[i]
    {
      assert p.next.history[i] == p.next.history[..n][i];
    }
  }

  lemma {:induction false} OpeningFaithful<P>(adapter: Adapter<P>, trace: seq<Event<P>>, e: Event<P>, row': Entry<P>)
    requires e.OpenPut? && e.reply.Stored?
    requires OpeningState(adapter, e.origin, e.proposal, e.built).Ok?
    requires row'.state == Touched(OpeningState(adapter, e.origin, e.proposal, e.built).value, e.call.wall)
    requires row'.id == row'.state.origin.sessionId
    ensures IsOpening(e, row'.id)
    ensures RowFaithful(adapter, trace + [e], row')
  {
    StateIsStamped(adapter, e.origin, e.proposal, 0, [], adapter.resolve(e.proposal, 0, e.origin).value, e.built);
    LogAfter(trace, e, row'.id);
  }

  lemma {:induction false} CommitFaithful<P>(config: Config, adapter: Adapter<P>, trace: seq<Event<P>>, s: System<P>, e: Event<P>, s': System<P>)
    returns (row: Entry<P>)
    requires config.Valid() && Inv(adapter, trace, s) && Next(config, adapter, trace, s, e, s')
    requires e.Commit? && e.reply.Stored?
    ensures row in s.store.rows && row.id == e.prepared.next.origin.sessionId && RowFaithful(adapter, trace, row)
    ensures row.state.status == Waiting && row.state.proposal == e.snapshot.proposal
    ensures row.state.revision == e.snapshot.revision
    ensures Advances(adapter, e.snapshot, e.prepared)
    ensures forall now :: RowFaithful(adapter, trace + [e], Entry(row.id, now, Touched(e.prepared.next, e.call.wall)))
  {
    row := ReplyMeaning(config, s.store, e.call, s'.store, e.reply);
    assert RowFaithful(adapter, trace, row);
    assert JobFaithful(adapter, trace, s.jobs[e.job]);
    CommitReflects(adapter, LogOf(trace, row.id).value, row.state, e.snapshot, e.prepared, e.call.wall);
    LogAfter(trace, e, row.id);
  }

  lemma {:induction false} CarriedFaithful<P>(adapter: Adapter<P>, trace: seq<Event<P>>, e: Event<P>, row: Entry<P>, row': Entry<P>)
    requires RowFaithful(adapter, trace, row) && row.id == row'.id && SameSession(row'.state, row.state)
    requires !IsOpening(e, row.id) && !IsAccepted(e, row.id)
    ensures RowFaithful(adapter, trace + [e], row')
  {
    LogAfter(trace, e, row.id);
  }

  lemma {:induction false} StoreRowsFaithful<P>(config: Config, adapter: Adapter<P>, trace: seq<Event<P>>, s: System<P>, e: Event<P>, s': System<P>,
                             row': Entry<P>)
    requires config.Valid() && Inv(adapter, trace, s) && Next(config, adapter, trace, s, e, s')
    requires row' in s'.store.rows
    ensures RowFaithful(adapter, trace + [e], row')
  {
    if e.Compute? {
      CarriedFaithful(adapter, trace, e, row', row');
    } else {
      RowsAfter(config, s.store, e.call, s'.store, e.reply, row');
      if e.reply.Stored? && row'.id == e.call.op.Id() {
        if e.OpenPut? {
          OpeningFaithful(adapter, trace, e, row');
        } else {
          assert e.Commit?;
          var _ := CommitFaithful(config, adapter, trace, s, e, s');
        }
      } else {
        var row :| row in s.store.rows && row.id == row'.id && SameSession(row'.state, row.state);
        if e.OpenPut? {
          StateIsStamped(adapter, e.origin, e.proposal, 0, [], adapter.resolve(e.proposal, 0, e.origin).value, e.built);
          assert e.call.op.Id() == e.origin.sessionId;
        }
        CarriedFaithful(adapter, trace, e, row, row');
      }
    }
  }

  lemma {:induction false} BeginFaithful<P>(config: Config, adapter: Adapter<P>, trace: seq<Event<P>>, s: System<P>, e: Event<P>, s': System<P>)
    requires config.Valid() && Inv(adapter, trace, s) && Next(config, adapter, trace, s, e, s')
    requires e.Begin? && e.reply.Found?
    ensures JobFaithful(adapter, trace, Reading(e.reply.state, e.answer))
  {
    var row := ReplyMeaning(config, s.store, e.call, s'.store, e.reply);
    assert RowFaithful(adapter, trace, row);
  }

  lemma {:induction false} NextJobsFaithful<P>(config: Config, adapter: Adapter<P>, trace: seq<Event<P>>, s: System<P>, e: Event<P>, s': System<P>, j: nat)
    requires config.Valid() && Inv(adapter, trace, s) && Next(config, adapter, trace, s, e, s')
    requires j in s'.jobs
    ensures JobFaithful(adapter, trace + [e], s'.jobs[j])
  {
    if e.Begin? && e.reply.Found? && j == e.job {
      BeginFaithful(config, adapter, trace, s, e, s');
    } else {
      assert JobFaithful(adapter, trace, s.jobs[j]);
      if e.Compute? && j == e.job {
        PreparedIsNext(adapter, s.jobs[j].snapshot, s.jobs[j].answer, e.wall);
      }
    }
    JobSurvives(config, adapter, trace, s, e, s', s'.jobs[j]);
  }

  lemma {:induction false} NextKeepsInv<P>(config: Config, adapter: Adapter<P>, trace: seq<Event<P>>, s: System<P>, e: Event<P>, s': System<P>)
    requires config.Valid() && Inv(adapter, trace, s) && Next(config, adapter, trace, s, e, s')
    ensures Inv(adapter, trace + [e], s')
  {
    if !e.Compute? {
      UniqueAfter(config, s.store, e.call, s'.store, e.reply);
    }
    forall row' | row' in s'.store.rows
      ensures RowFaithful(adapter, trace + [e], row')
    {
      StoreRowsFaithful(config, adapter, trace, s, e, s', row');
    }
    forall j | j in s'.jobs
      ensures JobFaithful(adapter, trace + [e], s'.jobs[j])
    {
      NextJobsFaithful(config, adapter, trace, s, e, s', j);
    }
  }

  lemma {:induction false} ExecutionStep<P>(config: Config, adapter: Adapter<P>, x: Execution<P>, i: nat)
    requires IsExecution(config, adapter, x) && i < |x.trace|
    ensures Next(config, adapter, x.trace[..i], x.states[i], x.trace[i], x.states[i + 1])
  {
    assert NextAt(config, adapter, x, i);
  }

  lemma {:induction false} ExecutionInv<P>(config: Config, adapter: Adapter<P>, x: Execution<P>, k: nat)
    requires IsExecution(config, adapter, x) && k <= |x.trace|
    ensures Inv(adapter, x.trace[..k], x.states[k])
  {
    if k > 0 {
      var before := x.trace[..k - 1];
      assert x.trace[..k] == before + [x.trace[k - 1]];
      ExecutionInv(config, adapter, x, k - 1);
      ExecutionStep(config, adapter, x, k - 1);
      NextKeepsInv(config, adapter, before, x.states[k - 1], x.trace[k - 1], x.states[k]);
    }
  }

  /* ---- Theorems over every interleaving ---- */

  /** No lost update: whatever opens, expiries, evictions and rival answers were interleaved, a stored
      proposal is the fold of exactly the accepted batches over the opening proposal, its revision is
      their number and at most 3, its history steps through the revisions one by one, its origin is the
      opening origin, and its pending question or plan carries the current revision. */
  lemma {:induction false} NoLostUpdate<P>(config: Config, adapter: Adapter<P>, x: Execution<P>, k: nat, row: Entry<P>)
    requires IsExecution(config, adapter, x) && k <= |x.trace| && row in x.states[k].store.rows
    ensures var log := LogOf(x.trace[..k], row.id);
            && log.Some?
            && Fold(adapter, log.value.opening, log.value.batches) == Ok(row.state.proposal)
            && row.state.revision == |log.value.batches| == |row.state.history| <= MAX_PLAN_REVISIONS
            && row.state.origin == log.value.origin
            && (forall i | 0 <= i < |row.state.history| ::
                  row.state.history[i].fromRevision == i && row.state.history[i].toRevision == i + 1)
            && RevisionStamped(row.state)
  {
    ExecutionInv(config, adapter, x, k);
    assert RowFaithful(adapter, x.trace[..k], row);
    var batches := LogOf(x.trace[..k], row.id).value.batches;
    assert batches[..|batches|] == batches;
  }

  /** The proposal and revision a commit overwrites are the ones its answer was computed from. */
  lemma {:induction false} AcceptedCommit<P>(config: Config, adapter: Adapter<P>, x: Execution<P>, i: nat) returns (row: Entry<P>)
    requires IsExecution(config, adapter, x) && i < |x.trace| && x.trace[i].Commit? && x.trace[i].reply.Stored?
    ensures var e, log := x.trace[i], LogOf(x.trace[..i], x.trace[i].prepared.next.origin.sessionId);
            && row in x.states[i].store.rows && row.id == e.prepared.next.origin.sessionId
            && row.state.proposal == e.snapshot.proposal
            && adapter.apply(row.state.proposal, e.prepared.batch) == Ok(e.prepared.next.proposal)
            && log.Some? && row.state.revision == |log.value.batches|
            && row.state.status == Waiting
            && e.prepared.next.revision == |log.value.batches| + 1
  {
    ExecutionInv(config, adapter, x, i);
    ExecutionStep(config, adapter, x, i);
    row := CommitFaithful(config, adapter, x.trace[..i], x.states[i], x.trace[i], x.states[i + 1]);
  }

  lemma {:induction false} LogGrows<P>(config: Config, adapter: Adapter<P>, x: Execution<P>, i: nat, j: nat, id: string)
    requires IsExecution(config, adapter, x) && i <= j <= |x.trace| && LogOf(x.trace[..i], id).Some?
    ensures LogOf(x.trace[..j], id).Some?
    ensures LogOf(x.trace[..i], id).value.batches <= LogOf(x.trace[..j], id).value.batches
    decreases j - i
  {
    if i < j {
      LogGrows(config, adapter, x, i, j - 1, id);
      assert x.trace[..j] == x.trace[..j - 1] + [x.trace[j - 1]];
      LogAfter(x.trace[..j - 1], x.trace[j - 1], id);
      ExecutionStep(config, adapter, x, j - 1);
    }
  }

  /** Each revision of a session is committed at most once, and later commits carry later revisions. */
  lemma {:induction false} CommittedAtMostOnce<P>(config: Config, adapter: Adapter<P>, x: Execution<P>, i: nat, j: nat, id: string)
    requires IsExecution(config, adapter, x) && i < j < |x.trace|
    requires IsAccepted(x.trace[i], id) && IsAccepted(x.trace[j], id)
    ensures x.trace[i].prepared.next.revision < x.trace[j].prepared.next.revision
  {
    var _ := AcceptedCommit(config, adapter, x, i);
    var _ := AcceptedCommit(config, adapter, x, j);
    assert x.trace[..i + 1] == x.trace[..i] + [x.trace[i]];
    LogAfter(x.trace[..i], x.trace[i], id);
    LogGrows(config, adapter, x, i + 1, j, id);
  }

  /** An event that is not a successful put or commit changes no stored state except access times;
      in particular a failing apply, resolve, validation or compare-and-put commits nothing. */
  lemma {:induction false} OnlyStoresChangeSessions<P>(config: Config, adapter: Adapter<P>, x: Execution<P>, k: nat, row': Entry<P>)
    requires IsExecution(config, adapter, x) && k < |x.trace| && row' in x.states[k + 1].store.rows
    requires !IsOpening(x.trace[k], row'.id) && !IsAccepted(x.trace[k], row'.id)
    ensures exists row :: row in x.states[k].store.rows && row.id == row'.id && SameSession(row'.state, row.state)
  {
    ExecutionInv(config, adapter, x, k);
    var s, e, s' := x.states[k], x.trace[k], x.states[k + 1];
    ExecutionStep(config, adapter, x, k);
    if !e.Compute? {
      RowsAfter(config, s.store, e.call, s'.store, e.reply, row');
      if e.reply.Stored? && row'.id == e.call.op.Id() && e.OpenPut? {
        StateIsStamped(adapter, e.origin, e.proposal, 0, [], adapter.resolve(e.proposal, 0, e.origin).value, e.built);
      }
    } else {
      assert SameSession(row'.state, row'.state);
    }
  }

  /** Where a row of an already opened session comes from. */
  lemma {:induction false} RowBefore<P>(config: Config, adapter: Adapter<P>, x: Execution<P>, k: nat, row': Entry<P>) returns (row: Entry<P>)
    requires IsExecution(config, adapter, x) && k < |x.trace| && row' in x.states[k + 1].store.rows
    requires LogOf(x.trace[..k], row'.id).Some?
    ensures row in x.states[k].store.rows && row.id == row'.id
    ensures IsAccepted(x.trace[k], row'.id) ==> row.state.status == Waiting
    ensures !IsAccepted(x.trace[k], row'.id) ==> SameSession(row'.state, row.state)
  {
    ExecutionStep(config, adapter, x, k);
    if IsAccepted(x.trace[k], row'.id) {
      row := AcceptedCommit(config, adapter, x, k);
    } else {
      OnlyStoresChangeSessions(config, adapter, x, k, row');
      row :| row in x.states[k].store.rows && row.id == row'.id && SameSession(row'.state, row.state);
    }
  }

  /** Ready and terminal sessions are absorbing and vanished ones stay gone: once a session that was
      opened is no longer waiting (or no longer resident), every later row of it is the same state. */
  lemma {:induction false} SettledForever<P>(config: Config, adapter: Adapter<P>, x: Execution<P>, k: nat, m: nat, row': Entry<P>)
    returns (row: Entry<P>)
    requires IsExecution(config, adapter, x) && k <= m <= |x.trace|
    requires LogOf(x.trace[..k], row'.id).Some?
    requires Settled(x.states[k].store.rows, row'.id)
    requires row' in x.states[m].store.rows
    ensures row in x.states[k].store.rows && row.id == row'.id && SameSession(row'.state, row.state)
    ensures forall i | k <= i < m :: !IsAccepted(x.trace[i], row'.id)
    decreases m - k
  {
    if k == m {
      row := row';
    } else {
      LogGrows(config, adapter, x, k, m - 1, row'.id);
      var earlier := RowBefore(config, adapter, x, m - 1, row');
      row := SettledForever(config, adapter, x, k, m - 1, earlier);
      StillSettled(x.states[k].store.rows, row, earlier.state);
      assert !IsAccepted(x.trace[m - 1], row'.id);
      SameSessionTransitive(row'.state, earlier.state, row.state);
    }
  }

  lemma {:induction false} StillSettled<P>(rows: seq<Entry<P>>, row: Entry<P>, state: SessionState<P>)
    requires row in rows && Settled(rows, row.id) && SameSession(state, row.state)
    ensures state.status != Waiting
  {
  }

  lemma {:induction false} SameSessionTransitive<P>(a: SessionState<P>, b: SessionState<P>, c: SessionState<P>)
    requires SameSession(a, b) && SameSession(b, c)
    ensures SameSession(a, c)
  {
  }

  ghost predicate Settled<P>(rows: seq<Entry<P>>, id: string) {
    forall i | 0 <= i < |rows| :: rows[i].id == id ==> rows[i].state.status != Waiting
  }
}
