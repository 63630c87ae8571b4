/** Stored answers. */
module SessionHistory {
  import opened Wrappers
  import opened Contracts
  import opened SessionModel
  import opened SessionStore
  import opened SessionCoordinator
  import opened SessionProtocol
  import opened SessionAnswers

  /* ---- Snapshots of the resident state ---- */

  /** A session at the revision of a snapshot still is that snapshot, up to its access time. */
  ghost predicate Agrees<P>(job: Job<P>, row: Entry<P>) {
    row.id == job.snapshot.origin.sessionId && row.state.revision == job.snapshot.revision ==> SameSession(row.state, job.snapshot)
  }

  ghost predicate AllAgree<P>(s: System<P>) {
    forall j, row | j in s.jobs && row in s.store.rows :: Agrees(s.jobs[j], row)
  }

  /** Every question has one slot per path. */
  ghost predicate AsksOnce<P>(state: SessionState<P>) {
    state.pending.Some? ==> UniqueSlots(state.pending.value)
  }

  ghost predicate AllAskOnce<P>(s: System<P>) {
    && (forall row | row in s.store.rows :: AsksOnce(row.state))
    && (forall j | j in s.jobs :: AsksOnce(s.jobs[j].snapshot))
  }

  lemma {:induction false} SlotIdsDiffer(i: nat, j: nat)
    requires i != j
    ensures SlotId(i + 1) != SlotId(j + 1)
  {
    if SlotId(i + 1) == SlotId(j + 1) {
      SlotIdInjective(i + 1, j + 1);
    }
  }

  lemma {:induction false} AskedOnce<P>(adapter: Adapter<P>, proposal: P, request: ClarificationRequest, pending: Pending)
    requires Asks(adapter, proposal, request, pending)
    ensures UniqueSlots(pending)
  {
    var ids, paths := Map((s: Slot) => s.slotId, pending.slots), Map((s: Slot) => s.patchPath, pending.slots);
    forall i, j | 0 <= i < j < |ids|
      ensures ids[i] != ids[j] && paths[i] != paths[j]
    {
      SlotIdsDiffer(i, j);
      assert paths[i] == request.patchPaths[i] && paths[j] == request.patchPaths[j];
    }
  }

  lemma {:induction false} PresentedAsksOnce<P>(adapter: Adapter<P>, origin: Origin, proposal: P, revision: nat, history: seq<Record>,
                                                verdict: PlanValidation, wall: int, state: SessionState<P>)
    requires Presents(adapter, origin, proposal, revision, history, verdict, wall, state)
    ensures AsksOnce(state)
  {
    if verdict.NeedsClarification? {
      AskedOnce(adapter, state.proposal, verdict.request, state.pending.value);
    }
  }

  /** A row is one from before, up to its access time, or the one this event stored. */
  lemma {:induction false} RowOrigin<P>(config: Config, adapter: Adapter<P>, trace: seq<Event<P>>, s: System<P>, e: Event<P>, s': System<P>, row': Entry<P>)
    requires config.Valid() && Inv(adapter, trace, s) && Next(config, adapter, trace, s, e, s') && row' in s'.store.rows
    ensures || (exists row :: row in s.store.rows && row.id == row'.id && SameSession(row'.state, row.state))
            || ((e.OpenPut? || e.Commit?) && e.reply.Stored? && row'.id == e.call.op.Id() && row'.state == Touched(e.call.op.state, e.call.wall))
  {
    if !e.Compute? {
      RowsAfter(config, s.store, e.call, s'.store, e.reply, row');
    } else {
      assert SameSession(row'.state, row'.state);
    }
  }

  /** A new snapshot is the state of the only row of its session. */
  lemma {:induction false} BegunAgrees<P>(config: Config, adapter: Adapter<P>, trace: seq<Event<P>>, s: System<P>, e: Event<P>, s': System<P>, row': Entry<P>)
    requires config.Valid() && Inv(adapter, trace, s) && Next(config, adapter, trace, s, e, s') && row' in s'.store.rows
    requires e.Begin? && e.reply.Found?
    ensures Agrees(Reading(e.reply.state, e.answer), row')
  {
    var found := ReplyMeaning(config, s.store, e.call, s'.store, e.reply);
    RowOrigin(config, adapter, trace, s, e, s', row');
    var row :| row in s.store.rows && row.id == row'.id && SameSession(row'.state, row.state);
    assert RowFaithful(adapter, trace, found);
    if row'.id == e.reply.state.origin.sessionId {
      assert row.id == found.id;
      OnlyRow(s.store.rows, row, found);
    }
  }

  lemma {:induction false} OnlyRow<P>(rows: seq<Entry<P>>, a: Entry<P>, b: Entry<P>)
    requires UniqueIds(rows) && a in rows && b in rows && a.id == b.id
    ensures a == b
  {
  }

  /** An accepted commit leaves its session at a later revision than any snapshot of it. */
  lemma {:induction false} CommittedAgrees<P>(config: Config, adapter: Adapter<P>, trace: seq<Event<P>>, s: System<P>, e: Event<P>, s': System<P>,
                                              job: Job<P>, row': Entry<P>)
    requires config.Valid() && Inv(adapter, trace, s) && Next(config, adapter, trace, s, e, s')
    requires e.Commit? && e.reply.Stored? && JobFaithful(adapter, trace, job)
    requires row'.id == e.call.op.Id() && row'.state == Touched(e.call.op.state, e.call.wall)
    ensures Agrees(job, row')
  {
    var row := CommitFaithful(config, adapter, trace, s, e, s');
  }

  lemma {:induction false} OpenedAgrees<P>(adapter: Adapter<P>, trace: seq<Event<P>>, e: Event<P>, job: Job<P>, row': Entry<P>)
    requires e.OpenPut? && OpeningState(adapter, e.origin, e.proposal, e.built).Ok? && LogOf(trace, e.origin.sessionId).None?
    requires e.call.op == PutOp(OpeningState(adapter, e.origin, e.proposal, e.built).value)
    requires JobFaithful(adapter, trace, job) && row'.id == e.call.op.Id()
    ensures Agrees(job, row')
  {
    OpeningExactly(adapter, e.origin, e.proposal, e.built, e.call.op.state);
  }

  lemma {:induction false} JobStays<P>(config: Config, adapter: Adapter<P>, trace: seq<Event<P>>, s: System<P>, e: Event<P>, s': System<P>, j: nat)
    requires config.Valid() && Next(config, adapter, trace, s, e, s') && j in s'.jobs && !(e.Begin? && e.reply.Found? && j == e.job)
    ensures j in s.jobs && s.jobs[j].snapshot == s'.jobs[j].snapshot
  {
  }

  lemma {:induction false} AgreesNext<P>(config: Config, adapter: Adapter<P>, trace: seq<Event<P>>, s: System<P>, e: Event<P>, s': System<P>,
                                         j: nat, row': Entry<P>)
    requires config.Valid() && Inv(adapter, trace, s) && AllAgree(s) && Next(config, adapter, trace, s, e, s')
    requires j in s'.jobs && row' in s'.store.rows
    ensures Agrees(s'.jobs[j], row')
  {
    if e.Begin? && e.reply.Found? && j == e.job {
      BegunAgrees(config, adapter, trace, s, e, s', row');
    } else {
      JobStays(config, adapter, trace, s, e, s', j);
      assert JobFaithful(adapter, trace, s.jobs[j]);
      RowOrigin(config, adapter, trace, s, e, s', row');
      if row :| row in s.store.rows && row.id == row'.id && SameSession(row'.state, row.state) {
        assert Agrees(s.jobs[j], row);
      } else if e.Commit? {
        CommittedAgrees(config, adapter, trace, s, e, s', s.jobs[j], row');
      } else {
        OpenedAgrees(adapter, trace, e, s.jobs[j], row');
      }
    }
  }

  /* ---- Where a job comes from ---- */

  /** Event `k` began call `j` by reading this snapshot of its session. */
  ghost predicate BegunAt<P>(trace: seq<Event<P>>, k: nat, j: nat, snapshot: SessionState<P>) {
    && k < |trace| && trace[k].Begin? && trace[k].job == j && trace[k].reply == Found(snapshot)
    && trace[k].call.op == GetOp(snapshot.origin.sessionId)
  }

  /** Event `c` prepared call `j` from that snapshot and answer. */
  ghost predicate PreparedAt<P>(adapter: Adapter<P>, trace: seq<Event<P>>, c: nat, j: nat, snapshot: SessionState<P>, answer: Answer, prepared: Prepared<P>) {
    c < |trace| && trace[c].Compute? && trace[c].job == j && Prepare(adapter, snapshot, answer, trace[c].wall) == Ok(prepared)
  }

  ghost predicate ReadBy<P>(trace: seq<Event<P>>, k: nat, j: nat, snapshot: SessionState<P>, answer: Answer) {
    BegunAt(trace, k, j, snapshot) && trace[k].answer == answer
  }

  ghost predicate CommittedBy<P>(adapter: Adapter<P>, trace: seq<Event<P>>, k: nat, c: nat, j: nat, snapshot: SessionState<P>, prepared: Prepared<P>) {
    k < c && BegunAt(trace, k, j, snapshot) && PreparedAt(adapter, trace, c, j, snapshot, trace[k].answer, prepared)
  }

  ghost predicate JobTraced<P>(adapter: Adapter<P>, trace: seq<Event<P>>, j: nat, job: Job<P>) {
    match job
    case Reading(snapshot, answer) => exists k: nat :: ReadBy(trace, k, j, snapshot, answer)
    case Committing(snapshot, prepared) => exists k: nat, c: nat :: CommittedBy(adapter, trace, k, c, j, snapshot, prepared)
  }

  lemma {:induction false} StillTraced<P>(adapter: Adapter<P>, trace: seq<Event<P>>, e: Event<P>, j: nat, job: Job<P>)
    requires JobTraced(adapter, trace, j, job)
    ensures JobTraced(adapter, trace + [e], j, job)
  {
    match job
    case Reading(snapshot, answer) =>
      var k: nat :| ReadBy(trace, k, j, snapshot, answer);
      assert ReadBy(trace + [e], k, j, snapshot, answer);
    case Committing(snapshot, prepared) =>
      var k: nat, c: nat :| CommittedBy(adapter, trace, k, c, j, snapshot, prepared);
      assert CommittedBy(adapter, trace + [e], k, c, j, snapshot, prepared);
  }

  lemma {:induction false} BegunHere<P>(config: Config, adapter: Adapter<P>, trace: seq<Event<P>>, s: System<P>, e: Event<P>, s': System<P>)
    requires config.Valid() && Inv(adapter, trace, s) && Next(config, adapter, trace, s, e, s') && e.Begin? && e.reply.Found?
    ensures ReadBy(trace + [e], |trace|, e.job, e.reply.state, e.answer)
  {
    var row := ReplyMeaning(config, s.store, e.call, s'.store, e.reply);
    assert RowFaithful(adapter, trace, row);
  }

  lemma {:induction false} TracedNext<P>(config: Config, adapter: Adapter<P>, trace: seq<Event<P>>, s: System<P>, e: Event<P>, s': System<P>, j: nat)
    requires config.Valid() && Inv(adapter, trace, s) && Next(config, adapter, trace, s, e, s') && j in s'.jobs
    requires forall i | i in s.jobs :: JobTraced(adapter, trace, i, s.jobs[i])
    ensures JobTraced(adapter, trace + [e], j, s'.jobs[j])
  {
    var longer, n := trace + [e], |trace|;
    assert longer[n] == e;
    if e.Begin? && e.reply.Found? && j == e.job {
      BegunHere(config, adapter, trace, s, e, s');
    } else if e.Compute? && j == e.job {
      var k: nat :| ReadBy(trace, k, j, s.jobs[j].snapshot, s.jobs[j].answer);
      assert longer[k] == trace[k];
      assert CommittedBy(adapter, longer, k, n, j, s.jobs[j].snapshot, s'.jobs[j].prepared);
    } else {
      StillTraced(adapter, trace, e, j, s.jobs[j]);
    }
  }

  /* ---- Questions ---- */

  lemma {:induction false} AsksOnceNext<P>(config: Config, adapter: Adapter<P>, trace: seq<Event<P>>, s: System<P>, e: Event<P>, s': System<P>)
    requires config.Valid() && Inv(adapter, trace, s) && Next(config, adapter, trace, s, e, s') && AllAskOnce(s)
    requires forall i | i in s.jobs :: JobTraced(adapter, trace, i, s.jobs[i])
    ensures AllAskOnce(s')
  {
    forall row' | row' in s'.store.rows
      ensures AsksOnce(row'.state)
    {
      RowOrigin(config, adapter, trace, s, e, s', row');
      if row :| row in s.store.rows && row.id == row'.id && SameSession(row'.state, row.state) {
        assert AsksOnce(row.state);
      } else if e.Commit? {
        NextAsksOnce(adapter, trace, e.job, e.snapshot, e.prepared);
      } else {
        OpeningExactly(adapter, e.origin, e.proposal, e.built, e.call.op.state);
        PresentedAsksOnce(adapter, e.origin, e.proposal, 0, [], adapter.resolve(e.proposal, 0, e.origin).value, e.built, e.call.op.state);
      }
    }
    forall j | j in s'.jobs
      ensures AsksOnce(s'.jobs[j].snapshot)
    {
      if e.Begin? && e.reply.Found? && j == e.job {
        var row := ReplyMeaning(config, s.store, e.call, s'.store, e.reply);
        assert AsksOnce(row.state);
      } else {
        assert AsksOnce(s.jobs[j].snapshot);
      }
    }
  }

  lemma {:induction false} NextAsksOnce<P>(adapter: Adapter<P>, trace: seq<Event<P>>, j: nat, snapshot: SessionState<P>, prepared: Prepared<P>)
    requires JobTraced(adapter, trace, j, Committing(snapshot, prepared)) && AsksOnce(snapshot)
    ensures AsksOnce(prepared.next)
  {
    var k: nat, c: nat :| CommittedBy(adapter, trace, k, c, j, snapshot, prepared);
    var answer, wall := trace[k].answer, trace[c].wall;
    PreparedExactly(adapter, snapshot, answer, wall, prepared);
    PresentedAsksOnce(adapter, snapshot.origin, prepared.next.proposal, snapshot.revision + 1,
                      snapshot.history + [RecordOf(snapshot.pending.value, snapshot.revision, wall)],
                      adapter.resolve(prepared.next.proposal, snapshot.revision + 1, snapshot.origin).value, wall, prepared.next);
  }

  /* ---- Over every execution ---- */

  ghost predicate Remembers<P>(adapter: Adapter<P>, trace: seq<Event<P>>, s: System<P>) {
    AllAgree(s) && AllAskOnce(s) && forall j | j in s.jobs :: JobTraced(adapter, trace, j, s.jobs[j])
  }

  lemma {:induction false} AllAgreeNext<P>(config: Config, adapter: Adapter<P>, trace: seq<Event<P>>, s: System<P>, e: Event<P>, s': System<P>)
    requires config.Valid() && Inv(adapter, trace, s) && AllAgree(s) && Next(config, adapter, trace, s, e, s')
    ensures AllAgree(s')
  {
    forall j, row | j in s'.jobs && row in s'.store.rows
      ensures Agrees(s'.jobs[j], row)
    {
      AgreesNext(config, adapter, trace, s, e, s', j, row);
    }
  }

  lemma {:induction false} RemembersNext<P>(config: Config, adapter: Adapter<P>, trace: seq<Event<P>>, s: System<P>, e: Event<P>, s': System<P>)
    requires config.Valid() && Inv(adapter, trace, s) && Remembers(adapter, trace, s) && Next(config, adapter, trace, s, e, s')
    ensures Remembers(adapter, trace + [e], s')
  {
    AllAgreeNext(config, adapter, trace, s, e, s');
    AsksOnceNext(config, adapter, trace, s, e, s');
    forall j | j in s'.jobs
      ensures JobTraced(adapter, trace + [e], j, s'.jobs[j])
    {
      TracedNext(config, adapter, trace, s, e, s', j);
    }
  }

  lemma {:induction false} ExecutionRemembers<P>(config: Config, adapter: Adapter<P>, x: Execution<P>, n: nat)
    requires IsExecution(config, adapter, x) && n <= |x.trace|
    ensures Remembers(adapter, x.trace[..n], x.states[n])
  {
    if n > 0 {
      ExecutionRemembers(config, adapter, x, n - 1);
      ExecutionInv(config, adapter, x, n - 1);
      ExecutionStep(config, adapter, x, n - 1);
      assert x.trace[..n] == x.trace[..n - 1] + [x.trace[n - 1]];
      RemembersNext(config, adapter, x.trace[..n - 1], x.states[n - 1], x.trace[n - 1], x.states[n]);
    }
  }

  lemma {:induction false} FollowsSame<P>(adapter: Adapter<P>, a: SessionState<P>, b: SessionState<P>, answer: Answer, wall: int, p: Prepared<P>)
    requires SameSession(a, b) && Follows(adapter, b, answer, wall, p)
    ensures Follows(adapter, a, answer, wall, p)
  {
  }

  lemma {:induction false} CommitFollows<P>(adapter: Adapter<P>, trace: seq<Event<P>>, j: nat, job: Job<P>, row: Entry<P>)
    returns (k: nat, c: nat)
    requires JobTraced(adapter, trace, j, job) && job.Committing? && AsksOnce(job.snapshot) && SameSession(row.state, job.snapshot)
    ensures k < c && BegunAt(trace, k, j, job.snapshot) && c < |trace| && trace[c].Compute? && trace[c].job == j
    ensures Follows(adapter, row.state, trace[k].answer, trace[c].wall, job.prepared)
  {
    k, c :| CommittedBy(adapter, trace, k, c, j, job.snapshot, job.prepared);
    PreparedExactly(adapter, job.snapshot, trace[k].answer, trace[c].wall, job.prepared);
    FollowsSame(adapter, row.state, job.snapshot, trace[k].answer, trace[c].wall, job.prepared);
  }

  /** What the commit at event `i` put into a session that held `row`: call `begin` brought the answer, call `compute` prepared
      it, and it follows from the state that is resident at the commit. */
  ghost predicate AnswersTo<P>(adapter: Adapter<P>, x: Execution<P>, i: nat, row: Entry<P>, k: nat, c: nat)
    requires i < |x.trace| && x.trace[i].Commit?
  {
    && k < c < i && x.trace[k].Begin? && x.trace[k].job == x.trace[i].job && x.trace[k].call.op == GetOp(row.id)
    && x.trace[c].Compute? && x.trace[c].job == x.trace[i].job
    && Follows(adapter, row.state, x.trace[k].answer, x.trace[c].wall, x.trace[i].prepared)
  }

  /** Over every interleaving: an accepted answer named the clarification and the revision resident when it was stored, had
      a takable value for each of that question's slots and no other, and each value went to its own slot's path. */
  lemma {:induction false} AcceptedAnswers<P>(config: Config, adapter: Adapter<P>, x: Execution<P>, i: nat)
    requires IsExecution(config, adapter, x) && i < |x.trace| && x.trace[i].Commit? && x.trace[i].reply.Stored?
    ensures exists row, k, c ::
              row in x.states[i].store.rows && row.id == x.trace[i].prepared.next.origin.sessionId && AnswersTo(adapter, x, i, row, k, c)
  {
    var trace, s, e := x.trace[..i], x.states[i], x.trace[i];
    ExecutionRemembers(config, adapter, x, i);
    ExecutionInv(config, adapter, x, i);
    ExecutionStep(config, adapter, x, i);
    var row := CommitFaithful(config, adapter, trace, s, e, x.states[i + 1]);
    assert Agrees(s.jobs[e.job], row);
    var k, c := CommitFollows(adapter, trace, e.job, s.jobs[e.job], row);
    assert trace[k] == x.trace[k] && trace[c] == x.trace[c];
    assert AnswersTo(adapter, x, i, row, k, c);
  }

  /* ---- Which answers are refused ---- */

  /** The outcome of event `i`, begun at event `k` from this snapshot: by the first condition that fails, or it goes on. Nothing
      is stored either way. */
  ghost predicate ComputedFrom<P>(adapter: Adapter<P>, x: Execution<P>, i: nat, k: nat, snapshot: SessionState<P>, p: Prepared<P>)
    requires i < |x.trace| && x.trace[i].Compute? && i + 1 < |x.states|
  {
    && k < i && BegunAt(x.trace[..i], k, x.trace[i].job, snapshot)
    && var answer, wall := x.trace[k].answer, x.trace[i].wall;
       var outcome := Prepare(adapter, snapshot, answer, wall);
       && (!IsCurrent(snapshot, answer) ==> outcome == Err(Stale))
       && (IsCurrent(snapshot, answer) && !HasTurnsLeft(snapshot) ==> outcome == Err(LimitReached))
       && (IsCurrent(snapshot, answer) && HasTurnsLeft(snapshot) && !FillsSlots(snapshot, answer) ==> outcome == Err(Rejected))
       && (x.trace[i].job in x.states[i + 1].jobs <==> outcome.Ok?)
       && (x.trace[i].job in x.states[i + 1].jobs && x.states[i + 1].jobs[x.trace[i].job] == Committing(snapshot, p) <==>
             Follows(adapter, snapshot, answer, wall, p))
       && x.states[i + 1].store == x.states[i].store
  }

  /** Over every interleaving: an answer goes on to be committed as `p` exactly when `p` follows from it and from what its call
      read; any other is refused, by the first condition it does not meet. */
  lemma {:induction false} RefusedAnswers<P>(config: Config, adapter: Adapter<P>, x: Execution<P>, i: nat, p: Prepared<P>)
    requires IsExecution(config, adapter, x) && i < |x.trace| && x.trace[i].Compute?
    ensures exists k: nat, snapshot :: ComputedFrom(adapter, x, i, k, snapshot, p)
  {
    var trace, s, e := x.trace[..i], x.states[i], x.trace[i];
    ExecutionRemembers(config, adapter, x, i);
    ExecutionStep(config, adapter, x, i);
    var snapshot, answer := s.jobs[e.job].snapshot, s.jobs[e.job].answer;
    assert JobTraced(adapter, trace, e.job, s.jobs[e.job]);
    var k: nat :| ReadBy(trace, k, e.job, snapshot, answer);
    assert trace[k] == x.trace[k] && AsksOnce(snapshot);
    RefusedBeforeValues(adapter, snapshot, answer, e.wall);
    PreparedExactly(adapter, snapshot, answer, e.wall, p);
    assert ComputedFrom(adapter, x, i, k, snapshot, p);
  }

  /** The row a commit finds: still there, and still waiting for the answer that was computed. */
  ghost predicate StillAsked<P>(config: Config, x: Execution<P>, i: nat, row: Entry<P>)
    requires i < |x.trace| && x.trace[i].Commit? && i < |x.states|
  {
    var e := x.trace[i];
    && Holds(config, x, i, row) && row.state.status == Waiting && row.state.revision == e.snapshot.revision
    && row.state.pending.Some? && e.snapshot.pending.Some?
    && row.state.pending.value.clarificationId == e.snapshot.pending.value.clarificationId
  }

  ghost predicate Holds<P>(config: Config, x: Execution<P>, i: nat, row: Entry<P>)
    requires i < |x.trace| && x.trace[i].Commit? && i < |x.states|
  {
    && row in x.states[i].store.rows && row.id == x.trace[i].snapshot.origin.sessionId
    && IsAlive(row, x.trace[i].call.now, config.ttl)
  }

  lemma {:induction false} AliveIn<P>(rows: seq<Entry<P>>, row: Entry<P>, now: real, ttl: real)
    ensures row in Alive(rows, now, ttl) <==> row in rows && IsAlive(row, now, ttl)
  {
    FilterMember((e: Entry<P>) => IsAlive(e, now, ttl), rows, row);
  }

  lemma {:induction false} CompareReply<P>(config: Config, s: Snapshot<P>, call: Call<P>, s': Snapshot<P>, reply: Reply<P>, row: Entry<P>)
    requires config.Valid() && UniqueIds(s.rows) && call.op.CompareAndPutOp? && Step(config, s, call, s', reply)
    requires row in s.rows && row.id == call.op.Id() && IsAlive(row, call.now, config.ttl)
    ensures var error := CompareError(row.state, call.op.state, call.op.expectedRevision, call.op.expectedClarification);
            reply == if error.None? then Stored else Failed(error.value)
  {
    AliveIn(s.rows, row, call.now, config.ttl);
    AliveRows(s.rows, call.now, config.ttl);
    FindMember(Alive(s.rows, call.now, config.ttl), row);
  }

  /** What is committed goes on from what was read. */
  lemma {:induction false} CommitGoesOn<P>(config: Config, adapter: Adapter<P>, x: Execution<P>, i: nat, row: Entry<P>)
    requires IsExecution(config, adapter, x) && i < |x.trace| && x.trace[i].Commit? && Holds(config, x, i, row)
    ensures var e := x.trace[i];
            && UniqueIds(x.states[i].store.rows) && Step(config, x.states[i].store, e.call, x.states[i + 1].store, e.reply)
            && e.call == CommitCall(e.snapshot, e.prepared, e.call.now, e.call.wall)
            && e.snapshot.pending.Some? && e.prepared.next.origin == e.snapshot.origin == row.state.origin
            && e.prepared.next.revision == e.snapshot.revision + 1
  {
    var trace, s, e := x.trace[..i], x.states[i], x.trace[i];
    ExecutionInv(config, adapter, x, i);
    ExecutionRemembers(config, adapter, x, i);
    ExecutionStep(config, adapter, x, i);
    assert JobFaithful(adapter, trace, s.jobs[e.job]) && RowFaithful(adapter, trace, row);
    assert JobTraced(adapter, trace, e.job, s.jobs[e.job]);
    var k: nat, c: nat :| CommittedBy(adapter, trace, k, c, e.job, e.snapshot, e.prepared);
    assert AsksOnce(e.snapshot);
    PreparedExactly(adapter, e.snapshot, trace[k].answer, trace[c].wall, e.prepared);
  }

  /** Over every interleaving: a commit is accepted exactly when its session is still there and waits for the same answer at the
      same revision; if it is there otherwise the answer is stale. */
  lemma {:induction false} RefusedCommits<P>(config: Config, adapter: Adapter<P>, x: Execution<P>, i: nat, row: Entry<P>)
    requires IsExecution(config, adapter, x) && i < |x.trace| && x.trace[i].Commit? && Holds(config, x, i, row)
    ensures x.trace[i].reply == if StillAsked(config, x, i, row) then Stored else Failed(Stale)
  {
    var e := x.trace[i];
    CommitGoesOn(config, adapter, x, i, row);
    CompareReply(config, x.states[i].store, e.call, x.states[i + 1].store, e.reply, row);
  }
}
