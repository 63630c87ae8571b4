/** Opening a session and answering its clarifications against the store. */
module SessionCoordinator {
  import opened Wrappers
  import opened Decimals
  import opened Contracts
  import opened SessionModel
  import opened SessionStore

  /* ---- Values a user may submit ---- */

  /** The characters Python's `str.strip` removes. */
  predicate IsSpace(c: char) {
    || '\t' <= c <= '\r'
    || '\U{1C}' <= c <= ' '
    || c == '\U{85}' || c == '\U{A0}' || c == '\U{1680}'
    || '\U{2000}' <= c <= '\U{200A}'
    || c == '\U{2028}' || c == '\U{2029}' || c == '\U{202F}' || c == '\U{205F}' || c == '\U{3000}'
  }

  predicate IsBlank(value: Value) {
    || value == Null
    || (value.Text? && forall i | 0 <= i < |value.s| :: IsSpace(value.s[i]))
  }

  /** Python equality identifies `True` with 1 and `False` with 0, also inside lists. */
  function Normal(value: Value): Value {
    match value
    case Flag(b) => Number(if b then 1 else 0)
    case Items(items) => Items(seq(|items|, i requires 0 <= i < |items| => Normal(items[i])))
    case _ => value
  }

  predicate IsAllowed(slot: Slot, value: Value) {
    slot.allowed == [] || exists i | 0 <= i < |slot.allowed| :: Normal(slot.allowed[i]) == Normal(value)
  }

  /* ---- From a resolver's verdict to the next state ---- */

  function SlotId(index: nat): string {
    "slot-" + Dec(index)
  }

  function SlotFor<P>(adapter: Adapter<P>, proposal: P, request: ClarificationRequest, index: nat): Result<Slot, SessionError>
    requires index < |request.patchPaths|
  {
    var path := request.patchPaths[index];
    var target := adapter.target(proposal, path);
    if target.None? then Err(Unsafe)
    else if target.value == "" then Err(Rejected)
    else Ok(Slot(SlotId(index + 1), target.value, path,
                 ChoicesFor(request.options, path)))
  }

  /** The slots for the first `n` patch paths, failing at the first unknown path. */
  function SlotsFor<P>(adapter: Adapter<P>, proposal: P, request: ClarificationRequest, n: nat): (r: Result<seq<Slot>, SessionError>)
    requires n <= |request.patchPaths|
  {
    if n == 0 then Ok([]) else
    var earlier := SlotsFor(adapter, proposal, request, n - 1);
    if earlier.Err? then earlier else
    match SlotFor(adapter, proposal, request, n - 1)
    case Err(e) => Err(e)
    case Ok(slot) => Ok(earlier.value + [slot])
  }

  function PendingFrom<P>(adapter: Adapter<P>, proposal: P, request: ClarificationRequest): Result<Pending, SessionError> {
    var paths := request.patchPaths;
    if paths == [] || request.fieldPaths != paths || !Distinct(paths) then Err(Unsafe)
    else if exists i | 0 <= i < |request.options| :: request.options[i].path !in paths then Err(Unsafe)
    else match SlotsFor(adapter, proposal, request, |paths|)
      case Err(e) => Err(e)
      case Ok(slots) => Ok(Pending(request.requestId, request.question, slots, request.planRevision))
  }

  function Validated<P>(state: SessionState<P>): Result<SessionState<P>, SessionError> {
    if WellFormed(state) then Ok(state) else Err(Rejected)
  }

  function StateFrom<P>(adapter: Adapter<P>, origin: Origin, proposal: P, revision: nat, history: seq<Record>,
                        validation: PlanValidation, wall: int): Result<SessionState<P>, SessionError>
  {
    match validation
    case PlanReady(plan) =>
      if plan.revision != revision then Err(Rejected) else
      Validated(SessionState(origin, revision, proposal, Some(plan), None, history, Ready, "", [], wall))
    case NeedsClarification(request) =>
      (match PendingFrom(adapter, proposal, request)
       case Err(e) => Err(e)
       case Ok(pending) =>
         if pending.createdRevision != revision then Err(Rejected) else
         Validated(SessionState(origin, revision, proposal, None, Some(pending), history, Waiting, "", [], wall)))
    case Unresolved(status, reasons) =>
      Validated(SessionState(origin, revision, proposal, None, None, history, Terminal, status, reasons, wall))
  }

  /* ---- Computing one answer ---- */

  /** The submitted values keyed by patch path, for the first `n` slots. */
  function ValuesByPath(slots: seq<Slot>, values: map<string, Value>, n: nat): (r: Result<map<string, Value>, SessionError>)
    requires n <= |slots| && forall i | 0 <= i < |slots| :: slots[i].slotId in values
  {
    if n == 0 then Ok(map[]) else
    var earlier := ValuesByPath(slots, values, n - 1);
    if earlier.Err? then earlier else
    var slot := slots[n - 1];
    var value := values[slot.slotId];
    if !IsAcceptable(slot, value) then Err(Rejected)
    else Ok(earlier.value[slot.patchPath := value])
  }

  /** Why a snapshot does not accept this answer at all, if it does not. */
  function AnswerError<P>(state: SessionState<P>, answer: Answer): Option<SessionError> {
    if state.status != Waiting || state.pending.None? then Some(Stale) else
    var pending := state.pending.value;
    if || answer.clarificationId != pending.clarificationId
       || answer.expectedRevision != state.revision
       || pending.createdRevision != state.revision then Some(Stale)
    else if |state.history| >= MAX_CLARIFICATION_TURNS then Some(LimitReached)
    else if state.revision >= MAX_PLAN_REVISIONS then Some(LimitReached)
    else if answer.values.Keys != SlotIds(pending) then Some(Rejected)
    else None
  }

  function SlotIds(pending: Pending): set<string> {
    set i | 0 <= i < |pending.slots| :: pending.slots[i].slotId
  }

  function RecordFor(pending: Pending, revision: nat, wall: int): Record {
    Record(pending.clarificationId, Map((s: Slot) => s.slotId, pending.slots),
           Map((s: Slot) => s.target, pending.slots), revision, revision + 1, wall)
  }

  /** An answer ready to commit: the batch it applies and the state it leads to. */
  datatype Prepared<P> = Prepared(batch: map<string, Value>, next: SessionState<P>)

  /** Everything `answer` does between reading the session and committing. */
  function Prepare<P>(adapter: Adapter<P>, state: SessionState<P>, answer: Answer, wall: int): Result<Prepared<P>, SessionError>
  {
    var error := AnswerError(state, answer);
    if error.Some? then Err(error.value) else
    var pending := state.pending.value;
    match ValuesByPath(pending.slots, answer.values, |pending.slots|)
    case Err(e) => Err(e)
    case Ok(batch) => PrepareBatch(adapter, state, pending, batch, wall)
  }

  function PrepareBatch<P>(adapter: Adapter<P>, state: SessionState<P>, pending: Pending,
                           batch: map<string, Value>, wall: int): Result<Prepared<P>, SessionError>
  {
    match adapter.apply(state.proposal, batch)
    case Err(e) => Err(e)
    case Ok(patched) =>
      match adapter.resolve(patched, state.revision + 1, state.origin)
      case Err(e) => Err(e)
      case Ok(validation) =>
        var record := RecordFor(pending, state.revision, wall);
        if !RecordAdvancesOnce(record) then Err(Rejected) else
        match StateFrom(adapter, state.origin, patched, state.revision + 1, state.history + [record], validation, wall)
        case Err(e) => Err(e)
        case Ok(next) => Ok(Prepared(batch, next))
  }

  /* ---- What the computation guarantees ---- */

  lemma {:induction false} SlotsAreThePaths<P>(adapter: Adapter<P>, proposal: P, request: ClarificationRequest, n: nat)
    requires n <= |request.patchPaths| && SlotsFor(adapter, proposal, request, n).Ok?
    ensures var slots := SlotsFor(adapter, proposal, request, n).value;
            && |slots| == n
            && forall i | 0 <= i < n ::
                 && slots[i].slotId == SlotId(i + 1)
                 && slots[i].patchPath == request.patchPaths[i]
                 && adapter.target(proposal, request.patchPaths[i]) == Some(slots[i].target)
                 && slots[i].target != ""
  {
    if n > 0 {
      SlotsAreThePaths(adapter, proposal, request, n - 1);
    }
  }

  lemma {:induction false} SlotIdInjective(i: nat, j: nat)
    requires SlotId(i) == SlotId(j)
    ensures i == j
  {
    assert Dec(i) == SlotId(i)[5..] && Dec(j) == SlotId(j)[5..];
    DecInjective(i, j);
  }

  /** A pending clarification asks one uniquely named slot per distinct allowlisted path, in order. */
  lemma {:induction false} PendingIsSafe<P>(adapter: Adapter<P>, proposal: P, request: ClarificationRequest)
    requires PendingFrom(adapter, proposal, request).Ok?
    ensures var pending := PendingFrom(adapter, proposal, request).value;
            && UniqueSlots(pending)
            && Map((s: Slot) => s.patchPath, pending.slots) == request.patchPaths
            && forall i | 0 <= i < |pending.slots| ::
                 adapter.target(proposal, pending.slots[i].patchPath) == Some(pending.slots[i].target)
  {
    var pending := PendingFrom(adapter, proposal, request).value;
    SlotsAreThePaths(adapter, proposal, request, |request.patchPaths|);
    forall i, j | 0 <= i < j < |pending.slots|
      ensures pending.slots[i].slotId != pending.slots[j].slotId
    {
      if SlotId(i + 1) == SlotId(j + 1) {
        SlotIdInjective(i + 1, j + 1);
      }
    }
  }

  /** A value is rejected when blank or outside the offered ones. */
  predicate IsAcceptable(slot: Slot, value: Value) {
    !IsBlank(value) && IsAllowed(slot, value)
  }

  function PathSet(slots: seq<Slot>): set<string> {
    set i | 0 <= i < |slots| :: slots[i].patchPath
  }

  lemma {:induction false} PathSetNext(slots: seq<Slot>, i: nat)
    requires i < |slots|
    ensures PathSet(slots[..i + 1]) == PathSet(slots[..i]) + {slots[i].patchPath}
  {
    assert forall j | 0 <= j < i :: slots[..i + 1][j] == slots[..i][j];
  }

  /** A batch exists exactly when every value is acceptable, and then binds exactly the pending paths. */
  lemma {:induction false} BatchIsTotal(slots: seq<Slot>, values: map<string, Value>, n: nat)
    requires n <= |slots| && forall i | 0 <= i < |slots| :: slots[i].slotId in values
    ensures var r := ValuesByPath(slots, values, n);
            && (r.Ok? <==> forall i | 0 <= i < n :: IsAcceptable(slots[i], values[slots[i].slotId]))
            && (r.Ok? ==> r.value.Keys == PathSet(slots[..n]))
  {
    if n > 0 {
      BatchIsTotal(slots, values, n - 1);
      PathSetNext(slots, n - 1);
    }
  }

  /** Distinct paths keep every value on the slot it was submitted for. */
  lemma {:induction false} BatchIsExact(slots: seq<Slot>, values: map<string, Value>, n: nat, k: nat)
    requires k < n <= |slots| && forall i | 0 <= i < |slots| :: slots[i].slotId in values
    requires forall i, j | 0 <= i < j < |slots| :: slots[i].patchPath != slots[j].patchPath
    requires ValuesByPath(slots, values, n).Ok?
    ensures var batch := ValuesByPath(slots, values, n).value;
            slots[k].patchPath in batch && batch[slots[k].patchPath] == values[slots[k].slotId]
  {
    if k < n - 1 {
      BatchIsExact(slots, values, n - 1, k);
    }
  }

  /** What every state the coordinator builds satisfies, besides its record contract. */
  ghost predicate RevisionStamped<P>(state: SessionState<P>) {
    && WellFormed(state)
    && (state.pending.Some? ==> state.pending.value.createdRevision == state.revision)
    && (state.plan.Some? ==> state.plan.value.revision == state.revision)
  }

  lemma {:induction false} StateIsStamped<P>(adapter: Adapter<P>, origin: Origin, proposal: P, revision: nat, history: seq<Record>,
                          validation: PlanValidation, wall: int)
    requires StateFrom(adapter, origin, proposal, revision, history, validation, wall).Ok?
    ensures var state := StateFrom(adapter, origin, proposal, revision, history, validation, wall).value;
            && RevisionStamped(state) && state.origin == origin && state.proposal == proposal
            && state.revision == revision && state.history == history
            && (state.status == Waiting ==> UniqueSlots(state.pending.value))
  {
    if validation.NeedsClarification? && PendingFrom(adapter, proposal, validation.request).Ok? {
      PendingIsSafe(adapter, proposal, validation.request);
    }
  }

  /** `p` applies its batch to the proposal of a waiting `state` and advances it by one revision,
      adding one record and keeping the origin and the earlier history. */
  ghost predicate Advances<P>(adapter: Adapter<P>, state: SessionState<P>, p: Prepared<P>) {
    && state.status == Waiting && state.revision < MAX_PLAN_REVISIONS
    && adapter.apply(state.proposal, p.batch) == Ok(p.next.proposal)
    && p.next.origin == state.origin
    && p.next.revision == state.revision + 1
    && |p.next.history| == |state.history| + 1
    && p.next.history[..|state.history|] == state.history
    && p.next.history[|state.history|].fromRevision == state.revision
    && RecordAdvancesOnce(p.next.history[|state.history|])
    && RevisionStamped(p.next)
  }

  lemma {:induction false} PreparedIsNext<P>(adapter: Adapter<P>, state: SessionState<P>, answer: Answer, wall: int)
    requires Prepare(adapter, state, answer, wall).Ok?
    ensures Advances(adapter, state, Prepare(adapter, state, answer, wall).value)
  {
    var pending := state.pending.value;
    var batch := ValuesByPath(pending.slots, answer.values, |pending.slots|).value;
    var patched := adapter.apply(state.proposal, batch).value;
    var validation := adapter.resolve(patched, state.revision + 1, state.origin).value;
    StateIsStamped(adapter, state.origin, patched, state.revision + 1,
                   state.history + [RecordFor(pending, state.revision, wall)], validation, wall);
  }

  /* ---- The coordinator ---- */

  /** The clock readings of one call, in the order they are taken. */
  datatype Clock = Clock(first: real, second: real, third: real, wall: int)

  /** `open` as store operations: nothing is stored unless the opening state is built. */
  ghost predicate OpenRun<P(!new)>(config: Config, adapter: Adapter<P>, s: Snapshot<P>, origin: Origin, proposal: P,
                             clock: Clock, s': Snapshot<P>, reply: Result<SessionState<P>, SessionError>)
    requires config.maxSessions > 0
  {
    match OpeningState(adapter, origin, proposal, clock.wall)
    case Err(e) => s' == s && reply == Err(e)
    case Ok(state) =>
      exists s1, r1 ::
        && Step(config, s, Call(clock.first, clock.wall, PutOp(state)), s1, r1)
        && match r1
           case Failed(e) => s' == s1 && reply == Err(e)
           case _ => FinalGet(config, s1, origin.sessionId, clock.second, clock.wall, s', reply)
  }

  ghost predicate FinalGet<P(!new)>(config: Config, s: Snapshot<P>, id: string, now: real, wall: int, s': Snapshot<P>,
                              reply: Result<SessionState<P>, SessionError>)
    requires config.maxSessions > 0
  {
    exists r :: Step(config, s, Call(now, wall, GetOp(id)), s', r) && reply == AsResult(r)
  }

  function AsResult<P>(reply: Reply<P>): Result<SessionState<P>, SessionError> {
    match reply
    case Found(state) => Ok(state)
    case Failed(e) => Err(e)
    case Stored => Err(NotFound)
  }

  function OpeningState<P>(adapter: Adapter<P>, origin: Origin, proposal: P, wall: int): Result<SessionState<P>, SessionError> {
    match adapter.resolve(proposal, 0, origin)
    case Err(e) => Err(e)
    case Ok(validation) => StateFrom(adapter, origin, proposal, 0, [], validation, wall)
  }

  /** `answer` as store operations: read, prepare, compare-and-put, read back. */
  ghost predicate AnswerRun<P(!new)>(config: Config, adapter: Adapter<P>, s: Snapshot<P>, id: string, answer: Answer,
                               clock: Clock, s': Snapshot<P>, reply: Result<SessionState<P>, SessionError>)
    requires config.maxSessions > 0
  {
    exists s1, r1 ::
      && Step(config, s, Call(clock.first, clock.wall, GetOp(id)), s1, r1)
      && match r1
         case Failed(e) => s' == s1 && reply == Err(e)
         case Stored => false
         case Found(state) => CommitRun(config, adapter, s1, state, id, answer, clock, s', reply)
  }

  ghost predicate CommitRun<P(!new)>(config: Config, adapter: Adapter<P>, s: Snapshot<P>, state: SessionState<P>, id: string,
                               answer: Answer, clock: Clock, s': Snapshot<P>, reply: Result<SessionState<P>, SessionError>)
    requires config.maxSessions > 0
  {
    match Prepare(adapter, state, answer, clock.wall)
    case Err(e) => s' == s && reply == Err(e)
    case Ok(prepared) => StoreRun(config, s, CommitCall(state, prepared, clock.second, clock.wall), id, clock, s', reply)
  }

  ghost predicate StoreRun<P(!new)>(config: Config, s: Snapshot<P>, commit: Call<P>, id: string, clock: Clock,
                                    s': Snapshot<P>, reply: Result<SessionState<P>, SessionError>)
    requires config.maxSessions > 0
  {
    exists s2, r2 ::
      && Step(config, s, commit, s2, r2)
      && match r2
         case Failed(e) => s' == s2 && reply == Err(e)
         case _ => FinalGet(config, s2, id, clock.third, clock.wall, s', reply)
  }

  /** The compare-and-put guarding a commit with the snapshot's revision and clarification. */
  function CommitCall<P>(snapshot: SessionState<P>, prepared: Prepared<P>, now: real, wall: int): Call<P> {
    Call(now, wall, CompareAndPutOp(prepared.next, snapshot.revision,
                                    if snapshot.pending.Some? then snapshot.pending.value.clarificationId else ""))
  }

  class Coordinator<P(!new)> {
    const adapter: Adapter<P>
    const store: Store<P>

    constructor (adapter: Adapter<P>, store: Store<P>)
      ensures this.adapter == adapter && this.store == store
    {
      this.adapter := adapter;
      this.store := store;
    }

    method Open(origin: Origin, proposal: P, clock: Clock) returns (reply: Result<SessionState<P>, SessionError>)
      requires store.Valid()
      modifies store
      ensures store.Valid()
      ensures OpenRun(store.config, adapter, old(store.View()), origin, proposal, clock, store.View(), reply)
    {
      var opening := OpeningState(adapter, origin, proposal, clock.wall);
      if opening.Err? {
        return Err(opening.error);
      }
      var put := store.Put(opening.value, clock.first, clock.wall);
      ghost var s1 := store.View();
      if put.Failed? {
        return Err(put.error);
      }
      var found := store.Get(origin.sessionId, clock.second, clock.wall);
      reply := AsResult(found);
      assert FinalGet(store.config, s1, origin.sessionId, clock.second, clock.wall, store.View(), reply);
    }

    /** Checks each submitted value in slot order and keys it by patch path. */
    method CollectValues(slots: seq<Slot>, values: map<string, Value>) returns (r: Result<map<string, Value>, SessionError>)
      requires forall i | 0 <= i < |slots| :: slots[i].slotId in values
      ensures r == ValuesByPath(slots, values, |slots|)
    {
      var byPath: map<string, Value> := map[];
      for i := 0 to |slots|
        invariant ValuesByPath(slots, values, i) == Ok(byPath)
      {
        var value := values[slots[i].slotId];
        if !IsAcceptable(slots[i], value) {
          FirstFailureStays(slots, values, i + 1, |slots|);
          return Err(Rejected);
        }
        byPath := byPath[slots[i].patchPath := value];
      }
      r := Ok(byPath);
    }

    method Answer(id: string, answer: Answer, clock: Clock) returns (reply: Result<SessionState<P>, SessionError>)
      requires store.Valid()
      modifies store
      ensures store.Valid()
      ensures AnswerRun(store.config, adapter, old(store.View()), id, answer, clock, store.View(), reply)
    {
      var found := store.Get(id, clock.first, clock.wall);
      ghost var s1 := store.View();
      if found.Failed? {
        return Err(found.error);
      }
      var state := found.state;
      reply := Commit(state, id, answer, clock);
      assert CommitRun(store.config, adapter, s1, state, id, answer, clock, store.View(), reply);
    }

    method Commit(state: SessionState<P>, id: string, answer: Answer, clock: Clock)
      returns (reply: Result<SessionState<P>, SessionError>)
      requires store.Valid()
      modifies store
      ensures store.Valid()
      ensures CommitRun(store.config, adapter, old(store.View()), state, id, answer, clock, store.View(), reply)
    {
      var error := AnswerError(state, answer);
      if error.Some? {
        return Err(error.value);
      }
      var values := CollectValues(state.pending.value.slots, answer.values);
      if values.Err? {
        return Err(values.error);
      }
      var prepared := PrepareBatch(adapter, state, state.pending.value, values.value, clock.wall);
      assert prepared == Prepare(adapter, state, answer, clock.wall);
      if prepared.Err? {
        return Err(prepared.error);
      }
      reply := StoreNext(state, state.pending.value.clarificationId, prepared.value, id, clock);
    }

    method StoreNext(state: SessionState<P>, clarificationId: string, prepared: Prepared<P>, id: string, clock: Clock)
      returns (reply: Result<SessionState<P>, SessionError>)
      requires store.Valid()
      requires state.pending.Some? && clarificationId == state.pending.value.clarificationId
      modifies store
      ensures store.Valid()
      ensures StoreRun(store.config, old(store.View()), CommitCall(state, prepared, clock.second, clock.wall),
                       id, clock, store.View(), reply)
    {
      var stored := store.CompareAndPut(prepared.next, state.revision, clarificationId, clock.second, clock.wall);
      ghost var s2 := store.View();
      if stored.Failed? {
        return Err(stored.error);
      }
      var final := store.Get(id, clock.third, clock.wall);
      reply := AsResult(final);
      assert FinalGet(store.config, s2, id, clock.third, clock.wall, store.View(), reply);
    }
  }

  lemma {:induction false} FirstFailureStays(slots: seq<Slot>, values: map<string, Value>, k: nat, n: nat)
    requires k <= n <= |slots| && forall i | 0 <= i < |slots| :: slots[i].slotId in values
    requires ValuesByPath(slots, values, k) == Err(Rejected)
    ensures ValuesByPath(slots, values, n) == Err(Rejected)
    decreases n - k
  {
    if k < n {
      FirstFailureStays(slots, values, k, n - 1);
    }
  }
}
