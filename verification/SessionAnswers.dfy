/** Accepted answers. */
module SessionAnswers {
  import opened Wrappers
  import opened Contracts
  import opened SessionModel
  import opened SessionStore
  import opened SessionCoordinator

  /* ---- Values ---- */

  /** The code points of white space. */
  const SPACES: set<int> := {
    9, 10, 11, 12, 13, 28, 29, 30, 31, 32, 0x85, 0xA0, 0x1680, 0x2000, 0x2001, 0x2002, 0x2003, 0x2004, 0x2005,
    0x2006, 0x2007, 0x2008, 0x2009, 0x200A, 0x2028, 0x2029, 0x202F, 0x205F, 0x3000}

  lemma {:induction false} SpacesAreThese(c: char)
    ensures IsSpace(c) <==> c as int in SPACES
  {
  }

  /** Python's `lstrip`, `rstrip` and `strip`. */
  function LeftStripped(s: string): string {
    if s != "" && s[0] as int in SPACES then LeftStripped(s[1..]) else s
  }

  function RightStripped(s: string): string {
    if s != "" && s[|s| - 1] as int in SPACES then RightStripped(s[..|s| - 1]) else s
  }

  function Strip(s: string): string {
    RightStripped(LeftStripped(s))
  }

  /** Python equality of submitted values: truth values count as 0 and 1, lists compare item by item. */
  predicate Equal(a: Value, b: Value) {
    match a
    case Flag(x) => b == a || b == Number(if x then 1 else 0)
    case Number(n) => b == a || (b.Flag? && n == if b.b then 1 else 0)
    case Items(items) => b.Items? && |b.items| == |items| && forall i | 0 <= i < |items| :: Equal(items[i], b.items[i])
    case _ => b == a
  }

  /** A slot takes any value that is there, is not only white space, and equals an offered one if any are offered. */
  ghost predicate Takes(slot: Slot, value: Value) {
    && value != Null && (value.Text? ==> Strip(value.s) != "")
    && (slot.allowed != [] ==> exists i :: 0 <= i < |slot.allowed| && Equal(value, slot.allowed[i]))
  }

  lemma {:induction false} LeftIsEmpty(s: string)
    ensures LeftStripped(s) == "" <==> forall i | 0 <= i < |s| :: IsSpace(s[i])
    ensures LeftStripped(s) != "" ==> !IsSpace(LeftStripped(s)[0])
  {
    if s != "" {
      SpacesAreThese(s[0]);
      LeftIsEmpty(s[1..]);
      assert forall i | 0 < i < |s| :: s[i] == s[1..][i - 1];
    }
  }

  lemma {:induction false} RightKeepsFirst(s: string)
    requires s != "" && !IsSpace(s[0])
    ensures RightStripped(s) != ""
  {
    SpacesAreThese(s[|s| - 1]);
    if IsSpace(s[|s| - 1]) {
      RightKeepsFirst(s[..|s| - 1]);
    }
  }

  lemma {:induction false} BlankIsStripped(value: Value)
    ensures IsBlank(value) <==> value == Null || (value.Text? && Strip(value.s) == "")
  {
    if value.Text? {
      LeftIsEmpty(value.s);
      if LeftStripped(value.s) != "" {
        RightKeepsFirst(LeftStripped(value.s));
      }
    }
  }

  lemma {:induction false} EqualIsNormal(a: Value, b: Value)
    ensures Equal(a, b) <==> Normal(a) == Normal(b)
    decreases a
  {
    assert a.Items? ==> Normal(a).Items? && |Normal(a).items| == |a.items|;
    assert b.Items? ==> Normal(b).Items? && |Normal(b).items| == |b.items|;
    if a.Items? && b.Items? && |a.items| == |b.items| {
      forall i | 0 <= i < |a.items|
        ensures Equal(a.items[i], b.items[i]) <==> Normal(a.items[i]) == Normal(b.items[i])
      {
        EqualIsNormal(a.items[i], b.items[i]);
      }
      ItemsAreNormal(a.items, b.items);
    }
  }

  lemma {:induction false} ItemsAreNormal(a: seq<Value>, b: seq<Value>)
    requires |a| == |b|
    ensures Normal(Items(a)) == Normal(Items(b)) <==> forall i | 0 <= i < |a| :: Normal(a[i]) == Normal(b[i])
  {
    var x, y := Normal(Items(a)).items, Normal(Items(b)).items;
    assert forall i | 0 <= i < |a| :: x[i] == Normal(a[i]) && y[i] == Normal(b[i]);
    assert x == y <==> forall i | 0 <= i < |a| :: x[i] == y[i];
  }

  lemma {:induction false} TakesAcceptable(slot: Slot, value: Value)
    ensures IsAcceptable(slot, value) <==> Takes(slot, value)
  {
    BlankIsStripped(value);
    forall i | 0 <= i < |slot.allowed|
      ensures Equal(value, slot.allowed[i]) <==> Normal(slot.allowed[i]) == Normal(value)
    {
      EqualIsNormal(value, slot.allowed[i]);
    }
  }

  /* ---- Which answers are current ---- */

  /** The answer is to the question the session is asking now. */
  ghost predicate IsCurrent<P>(state: SessionState<P>, answer: Answer) {
    && state.status == Waiting && state.pending.Some?
    && answer.clarificationId == state.pending.value.clarificationId
    && answer.expectedRevision == state.revision && state.pending.value.createdRevision == state.revision
  }

  ghost predicate HasTurnsLeft<P>(state: SessionState<P>) {
    |state.history| < 3 && state.revision < 3
  }

  /** It has a value for every slot and nothing else. */
  ghost predicate FillsSlots<P>(state: SessionState<P>, answer: Answer) {
    && state.pending.Some?
    && var slots := state.pending.value.slots;
       forall id :: id in answer.values <==> exists k :: 0 <= k < |slots| && slots[k].slotId == id
  }

  lemma {:induction false} FillsExactly<P>(state: SessionState<P>, answer: Answer)
    requires state.pending.Some?
    ensures FillsSlots(state, answer) <==> answer.values.Keys == SlotIds(state.pending.value)
  {
    var slots := state.pending.value.slots;
    assert forall id :: id in SlotIds(state.pending.value) <==> exists k :: 0 <= k < |slots| && slots[k].slotId == id;
  }

  /** Exactly which answers are refused before their values are looked at, and why: the first of these that fails
      names the error. */
  lemma {:induction false} RefusedBeforeValues<P>(adapter: Adapter<P>, state: SessionState<P>, answer: Answer, wall: int)
    ensures !IsCurrent(state, answer) ==> Prepare(adapter, state, answer, wall) == Err(Stale)
    ensures IsCurrent(state, answer) && !HasTurnsLeft(state) ==> Prepare(adapter, state, answer, wall) == Err(LimitReached)
    ensures IsCurrent(state, answer) && HasTurnsLeft(state) && !FillsSlots(state, answer) ==>
              Prepare(adapter, state, answer, wall) == Err(Rejected)
  {
    if state.pending.Some? {
      FillsExactly(state, answer);
    }
  }

  /* ---- What an accepted answer becomes ---- */

  /** Every path gets the value submitted for its own slot, and all are takable. */
  ghost predicate Binds(slots: seq<Slot>, values: map<string, Value>, batch: map<string, Value>) {
    && (forall k | 0 <= k < |slots| ::
          && slots[k].slotId in values && Takes(slots[k], values[slots[k].slotId])
          && slots[k].patchPath in batch && batch[slots[k].patchPath] == values[slots[k].slotId])
    && forall path | path in batch :: exists k :: 0 <= k < |slots| && slots[k].patchPath == path
  }

  /** A verdict shown as a state: a plan of the state's revision, a question, or a typed end. */
  ghost predicate Shows<P>(adapter: Adapter<P>, verdict: PlanValidation, state: SessionState<P>) {
    match verdict
    case PlanReady(plan) =>
      && state.status == Ready && state.plan == Some(plan) && plan.revision == state.revision
      && state.pending.None? && state.terminalStatus == "" && state.terminalReasons == []
    case NeedsClarification(request) =>
      && state.status == Waiting && state.pending.Some? && request.planRevision == state.revision
      && Asks(adapter, state.proposal, request, state.pending.value)
      && state.plan.None? && state.terminalStatus == "" && state.terminalReasons == []
    case Unresolved(status, reasons) =>
      && state.status == Terminal && state.terminalStatus == status != "" && state.terminalReasons == reasons != []
      && state.plan.None? && state.pending.None?
  }

  /** A request shown as a question: one slot per path, in order, with the target the schema gives the path and the
      values offered for it. Every path is asked once, is patchable, and only asked paths have offers. */
  ghost predicate Asks<P>(adapter: Adapter<P>, proposal: P, request: ClarificationRequest, pending: Pending) {
    var paths := request.patchPaths;
    && pending.clarificationId == request.requestId && pending.question == request.question
    && pending.createdRevision == request.planRevision
    && paths != [] && request.fieldPaths == paths && Distinct(paths)
    && (forall i | 0 <= i < |request.options| :: request.options[i].path in paths)
    && |pending.slots| == |paths|
    && forall k | 0 <= k < |paths| ::
         && pending.slots[k].slotId == SlotId(k + 1) && pending.slots[k].patchPath == paths[k]
         && pending.slots[k].target != "" && adapter.target(proposal, paths[k]) == Some(pending.slots[k].target)
         && Offers(request.options, paths[k], pending.slots[k].allowed)
  }

  /** The last entry for a path tells what is offered; without one nothing is. */
  ghost predicate Offers(options: seq<Choices>, path: string, values: seq<Value>) {
    (values == [] && forall i | 0 <= i < |options| :: options[i].path != path)
    || exists i :: 0 <= i < |options| && options[i] == Choices(path, values) && forall j | i < j < |options| :: options[j].path != path
  }

  lemma {:induction false} OffersExactly(options: seq<Choices>, path: string, values: seq<Value>)
    ensures ChoicesFor(options, path) == values <==> Offers(options, path, values)
  {
    if options != [] {
      var init, last := options[..|options| - 1], options[|options| - 1];
      OffersExactly(init, path, values);
      assert forall i | 0 <= i < |init| :: init[i] == options[i];
      assert last.path == path ==> (last == Choices(path, values) <==> last.values == values);
    }
  }

  /** Slot `k` as the request has it. */
  ghost predicate SlotAsks<P>(adapter: Adapter<P>, proposal: P, request: ClarificationRequest, slot: Slot, k: nat)
    requires k < |request.patchPaths|
  {
    var path := request.patchPaths[k];
    && slot.slotId == SlotId(k + 1) && slot.patchPath == path
    && slot.target != "" && adapter.target(proposal, path) == Some(slot.target) && Offers(request.options, path, slot.allowed)
  }

  lemma {:induction false} SlotExactly<P>(adapter: Adapter<P>, proposal: P, request: ClarificationRequest, k: nat, slot: Slot)
    requires k < |request.patchPaths|
    ensures SlotFor(adapter, proposal, request, k) == Ok(slot) <==> SlotAsks(adapter, proposal, request, slot, k)
  {
    OffersExactly(request.options, request.patchPaths[k], slot.allowed);
  }

  lemma {:induction false} SlotsExactly<P>(adapter: Adapter<P>, proposal: P, request: ClarificationRequest, n: nat, slots: seq<Slot>)
    requires n <= |request.patchPaths|
    ensures SlotsFor(adapter, proposal, request, n) == Ok(slots) <==>
            |slots| == n && forall k | 0 <= k < n :: SlotAsks(adapter, proposal, request, slots[k], k)
  {
    if n > 0 {
      if |slots| == n {
        SlotsExactly(adapter, proposal, request, n - 1, slots[..n - 1]);
        SlotExactly(adapter, proposal, request, n - 1, slots[n - 1]);
        assert slots == slots[..n - 1] + [slots[n - 1]];
      } else {
        SlotsAreCounted(adapter, proposal, request, n);
      }
    }
  }

  lemma {:induction false} SlotsAreCounted<P>(adapter: Adapter<P>, proposal: P, request: ClarificationRequest, n: nat)
    requires n <= |request.patchPaths|
    ensures SlotsFor(adapter, proposal, request, n).Ok? ==> |SlotsFor(adapter, proposal, request, n).value| == n
  {
    if n > 0 {
      SlotsAreCounted(adapter, proposal, request, n - 1);
    }
  }

  /** A request becomes a question exactly when it is one, and then that one. */
  lemma {:induction false} PendingExactly<P>(adapter: Adapter<P>, proposal: P, request: ClarificationRequest, pending: Pending)
    ensures PendingFrom(adapter, proposal, request) == Ok(pending) <==> Asks(adapter, proposal, request, pending)
  {
    SlotsExactly(adapter, proposal, request, |request.patchPaths|, pending.slots);
    assert |pending.slots| == |request.patchPaths| ==>
      ((forall k | 0 <= k < |pending.slots| :: SlotAsks(adapter, proposal, request, pending.slots[k], k)) <==>
       forall k | 0 <= k < |request.patchPaths| ::
         && pending.slots[k].slotId == SlotId(k + 1) && pending.slots[k].patchPath == request.patchPaths[k]
         && pending.slots[k].target != "" && adapter.target(proposal, request.patchPaths[k]) == Some(pending.slots[k].target)
         && Offers(request.options, request.patchPaths[k], pending.slots[k].allowed));
  }

  /** `state` is this session at this point, showing the verdict. */
  ghost predicate Presents<P>(adapter: Adapter<P>, origin: Origin, proposal: P, revision: nat, history: seq<Record>,
                              verdict: PlanValidation, wall: int, state: SessionState<P>) {
    && state.origin == origin && state.proposal == proposal && state.revision == revision <= 3
    && state.history == history && |history| <= 3 && state.lastAccessed == wall
    && Shows(adapter, verdict, state)
  }

  /** A state is built exactly when a verdict can be shown as one, and then that one. */
  lemma {:induction false} StateExactly<P>(adapter: Adapter<P>, origin: Origin, proposal: P, revision: nat, history: seq<Record>,
                                           verdict: PlanValidation, wall: int, state: SessionState<P>)
    ensures StateFrom(adapter, origin, proposal, revision, history, verdict, wall) == Ok(state) <==>
            Presents(adapter, origin, proposal, revision, history, verdict, wall, state)
  {
    if verdict.NeedsClarification? {
      var built := PendingFrom(adapter, proposal, verdict.request);
      if state.pending.Some? {
        PendingExactly(adapter, proposal, verdict.request, state.pending.value);
      }
      if built.Ok? {
        PendingExactly(adapter, proposal, verdict.request, built.value);
      }
    }
  }

  /** An opening state is the verdict on the proposal shown at revision 0. */
  lemma {:induction false} OpeningExactly<P>(adapter: Adapter<P>, origin: Origin, proposal: P, wall: int, state: SessionState<P>)
    ensures OpeningState(adapter, origin, proposal, wall) == Ok(state) <==>
            var verdict := adapter.resolve(proposal, 0, origin);
            verdict.Ok? && Presents(adapter, origin, proposal, 0, [], verdict.value, wall, state)
  {
    var verdict := adapter.resolve(proposal, 0, origin);
    if verdict.Ok? {
      StateExactly(adapter, origin, proposal, 0, [], verdict.value, wall, state);
    }
  }

  /* ---- The whole answer ---- */

  ghost predicate DistinctPaths(slots: seq<Slot>) {
    forall i, j | 0 <= i < j < |slots| :: slots[i].patchPath != slots[j].patchPath
  }

  ghost predicate AllGiven(slots: seq<Slot>, values: map<string, Value>) {
    forall i | 0 <= i < |slots| :: slots[i].slotId in values
  }

  lemma {:induction false} BatchBinds(slots: seq<Slot>, values: map<string, Value>)
    requires AllGiven(slots, values) && DistinctPaths(slots) && ValuesByPath(slots, values, |slots|).Ok?
    ensures Binds(slots, values, ValuesByPath(slots, values, |slots|).value)
  {
    var batch := ValuesByPath(slots, values, |slots|).value;
    BatchIsTotal(slots, values, |slots|);
    assert slots[..|slots|] == slots;
    forall k | 0 <= k < |slots|
      ensures Takes(slots[k], values[slots[k].slotId])
      ensures slots[k].patchPath in batch && batch[slots[k].patchPath] == values[slots[k].slotId]
    {
      TakesAcceptable(slots[k], values[slots[k].slotId]);
      BatchIsExact(slots, values, |slots|, k);
    }
    forall path | path in batch
      ensures exists k :: 0 <= k < |slots| && slots[k].patchPath == path
    {
      assert path in PathSet(slots);
    }
  }

  lemma {:induction false} BindsBuild(slots: seq<Slot>, values: map<string, Value>, batch: map<string, Value>)
    requires AllGiven(slots, values) && Binds(slots, values, batch)
    ensures ValuesByPath(slots, values, |slots|).Ok?
  {
    BatchIsTotal(slots, values, |slots|);
    forall k | 0 <= k < |slots|
      ensures IsAcceptable(slots[k], values[slots[k].slotId])
    {
      TakesAcceptable(slots[k], values[slots[k].slotId]);
    }
  }

  lemma {:induction false} BindsOnce(slots: seq<Slot>, values: map<string, Value>, a: map<string, Value>, b: map<string, Value>)
    requires Binds(slots, values, a) && Binds(slots, values, b)
    ensures a == b
  {
    forall path
      ensures path in a <==> path in b
      ensures path in a ==> path in b && a[path] == b[path]
    {
    }
  }

  lemma {:induction false} BatchExactly(slots: seq<Slot>, values: map<string, Value>, batch: map<string, Value>)
    requires AllGiven(slots, values) && DistinctPaths(slots)
    ensures ValuesByPath(slots, values, |slots|) == Ok(batch) <==> Binds(slots, values, batch)
  {
    if Binds(slots, values, batch) {
      BindsBuild(slots, values, batch);
      BatchBinds(slots, values);
      BindsOnce(slots, values, batch, ValuesByPath(slots, values, |slots|).value);
    } else if ValuesByPath(slots, values, |slots|) == Ok(batch) {
      BatchBinds(slots, values);
    }
  }

  /** The record of an answered question. */
  function RecordOf(pending: Pending, revision: nat, wall: int): Record {
    Record(pending.clarificationId, Map((s: Slot) => s.slotId, pending.slots), Map((s: Slot) => s.target, pending.slots),
           revision, revision + 1, wall)
  }

  /** The answer is to the current question, its batch applies, the schema has a verdict on the result, and `p.next` shows
      that verdict one revision and one record further. */
  ghost predicate Follows<P>(adapter: Adapter<P>, state: SessionState<P>, answer: Answer, wall: int, p: Prepared<P>) {
    && IsCurrent(state, answer) && HasTurnsLeft(state) && FillsSlots(state, answer)
    && var pending, verdict := state.pending.value, adapter.resolve(p.next.proposal, state.revision + 1, state.origin);
       && Binds(pending.slots, answer.values, p.batch)
       && adapter.apply(state.proposal, p.batch) == Ok(p.next.proposal)
       && verdict.Ok?
       && Presents(adapter, state.origin, p.next.proposal, state.revision + 1,
                   state.history + [RecordOf(pending, state.revision, wall)], verdict.value, wall, p.next)
  }

  lemma {:induction false} BatchPrepares<P>(adapter: Adapter<P>, state: SessionState<P>, pending: Pending, batch: map<string, Value>,
                                            wall: int, p: Prepared<P>)
    requires UniqueSlots(pending)
    ensures PrepareBatch(adapter, state, pending, batch, wall) == Ok(p) <==>
            && p.batch == batch && adapter.apply(state.proposal, batch) == Ok(p.next.proposal)
            && var verdict := adapter.resolve(p.next.proposal, state.revision + 1, state.origin);
               && verdict.Ok?
               && Presents(adapter, state.origin, p.next.proposal, state.revision + 1,
                           state.history + [RecordOf(pending, state.revision, wall)], verdict.value, wall, p.next)
  {
    var patched := adapter.apply(state.proposal, batch);
    assert RecordFor(pending, state.revision, wall) == RecordOf(pending, state.revision, wall);
    assert RecordAdvancesOnce(RecordOf(pending, state.revision, wall));
    if patched.Ok? {
      var verdict := adapter.resolve(patched.value, state.revision + 1, state.origin);
      if verdict.Ok? {
        StateExactly(adapter, state.origin, patched.value, state.revision + 1,
                     state.history + [RecordOf(pending, state.revision, wall)], verdict.value, wall, p.next);
      }
    }
  }

  lemma {:induction false} CurrentReachesValues<P>(adapter: Adapter<P>, state: SessionState<P>, answer: Answer, wall: int)
    requires IsCurrent(state, answer) && HasTurnsLeft(state) && FillsSlots(state, answer)
    ensures var slots := state.pending.value.slots;
            && AllGiven(slots, answer.values)
            && Prepare(adapter, state, answer, wall) ==
               match ValuesByPath(slots, answer.values, |slots|)
               case Err(e) => Err(e)
               case Ok(batch) => PrepareBatch(adapter, state, state.pending.value, batch, wall)
  {
    FillsExactly(state, answer);
  }

  lemma {:induction false} UniquePaths(pending: Pending)
    requires UniqueSlots(pending)
    ensures DistinctPaths(pending.slots)
  {
    var paths := Map((s: Slot) => s.patchPath, pending.slots);
    assert forall i | 0 <= i < |paths| :: paths[i] == pending.slots[i].patchPath;
  }

  lemma {:induction false} PreparedFollows<P>(adapter: Adapter<P>, state: SessionState<P>, answer: Answer, wall: int, p: Prepared<P>,
                                              built: Result<map<string, Value>, SessionError>)
    requires IsCurrent(state, answer) && HasTurnsLeft(state) && FillsSlots(state, answer) && UniqueSlots(state.pending.value)
    requires built.Ok? && Binds(state.pending.value.slots, answer.values, built.value)
    requires PrepareBatch(adapter, state, state.pending.value, built.value, wall) == Ok(p)
    ensures Follows(adapter, state, answer, wall, p)
  {
    BatchPrepares(adapter, state, state.pending.value, built.value, wall, p);
  }

  lemma {:induction false} FollowsPrepared<P>(adapter: Adapter<P>, state: SessionState<P>, answer: Answer, wall: int, p: Prepared<P>)
    requires Follows(adapter, state, answer, wall, p) && UniqueSlots(state.pending.value)
    ensures PrepareBatch(adapter, state, state.pending.value, p.batch, wall) == Ok(p)
  {
    BatchPrepares(adapter, state, state.pending.value, p.batch, wall, p);
  }

  /** Exactly which answers are prepared, and to what. */
  lemma {:induction false} PreparedExactly<P>(adapter: Adapter<P>, state: SessionState<P>, answer: Answer, wall: int, p: Prepared<P>)
    requires state.pending.Some? ==> UniqueSlots(state.pending.value)
    ensures Prepare(adapter, state, answer, wall) == Ok(p) <==> Follows(adapter, state, answer, wall, p)
  {
    if IsCurrent(state, answer) && HasTurnsLeft(state) && FillsSlots(state, answer) {
      var slots := state.pending.value.slots;
      CurrentReachesValues(adapter, state, answer, wall);
      UniquePaths(state.pending.value);
      var built := ValuesByPath(slots, answer.values, |slots|);
      if Prepare(adapter, state, answer, wall) == Ok(p) {
        BatchExactly(slots, answer.values, built.value);
        PreparedFollows(adapter, state, answer, wall, p, built);
      } else if Follows(adapter, state, answer, wall, p) {
        BatchExactly(slots, answer.values, p.batch);
        FollowsPrepared(adapter, state, answer, wall, p);
      }
    } else {
      RefusedBeforeValues(adapter, state, answer, wall);
    }
  }
}
