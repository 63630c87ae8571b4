/** Records of a clarification session: origin, pending question, history, state. */
module SessionModel {
  import opened Wrappers
  import opened Contracts

  const MAX_CLARIFICATION_TURNS: nat := 3
  const MAX_PLAN_REVISIONS: nat := MAX_CLARIFICATION_TURNS

  datatype Origin = Origin(sessionId: string, question: string, referenceDate: int,
                           createdAt: int, fingerprint: string)

  datatype Slot = Slot(slotId: string, target: string, patchPath: string, allowed: seq<Value>)

  datatype Pending = Pending(clarificationId: string, question: string, slots: seq<Slot>,
                             createdRevision: nat)

  datatype Answer = Answer(clarificationId: string, expectedRevision: nat, values: map<string, Value>)

  datatype Record = Record(clarificationId: string, slotIds: seq<string>, targets: seq<string>,
                           fromRevision: nat, toRevision: nat, answeredAt: int)

  datatype Status = Waiting | Ready | Terminal

  datatype SessionState<P> = SessionState(
    origin: Origin,
    revision: nat,
    proposal: P,
    plan: Option<ResolvedQueryPlan>,
    pending: Option<Pending>,
    history: seq<Record>,
    status: Status,
    terminalStatus: string,
    terminalReasons: seq<string>,
    lastAccessed: int)

  datatype SessionError = NotFound | Expired | Stale | Unsafe | LimitReached | Rejected

  /** What a session needs from a proposal schema; each part may fail. */
  datatype Adapter<!P> = Adapter(
    resolve: (P, nat, Origin) -> Result<PlanValidation, SessionError>,
    target: (P, string) -> Option<string>,
    apply: (P, map<string, Value>) -> Result<P, SessionError>)

  predicate UniqueSlots(pending: Pending) {
    && pending.slots != []
    && Distinct(Map((s: Slot) => s.slotId, pending.slots))
    && Distinct(Map((s: Slot) => s.patchPath, pending.slots))
  }

  predicate RecordAdvancesOnce(record: Record) {
    && record.slotIds != []
    && |record.slotIds| == |record.targets|
    && Distinct(record.slotIds)
    && record.toRevision == record.fromRevision + 1
  }

  /** The record contract every stored state is validated against. */
  predicate WellFormed<P>(state: SessionState<P>) {
    && state.revision <= MAX_PLAN_REVISIONS
    && |state.history| <= MAX_CLARIFICATION_TURNS
    && match state.status
       case Waiting =>
         state.pending.Some? && state.plan.None? && state.terminalStatus == "" && state.terminalReasons == []
       case Ready =>
         state.plan.Some? && state.pending.None? && state.terminalStatus == "" && state.terminalReasons == []
       case Terminal =>
         state.plan.None? && state.pending.None? && state.terminalStatus != "" && state.terminalReasons != []
  }
}
