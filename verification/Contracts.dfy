/** The resolved query plan and the verdict of resolving a proposal. */
module Contracts {
  import opened Wrappers

  /** A calendar date written YYYYMMDD; the strings compare as these numbers do. */
  type Date = nat

  /** A scalar or list supplied by a user or offered by the resolver. */
  datatype Value = Null | Flag(b: bool) | Number(n: int) | Text(s: string) | Items(items: seq<Value>)

  /** `detail` stands for the fields the plan checks never look at. */
  datatype FactSpec = FactSpec(outputId: string, concept: string, periodEnd: Date,
                               statement: Option<string>, detail: string)

  datatype FieldOutput = FieldOutput(outputId: string, slot: string)

  /** The optional date bounds of a document or event selector. */
  datatype Window = Window(start: Option<Date>, end: Option<Date>)

  datatype ResolvedTask =
    | FinancialTask(taskId: string, asOf: Date, view: string, facts: seq<FactSpec>)
    | DisclosureTask(taskId: string, asOf: Date, outputId: Option<string>, fieldOutputs: seq<FieldOutput>,
                     documents: Option<Window>, events: Option<Window>, detail: string)
    | EventTask(taskId: string, timepoints: seq<Date>, outputId: Option<string>, fieldOutputs: seq<FieldOutput>,
                selector: Window, detail: string)
    | CorrectionTask(taskId: string, asOf: Date, outputId: Option<string>, fieldOutputs: seq<FieldOutput>,
                     documents: Option<Window>, events: Option<Window>, detail: string)
    | DocumentTask(taskId: string, asOf: Date, window: Window, events: Option<Window>, detail: string)
    | NarrativeTask(taskId: string, asOf: Date, documents: Option<Window>, periodEnds: seq<Date>, detail: string)

  datatype Derivation = Derivation(outputId: string, operator: string, operands: seq<string>,
                                   rounding: Option<string>, presentation: Option<string>)

  datatype PremiseClaim = PremiseClaim(claimId: string, kind: string, rawText: string,
                                       verifyWith: seq<string>, verifyTasks: seq<string>)

  datatype ResolvedQueryPlan = ResolvedQueryPlan(
    revision: nat,
    referenceDate: Date,
    corpusCutoff: Date,
    tasks: seq<ResolvedTask>,
    derivations: seq<Derivation>,
    premises: seq<PremiseClaim>,
    appliedDefaults: seq<string>,
    presentation: Option<string>)

  /** The values offered for one path. */
  datatype Choices = Choices(path: string, values: seq<Value>)

  /** What a dictionary built from these entries in order offers for a path: the last entry wins. */
  function ChoicesFor(options: seq<Choices>, path: string): seq<Value> {
    if options == [] then []
    else if options[|options| - 1].path == path then options[|options| - 1].values
    else ChoicesFor(options[..|options| - 1], path)
  }

  /** The question a resolver raises about paths inside the proposal. */
  datatype ClarificationRequest = ClarificationRequest(
    requestId: string, planRevision: nat, reasonCode: string, question: string,
    fieldPaths: seq<string>, patchPaths: seq<string>, options: seq<Choices>)

  /** Exactly one of a plan, a question or typed reasons, as the verdict's own validator demands. */
  datatype PlanValidation =
    | PlanReady(plan: ResolvedQueryPlan)
    | NeedsClarification(request: ClarificationRequest)
    | Unresolved(status: string, reasons: seq<string>)

  /* ---- Record validators ---- */

  const BINARY_OPERATORS: set<string> := {
    "difference", "absolute_difference", "percent_change", "discrete_from_cumulative", "equal", "concept_ratio"}

  predicate DerivationOk(d: Derivation) {
    && d.operands != []
    && (d.operator in BINARY_OPERATORS ==> |d.operands| == 2)
    && (d.operator in {"argmax", "sum"} ==> |d.operands| >= 2)
    && (d.operator == "equal" ==> d.rounding.None?)
    && (d.operator == "concept_ratio" <==> d.presentation.Some?)
  }

  predicate PremiseOk(c: PremiseClaim) {
    Distinct(c.verifyWith) && Distinct(c.verifyTasks)
  }

  /* ---- What a task offers and when it looks ---- */

  function Present<T>(o: Option<T>): seq<T> {
    if o.Some? then [o.value] else []
  }

  function Bounds(w: Window): seq<Date> {
    Present(w.start) + Present(w.end)
  }

  function OptionalBounds(w: Option<Window>): seq<Date> {
    if w.Some? then Bounds(w.value) else []
  }

  function FactIds(facts: seq<FactSpec>): (r: seq<string>)
    ensures |r| == |facts| && forall i | 0 <= i < |facts| :: r[i] == facts[i].outputId
  {
    if facts == [] then [] else FactIds(facts[..|facts| - 1]) + [facts[|facts| - 1].outputId]
  }

  function FieldIds(fields: seq<FieldOutput>): (r: seq<string>)
    ensures |r| == |fields| && forall i | 0 <= i < |fields| :: r[i] == fields[i].outputId
  {
    if fields == [] then [] else FieldIds(fields[..|fields| - 1]) + [fields[|fields| - 1].outputId]
  }

  /** The scalar outputs other than financial facts: the task's own, then one per field. */
  function ScalarOutputs(t: ResolvedTask): seq<string> {
    match t
    case DisclosureTask(_, _, outputId, fields, _, _, _) => Present(outputId) + FieldIds(fields)
    case EventTask(_, _, outputId, fields, _, _) => Present(outputId) + FieldIds(fields)
    case CorrectionTask(_, _, outputId, fields, _, _, _) => Present(outputId) + FieldIds(fields)
    case _ => []
  }

  function Outputs(t: ResolvedTask): seq<string> {
    if t.FinancialTask? then FactIds(t.facts) else ScalarOutputs(t)
  }

  /** Every date a task looks at, to be held against the corpus cutoff. */
  function Dates(t: ResolvedTask): seq<Date> {
    match t
    case FinancialTask(_, asOf, _, _) => [asOf]
    case DisclosureTask(_, asOf, _, _, documents, events, _) => [asOf] + OptionalBounds(documents) + OptionalBounds(events)
    case EventTask(_, timepoints, _, _, selector, _) => timepoints + Bounds(selector)
    case CorrectionTask(_, asOf, _, _, documents, events, _) => [asOf] + OptionalBounds(documents) + OptionalBounds(events)
    case DocumentTask(_, asOf, window, events, _) => [asOf] + Bounds(window) + OptionalBounds(events)
    case NarrativeTask(_, asOf, documents, _, _) => [asOf] + OptionalBounds(documents)
  }

  predicate PeriodsOk(t: ResolvedTask, cutoff: Date) {
    match t
    case FinancialTask(_, asOf, _, facts) => forall i | 0 <= i < |facts| :: facts[i].periodEnd <= asOf
    case NarrativeTask(_, _, _, periodEnds, _) => forall i | 0 <= i < |periodEnds| :: periodEnds[i] <= cutoff
    case _ => true
  }

  predicate TaskDatesOk(t: ResolvedTask, cutoff: Date) {
    PeriodsOk(t, cutoff) && forall i | 0 <= i < |Dates(t)| :: Dates(t)[i] <= cutoff
  }

  /** The first `n` tasks look at nothing beyond their limits. */
  predicate DatesOkUpTo(plan: ResolvedQueryPlan, n: nat)
    requires n <= |plan.tasks|
  {
    n == 0 || (DatesOkUpTo(plan, n - 1) && TaskDatesOk(plan.tasks[n - 1], plan.corpusCutoff))
  }

  function TaskIds(tasks: seq<ResolvedTask>): seq<string> {
    Map((t: ResolvedTask) => t.taskId, tasks)
  }

  /** The outputs of the first `n` tasks, in order. */
  function OutputsUpTo(tasks: seq<ResolvedTask>, n: nat): seq<string>
    requires n <= |tasks|
  {
    Gather(tasks, Outputs, n)
  }

  function AllOutputs(tasks: seq<ResolvedTask>): seq<string> {
    OutputsUpTo(tasks, |tasks|)
  }

  function ClaimIds(premises: seq<PremiseClaim>): seq<string> {
    Map((c: PremiseClaim) => c.claimId, premises)
  }

  /** What is known before derivation `n`: the task outputs and the earlier derivations. */
  function KnownBefore(plan: ResolvedQueryPlan, n: nat): set<string>
    requires n <= |plan.derivations|
  {
    Elements(AllOutputs(plan.tasks)) + set i | 0 <= i < n :: plan.derivations[i].outputId
  }

  function Known(plan: ResolvedQueryPlan): set<string> {
    KnownBefore(plan, |plan.derivations|)
  }

  ghost predicate Subset(names: seq<string>, known: set<string>) {
    forall i | 0 <= i < |names| :: names[i] in known
  }

  ghost predicate DerivationLinked(plan: ResolvedQueryPlan, i: nat)
    requires i < |plan.derivations|
  {
    && plan.derivations[i].outputId !in KnownBefore(plan, i)
    && Subset(plan.derivations[i].operands, KnownBefore(plan, i))
  }

  ghost predicate PremiseLinked(plan: ResolvedQueryPlan, c: PremiseClaim) {
    && Subset(c.verifyWith, Known(plan))
    && Subset(c.verifyTasks, Elements(TaskIds(plan.tasks)))
  }

  /** The plans that may be executed. */
  ghost predicate WellFormedPlan(plan: ResolvedQueryPlan) {
    && plan.tasks != []
    && Distinct(TaskIds(plan.tasks))
    && Distinct(ClaimIds(plan.premises))
    && Distinct(plan.appliedDefaults)
    && DatesOkUpTo(plan, |plan.tasks|)
    && Distinct(AllOutputs(plan.tasks))
    && (forall i | 0 <= i < |plan.derivations| :: DerivationLinked(plan, i))
    && (forall i | 0 <= i < |plan.premises| :: PremiseLinked(plan, plan.premises[i]))
    && Elements(TaskIds(plan.tasks)) !! Known(plan)
    && Elements(TaskIds(plan.tasks)) !! Elements(ClaimIds(plan.premises))
    && Known(plan) !! Elements(ClaimIds(plan.premises))
  }
}
