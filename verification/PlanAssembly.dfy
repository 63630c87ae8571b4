/** Assembling one resolved plan from the separately resolved tasks of a proposal. */
module PlanAssembly {
  import opened Wrappers
  import opened Decimals
  import opened Contracts
  import opened PlanValidity
  import opened Proposal
  import opened PlanPaths

  /** A verdict, or an exception that escapes the resolver. */
  datatype Outcome = Returned(v: PlanValidation) | Raised

  /** What the compiler hands over next to the proposal. */
  datatype Sidecar = Sidecar(targetPeriods: seq<seq<string>>, premiseTasks: seq<seq<int>>,
                             company: Option<string>, receipt: Option<string>)

  /** The single-task delegate and the concept policy, both abstract. */
  datatype Resolver = Resolver(
    single: (PlanProposal, nat, seq<seq<string>>, Option<string>, Option<string>) -> Outcome,
    allowedStatements: string -> set<string>,
    aggregation: string -> string)

  /** What is assembled: the proposal and what the delegate says about each fact and task alone, in
      whole-proposal coordinates. */
  datatype Request = Request(
    proposal: PlanProposal, side: Sidecar, revision: nat,
    factVerdict: (nat, nat) -> Outcome, taskVerdict: nat -> Outcome,
    allowedStatements: string -> set<string>, aggregation: string -> string)

  datatype Progress<T> = Going(state: T) | Stopped(outcome: Outcome)

  /** `n` steps in index order, each on what the previous one left, until one stops. */
  function Iterate<T>(step: (nat, T) -> Progress<T>, n: nat, start: T): Progress<T> {
    if n == 0 then Going(start) else
    match Iterate(step, n - 1, start)
    case Stopped(outcome) => Stopped(outcome)
    case Going(s) => step(n - 1, s)
  }

  lemma {:induction false} IterateStaysStopped<T>(step: (nat, T) -> Progress<T>, k: nat, n: nat, start: T)
    requires k <= n && Iterate(step, k, start).Stopped?
    ensures Iterate(step, n, start) == Iterate(step, k, start)
  {
    if k < n {
      IterateStaysStopped(step, k, n - 1, start);
    }
  }

  /** The step at which an iteration stopped. */
  lemma {:induction false} IterateStoppedAt<T>(step: (nat, T) -> Progress<T>, n: nat, start: T) returns (i: nat)
    requires Iterate(step, n, start).Stopped?
    ensures i < n && Iterate(step, i, start).Going? && step(i, Iterate(step, i, start).state) == Iterate(step, n, start)
  {
    if Iterate(step, n - 1, start).Stopped? {
      i := IterateStoppedAt(step, n - 1, start);
    } else {
      i := n - 1;
    }
  }

  /** What every step keeps holds wherever the iteration gets to. */
  lemma {:induction false} IterateKeeps<T(!new)>(step: (nat, T) -> Progress<T>, n: nat, start: T, kept: (nat, T) -> bool)
    requires kept(0, start)
    requires forall i: nat, s | i < n && kept(i, s) && step(i, s).Going? :: kept(i + 1, step(i, s).state)
    ensures Iterate(step, n, start).Going? ==> kept(n, Iterate(step, n, start).state)
  {
    if n > 0 {
      IterateKeeps(step, n - 1, start, kept);
    }
  }

  function Refused(reason: string): Outcome {
    Returned(Unresolved("unsupported_request", [reason]))
  }

  /* ---- Checks before any task is resolved ---- */

  function CompanyTasks(tasks: seq<ProposalTask>, n: nat): seq<nat>
    requires n <= |tasks|
  {
    if n == 0 then [] else CompanyTasks(tasks, n - 1) + if tasks[n - 1].kind != Financial then [n - 1] else []
  }

  function DocumentTasks(tasks: seq<ProposalTask>, n: nat): seq<nat>
    requires n <= |tasks|
  {
    if n == 0 then [] else
    DocumentTasks(tasks, n - 1) + if tasks[n - 1].kind in {Document, Narrative} then [n - 1] else []
  }

  function Precheck(p: PlanProposal, side: Sidecar): Option<Outcome> {
    if p.disposition != "process" then Some(Refused("terminal_decision_gate_required"))
    else if side.targetPeriods != [] && |side.targetPeriods| != |p.tasks|
    then Some(Refused("document_target_period_sidecar_shape_mismatch"))
    else if side.premiseTasks != [] && |side.premiseTasks| != |p.premises|
    then Some(Refused("premise_task_sidecar_shape_mismatch"))
    else if side.company.Some? && |CompanyTasks(p.tasks, |p.tasks|)| != 1
    then Some(Refused("company_context_ambiguous_across_tasks"))
    else if side.receipt.Some? && |DocumentTasks(p.tasks, |p.tasks|)| != 1
    then Some(Refused("document_receipt_context_ambiguous_across_tasks"))
    else None
  }

  /* ---- Resolving one fact or one task alone ---- */

  function Alone(p: PlanProposal, task: ProposalTask): PlanProposal {
    p.(tasks := [task], derivations := [], premises := [], presentation := UNSPECIFIED)
  }

  function Rebased(o: Outcome, task: nat, fact: Option<nat>): Outcome {
    match o
    case Raised => Raised
    case Returned(v) => Returned(RebaseValidation(v, task, fact))
  }

  function FactVerdict(r: Resolver, p: PlanProposal, revision: nat, i: nat, j: nat): Outcome {
    if i < |p.tasks| && j < |p.tasks[i].facts| then
      var one := Alone(p, p.tasks[i].(facts := [p.tasks[i].facts[j]]));
      Rebased(r.single(one, revision, [], None, None), i, Some(j))
    else Raised
  }

  function TaskVerdict(r: Resolver, p: PlanProposal, side: Sidecar, revision: nat, i: nat): Outcome {
    if i < |p.tasks| then
      var periods := if i < |side.targetPeriods| then [side.targetPeriods[i]] else [];
      var company := if CompanyTasks(p.tasks, |p.tasks|) == [i] then side.company else None;
      var receipt := if DocumentTasks(p.tasks, |p.tasks|) == [i] then side.receipt else None;
      Rebased(r.single(Alone(p, p.tasks[i]), revision, periods, company, receipt), i, None)
    else Raised
  }

  /** The request that asks the delegate `r` about `p`. */
  function RequestFor(r: Resolver, p: PlanProposal, side: Sidecar, revision: nat): Request {
    Request(p, side, revision,
            (i: nat, j: nat) => FactVerdict(r, p, revision, i, j),
            (i: nat) => TaskVerdict(r, p, side, revision, i),
            r.allowedStatements, r.aggregation)
  }

  /* ---- Collecting results ---- */

  datatype Assembly = Assembly(
    tasks: seq<ResolvedTask>,
    defaults: seq<string>,
    labels: map<string, string>,
    taskIds: seq<seq<string>>,
    stamp: Option<(Date, Date)>)

  const EMPTY: Assembly := Assembly([], [], map[], [], None)

  function AddDefaults(held: seq<string>, more: seq<string>): seq<string>
    decreases more
  {
    if more == [] then held
    else AddDefaults(if more[0] in held then held else held + [more[0]], more[1..])
  }

  /** Takes over a plan's dates and defaults; plans that disagree on the dates raise. */
  function Collect(a: Assembly, plan: ResolvedQueryPlan): Progress<Assembly> {
    var stamp := (plan.referenceDate, plan.corpusCutoff);
    if a.stamp.Some? && a.stamp.value != stamp then Stopped(Raised)
    else Going(a.(stamp := Some(stamp), defaults := AddDefaults(a.defaults, plan.appliedDefaults)))
  }

  /** The first task of a ready verdict, with the assembly that took the verdict in. */
  function Accept(a: Assembly, o: Outcome): Progress<(Assembly, ResolvedTask)> {
    match o
    case Raised => Stopped(Raised)
    case Returned(v) =>
      if !v.PlanReady? then Stopped(o) else
      match Collect(a, v.plan)
      case Stopped(outcome) => Stopped(outcome)
      case Going(collected) => if v.plan.tasks == [] then Stopped(Raised) else Going((collected, v.plan.tasks[0]))
  }

  /* ---- Financial tasks ---- */

  datatype Group = Group(asOf: Date, view: string, facts: seq<FactSpec>)

  datatype Grouping = Grouping(assembly: Assembly, groups: seq<Group>)

  function AddFact(groups: seq<Group>, asOf: Date, view: string, fact: FactSpec): seq<Group> {
    if groups == [] then [Group(asOf, view, [fact])]
    else if groups[0].asOf == asOf && groups[0].view == view
    then [groups[0].(facts := groups[0].facts + [fact])] + groups[1..]
    else [groups[0]] + AddFact(groups[1..], asOf, view, fact)
  }

  /** The resolved fact under its proposed label, with the proposed statement when there is one. */
  function BoundFact(proposed: ProposedFact, fact: FactSpec): FactSpec {
    fact.(outputId := proposed.resultLabel,
          statement := if proposed.statement == UNSPECIFIED then fact.statement else Some(proposed.statement))
  }

  predicate StatementOk(q: Request, proposed: ProposedFact, fact: FactSpec) {
    proposed.statement == UNSPECIFIED || proposed.statement in q.allowedStatements(fact.concept)
  }

  /** What the verdict on one proposed fact adds to a grouping. */
  function FactStep(q: Request, proposed: ProposedFact, verdict: Outcome, s: Grouping): Progress<Grouping> {
    match Accept(s.assembly, verdict)
    case Stopped(outcome) => Stopped(outcome)
    case Going((a, t)) =>
      if !t.FinancialTask? then Stopped(Refused("financial_resolver_returned_wrong_task"))
      else if t.facts == [] then Stopped(Raised)
      else if !StatementOk(q, proposed, t.facts[0])
      then Stopped(Refused("financial_statement_concept_mismatch"))
      else
        var fact := BoundFact(proposed, t.facts[0]);
        Going(Grouping(a.(labels := a.labels[proposed.resultLabel := fact.outputId]),
                       AddFact(s.groups, t.asOf, t.view, fact)))
  }

  function FactStepOf(q: Request, i: nat): (nat, Grouping) -> Progress<Grouping>
    requires i < |q.proposal.tasks|
  {
    var facts := q.proposal.tasks[i].facts;
    (j: nat, s: Grouping) =>
      if j < |facts| then FactStep(q, facts[j], q.factVerdict(i, j), s) else Stopped(Raised)
  }

  function FactsAfter(q: Request, i: nat, n: nat, a: Assembly): Progress<Grouping>
    requires i < |q.proposal.tasks|
  {
    Iterate(FactStepOf(q, i), n, Grouping(a, []))
  }

  const FINANCIAL: string := "financial-"

  function GroupId(i: nat, g: nat, count: nat): string {
    FINANCIAL + Dec(i + 1) + if count == 1 then "" else "-" + Dec(g + 1)
  }

  function GroupTasks(i: nat, groups: seq<Group>): seq<ResolvedTask> {
    seq(|groups|, g requires 0 <= g < |groups| =>
      FinancialTask(GroupId(i, g, |groups|), groups[g].asOf, groups[g].view, groups[g].facts))
  }

  /** Whether an id belongs to financial proposal index `i`, by exact match or prefix. */
  predicate BelongsTo(i: nat, id: string) {
    id == FINANCIAL + Dec(i + 1) || FINANCIAL + Dec(i + 1) + "-" <= id
  }

  function FinishFinancial(i: nat, s: Grouping): Assembly {
    var tasks := s.assembly.tasks + GroupTasks(i, s.groups);
    s.assembly.(tasks := tasks,
                taskIds := s.assembly.taskIds + [Filter((id: string) => BelongsTo(i, id), TaskIds(tasks))])
  }

  /* ---- The other tasks ---- */

  function KindId(kind: Kind, i: nat): string {
    kind.Name() + "-" + Dec(i + 1)
  }

  function Bind(labels: map<string, string>, names: seq<string>, outputs: seq<string>, n: nat): map<string, string>
    requires n <= |names| && n <= |outputs|
  {
    if n == 0 then labels else Bind(labels, names, outputs, n - 1)[names[n - 1] := outputs[n - 1]]
  }

  /** Takes a resolved task over and binds its scalar outputs to the proposed labels, position by position. */
  function Place(task: ProposalTask, resolved: ResolvedTask, a: Assembly): Progress<Assembly> {
    var names, outputs := task.resultLabels, ScalarOutputs(resolved);
    var done := a.(tasks := a.tasks + [resolved], taskIds := a.taskIds + [[resolved.taskId]]);
    if |names| == |outputs| then Going(done.(labels := Bind(a.labels, names, outputs, |names|)))
    else if names == [] then Stopped(Raised)
    else if task.kind in {Document, Narrative} then Going(done)
    else Stopped(Refused("result_label_binding_mismatch"))
  }

  function OtherStep(q: Request, i: nat, a: Assembly): Progress<Assembly>
    requires i < |q.proposal.tasks|
  {
    match Accept(a, q.taskVerdict(i))
    case Stopped(outcome) => Stopped(outcome)
    case Going((collected, t)) => Place(q.proposal.tasks[i], t.(taskId := KindId(q.proposal.tasks[i].kind, i)), collected)
  }

  function TaskStep(q: Request, i: nat, a: Assembly): Progress<Assembly>
    requires i < |q.proposal.tasks|
  {
    var task := q.proposal.tasks[i];
    if task.kind != Financial then OtherStep(q, i, a) else
    match FactsAfter(q, i, |task.facts|, a)
    case Stopped(outcome) => Stopped(outcome)
    case Going(s) => Going(FinishFinancial(i, s))
  }

  function TaskStepOf(q: Request): (nat, Assembly) -> Progress<Assembly> {
    (i: nat, a: Assembly) => if i < |q.proposal.tasks| then TaskStep(q, i, a) else Stopped(Raised)
  }

  function TasksAfter(q: Request, n: nat): Progress<Assembly> {
    Iterate(TaskStepOf(q), n, EMPTY)
  }

  /* ---- Derivations and premises ---- */

  datatype Links = Links(labels: map<string, string>, derivations: seq<Derivation>)

  /** The aggregation policy of every financial output of the first `n` tasks. */
  function Aggregations(aggregation: string -> string, tasks: seq<ResolvedTask>, n: nat): map<string, string>
    requires n <= |tasks|
  {
    if n == 0 then map[] else
    var earlier := Aggregations(aggregation, tasks, n - 1);
    if !tasks[n - 1].FinancialTask? then earlier
    else FactAggregations(aggregation, tasks[n - 1].facts, |tasks[n - 1].facts|, earlier)
  }

  function FactAggregations(aggregation: string -> string, facts: seq<FactSpec>, n: nat, earlier: map<string, string>): map<string, string>
    requires n <= |facts|
  {
    if n == 0 then earlier else
    var f := facts[n - 1];
    var before := FactAggregations(aggregation, facts, n - 1, earlier);
    if f.outputId == "" then before else before[f.outputId := aggregation(f.concept)]
  }

  predicate Additive(policies: map<string, string>, output: string) {
    output !in policies || policies[output] == "additive_duration"
  }

  predicate AllBound(labels: map<string, string>, names: seq<string>) {
    forall i | 0 <= i < |names| :: names[i] in labels
  }

  function OutputsOf(labels: map<string, string>, names: seq<string>): (r: seq<string>)
    requires AllBound(labels, names)
    ensures |r| == |names| && forall i | 0 <= i < |names| :: r[i] == labels[names[i]]
  {
    seq(|names|, i requires 0 <= i < |names| => labels[names[i]])
  }

  function Rounding(d: ProposedDerivation): Option<string> {
    if d.roundingRule == UNSPECIFIED then None else Some(d.roundingRule)
  }

  function DerivationStep(policies: map<string, string>, d: ProposedDerivation, s: Links): Progress<Links> {
    if !AllBound(s.labels, d.operandLabels) then Stopped(Refused("derivation_operand_has_no_scalar_output"))
    else
      var operands := OutputsOf(s.labels, d.operandLabels);
      if d.operator == "discrete_from_cumulative"
         && exists i | 0 <= i < |operands| :: !Additive(policies, operands[i])
      then Stopped(Refused("derivation_operator_not_additive"))
      else
        var resolved := Derivation(d.resultLabel, d.operator, operands, Rounding(d), None);
        if !DerivationOk(resolved) then Stopped(Raised)
        else Going(Links(s.labels[d.resultLabel := resolved.outputId], s.derivations + [resolved]))
  }

  function DerivationStepOf(policies: map<string, string>, ds: seq<ProposedDerivation>): (nat, Links) -> Progress<Links> {
    (k: nat, s: Links) => if k < |ds| then DerivationStep(policies, ds[k], s) else Stopped(Raised)
  }

  function DerivationsAfter(policies: map<string, string>, labels: map<string, string>, ds: seq<ProposedDerivation>,
                            n: nat): Progress<Links>
  {
    Iterate(DerivationStepOf(policies, ds), n, Links(labels, []))
  }

  function Derived(q: Request, a: Assembly): Progress<Links> {
    DerivationsAfter(Aggregations(q.aggregation, a.tasks, |a.tasks|), a.labels, q.proposal.derivations,
                     |q.proposal.derivations|)
  }

  /** The task ids of the listed proposal indices, in order. */
  function IdsOf(taskIds: seq<seq<string>>, indices: seq<int>): seq<string>
    requires forall i | 0 <= i < |indices| :: 0 <= indices[i] < |taskIds|
  {
    if indices == [] then [] else taskIds[indices[0]] + IdsOf(taskIds, indices[1..])
  }

  function PremiseIndices(q: Request, k: nat): seq<int> {
    if k < |q.side.premiseTasks| then q.side.premiseTasks[k] else []
  }

  function PremiseStep(q: Request, a: Assembly, labels: map<string, string>, k: nat): Progress<PremiseClaim>
    requires k < |q.proposal.premises|
  {
    var premise, indices := q.proposal.premises[k], PremiseIndices(q, k);
    if !AllBound(labels, premise.verifyLabels) then Stopped(Refused("premise_reference_has_no_scalar_output"))
    else if exists i | 0 <= i < |indices| :: !(0 <= indices[i] < |a.taskIds|)
    then Stopped(Refused("premise_reference_has_no_resolved_task"))
    else
      var claim := PremiseClaim("premise-" + Dec(k + 1), premise.kind, premise.rawText,
                                OutputsOf(labels, premise.verifyLabels), IdsOf(a.taskIds, indices));
      if claim.verifyWith == [] && claim.verifyTasks == [] then Stopped(Refused("premise_reference_missing"))
      else if !PremiseOk(claim) then Stopped(Raised)
      else Going(claim)
  }

  function PremiseStepOf(q: Request, a: Assembly, labels: map<string, string>): (nat, seq<PremiseClaim>) -> Progress<seq<PremiseClaim>> {
    (k: nat, claims: seq<PremiseClaim>) =>
      if k < |q.proposal.premises| then
        match PremiseStep(q, a, labels, k)
        case Stopped(outcome) => Stopped(outcome)
        case Going(claim) => Going(claims + [claim])
      else Stopped(Raised)
  }

  function PremisesAfter(q: Request, a: Assembly, labels: map<string, string>, n: nat): Progress<seq<PremiseClaim>> {
    Iterate(PremiseStepOf(q, a, labels), n, [])
  }

  /* ---- The whole resolution ---- */

  function PlanOf(q: Request, a: Assembly, links: Links, claims: seq<PremiseClaim>): ResolvedQueryPlan
    requires a.stamp.Some?
  {
    ResolvedQueryPlan(q.revision, a.stamp.value.0, a.stamp.value.1, a.tasks, links.derivations, claims, a.defaults,
                      if q.proposal.presentation == UNSPECIFIED then None else Some(q.proposal.presentation))
  }

  ghost function Finish(q: Request, a: Assembly, links: Links, claims: seq<PremiseClaim>): Outcome {
    if a.stamp.None? then Refused("resolved_task_missing") else
    var plan := PlanOf(q, a, links, claims);
    if WellFormedPlan(plan) then Returned(PlanReady(plan)) else Refused("resolved_plan_assembly_failed")
  }

  ghost function Link(q: Request, a: Assembly): Outcome {
    match Derived(q, a)
    case Stopped(outcome) => outcome
    case Going(links) =>
      match PremisesAfter(q, a, links.labels, |q.proposal.premises|)
      case Stopped(outcome) => outcome
      case Going(claims) => Finish(q, a, links, claims)
  }

  /** What `resolve_with_context` answers. */
  ghost function Resolve(q: Request): Outcome {
    var refusal := Precheck(q.proposal, q.side);
    if refusal.Some? then refusal.value else
    match TasksAfter(q, |q.proposal.tasks|)
    case Stopped(outcome) => outcome
    case Going(a) => Link(q, a)
  }

  /* ---- The resolution as it runs ---- */

  method ResolveFinancial(q: Request, i: nat, a: Assembly) returns (r: Progress<Assembly>)
    requires i < |q.proposal.tasks| && q.proposal.tasks[i].kind == Financial
    ensures r == TaskStep(q, i, a)
  {
    var facts := q.proposal.tasks[i].facts;
    var s := Grouping(a, []);
    for j := 0 to |facts|
      invariant FactsAfter(q, i, j, a) == Going(s)
    {
      var next := FactStep(q, facts[j], q.factVerdict(i, j), s);
      assert next == FactStepOf(q, i)(j, s);
      if next.Stopped? {
        IterateStaysStopped(FactStepOf(q, i), j + 1, |facts|, Grouping(a, []));
        return Stopped(next.outcome);
      }
      s := next.state;
    }
    r := Going(FinishFinancial(i, s));
  }

  method ResolveTask(q: Request, i: nat, a: Assembly) returns (r: Progress<Assembly>)
    requires i < |q.proposal.tasks|
    ensures r == TaskStepOf(q)(i, a)
  {
    if q.proposal.tasks[i].kind == Financial {
      r := ResolveFinancial(q, i, a);
    } else {
      r := OtherStep(q, i, a);
    }
  }

  method ResolveTasks(q: Request) returns (r: Progress<Assembly>)
    ensures r == TasksAfter(q, |q.proposal.tasks|)
  {
    ghost var step := TaskStepOf(q);
    var a := EMPTY;
    for i := 0 to |q.proposal.tasks|
      invariant Iterate(step, i, EMPTY) == Going(a)
    {
      var next := ResolveTask(q, i, a);
      assert next == step(i, a);
      if next.Stopped? {
        IterateStaysStopped(step, i + 1, |q.proposal.tasks|, EMPTY);
        return next;
      }
      a := next.state;
    }
    r := Going(a);
  }

  method ResolveDerivations(q: Request, a: Assembly) returns (r: Progress<Links>)
    ensures r == Derived(q, a)
  {
    var policies, ds := Aggregations(q.aggregation, a.tasks, |a.tasks|), q.proposal.derivations;
    var links := Links(a.labels, []);
    for k := 0 to |ds|
      invariant DerivationsAfter(policies, a.labels, ds, k) == Going(links)
    {
      var next := DerivationStep(policies, ds[k], links);
      assert next == DerivationStepOf(policies, ds)(k, links);
      if next.Stopped? {
        IterateStaysStopped(DerivationStepOf(policies, ds), k + 1, |ds|, Links(a.labels, []));
        return next;
      }
      links := next.state;
    }
    r := Going(links);
  }

  method ResolvePremises(q: Request, a: Assembly, labels: map<string, string>) returns (r: Progress<seq<PremiseClaim>>)
    ensures r == PremisesAfter(q, a, labels, |q.proposal.premises|)
  {
    var claims: seq<PremiseClaim> := [];
    for k := 0 to |q.proposal.premises|
      invariant PremisesAfter(q, a, labels, k) == Going(claims)
    {
      var next := PremiseStep(q, a, labels, k);
      ghost var step := PremiseStepOf(q, a, labels)(k, claims);
      if next.Stopped? {
        assert step == Stopped(next.outcome);
        IterateStaysStopped(PremiseStepOf(q, a, labels), k + 1, |q.proposal.premises|, []);
        return Stopped(next.outcome);
      }
      assert step == Going(claims + [next.state]);
      claims := claims + [next.state];
    }
    r := Going(claims);
  }

  method ResolveWithContext(q: Request) returns (r: Outcome)
    ensures r == Resolve(q)
  {
    var refusal := Precheck(q.proposal, q.side);
    if refusal.Some? {
      return refusal.value;
    }
    var tasks := ResolveTasks(q);
    if tasks.Stopped? {
      return tasks.outcome;
    }
    var links := ResolveDerivations(q, tasks.state);
    if links.Stopped? {
      return links.outcome;
    }
    var claims := ResolvePremises(q, tasks.state, links.state.labels);
    if claims.Stopped? {
      return claims.outcome;
    }
    if tasks.state.stamp.None? {
      return Refused("resolved_task_missing");
    }
    var plan := PlanOf(q, tasks.state, links.state, claims.state);
    var ok := ValidatePlan(plan);
    r := if ok then Returned(PlanReady(plan)) else Refused("resolved_plan_assembly_failed");
  }

  /** The resolver's entry point: the proposal, resolved task by task through the delegate. */
  method ResolveProposal(r: Resolver, p: PlanProposal, side: Sidecar, revision: nat) returns (o: Outcome)
    ensures o == Resolve(RequestFor(r, p, side, revision))
  {
    o := ResolveWithContext(RequestFor(r, p, side, revision));
  }
}
