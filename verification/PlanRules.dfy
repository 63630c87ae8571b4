/** The plans the validator accepts, written out. */
module PlanRules {
  import opened Wrappers
  import opened Contracts

  /* ---- Dates ---- */

  ghost predicate EndsBy(w: Window, limit: Date) {
    (w.start.Some? ==> w.start.value <= limit) && (w.end.Some? ==> w.end.value <= limit)
  }

  ghost predicate MayEndBy(w: Option<Window>, limit: Date) {
    w.Some? ==> EndsBy(w.value, limit)
  }

  /** The task looks at nothing after the cutoff; a fact's period has ended by the task's own date. */
  ghost predicate LooksBack(t: ResolvedTask, cutoff: Date) {
    match t
    case FinancialTask(_, asOf, _, facts) => asOf <= cutoff && forall f | f in facts :: f.periodEnd <= asOf
    case DisclosureTask(_, asOf, _, _, documents, events, _) => asOf <= cutoff && MayEndBy(documents, cutoff) && MayEndBy(events, cutoff)
    case EventTask(_, timepoints, _, _, selector, _) => (forall day | day in timepoints :: day <= cutoff) && EndsBy(selector, cutoff)
    case CorrectionTask(_, asOf, _, _, documents, events, _) => asOf <= cutoff && MayEndBy(documents, cutoff) && MayEndBy(events, cutoff)
    case DocumentTask(_, asOf, window, events, _) => asOf <= cutoff && EndsBy(window, cutoff) && MayEndBy(events, cutoff)
    case NarrativeTask(_, asOf, documents, periodEnds, _) =>
      asOf <= cutoff && MayEndBy(documents, cutoff) && forall day | day in periodEnds :: day <= cutoff
  }

  ghost predicate AllBy(days: seq<Date>, limit: Date) {
    forall day | day in days :: day <= limit
  }

  lemma {:induction false} BoundsBy(w: Window, limit: Date)
    ensures AllBy(Bounds(w), limit) <==> EndsBy(w, limit)
  {
    assert forall day :: day in Bounds(w) <==> w.start == Some(day) || w.end == Some(day);
  }

  lemma {:induction false} OptionalBoundsBy(w: Option<Window>, limit: Date)
    ensures AllBy(OptionalBounds(w), limit) <==> MayEndBy(w, limit)
  {
    if w.Some? {
      BoundsBy(w.value, limit);
    }
  }

  lemma {:induction false} AllByParts(a: seq<Date>, b: seq<Date>, limit: Date)
    ensures AllBy(a + b, limit) <==> AllBy(a, limit) && AllBy(b, limit)
  {
    assert forall day :: day in a + b <==> day in a || day in b;
  }

  lemma {:induction false} AllByIndex(days: seq<Date>, limit: Date)
    ensures (forall i | 0 <= i < |days| :: days[i] <= limit) <==> AllBy(days, limit)
  {
    assert forall i | 0 <= i < |days| :: days[i] in days;
  }

  lemma {:induction false} DayAndBounds(asOf: Date, w: Option<Window>, v: Option<Window>, limit: Date)
    ensures AllBy([asOf] + OptionalBounds(w), limit) <==> asOf <= limit && MayEndBy(w, limit)
    ensures AllBy([asOf] + OptionalBounds(w) + OptionalBounds(v), limit) <==> asOf <= limit && MayEndBy(w, limit) && MayEndBy(v, limit)
  {
    OptionalBoundsBy(w, limit);
    OptionalBoundsBy(v, limit);
    AllByParts([asOf] + OptionalBounds(w), OptionalBounds(v), limit);
    AllByParts([asOf], OptionalBounds(w), limit);
    assert AllBy([asOf], limit) <==> asOf <= limit by {
      assert asOf in [asOf];
    }
  }

  lemma {:induction false} PeriodsBy(facts: seq<FactSpec>, limit: Date)
    ensures (forall i | 0 <= i < |facts| :: facts[i].periodEnd <= limit) <==> forall f | f in facts :: f.periodEnd <= limit
  {
    if forall f | f in facts :: f.periodEnd <= limit {
      forall i | 0 <= i < |facts|
        ensures facts[i].periodEnd <= limit
      {
        assert facts[i] in facts;
      }
    }
  }

  lemma {:induction false} DatesExactly(t: ResolvedTask, cutoff: Date)
    ensures TaskDatesOk(t, cutoff) <==> LooksBack(t, cutoff)
  {
    AllByIndex(Dates(t), cutoff);
    match t
    case FinancialTask(_, asOf, _, facts) =>
      DayAndBounds(asOf, None, None, cutoff);
      assert [asOf] + OptionalBounds(None) == Dates(t);
      PeriodsBy(facts, asOf);
    case DisclosureTask(_, asOf, _, _, documents, events, _) =>
      DayAndBounds(asOf, documents, events, cutoff);
    case EventTask(_, timepoints, _, _, selector, _) =>
      BoundsBy(selector, cutoff);
      AllByParts(timepoints, Bounds(selector), cutoff);
    case CorrectionTask(_, asOf, _, _, documents, events, _) =>
      DayAndBounds(asOf, documents, events, cutoff);
    case DocumentTask(_, asOf, window, events, _) =>
      DayAndBounds(asOf, Some(window), events, cutoff);
    case NarrativeTask(_, asOf, documents, periodEnds, _) =>
      DayAndBounds(asOf, documents, None, cutoff);
      AllByIndex(periodEnds, cutoff);
  }

  /* ---- Outputs ---- */

  /** The task offers an output: a fact of it, its own, or a field of it. Documents and narratives offer none. */
  ghost predicate Offers(t: ResolvedTask, id: string) {
    match t
    case FinancialTask(_, _, _, facts) => exists f :: f in facts && f.outputId == id
    case DisclosureTask(_, _, outputId, fields, _, _, _) => outputId == Some(id) || exists f :: f in fields && f.outputId == id
    case EventTask(_, _, outputId, fields, _, _) => outputId == Some(id) || exists f :: f in fields && f.outputId == id
    case CorrectionTask(_, _, outputId, fields, _, _, _) => outputId == Some(id) || exists f :: f in fields && f.outputId == id
    case _ => false
  }

  lemma {:induction false} FieldOffered(fields: seq<FieldOutput>, id: string)
    ensures id in FieldIds(fields) <==> exists f :: f in fields && f.outputId == id
  {
    if f :| f in fields && f.outputId == id {
      var k :| 0 <= k < |fields| && fields[k] == f;
      assert FieldIds(fields)[k] == id;
    }
  }

  lemma {:induction false} FactOffered(facts: seq<FactSpec>, id: string)
    ensures id in FactIds(facts) <==> exists f :: f in facts && f.outputId == id
  {
    if f :| f in facts && f.outputId == id {
      var k :| 0 <= k < |facts| && facts[k] == f;
      assert FactIds(facts)[k] == id;
    }
  }

  lemma {:induction false} OffersExactly(t: ResolvedTask, id: string)
    ensures id in Outputs(t) <==> Offers(t, id)
  {
    match t
    case FinancialTask(_, _, _, facts) => FactOffered(facts, id);
    case DisclosureTask(_, _, outputId, fields, _, _, _) =>
      FieldOffered(fields, id);
      assert Outputs(t) == Present(outputId) + FieldIds(fields);
    case EventTask(_, _, outputId, fields, _, _) =>
      FieldOffered(fields, id);
      assert Outputs(t) == Present(outputId) + FieldIds(fields);
    case CorrectionTask(_, _, outputId, fields, _, _, _) =>
      FieldOffered(fields, id);
      assert Outputs(t) == Present(outputId) + FieldIds(fields);
    case _ =>
  }

  ghost predicate NamedOnce(own: Option<string>, fields: seq<FieldOutput>) {
    && (forall i, j | 0 <= i < j < |fields| :: fields[i].outputId != fields[j].outputId)
    && forall i | 0 <= i < |fields| :: own != Some(fields[i].outputId)
  }

  /** No two outputs of the task have one name. */
  ghost predicate OffersOnce(t: ResolvedTask) {
    match t
    case FinancialTask(_, _, _, facts) => forall i, j | 0 <= i < j < |facts| :: facts[i].outputId != facts[j].outputId
    case DisclosureTask(_, _, outputId, fields, _, _, _) => NamedOnce(outputId, fields)
    case EventTask(_, _, outputId, fields, _, _) => NamedOnce(outputId, fields)
    case CorrectionTask(_, _, outputId, fields, _, _, _) => NamedOnce(outputId, fields)
    case _ => true
  }

  lemma {:induction false} NamedOnceExactly(own: Option<string>, fields: seq<FieldOutput>)
    ensures Distinct(Present(own) + FieldIds(fields)) <==> NamedOnce(own, fields)
  {
    DistinctParts(Present(own), FieldIds(fields));
    assert forall i | 0 <= i < |fields| :: FieldIds(fields)[i] == fields[i].outputId && fields[i].outputId in FieldIds(fields);
  }

  lemma {:induction false} OnceExactly(t: ResolvedTask)
    ensures Distinct(Outputs(t)) <==> OffersOnce(t)
  {
    match t
    case FinancialTask(_, _, _, facts) =>
      assert forall i | 0 <= i < |facts| :: FactIds(facts)[i] == facts[i].outputId;
    case DisclosureTask(_, _, outputId, fields, _, _, _) => NamedOnceExactly(outputId, fields);
    case EventTask(_, _, outputId, fields, _, _) => NamedOnceExactly(outputId, fields);
    case CorrectionTask(_, _, outputId, fields, _, _, _) => NamedOnceExactly(outputId, fields);
    case _ =>
  }

  /** Something of the plan defines `id` before derivation `n`. */
  ghost predicate DefinedBefore(plan: ResolvedQueryPlan, n: nat, id: string) {
    || OfferedBy(plan.tasks, |plan.tasks|, id)
    || (exists k :: 0 <= k < n && k < |plan.derivations| && plan.derivations[k].outputId == id)
  }

  ghost predicate IsTaskId(plan: ResolvedQueryPlan, id: string) {
    exists i :: 0 <= i < |plan.tasks| && plan.tasks[i].taskId == id
  }

  ghost predicate IsClaimId(plan: ResolvedQueryPlan, id: string) {
    exists i :: 0 <= i < |plan.premises| && plan.premises[i].claimId == id
  }

  ghost predicate OfferedBy(tasks: seq<ResolvedTask>, n: nat, id: string)
    requires n <= |tasks|
  {
    exists i :: 0 <= i < n && Offers(tasks[i], id)
  }

  lemma {:induction false} OutputsOffered(tasks: seq<ResolvedTask>, n: nat, id: string)
    requires n <= |tasks|
    ensures id in OutputsUpTo(tasks, n) <==> OfferedBy(tasks, n, id)
  {
    if n > 0 {
      OutputsOffered(tasks, n - 1, id);
      OffersExactly(tasks[n - 1], id);
    }
  }

  lemma {:induction false} DefinedExactly(plan: ResolvedQueryPlan, n: nat, id: string)
    requires n <= |plan.derivations|
    ensures id in KnownBefore(plan, n) <==> DefinedBefore(plan, n, id)
  {
    OutputsOffered(plan.tasks, |plan.tasks|, id);
  }

  /** No output is offered twice, by one task or by two. */
  ghost predicate OfferedOnce(tasks: seq<ResolvedTask>, n: nat)
    requires n <= |tasks|
  {
    && (forall i | 0 <= i < n :: OffersOnce(tasks[i]))
    && forall i, k, id | 0 <= i < k < n && Offers(tasks[i], id) :: !Offers(tasks[k], id)
  }

  /** The outputs of task `n` are offered by no task before it. */
  ghost predicate FreshAt(tasks: seq<ResolvedTask>, n: nat)
    requires n < |tasks|
  {
    forall id | OfferedBy(tasks, n, id) :: !Offers(tasks[n], id)
  }

  lemma {:induction false} FreshExactly(tasks: seq<ResolvedTask>, n: nat)
    requires n < |tasks|
    ensures (forall id | id in OutputsUpTo(tasks, n) :: id !in Outputs(tasks[n])) <==> FreshAt(tasks, n)
  {
    forall id
      ensures id in OutputsUpTo(tasks, n) <==> OfferedBy(tasks, n, id)
      ensures id in Outputs(tasks[n]) <==> Offers(tasks[n], id)
    {
      OutputsOffered(tasks, n, id);
      OffersExactly(tasks[n], id);
    }
  }

  lemma {:induction false} OfferedNext(tasks: seq<ResolvedTask>, n: nat)
    requires n < |tasks|
    ensures OfferedOnce(tasks, n + 1) <==> OfferedOnce(tasks, n) && OffersOnce(tasks[n]) && FreshAt(tasks, n)
  {
    if OfferedOnce(tasks, n) && OffersOnce(tasks[n]) && FreshAt(tasks, n) {
      forall i, k, id | 0 <= i < k < n + 1 && Offers(tasks[i], id)
        ensures !Offers(tasks[k], id)
      {
        assert k == n ==> OfferedBy(tasks, n, id);
      }
    }
  }

  lemma {:induction false} DistinctNext(tasks: seq<ResolvedTask>, n: nat)
    requires n < |tasks|
    ensures Distinct(OutputsUpTo(tasks, n + 1)) <==> Distinct(OutputsUpTo(tasks, n)) && OffersOnce(tasks[n]) && FreshAt(tasks, n)
  {
    DistinctParts(OutputsUpTo(tasks, n), Outputs(tasks[n]));
    OnceExactly(tasks[n]);
    FreshExactly(tasks, n);
  }

  lemma {:induction false} OfferedOnceExactly(tasks: seq<ResolvedTask>, n: nat)
    requires n <= |tasks|
    ensures Distinct(OutputsUpTo(tasks, n)) <==> OfferedOnce(tasks, n)
  {
    if n > 0 {
      OfferedOnceExactly(tasks, n - 1);
      DistinctNext(tasks, n - 1);
      OfferedNext(tasks, n - 1);
    }
  }

  /* ---- Plans ---- */

  ghost predicate DerivationFine(plan: ResolvedQueryPlan, k: nat)
    requires k < |plan.derivations|
  {
    && !DefinedBefore(plan, k, plan.derivations[k].outputId)
    && forall id | id in plan.derivations[k].operands :: DefinedBefore(plan, k, id)
  }

  ghost predicate PremiseFine(plan: ResolvedQueryPlan, c: PremiseClaim) {
    && (forall id | id in c.verifyWith :: DefinedBefore(plan, |plan.derivations|, id))
    && (forall id | id in c.verifyTasks :: IsTaskId(plan, id))
  }

  /** Tasks that look back only, names defined once and before use, and no name that is of two sorts. */
  ghost predicate PlanFine(plan: ResolvedQueryPlan) {
    && plan.tasks != [] && Distinct(plan.appliedDefaults)
    && (forall i, j | 0 <= i < j < |plan.tasks| :: plan.tasks[i].taskId != plan.tasks[j].taskId)
    && (forall i, j | 0 <= i < j < |plan.premises| :: plan.premises[i].claimId != plan.premises[j].claimId)
    && (forall i | 0 <= i < |plan.tasks| :: LooksBack(plan.tasks[i], plan.corpusCutoff))
    && OfferedOnce(plan.tasks, |plan.tasks|)
    && (forall k | 0 <= k < |plan.derivations| :: DerivationFine(plan, k))
    && (forall k | 0 <= k < |plan.premises| :: PremiseFine(plan, plan.premises[k]))
    && forall id :: !(IsTaskId(plan, id) && DefinedBefore(plan, |plan.derivations|, id))
                    && !(IsTaskId(plan, id) && IsClaimId(plan, id))
                    && !(DefinedBefore(plan, |plan.derivations|, id) && IsClaimId(plan, id))
  }

  lemma {:induction false} IdsExactly(plan: ResolvedQueryPlan, id: string)
    ensures id in TaskIds(plan.tasks) <==> IsTaskId(plan, id)
    ensures id in ClaimIds(plan.premises) <==> IsClaimId(plan, id)
  {
    if i :| 0 <= i < |plan.tasks| && plan.tasks[i].taskId == id {
      assert TaskIds(plan.tasks)[i] == id;
    }
    if i :| 0 <= i < |plan.premises| && plan.premises[i].claimId == id {
      assert ClaimIds(plan.premises)[i] == id;
    }
  }

  lemma {:induction false} AllDatesExactly(plan: ResolvedQueryPlan, n: nat)
    requires n <= |plan.tasks|
    ensures DatesOkUpTo(plan, n) <==> forall i | 0 <= i < n :: LooksBack(plan.tasks[i], plan.corpusCutoff)
  {
    if n > 0 {
      AllDatesExactly(plan, n - 1);
      DatesExactly(plan.tasks[n - 1], plan.corpusCutoff);
    }
  }

  lemma {:induction false} SubsetExactly(names: seq<string>, known: set<string>)
    ensures Subset(names, known) <==> forall id | id in names :: id in known
  {
    assert forall id | id in names :: exists i :: 0 <= i < |names| && names[i] == id;
    assert forall i | 0 <= i < |names| :: names[i] in names;
  }

  lemma {:induction false} DerivationExactly(plan: ResolvedQueryPlan, k: nat)
    requires k < |plan.derivations|
    ensures DerivationLinked(plan, k) <==> DerivationFine(plan, k)
  {
    SubsetExactly(plan.derivations[k].operands, KnownBefore(plan, k));
    forall id
      ensures id in KnownBefore(plan, k) <==> DefinedBefore(plan, k, id)
    {
      DefinedExactly(plan, k, id);
    }
  }

  lemma {:induction false} PremiseExactly(plan: ResolvedQueryPlan, c: PremiseClaim)
    ensures PremiseLinked(plan, c) <==> PremiseFine(plan, c)
  {
    SubsetExactly(c.verifyWith, Known(plan));
    SubsetExactly(c.verifyTasks, Elements(TaskIds(plan.tasks)));
    forall id
      ensures id in Known(plan) <==> DefinedBefore(plan, |plan.derivations|, id)
      ensures id in Elements(TaskIds(plan.tasks)) <==> IsTaskId(plan, id)
    {
      DefinedExactly(plan, |plan.derivations|, id);
      IdsExactly(plan, id);
    }
  }

  lemma {:induction false} SortsExactly(plan: ResolvedQueryPlan)
    ensures && Elements(TaskIds(plan.tasks)) !! Known(plan) && Elements(TaskIds(plan.tasks)) !! Elements(ClaimIds(plan.premises))
            && Known(plan) !! Elements(ClaimIds(plan.premises))
            <==> forall id :: !(IsTaskId(plan, id) && DefinedBefore(plan, |plan.derivations|, id))
                              && !(IsTaskId(plan, id) && IsClaimId(plan, id))
                              && !(DefinedBefore(plan, |plan.derivations|, id) && IsClaimId(plan, id))
  {
    forall id
      ensures id in Known(plan) <==> DefinedBefore(plan, |plan.derivations|, id)
      ensures id in Elements(TaskIds(plan.tasks)) <==> IsTaskId(plan, id)
      ensures id in Elements(ClaimIds(plan.premises)) <==> IsClaimId(plan, id)
    {
      DefinedExactly(plan, |plan.derivations|, id);
      IdsExactly(plan, id);
    }
  }

  lemma {:induction false} IdsDiffer(plan: ResolvedQueryPlan)
    ensures Distinct(TaskIds(plan.tasks)) <==> forall i, j | 0 <= i < j < |plan.tasks| :: plan.tasks[i].taskId != plan.tasks[j].taskId
    ensures Distinct(ClaimIds(plan.premises)) <==>
            forall i, j | 0 <= i < j < |plan.premises| :: plan.premises[i].claimId != plan.premises[j].claimId
  {
    assert forall i | 0 <= i < |plan.tasks| :: TaskIds(plan.tasks)[i] == plan.tasks[i].taskId;
    assert forall i | 0 <= i < |plan.premises| :: ClaimIds(plan.premises)[i] == plan.premises[i].claimId;
  }

  /** The validator accepts exactly the fine plans. */
  lemma {:induction false} PlanExactly(plan: ResolvedQueryPlan)
    ensures WellFormedPlan(plan) <==> PlanFine(plan)
  {
    IdsDiffer(plan);
    AllDatesExactly(plan, |plan.tasks|);
    OfferedOnceExactly(plan.tasks, |plan.tasks|);
    forall k | 0 <= k < |plan.derivations|
      ensures DerivationLinked(plan, k) <==> DerivationFine(plan, k)
    {
      DerivationExactly(plan, k);
    }
    forall k | 0 <= k < |plan.premises|
      ensures PremiseLinked(plan, plan.premises[k]) <==> PremiseFine(plan, plan.premises[k])
    {
      PremiseExactly(plan, plan.premises[k]);
    }
    SortsExactly(plan);
  }
}
