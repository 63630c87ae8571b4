/** An assembled plan means what its proposal means. */
module PlanMeaning {
  import opened Wrappers
  import opened Decimals
  import opened Contracts
  import opened PlanValidity
  import opened Proposal
  import opened PlanPaths
  import opened PlanAssembly

  /** Any values of fetched facts and task outputs and any interpretation of the operators. Facts and
      tasks are seen without their generated ids. */
  datatype World<!V> = World(
    fact: (Date, string, FactSpec) -> V,
    output: (ResolvedTask, string) -> V,
    operator: (string, Option<string>, seq<V>) -> V)

  function Nameless(f: FactSpec): FactSpec {
    f.(outputId := "")
  }

  function NamelessTask(t: ResolvedTask): ResolvedTask {
    t.(taskId := "")
  }

  /* ---- What a proposal means ---- */

  /** The fact a verdict on one proposed fact stands for. */
  function FactOf(proposed: ProposedFact, verdict: Outcome): Option<(Date, string, FactSpec)> {
    match verdict
    case Returned(PlanReady(plan)) =>
      if plan.tasks != [] && plan.tasks[0].FinancialTask? && plan.tasks[0].facts != []
      then Some((plan.tasks[0].asOf, plan.tasks[0].view, Labelled(proposed, plan.tasks[0].facts[0]))) else None
    case _ => None
  }

  /** The resolved fact under the proposed label, with the proposed statement unless that is unspecified. */
  function Labelled(proposed: ProposedFact, fact: FactSpec): FactSpec {
    FactSpec(proposed.resultLabel, fact.concept, fact.periodEnd,
             if proposed.statement != "unspecified" then Some(proposed.statement) else fact.statement, fact.detail)
  }

  /** The rule a proposed rounding rule asks for. */
  function RuleOf(rule: string): Option<string> {
    if rule != "unspecified" then Some(rule) else None
  }

  /** What the delegate resolved for fact `j` of task `i` on its own. */
  function FactAlone(q: Request, i: nat, j: nat): Option<(Date, string, FactSpec)>
    requires i < |q.proposal.tasks| && j < |q.proposal.tasks[i].facts|
  {
    FactOf(q.proposal.tasks[i].facts[j], q.factVerdict(i, j))
  }

  /** What the delegate resolved for task `i` on its own. */
  function TaskAlone(q: Request, i: nat): Option<ResolvedTask>
    requires i < |q.proposal.tasks|
  {
    match q.taskVerdict(i)
    case Returned(PlanReady(plan)) => if plan.tasks != [] then Some(plan.tasks[0]) else None
    case _ => None
  }

  /** The values of the first `n` fact labels of task `i`, added to `env`. */
  function FactValues<V>(q: Request, w: World<V>, i: nat, n: nat, env: map<string, V>): map<string, V>
    requires i < |q.proposal.tasks| && n <= |q.proposal.tasks[i].facts|
  {
    if n == 0 then env else
    var before := FactValues(q, w, i, n - 1, env);
    match FactAlone(q, i, n - 1)
    case None => before
    case Some((asOf, view, f)) =>
      before[q.proposal.tasks[i].facts[n - 1].resultLabel := w.fact(asOf, view, Nameless(f))]
  }

  function LabelValues<V>(w: World<V>, t: ResolvedTask, names: seq<string>, outputs: seq<string>, n: nat,
                          env: map<string, V>): map<string, V>
    requires n <= |names| && n <= |outputs|
  {
    if n == 0 then env
    else LabelValues(w, t, names, outputs, n - 1, env)[names[n - 1] := w.output(NamelessTask(t), outputs[n - 1])]
  }

  /** The values task `i` adds to `env`. */
  function TaskValues<V>(q: Request, w: World<V>, i: nat, env: map<string, V>): map<string, V>
    requires i < |q.proposal.tasks|
  {
    var task := q.proposal.tasks[i];
    if task.kind == Financial then FactValues(q, w, i, |task.facts|, env) else
    match TaskAlone(q, i)
    case None => env
    case Some(t) =>
      var outputs := ScalarOutputs(t);
      if |task.resultLabels| == |outputs| then LabelValues(w, t, task.resultLabels, outputs, |outputs|, env) else env
  }

  /** The values of the labels of the first `n` tasks. */
  function BaseValues<V>(q: Request, w: World<V>, n: nat): map<string, V>
    requires n <= |q.proposal.tasks|
  {
    if n == 0 then map[] else TaskValues(q, w, n - 1, BaseValues(q, w, n - 1))
  }

  /** The values of all labels once the first `n` derivations are evaluated in list order over `base`. */
  function DerivedValues<V>(w: World<V>, base: map<string, V>, ds: seq<ProposedDerivation>, n: nat): Option<map<string, V>>
    requires n <= |ds|
  {
    if n == 0 then Some(base) else
    match DerivedValues(w, base, ds, n - 1)
    case None => None
    case Some(env) =>
      match Operands(env, ds[n - 1].operandLabels)
      case None => None
      case Some(values) => Some(env[ds[n - 1].resultLabel := w.operator(ds[n - 1].operator, RuleOf(ds[n - 1].roundingRule), values)])
  }

  /** The value of every label of the proposal. */
  function ProposalValues<V>(q: Request, w: World<V>): Option<map<string, V>>
  {
    DerivedValues(w, BaseValues(q, w, |q.proposal.tasks|), q.proposal.derivations, |q.proposal.derivations|)
  }

  /** The value of every output of a plan. */
  function PlanValues<V>(plan: ResolvedQueryPlan, w: World<V>): Option<map<string, V>> {
    Evaluate(plan, MeaningIn(w), |plan.derivations|)
  }

  /* ---- What a plan means ---- */

  function FactNamed(facts: seq<FactSpec>, id: string): FactSpec {
    if facts == [] then FactSpec("", "", 0, None, "")
    else if facts[0].outputId == id then facts[0]
    else FactNamed(facts[1..], id)
  }

  function FetchIn<V>(w: World<V>, t: ResolvedTask, id: string): V {
    if t.FinancialTask? then w.fact(t.asOf, t.view, Nameless(FactNamed(t.facts, id)))
    else w.output(NamelessTask(t), id)
  }

  function MeaningIn<V>(w: World<V>): Meaning<V> {
    Meaning((t, id) => FetchIn(w, t, id), (d: Derivation, values) => w.operator(d.operator, d.rounding, values))
  }

  /** Output `id` of plan task `t` is worth `v`. */
  ghost predicate Denotes<V>(w: World<V>, t: ResolvedTask, id: string, v: V) {
    if t.FinancialTask?
    then exists k | 0 <= k < |t.facts| :: t.facts[k].outputId == id && w.fact(t.asOf, t.view, Nameless(t.facts[k])) == v
    else id in ScalarOutputs(t) && w.output(NamelessTask(t), id) == v
  }

  /** Some task holds an output worth `v`. */
  ghost predicate Held<V>(w: World<V>, tasks: seq<ResolvedTask>, id: string, v: V) {
    exists k | 0 <= k < |tasks| :: Denotes(w, tasks[k], id, v)
  }

  /** The label `name` is bound to an output worth its value. */
  ghost predicate BoundAt<V>(w: World<V>, tasks: seq<ResolvedTask>, labels: map<string, string>, env: map<string, V>, name: string) {
    name in env ==> name in labels && Held(w, tasks, labels[name], env[name])
  }

  /** Every label is bound to an output worth the label's value. */
  ghost predicate Bound<V>(w: World<V>, tasks: seq<ResolvedTask>, labels: map<string, string>, env: map<string, V>) {
    labels.Keys == env.Keys && forall name :: BoundAt(w, tasks, labels, env, name)
  }

  lemma {:induction false} HeldLonger<V>(w: World<V>, tasks: seq<ResolvedTask>, more: seq<ResolvedTask>, id: string, v: V)
    requires Held(w, tasks, id, v) || Held(w, more, id, v)
    ensures Held(w, tasks + more, id, v)
  {
    if k :| 0 <= k < |tasks| && Denotes(w, tasks[k], id, v) {
      assert (tasks + more)[k] == tasks[k];
    } else {
      var k :| 0 <= k < |more| && Denotes(w, more[k], id, v);
      assert (tasks + more)[|tasks| + k] == more[k];
    }
  }

  lemma {:induction false} BoundLonger<V>(w: World<V>, tasks: seq<ResolvedTask>, more: seq<ResolvedTask>, labels: map<string, string>, env: map<string, V>)
    requires Bound(w, tasks, labels, env)
    ensures Bound(w, tasks + more, labels, env)
  {
    forall name
      ensures BoundAt(w, tasks + more, labels, env, name)
    {
      assert BoundAt(w, tasks, labels, env, name);
      if name in env {
        HeldLonger(w, tasks, more, labels[name], env[name]);
      }
    }
  }

  lemma {:induction false} BoundUpdate<V>(w: World<V>, tasks: seq<ResolvedTask>, labels: map<string, string>, env: map<string, V>,
                       name: string, id: string, v: V)
    requires Bound(w, tasks, labels, env) && Held(w, tasks, id, v)
    ensures Bound(w, tasks, labels[name := id], env[name := v])
  {
    var labels', env' := labels[name := id], env[name := v];
    forall other
      ensures BoundAt(w, tasks, labels', env', other)
    {
      assert BoundAt(w, tasks, labels, env, other);
    }
  }

  /* ---- Regrouping ---- */

  /** Group `g` of a grouping, as the plan task it will become. */
  function GroupTask(g: Group): ResolvedTask {
    FinancialTask("", g.asOf, g.view, g.facts)
  }

  function AsTasks(groups: seq<Group>): seq<ResolvedTask> {
    Map((g: Group) => GroupTask(g), groups)
  }

  /** The first `n` facts were each resolved alone. */
  predicate AllResolved(q: Request, i: nat, n: nat)
    requires i < |q.proposal.tasks| && n <= |q.proposal.tasks[i].facts|
  {
    forall j | 0 <= j < n :: FactAlone(q, i, j).Some?
  }

  /** The facts resolved alone, in proposal order. */
  function Resolved(q: Request, i: nat, n: nat): seq<(Date, string, FactSpec)>
    requires i < |q.proposal.tasks| && n <= |q.proposal.tasks[i].facts| && AllResolved(q, i, n)
  {
    seq(n, j requires 0 <= j < n => FactAlone(q, i, j).value)
  }

  /** The facts among `rows` that fall under one (as_of, view). */
  function Selected(rows: seq<(Date, string, FactSpec)>, asOf: Date, view: string): seq<FactSpec> {
    if rows == [] then [] else
    var last := rows[|rows| - 1];
    Selected(rows[..|rows| - 1], asOf, view) + if last.0 == asOf && last.1 == view then [last.2] else []
  }

  /** The groups partition `rows`: different keys, each group holding in order exactly the rows of its
      key, and no row left out. */
  ghost predicate Partitions(groups: seq<Group>, rows: seq<(Date, string, FactSpec)>) {
    && (forall g, h | 0 <= g < h < |groups| :: !(groups[g].asOf == groups[h].asOf && groups[g].view == groups[h].view))
    && (forall g | 0 <= g < |groups| :: groups[g].facts == Selected(rows, groups[g].asOf, groups[g].view) != [])
    && (forall k | 0 <= k < |rows| :: HasKey(groups, rows[k].0, rows[k].1))
  }

  ghost predicate HasKey(groups: seq<Group>, asOf: Date, view: string) {
    exists g | 0 <= g < |groups| :: groups[g].asOf == asOf && groups[g].view == view
  }

  /** What adding one fact does, key by key. */
  lemma {:induction false} AddFactShape(groups: seq<Group>, asOf: Date, view: string, f: FactSpec)
    ensures var added := AddFact(groups, asOf, view, f);
            && |groups| <= |added|
            && (forall g | 0 <= g < |groups| ::
                  added[g].asOf == groups[g].asOf && added[g].view == groups[g].view
                  && groups[g].facts <= added[g].facts)
            && (HasKey(groups, asOf, view) ==> |added| == |groups|)
            && (!HasKey(groups, asOf, view) ==>
                  added == groups + [Group(asOf, view, [f])])
  {
    if groups != [] && !(groups[0].asOf == asOf && groups[0].view == view) {
      AddFactShape(groups[1..], asOf, view, f);
      assert HasKey(groups, asOf, view) <==> HasKey(groups[1..], asOf, view);
      assert groups == [groups[0]] + groups[1..];
    }
  }

  lemma {:induction false} AddFactAt(groups: seq<Group>, asOf: Date, view: string, f: FactSpec, g: nat)
    requires g < |groups|
    requires forall a, b | 0 <= a < b < |groups| :: !(groups[a].asOf == groups[b].asOf && groups[a].view == groups[b].view)
    ensures |AddFact(groups, asOf, view, f)| >= |groups|
    ensures AddFact(groups, asOf, view, f)[g]
         == if groups[g].asOf == asOf && groups[g].view == view then groups[g].(facts := groups[g].facts + [f]) else groups[g]
  {
    AddFactShape(groups, asOf, view, f);
    if g > 0 && !(groups[0].asOf == asOf && groups[0].view == view) {
      AddFactAt(groups[1..], asOf, view, f, g - 1);
    }
  }

  lemma {:induction false} SelectedAppend(rows: seq<(Date, string, FactSpec)>, row: (Date, string, FactSpec), asOf: Date, view: string)
    ensures Selected(rows + [row], asOf, view)
         == Selected(rows, asOf, view) + if row.0 == asOf && row.1 == view then [row.2] else []
  {
    assert (rows + [row])[..|rows|] == rows;
  }

  lemma {:induction false} SelectedNothing(rows: seq<(Date, string, FactSpec)>, asOf: Date, view: string)
    requires forall k | 0 <= k < |rows| :: !(rows[k].0 == asOf && rows[k].1 == view)
    ensures Selected(rows, asOf, view) == []
  {
    if rows != [] {
      SelectedNothing(rows[..|rows| - 1], asOf, view);
    }
  }

  lemma {:induction false} PartitionKeepsKeys(groups: seq<Group>, rows: seq<(Date, string, FactSpec)>, row: (Date, string, FactSpec))
    requires Partitions(groups, rows)
    ensures var added := AddFact(groups, row.0, row.1, row.2);
            && (forall g, h | 0 <= g < h < |added| :: !(added[g].asOf == added[h].asOf && added[g].view == added[h].view))
            && (forall k | 0 <= k < |rows + [row]| :: HasKey(added, (rows + [row])[k].0, (rows + [row])[k].1))
  {
    var added := AddFact(groups, row.0, row.1, row.2);
    AddFactShape(groups, row.0, row.1, row.2);
    assert HasKey(added, row.0, row.1) by {
      if g :| 0 <= g < |groups| && groups[g].asOf == row.0 && groups[g].view == row.1 {
        assert added[g].asOf == row.0;
      } else {
        assert added[|groups|].asOf == row.0;
      }
    }
    forall k | 0 <= k < |rows|
      ensures HasKey(added, rows[k].0, rows[k].1)
    {
      var g :| 0 <= g < |groups| && groups[g].asOf == rows[k].0 && groups[g].view == rows[k].1;
      assert added[g].asOf == rows[k].0;
    }
  }

  /** Adding a fact extends the partition by that fact. */
  lemma {:induction false} PartitionGrows(groups: seq<Group>, rows: seq<(Date, string, FactSpec)>, row: (Date, string, FactSpec))
    requires Partitions(groups, rows)
    ensures Partitions(AddFact(groups, row.0, row.1, row.2), rows + [row])
  {
    var added := AddFact(groups, row.0, row.1, row.2);
    PartitionKeepsKeys(groups, rows, row);
    AddFactShape(groups, row.0, row.1, row.2);
    forall g | 0 <= g < |added|
      ensures added[g].facts == Selected(rows + [row], added[g].asOf, added[g].view) != []
    {
      SelectedAppend(rows, row, added[g].asOf, added[g].view);
      if g < |groups| {
        AddFactAt(groups, row.0, row.1, row.2, g);
      } else {
        forall k | 0 <= k < |rows|
          ensures !(rows[k].0 == row.0 && rows[k].1 == row.1)
        {
          assert HasKey(groups, rows[k].0, rows[k].1);
        }
        SelectedNothing(rows, row.0, row.1);
      }
    }
  }

  /** One more fact, seen from outside the step. */
  lemma {:induction false} FactStepShape(q: Request, proposed: ProposedFact, verdict: Outcome, s: Grouping)
    requires FactStep(q, proposed, verdict, s).Going?
    ensures FactOf(proposed, verdict).Some?
    ensures var (asOf, view, f), s' := FactOf(proposed, verdict).value, FactStep(q, proposed, verdict, s).state;
            && f.outputId == proposed.resultLabel
            && s'.groups == AddFact(s.groups, asOf, view, f)
            && s'.assembly.tasks == s.assembly.tasks && s'.assembly.taskIds == s.assembly.taskIds
            && s'.assembly.labels == s.assembly.labels[f.outputId := f.outputId]
  {
  }

  lemma {:induction false} FactsNext(q: Request, i: nat, n: nat, a: Assembly)
    requires i < |q.proposal.tasks| && 0 < n <= |q.proposal.tasks[i].facts| && FactsAfter(q, i, n, a).Going?
    ensures FactsAfter(q, i, n - 1, a).Going?
    ensures FactStep(q, q.proposal.tasks[i].facts[n - 1], q.factVerdict(i, n - 1), FactsAfter(q, i, n - 1, a).state)
         == FactsAfter(q, i, n, a)
  {
  }

  /** The first `n` facts were all resolved, and the groups partition them. */
  ghost predicate Regrouped(q: Request, i: nat, n: nat, groups: seq<Group>)
    requires i < |q.proposal.tasks| && n <= |q.proposal.tasks[i].facts|
  {
    AllResolved(q, i, n) && Partitions(groups, Resolved(q, i, n))
  }

  lemma {:induction false} RegroupedNext(q: Request, i: nat, n: nat, s: Grouping, s': Grouping)
    requires i < |q.proposal.tasks| && n < |q.proposal.tasks[i].facts|
    requires Regrouped(q, i, n, s.groups)
    requires FactStep(q, q.proposal.tasks[i].facts[n], q.factVerdict(i, n), s) == Going(s')
    ensures Regrouped(q, i, n + 1, s'.groups)
  {
    FactStepShape(q, q.proposal.tasks[i].facts[n], q.factVerdict(i, n), s);
    PartitionGrows(s.groups, Resolved(q, i, n), FactAlone(q, i, n).value);
    assert Resolved(q, i, n + 1) == Resolved(q, i, n) + [FactAlone(q, i, n).value];
  }

  /** Regrouping keeps every resolved fact exactly once, under its own (as_of, view), in order. */
  lemma {:induction false} FactsArePartitioned(q: Request, i: nat, a: Assembly, s: Grouping)
    requires i < |q.proposal.tasks| && FactsAfter(q, i, |q.proposal.tasks[i].facts|, a) == Going(s)
    ensures Regrouped(q, i, |q.proposal.tasks[i].facts|, s.groups)
  {
    var facts, step := q.proposal.tasks[i].facts, FactStepOf(q, i);
    var kept := (n: nat, t: Grouping) => n <= |facts| && Regrouped(q, i, n, t.groups);
    forall n: nat, t | n < |facts| && kept(n, t) && step(n, t).Going?
      ensures kept(n + 1, step(n, t).state)
    {
      RegroupedNext(q, i, n, t, step(n, t).state);
    }
    IterateKeeps(step, |facts|, Grouping(a, []), kept);
  }

  /* ---- Labels keep their values while tasks are assembled ---- */

  lemma {:induction false} DenotesInGroup<V>(w: World<V>, groups: seq<Group>, asOf: Date, view: string, f: FactSpec)
    ensures Held(w, AsTasks(AddFact(groups, asOf, view, f)), f.outputId, w.fact(asOf, view, Nameless(f)))
    decreases groups
  {
    var added := AddFact(groups, asOf, view, f);
    if groups == [] {
      assert Denotes(w, AsTasks(added)[0], f.outputId, w.fact(asOf, view, Nameless(f))) by {
        assert added[0].facts[0] == f;
      }
    } else if groups[0].asOf == asOf && groups[0].view == view {
      assert Denotes(w, AsTasks(added)[0], f.outputId, w.fact(asOf, view, Nameless(f))) by {
        assert added[0].facts[|groups[0].facts|] == f;
      }
    } else {
      DenotesInGroup(w, groups[1..], asOf, view, f);
      var rest := AddFact(groups[1..], asOf, view, f);
      var k :| 0 <= k < |rest| && Denotes(w, AsTasks(rest)[k], f.outputId, w.fact(asOf, view, Nameless(f)));
      assert AsTasks(added)[k + 1] == AsTasks(rest)[k];
    }
  }

  /** Facts already grouped stay where they are. */
  lemma {:induction false} HeldInGrown<V>(w: World<V>, groups: seq<Group>, asOf: Date, view: string, f: FactSpec, id: string, v: V)
    requires Held(w, AsTasks(groups), id, v)
    ensures Held(w, AsTasks(AddFact(groups, asOf, view, f)), id, v)
  {
    var added := AddFact(groups, asOf, view, f);
    AddFactShape(groups, asOf, view, f);
    var g :| 0 <= g < |groups| && Denotes(w, AsTasks(groups)[g], id, v);
    var k :| 0 <= k < |groups[g].facts| && groups[g].facts[k].outputId == id
             && w.fact(groups[g].asOf, groups[g].view, Nameless(groups[g].facts[k])) == v;
    assert added[g].facts[k] == groups[g].facts[k];
    assert Denotes(w, AsTasks(added)[g], id, v);
  }

  /** During a financial task a label is held by an earlier plan task or by a group. */
  ghost predicate BoundSoFar<V>(w: World<V>, s: Grouping, env: map<string, V>) {
    Bound(w, s.assembly.tasks + AsTasks(s.groups), s.assembly.labels, env)
  }

  lemma {:induction false} HeldSomewhere<V>(w: World<V>, tasks: seq<ResolvedTask>, more: seq<ResolvedTask>, id: string, v: V)
    requires Held(w, tasks + more, id, v)
    ensures Held(w, tasks, id, v) || Held(w, more, id, v)
  {
    var k :| 0 <= k < |tasks + more| && Denotes(w, (tasks + more)[k], id, v);
    if k < |tasks| {
      assert Denotes(w, tasks[k], id, v);
    } else {
      assert Denotes(w, more[k - |tasks|], id, v);
    }
  }

  /** Growing the groups loses no held output. */
  lemma {:induction false} HeldStillHeld<V>(w: World<V>, tasks: seq<ResolvedTask>, groups: seq<Group>, asOf: Date, view: string, f: FactSpec,
                         id: string, v: V)
    requires Held(w, tasks + AsTasks(groups), id, v)
    ensures Held(w, tasks + AsTasks(AddFact(groups, asOf, view, f)), id, v)
  {
    HeldSomewhere(w, tasks, AsTasks(groups), id, v);
    if !Held(w, tasks, id, v) {
      HeldInGrown(w, groups, asOf, view, f, id, v);
    }
    HeldLonger(w, tasks, AsTasks(AddFact(groups, asOf, view, f)), id, v);
  }

  lemma {:induction false} GroupingBound<V>(w: World<V>, s: Grouping, s': Grouping, env: map<string, V>, asOf: Date, view: string, f: FactSpec)
    requires BoundSoFar(w, s, env)
    requires s'.assembly.tasks == s.assembly.tasks && s'.groups == AddFact(s.groups, asOf, view, f)
    requires s'.assembly.labels == s.assembly.labels[f.outputId := f.outputId]
    ensures BoundSoFar(w, s', env[f.outputId := w.fact(asOf, view, Nameless(f))])
  {
    var tasks, labels, v := s.assembly.tasks, s.assembly.labels, w.fact(asOf, view, Nameless(f));
    DenotesInGroup(w, s.groups, asOf, view, f);
    HeldLonger(w, tasks, AsTasks(s'.groups), f.outputId, v);
    forall name
      ensures BoundAt(w, tasks + AsTasks(s'.groups), labels, env, name)
    {
      assert BoundAt(w, tasks + AsTasks(s.groups), labels, env, name);
      if name in env {
        HeldStillHeld(w, tasks, s.groups, asOf, view, f, labels[name], env[name]);
      }
    }
    BoundUpdate(w, tasks + AsTasks(s'.groups), labels, env, f.outputId, f.outputId, v);
  }

  lemma {:induction false} FactsBound<V>(q: Request, w: World<V>, i: nat, n: nat, a: Assembly, env: map<string, V>)
    requires i < |q.proposal.tasks| && n <= |q.proposal.tasks[i].facts| && FactsAfter(q, i, n, a).Going?
    requires Bound(w, a.tasks, a.labels, env)
    ensures BoundSoFar(w, FactsAfter(q, i, n, a).state, FactValues(q, w, i, n, env))
  {
    if n == 0 {
      assert a.tasks + AsTasks([]) == a.tasks;
    } else {
      FactsNext(q, i, n, a);
      FactsBound(q, w, i, n - 1, a, env);
      FactStepShape(q, q.proposal.tasks[i].facts[n - 1], q.factVerdict(i, n - 1), FactsAfter(q, i, n - 1, a).state);
      var (asOf, view, f) := FactAlone(q, i, n - 1).value;
      GroupingBound(w, FactsAfter(q, i, n - 1, a).state, FactsAfter(q, i, n, a).state,
                    FactValues(q, w, i, n - 1, env), asOf, view, f);
    }
  }

  lemma {:induction false} GroupsBecomeTasks<V>(w: World<V>, i: nat, groups: seq<Group>, id: string, v: V)
    requires Held(w, AsTasks(groups), id, v)
    ensures Held(w, GroupTasks(i, groups), id, v)
  {
    var g :| 0 <= g < |groups| && Denotes(w, AsTasks(groups)[g], id, v);
    assert Denotes(w, GroupTasks(i, groups)[g], id, v);
  }

  lemma {:induction false} FinancialBound<V>(w: World<V>, i: nat, s: Grouping, env: map<string, V>)
    requires BoundSoFar(w, s, env)
    ensures Bound(w, FinishFinancial(i, s).tasks, FinishFinancial(i, s).labels, env)
  {
    var tasks, labels := s.assembly.tasks, s.assembly.labels;
    forall name
      ensures BoundAt(w, tasks + GroupTasks(i, s.groups), labels, env, name)
    {
      assert BoundAt(w, tasks + AsTasks(s.groups), labels, env, name);
      if name in env {
        HeldSomewhere(w, tasks, AsTasks(s.groups), labels[name], env[name]);
        if !Held(w, tasks, labels[name], env[name]) {
          GroupsBecomeTasks(w, i, s.groups, labels[name], env[name]);
        }
        HeldLonger(w, tasks, GroupTasks(i, s.groups), labels[name], env[name]);
      }
    }
  }

  lemma {:induction false} BindBound<V>(w: World<V>, tasks: seq<ResolvedTask>, t: ResolvedTask, labels: map<string, string>,
                                        env: map<string, V>, names: seq<string>, outputs: seq<string>, n: nat)
    requires n <= |names| == |outputs| && t in tasks && ScalarOutputs(t) == outputs
    requires Bound(w, tasks, labels, env)
    ensures Bound(w, tasks, Bind(labels, names, outputs, n), LabelValues(w, t, names, outputs, n, env))
  {
    if n > 0 {
      BindBound(w, tasks, t, labels, env, names, outputs, n - 1);
      var k :| 0 <= k < |tasks| && tasks[k] == t;
      assert Held(w, tasks, outputs[n - 1], w.output(NamelessTask(t), outputs[n - 1])) by {
        assert Denotes(w, tasks[k], outputs[n - 1], w.output(NamelessTask(t), outputs[n - 1]));
      }
      BoundUpdate(w, tasks, Bind(labels, names, outputs, n - 1), LabelValues(w, t, names, outputs, n - 1, env),
                  names[n - 1], outputs[n - 1], w.output(NamelessTask(t), outputs[n - 1]));
    }
  }

  /** The generated id of a task does not change what it offers. */
  lemma {:induction false} RenamedTask<V>(w: World<V>, t: ResolvedTask, id: string, names: seq<string>, n: nat, env: map<string, V>)
    requires n <= |names| == |ScalarOutputs(t)|
    ensures var named := t.(taskId := id);
            && ScalarOutputs(named) == ScalarOutputs(t) && NamelessTask(named) == NamelessTask(t)
            && LabelValues(w, named, names, ScalarOutputs(t), n, env) == LabelValues(w, t, names, ScalarOutputs(t), n, env)
  {
    SameOutputs(t, id);
    SameValues(w, t.(taskId := id), t, names, ScalarOutputs(t), n, env);
  }

  lemma {:induction false} SameOutputs(t: ResolvedTask, id: string)
    ensures var named := t.(taskId := id);
            ScalarOutputs(named) == ScalarOutputs(t) && NamelessTask(named) == NamelessTask(t)
  {
  }

  lemma {:induction false} SameValues<V>(w: World<V>, t: ResolvedTask, u: ResolvedTask, names: seq<string>, outputs: seq<string>,
                                         n: nat, env: map<string, V>)
    requires n <= |names| == |outputs| && NamelessTask(t) == NamelessTask(u)
    ensures LabelValues(w, t, names, outputs, n, env) == LabelValues(w, u, names, outputs, n, env)
  {
    if n > 0 {
      SameValues(w, t, u, names, outputs, n - 1, env);
    }
  }

  lemma {:induction false} OtherBound<V>(q: Request, w: World<V>, i: nat, a: Assembly, env: map<string, V>)
    requires i < |q.proposal.tasks| && q.proposal.tasks[i].kind != Financial
    requires Bound(w, a.tasks, a.labels, env) && OtherStep(q, i, a).Going?
    ensures TaskAlone(q, i).Some?
    ensures var a', t, names := OtherStep(q, i, a).state, TaskAlone(q, i).value, q.proposal.tasks[i].resultLabels;
            Bound(w, a'.tasks, a'.labels,
                  if |names| == |ScalarOutputs(t)| then LabelValues(w, t, names, ScalarOutputs(t), |names|, env) else env)
  {
    var a', t, names := OtherStep(q, i, a).state, TaskAlone(q, i).value, q.proposal.tasks[i].resultLabels;
    var named := t.(taskId := KindId(q.proposal.tasks[i].kind, i));
    assert ScalarOutputs(named) == ScalarOutputs(t);
    BoundLonger(w, a.tasks, [named], a.labels, env);
    if |names| == |ScalarOutputs(t)| {
      RenamedTask(w, t, named.taskId, names, |names|, env);
      BindBound(w, a.tasks + [named], named, a.labels, env, names, ScalarOutputs(t), |names|);
    }
  }

  lemma {:induction false} TaskBound<V>(q: Request, w: World<V>, i: nat, a: Assembly, a': Assembly, env: map<string, V>)
    requires i < |q.proposal.tasks| && TaskStep(q, i, a) == Going(a')
    requires Bound(w, a.tasks, a.labels, env)
    ensures Bound(w, a'.tasks, a'.labels, TaskValues(q, w, i, env))
  {
    var task := q.proposal.tasks[i];
    if task.kind == Financial {
      FactsBound(q, w, i, |task.facts|, a, env);
      FinancialBound(w, i, FactsAfter(q, i, |task.facts|, a).state, FactValues(q, w, i, |task.facts|, env));
    } else {
      OtherBound(q, w, i, a, env);
    }
  }

  lemma {:induction false} NextBound<V>(q: Request, w: World<V>, n: nat, a: Assembly, a': Assembly)
    requires n < |q.proposal.tasks| && TaskStep(q, n, a) == Going(a')
    requires Bound(w, a.tasks, a.labels, BaseValues(q, w, n))
    ensures Bound(w, a'.tasks, a'.labels, BaseValues(q, w, n + 1))
  {
    TaskBound(q, w, n, a, a', BaseValues(q, w, n));
  }

  /** Once all tasks are assembled every label is bound to an output worth what the delegate alone gave it. */
  lemma {:induction false} TasksBound<V>(q: Request, w: World<V>, a: Assembly)
    requires TasksAfter(q, |q.proposal.tasks|) == Going(a)
    ensures Bound(w, a.tasks, a.labels, BaseValues(q, w, |q.proposal.tasks|))
  {
    var count, step := |q.proposal.tasks|, TaskStepOf(q);
    var kept := (n: nat, b: Assembly) => n <= count && Bound(w, b.tasks, b.labels, BaseValues(q, w, n));
    NothingIsBound(w);
    forall n: nat, b | n < count && kept(n, b) && step(n, b).Going?
      ensures kept(n + 1, step(n, b).state)
    {
      NextBound(q, w, n, b, step(n, b).state);
    }
    IterateKeeps(step, count, EMPTY, kept);
  }

  lemma {:induction false} NothingIsBound<V>(w: World<V>)
    ensures Bound(w, [], map[], map[])
  {
  }

  /* ---- From held outputs to the plan's own evaluation ---- */

  lemma {:induction false} FactNamedAt(facts: seq<FactSpec>, k: nat)
    requires k < |facts| && Distinct(FactIds(facts))
    ensures FactNamed(facts, facts[k].outputId) == facts[k]
  {
    assert forall i, j | 0 <= i < j < |facts| :: FactIds(facts)[i] != FactIds(facts)[j];
    if k > 0 {
      assert FactIds(facts)[0] != FactIds(facts)[k];
      assert FactIds(facts[1..]) == FactIds(facts)[1..];
      FactNamedAt(facts[1..], k - 1);
    }
  }

  lemma {:induction false} DenotedIsFetched<V>(w: World<V>, t: ResolvedTask, id: string, v: V)
    requires Denotes(w, t, id, v) && Distinct(Outputs(t))
    ensures id in Outputs(t) && FetchIn(w, t, id) == v
  {
    if t.FinancialTask? {
      var k :| 0 <= k < |t.facts| && t.facts[k].outputId == id && w.fact(t.asOf, t.view, Nameless(t.facts[k])) == v;
      FactNamedAt(t.facts, k);
      assert FactIds(t.facts)[k] == id;
    }
  }

  /** With no output offered twice, each is fetched from the task that offers it. */
  lemma {:induction false} FetchedAt<T, V>(tasks: seq<T>, outputs: T -> seq<string>, fetch: (T, string) -> V, n: nat, k: nat, id: string)
    requires k < n <= |tasks| && Distinct(Gather(tasks, outputs, n)) && id in outputs(tasks[k])
    ensures id in Gather(tasks, outputs, n)
    ensures id in FetchedFrom(tasks, outputs, fetch, n) && FetchedFrom(tasks, outputs, fetch, n)[id] == fetch(tasks[k], id)
  {
    DistinctParts(Gather(tasks, outputs, n - 1), outputs(tasks[n - 1]));
    if k < n - 1 {
      FetchedAt(tasks, outputs, fetch, n - 1, k, id);
    }
  }

  lemma {:induction false} PartIsDistinct<T>(tasks: seq<T>, outputs: T -> seq<string>, n: nat, k: nat)
    requires k < n <= |tasks| && Distinct(Gather(tasks, outputs, n))
    ensures Distinct(outputs(tasks[k]))
  {
    DistinctParts(Gather(tasks, outputs, n - 1), outputs(tasks[n - 1]));
    if k < n - 1 {
      PartIsDistinct(tasks, outputs, n - 1, k);
    }
  }

  lemma {:induction false} HeldIsFetched<V>(plan: ResolvedQueryPlan, w: World<V>, id: string, v: V)
    requires Distinct(AllOutputs(plan.tasks)) && Held(w, plan.tasks, id, v)
    ensures var fetched := Fetched(plan, MeaningIn(w), |plan.tasks|);
            id in fetched && fetched[id] == v
  {
    var k :| 0 <= k < |plan.tasks| && Denotes(w, plan.tasks[k], id, v);
    PartIsDistinct(plan.tasks, Outputs, |plan.tasks|, k);
    DenotedIsFetched(w, plan.tasks[k], id, v);
    FetchedAt(plan.tasks, Outputs, MeaningIn(w).fetch, |plan.tasks|, k, id);
  }

  /* ---- Why an assembly stops ---- */

  /** `o` is what the delegate said about one fact or one task, in whole-proposal coordinates. */
  ghost predicate FromDelegate(q: Request, o: Outcome)
  {
    || (exists i, j | 0 <= i < |q.proposal.tasks| && 0 <= j < |q.proposal.tasks[i].facts| :: q.factVerdict(i, j) == o)
    || (exists i | 0 <= i < |q.proposal.tasks| :: q.taskVerdict(i) == o)
  }

  predicate IsReady(o: Outcome) {
    o.Returned? && o.v.PlanReady?
  }

  predicate IsRefusal(o: Outcome) {
    o.Returned? && o.v.Unresolved? && o.v.status == "unsupported_request" && |o.v.reasons| == 1
  }

  /** A stop is never a plan: it is an exception, a typed refusal, or the delegate's own unready verdict. */
  ghost predicate Explained(q: Request, o: Outcome)
  {
    !IsReady(o) && (o.Raised? || IsRefusal(o) || FromDelegate(q, o))
  }

  lemma {:induction false} FactStopExplained(q: Request, proposed: ProposedFact, verdict: Outcome, s: Grouping)
    requires FactStep(q, proposed, verdict, s).Stopped?
    ensures var o := FactStep(q, proposed, verdict, s).outcome;
            !IsReady(o) && (o.Raised? || IsRefusal(o) || o == verdict)
  {
  }

  lemma {:induction false} FactsStopExplained(q: Request, i: nat, a: Assembly)
    requires i < |q.proposal.tasks| && FactsAfter(q, i, |q.proposal.tasks[i].facts|, a).Stopped?
    ensures Explained(q, FactsAfter(q, i, |q.proposal.tasks[i].facts|, a).outcome)
  {
    var facts := q.proposal.tasks[i].facts;
    var j := IterateStoppedAt(FactStepOf(q, i), |facts|, Grouping(a, []));
    FactStopExplained(q, facts[j], q.factVerdict(i, j), FactsAfter(q, i, j, a).state);
    assert FromDelegate(q, q.factVerdict(i, j));
  }

  lemma {:induction false} OtherStopExplained(q: Request, i: nat, a: Assembly)
    requires i < |q.proposal.tasks| && OtherStep(q, i, a).Stopped?
    ensures Explained(q, OtherStep(q, i, a).outcome)
  {
    assert FromDelegate(q, q.taskVerdict(i));
  }

  lemma {:induction false} TaskStopExplained(q: Request, i: nat, a: Assembly)
    requires i < |q.proposal.tasks| && TaskStep(q, i, a).Stopped?
    ensures Explained(q, TaskStep(q, i, a).outcome)
  {
    if q.proposal.tasks[i].kind == Financial {
      FactsStopExplained(q, i, a);
    } else {
      OtherStopExplained(q, i, a);
    }
  }

  lemma {:induction false} TasksStopExplained(q: Request)
    requires TasksAfter(q, |q.proposal.tasks|).Stopped?
    ensures Explained(q, TasksAfter(q, |q.proposal.tasks|).outcome)
  {
    var i := IterateStoppedAt(TaskStepOf(q), |q.proposal.tasks|, EMPTY);
    TaskStopExplained(q, i, TasksAfter(q, i).state);
  }

  lemma {:induction false} DerivationsStopExplained(policies: map<string, string>, labels: map<string, string>, ds: seq<ProposedDerivation>)
    requires DerivationsAfter(policies, labels, ds, |ds|).Stopped?
    ensures var o := DerivationsAfter(policies, labels, ds, |ds|).outcome;
            o.Raised? || IsRefusal(o)
  {
    var k := IterateStoppedAt(DerivationStepOf(policies, ds), |ds|, Links(labels, []));
    assert DerivationsAfter(policies, labels, ds, |ds|)
        == DerivationStep(policies, ds[k], DerivationsAfter(policies, labels, ds, k).state);
  }

  lemma {:induction false} PremisesStopExplained(q: Request, a: Assembly, labels: map<string, string>)
    requires PremisesAfter(q, a, labels, |q.proposal.premises|).Stopped?
    ensures var o := PremisesAfter(q, a, labels, |q.proposal.premises|).outcome;
            o.Raised? || IsRefusal(o)
  {
    var k := IterateStoppedAt(PremiseStepOf(q, a, labels), |q.proposal.premises|, []);
    assert PremiseStep(q, a, labels, k).Stopped?;
  }

  /** What a ready answer was built from. */
  ghost predicate ReadyParts(q: Request, plan: ResolvedQueryPlan, a: Assembly, links: Links, claims: seq<PremiseClaim>) {
    && Precheck(q.proposal, q.side).None?
    && TasksAfter(q, |q.proposal.tasks|) == Going(a)
    && Derived(q, a) == Going(links)
    && PremisesAfter(q, a, links.labels, |q.proposal.premises|) == Going(claims)
    && a.stamp.Some? && plan == PlanOf(q, a, links, claims) && WellFormedPlan(plan)
  }

  lemma {:induction false} PrecheckRefuses(q: Request)
    requires Precheck(q.proposal, q.side).Some?
    ensures IsRefusal(Resolve(q)) && !IsReady(Resolve(q))
  {
    PrecheckIsRefusal(q.proposal, q.side);
    assert Resolve(q) == Precheck(q.proposal, q.side).value;
  }

  lemma {:induction false} PrecheckIsRefusal(p: PlanProposal, side: Sidecar)
    requires Precheck(p, side).Some?
    ensures IsRefusal(Precheck(p, side).value)
  {
  }

  /** A ready answer is a well-formed plan built from every task, derivation and premise; any other
      answer is an exception, a typed refusal or one delegate verdict, never part of a plan. */
  lemma {:induction false} ResolveIsAllOrNothing(q: Request)
    ensures Precheck(q.proposal, q.side).Some? ==> IsRefusal(Resolve(q))
    ensures Precheck(q.proposal, q.side).None? && !IsReady(Resolve(q)) ==> Explained(q, Resolve(q))
    ensures IsReady(Resolve(q)) ==>
              exists a, links, claims :: ReadyParts(q, Resolve(q).v.plan, a, links, claims)
  {
    if Precheck(q.proposal, q.side).Some? {
      PrecheckRefuses(q);
    } else if TasksAfter(q, |q.proposal.tasks|).Stopped? {
      TasksStopExplained(q);
      assert Resolve(q) == TasksAfter(q, |q.proposal.tasks|).outcome;
    } else {
      LinkIsAllOrNothing(q, TasksAfter(q, |q.proposal.tasks|).state);
      assert Resolve(q) == Link(q, TasksAfter(q, |q.proposal.tasks|).state);
    }
  }

  lemma {:induction false} LinkIsAllOrNothing(q: Request, a: Assembly)
    requires Precheck(q.proposal, q.side).None? && TasksAfter(q, |q.proposal.tasks|) == Going(a)
    ensures !IsReady(Link(q, a)) ==> Link(q, a).Raised? || IsRefusal(Link(q, a))
    ensures IsReady(Link(q, a)) ==> exists links, claims :: ReadyParts(q, Link(q, a).v.plan, a, links, claims)
  {
    var derivations := Derived(q, a);
    if derivations.Stopped? {
      DerivationsStopExplained(Aggregations(q.aggregation, a.tasks, |a.tasks|), a.labels, q.proposal.derivations);
    } else {
      var links := derivations.state;
      var premises := PremisesAfter(q, a, links.labels, |q.proposal.premises|);
      if premises.Stopped? {
        PremisesStopExplained(q, a, links.labels);
      } else if IsReady(Finish(q, a, links, premises.state)) {
        assert ReadyParts(q, Link(q, a).v.plan, a, links, premises.state);
      }
    }
  }

  /* ---- The theorem ---- */

  /** The output bound to `name` carries the value of `name`. */
  ghost predicate AgreesAt<V>(labels: map<string, string>, proposed: map<string, V>, planned: map<string, V>, name: string) {
    name in proposed ==> name in labels && labels[name] in planned && planned[labels[name]] == proposed[name]
  }

  /** Plan ids carry the values of the labels bound to them. */
  ghost predicate Agrees<V>(labels: map<string, string>, proposed: map<string, V>, planned: map<string, V>) {
    labels.Keys == proposed.Keys && forall name :: AgreesAt(labels, proposed, planned, name)
  }

  lemma {:induction false} BaseAgrees<V>(q: Request, w: World<V>, plan: ResolvedQueryPlan, a: Assembly, links: Links, claims: seq<PremiseClaim>)
    requires ReadyParts(q, plan, a, links, claims)
    ensures Agrees(a.labels, BaseValues(q, w, |q.proposal.tasks|), Fetched(plan, MeaningIn(w), |plan.tasks|))
  {
    var env := BaseValues(q, w, |q.proposal.tasks|);
    TasksBound(q, w, a);
    forall name
      ensures AgreesAt(a.labels, env, Fetched(plan, MeaningIn(w), |plan.tasks|), name)
    {
      assert BoundAt(w, plan.tasks, a.labels, env, name);
      if name in env {
        HeldIsFetched(plan, w, a.labels[name], env[name]);
      }
    }
  }

  /** Operands agree position by position. */
  lemma {:induction false} OperandsAgree<V>(labels: map<string, string>, proposed: map<string, V>, planned: map<string, V>, names: seq<string>)
    requires Agrees(labels, proposed, planned) && AllBound(labels, names)
    ensures Operands(proposed, names).Some? && Operands(planned, OutputsOf(labels, names)) == Operands(proposed, names)
  {
    var outputs := OutputsOf(labels, names);
    forall i | 0 <= i < |names|
      ensures names[i] in proposed && outputs[i] in planned && planned[outputs[i]] == proposed[names[i]]
    {
      assert AgreesAt(labels, proposed, planned, names[i]);
    }
    assert Operands(planned, outputs).value == Operands(proposed, names).value;
  }

  lemma {:induction false} AgreesExtended<V>(labels: map<string, string>, proposed: map<string, V>, planned: map<string, V>, name: string, v: V)
    requires Agrees(labels, proposed, planned) && name !in planned
    ensures Agrees(labels[name := name], proposed[name := v], planned[name := v])
  {
    var labels', proposed', planned' := labels[name := name], proposed[name := v], planned[name := v];
    forall other
      ensures AgreesAt(labels', proposed', planned', other)
    {
      assert AgreesAt(labels, proposed, planned, other);
    }
  }

  /** The derivation resolved from `d` when its operands are bound by `labels`. */
  function ResolvedFrom(d: ProposedDerivation, labels: map<string, string>): Derivation
    requires AllBound(labels, d.operandLabels)
  {
    Derivation(d.resultLabel, d.operator, OutputsOf(labels, d.operandLabels), RuleOf(d.roundingRule), None)
  }

  lemma {:induction false} DerivationAgrees<V>(w: World<V>, d: ProposedDerivation, labels: map<string, string>, proposed: map<string, V>,
                            planned: map<string, V>)
    requires Agrees(labels, proposed, planned) && AllBound(labels, d.operandLabels) && d.resultLabel !in planned
    ensures Operands(proposed, d.operandLabels).Some?
    ensures var values := Operands(proposed, d.operandLabels).value;
            && Operands(planned, ResolvedFrom(d, labels).operands) == Some(values)
            && Agrees(labels[d.resultLabel := d.resultLabel],
                      proposed[d.resultLabel := w.operator(d.operator, RuleOf(d.roundingRule), values)],
                      planned[d.resultLabel := MeaningIn(w).apply(ResolvedFrom(d, labels), values)])
  {
    OperandsAgree(labels, proposed, planned, d.operandLabels);
    AgreesExtended(labels, proposed, planned, d.resultLabel,
                   w.operator(d.operator, RuleOf(d.roundingRule), Operands(proposed, d.operandLabels).value));
  }

  /** Derivation `n` is evaluated into an id that had no value before. */
  ghost predicate FreshId<V>(plan: ResolvedQueryPlan, w: World<V>, n: nat)
    requires n < |plan.derivations|
  {
    Evaluate(plan, MeaningIn(w), n).Some? && plan.derivations[n].outputId !in Evaluate(plan, MeaningIn(w), n).value
  }

  lemma {:induction false} IdsAreFresh<V>(plan: ResolvedQueryPlan, w: World<V>)
    requires WellFormedPlan(plan)
    ensures forall n | 0 <= n < |plan.derivations| :: FreshId(plan, w, n)
  {
    forall n | 0 <= n < |plan.derivations|
      ensures FreshId(plan, w, n)
    {
      EvaluationIsTotal(plan, MeaningIn(w), n);
      assert DerivationLinked(plan, n);
    }
  }

  /** The first `n` derivations are the plan's own, and keep plan and proposal in agreement. */
  ghost predicate DerivedAlike<V>(w: World<V>, plan: ResolvedQueryPlan, base: map<string, V>, ds: seq<ProposedDerivation>,
                                  n: nat, s: Links)
  {
    n <= |ds| && |s.derivations| == n
    && (n <= |plan.derivations| && s.derivations == plan.derivations[..n] ==>
          && DerivedValues(w, base, ds, n).Some? && Evaluate(plan, MeaningIn(w), n).Some?
          && Agrees(s.labels, DerivedValues(w, base, ds, n).value, Evaluate(plan, MeaningIn(w), n).value))
  }

  lemma {:induction false} DerivationStepAgrees<V>(w: World<V>, plan: ResolvedQueryPlan, base: map<string, V>, ds: seq<ProposedDerivation>,
                                n: nat, labels: map<string, string>)
    requires n < |ds| && n < |plan.derivations| && FreshId(plan, w, n) && DerivedValues(w, base, ds, n).Some?
    requires Agrees(labels, DerivedValues(w, base, ds, n).value, Evaluate(plan, MeaningIn(w), n).value)
    requires AllBound(labels, ds[n].operandLabels) && plan.derivations[n] == ResolvedFrom(ds[n], labels)
    ensures DerivedValues(w, base, ds, n + 1).Some? && Evaluate(plan, MeaningIn(w), n + 1).Some?
    ensures Agrees(labels[ds[n].resultLabel := ds[n].resultLabel], DerivedValues(w, base, ds, n + 1).value,
                   Evaluate(plan, MeaningIn(w), n + 1).value)
  {
    DerivationAgrees(w, ds[n], labels, DerivedValues(w, base, ds, n).value, Evaluate(plan, MeaningIn(w), n).value);
  }

  lemma {:induction false} DerivationNextAlike<V>(w: World<V>, plan: ResolvedQueryPlan, base: map<string, V>, policies: map<string, string>,
                               ds: seq<ProposedDerivation>, n: nat, s: Links, s': Links)
    requires n < |ds| && DerivedAlike(w, plan, base, ds, n, s) && DerivationStep(policies, ds[n], s) == Going(s')
    requires forall i | 0 <= i < |plan.derivations| :: FreshId(plan, w, i)
    ensures DerivedAlike(w, plan, base, ds, n + 1, s')
  {
    if n < |plan.derivations| && s'.derivations == plan.derivations[..n + 1] {
      assert s.derivations == s'.derivations[..n] == plan.derivations[..n];
      assert plan.derivations[n] == s'.derivations[n] == ResolvedFrom(ds[n], s.labels);
      assert FreshId(plan, w, n);
      DerivationStepAgrees(w, plan, base, ds, n, s.labels);
    }
  }

  /** Once the base values agree, every derivation keeps plan and proposal in agreement. */
  lemma {:induction false} DerivationsAgree<V>(w: World<V>, plan: ResolvedQueryPlan, base: map<string, V>, policies: map<string, string>,
                            labels: map<string, string>, ds: seq<ProposedDerivation>, s: Links)
    requires Agrees(labels, base, Fetched(plan, MeaningIn(w), |plan.tasks|))
    requires DerivationsAfter(policies, labels, ds, |ds|) == Going(s)
    requires forall i | 0 <= i < |plan.derivations| :: FreshId(plan, w, i)
    ensures DerivedAlike(w, plan, base, ds, |ds|, s)
  {
    var step := DerivationStepOf(policies, ds);
    var kept := (n: nat, t: Links) => DerivedAlike(w, plan, base, ds, n, t);
    forall n: nat, t | n < |ds| && kept(n, t) && step(n, t).Going?
      ensures kept(n + 1, step(n, t).state)
    {
      DerivationNextAlike(w, plan, base, policies, ds, n, t, step(n, t).state);
    }
    IterateKeeps(step, |ds|, Links(labels, []), kept);
  }

  lemma {:induction false} PremisesAreKept(q: Request, a: Assembly, labels: map<string, string>, n: nat, k: nat)
    requires k < n <= |q.proposal.premises| && PremisesAfter(q, a, labels, n).Going?
    ensures |PremisesAfter(q, a, labels, n).state| == n
    ensures PremiseStep(q, a, labels, k) == Going(PremisesAfter(q, a, labels, n).state[k])
  {
    if k < n - 1 {
      PremisesAreKept(q, a, labels, n - 1, k);
    } else {
      PremisesCounted(q, a, labels, n - 1);
    }
  }

  lemma {:induction false} PremisesCounted(q: Request, a: Assembly, labels: map<string, string>, n: nat)
    requires n <= |q.proposal.premises| && PremisesAfter(q, a, labels, n).Going?
    ensures |PremisesAfter(q, a, labels, n).state| == n
  {
    if n > 0 {
      PremisesCounted(q, a, labels, n - 1);
    }
  }

  lemma {:induction false} PartsAgree<V>(q: Request, w: World<V>, plan: ResolvedQueryPlan, a: Assembly, links: Links, claims: seq<PremiseClaim>)
    requires ReadyParts(q, plan, a, links, claims)
    ensures ProposalValues(q, w).Some? && PlanValues(plan, w).Some?
    ensures Agrees(links.labels, ProposalValues(q, w).value, PlanValues(plan, w).value)
  {
    var policies, ds := Aggregations(q.aggregation, a.tasks, |a.tasks|), q.proposal.derivations;
    BaseAgrees(q, w, plan, a, links, claims);
    IdsAreFresh(plan, w);
    DerivationsAgree(w, plan, BaseValues(q, w, |q.proposal.tasks|), policies, a.labels, ds, links);
    assert plan.derivations[..|ds|] == plan.derivations;
  }

  /** Assembly preserves meaning. Whatever the fetched values and the operators are, evaluating the plan
      gives every proposal label the value the proposal gives it. */
  lemma {:induction false} PlanMeansProposal<V>(q: Request, w: World<V>, plan: ResolvedQueryPlan)
    returns (a: Assembly, links: Links, claims: seq<PremiseClaim>)
    requires Resolve(q) == Returned(PlanReady(plan))
    ensures ReadyParts(q, plan, a, links, claims)
    ensures ProposalValues(q, w).Some? && PlanValues(plan, w).Some?
    ensures Agrees(links.labels, ProposalValues(q, w).value, PlanValues(plan, w).value)
  {
    ResolveIsAllOrNothing(q);
    a, links, claims :| ReadyParts(q, plan, a, links, claims);
    PartsAgree(q, w, plan, a, links, claims);
  }

  lemma {:induction false} PremiseAgrees(q: Request, a: Assembly, labels: map<string, string>, claims: seq<PremiseClaim>, k: nat)
    requires k < |q.proposal.premises|
    requires PremisesAfter(q, a, labels, |q.proposal.premises|) == Going(claims)
    ensures |claims| == |q.proposal.premises|
    ensures AllBound(labels, q.proposal.premises[k].verifyLabels)
    ensures claims[k].verifyWith == OutputsOf(labels, q.proposal.premises[k].verifyLabels)
  {
    PremisesAreKept(q, a, labels, |q.proposal.premises|, k);
  }

  /** Each premise is checked against outputs worth its labels' values, in order. */
  lemma {:induction false} PremisesMeanTheirLabels<V>(q: Request, w: World<V>, plan: ResolvedQueryPlan, k: nat)
    requires Resolve(q) == Returned(PlanReady(plan)) && k < |q.proposal.premises|
    ensures |plan.premises| == |q.proposal.premises|
    ensures ProposalValues(q, w).Some? && PlanValues(plan, w).Some?
    ensures Operands(ProposalValues(q, w).value, q.proposal.premises[k].verifyLabels).Some?
    ensures Operands(PlanValues(plan, w).value, plan.premises[k].verifyWith)
         == Operands(ProposalValues(q, w).value, q.proposal.premises[k].verifyLabels)
  {
    var a, links, claims := PlanMeansProposal(q, w, plan);
    PremiseAgrees(q, a, links.labels, claims, k);
    OperandsAgree(links.labels, ProposalValues(q, w).value, PlanValues(plan, w).value,
                  q.proposal.premises[k].verifyLabels);
  }
}
