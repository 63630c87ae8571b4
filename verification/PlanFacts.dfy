/** Which facts a ready plan holds. */
module PlanFacts {
  import opened Wrappers
  import opened Contracts
  import opened Proposal
  import opened PlanAssembly
  import opened PlanMeaning

  /** A fact under its date and view. */
  type Row = (Date, string, FactSpec)

  function RowsOf(asOf: Date, view: string, facts: seq<FactSpec>): multiset<Row> {
    if facts == [] then multiset{}
    else RowsOf(asOf, view, facts[..|facts| - 1]) + multiset{(asOf, view, facts[|facts| - 1])}
  }

  function TaskRows(t: ResolvedTask): multiset<Row> {
    if t.FinancialTask? then RowsOf(t.asOf, t.view, t.facts) else multiset{}
  }

  function Sum<T>(rows: T -> multiset<Row>, items: seq<T>): multiset<Row> {
    if items == [] then multiset{} else rows(items[0]) + Sum(rows, items[1..])
  }

  /** All facts of all financial tasks, with multiplicity. */
  function PlanRows(tasks: seq<ResolvedTask>): multiset<Row> {
    Sum(TaskRows, tasks)
  }

  /** The facts the delegate resolved for proposal task `i`: each of its facts alone, or the facts of the one
      task it returned. */
  function Yielded(q: Request, i: nat): multiset<Row>
    requires i < |q.proposal.tasks|
  {
    var task := q.proposal.tasks[i];
    if task.kind == Financial
    then if AllResolved(q, i, |task.facts|) then multiset(Resolved(q, i, |task.facts|)) else multiset{}
    else if TaskAlone(q, i).Some? then TaskRows(TaskAlone(q, i).value) else multiset{}
  }

  function YieldedUpTo(q: Request, n: nat): multiset<Row>
    requires n <= |q.proposal.tasks|
  {
    if n == 0 then multiset{} else YieldedUpTo(q, n - 1) + Yielded(q, n - 1)
  }

  /* ---- Groups ---- */

  function RowsOfGroup(g: Group): multiset<Row> {
    RowsOf(g.asOf, g.view, g.facts)
  }

  function GroupRows(groups: seq<Group>): multiset<Row> {
    Sum(RowsOfGroup, groups)
  }

  lemma {:induction false} SumHead<T>(rows: T -> multiset<Row>, head: T, rest: seq<T>)
    ensures Sum(rows, [head] + rest) == rows(head) + Sum(rows, rest)
  {
    assert ([head] + rest)[1..] == rest;
  }

  lemma {:induction false} SumAppend<T>(rows: T -> multiset<Row>, a: seq<T>, b: seq<T>)
    ensures Sum(rows, a + b) == Sum(rows, a) + Sum(rows, b)
  {
    if a == [] {
      assert a + b == b;
    } else {
      SumAppend(rows, a[1..], b);
      SumHead(rows, a[0], a[1..] + b);
      assert a + b == [a[0]] + (a[1..] + b);
    }
  }

  lemma {:induction false} SumOne<T>(rows: T -> multiset<Row>, one: T)
    ensures Sum(rows, [one]) == rows(one)
  {
    assert [one][1..] == [];
  }

  lemma {:induction false} SumSame<S, T>(f: S -> multiset<Row>, g: T -> multiset<Row>, a: seq<S>, b: seq<T>)
    requires |a| == |b| && forall i | 0 <= i < |a| :: f(a[i]) == g(b[i])
    ensures Sum(f, a) == Sum(g, b)
  {
    if a != [] {
      SumSame(f, g, a[1..], b[1..]);
    }
  }

  lemma {:induction false} RowsOfMore(asOf: Date, view: string, facts: seq<FactSpec>, f: FactSpec)
    ensures RowsOf(asOf, view, facts + [f]) == RowsOf(asOf, view, facts) + multiset{(asOf, view, f)}
  {
    assert (facts + [f])[..|facts|] == facts;
  }

  lemma {:induction false} AddFactAddsOne(groups: seq<Group>, asOf: Date, view: string, f: FactSpec)
    ensures GroupRows(AddFact(groups, asOf, view, f)) == GroupRows(groups) + multiset{(asOf, view, f)}
  {
    if groups == [] {
      RowsOfMore(asOf, view, [], f);
      assert [] + [f] == [f];
      SumOne(RowsOfGroup, Group(asOf, view, [f]));
    } else if groups[0].asOf == asOf && groups[0].view == view {
      RowsOfMore(asOf, view, groups[0].facts, f);
      SumHead(RowsOfGroup, groups[0].(facts := groups[0].facts + [f]), groups[1..]);
    } else {
      AddFactAddsOne(groups[1..], asOf, view, f);
      SumHead(RowsOfGroup, groups[0], AddFact(groups[1..], asOf, view, f));
    }
  }

  /** Regrouping a task's facts keeps each exactly once. */
  lemma {:induction false} GroupedRows(q: Request, i: nat, a: Assembly, s: Grouping)
    requires i < |q.proposal.tasks| && FactsAfter(q, i, |q.proposal.tasks[i].facts|, a) == Going(s)
    ensures AllResolved(q, i, |q.proposal.tasks[i].facts|) && s.assembly.tasks == a.tasks
    ensures GroupRows(s.groups) == multiset(Resolved(q, i, |q.proposal.tasks[i].facts|))
  {
    var facts, step := q.proposal.tasks[i].facts, FactStepOf(q, i);
    var kept := (n: nat, t: Grouping) => n <= |facts| && KeptRows(q, i, n, a, t);
    forall n: nat, t | n < |facts| && kept(n, t) && step(n, t).Going?
      ensures kept(n + 1, step(n, t).state)
    {
      KeptNext(q, i, n, a, t, step(n, t).state);
    }
    assert multiset(Resolved(q, i, 0)) == multiset{};
    IterateKeeps(step, |facts|, Grouping(a, []), kept);
  }

  ghost predicate KeptRows(q: Request, i: nat, n: nat, a: Assembly, s: Grouping)
    requires i < |q.proposal.tasks| && n <= |q.proposal.tasks[i].facts|
  {
    AllResolved(q, i, n) && s.assembly.tasks == a.tasks && GroupRows(s.groups) == multiset(Resolved(q, i, n))
  }

  lemma {:induction false} KeptNext(q: Request, i: nat, n: nat, a: Assembly, s: Grouping, s': Grouping)
    requires i < |q.proposal.tasks| && n < |q.proposal.tasks[i].facts| && KeptRows(q, i, n, a, s)
    requires FactStep(q, q.proposal.tasks[i].facts[n], q.factVerdict(i, n), s) == Going(s')
    ensures KeptRows(q, i, n + 1, a, s')
  {
    FactStepShape(q, q.proposal.tasks[i].facts[n], q.factVerdict(i, n), s);
    var row := FactAlone(q, i, n).value;
    AddFactAddsOne(s.groups, row.0, row.1, row.2);
    ResolvedNext(q, i, n);
  }

  lemma {:induction false} ResolvedNext(q: Request, i: nat, n: nat)
    requires i < |q.proposal.tasks| && n < |q.proposal.tasks[i].facts| && AllResolved(q, i, n) && FactAlone(q, i, n).Some?
    ensures AllResolved(q, i, n + 1)
    ensures multiset(Resolved(q, i, n + 1)) == multiset(Resolved(q, i, n)) + multiset{FactAlone(q, i, n).value}
  {
    assert Resolved(q, i, n + 1) == Resolved(q, i, n) + [FactAlone(q, i, n).value];
  }

  /* ---- Tasks ---- */

  lemma {:induction false} FinancialRows(q: Request, i: nat, a: Assembly, s: Grouping)
    requires i < |q.proposal.tasks| && q.proposal.tasks[i].kind == Financial
    requires FactsAfter(q, i, |q.proposal.tasks[i].facts|, a) == Going(s)
    ensures PlanRows(FinishFinancial(i, s).tasks) == PlanRows(a.tasks) + Yielded(q, i)
  {
    GroupedRows(q, i, a, s);
    var tasks := GroupTasks(i, s.groups);
    forall g | 0 <= g < |tasks|
      ensures TaskRows(tasks[g]) == RowsOfGroup(s.groups[g])
    {
    }
    SumSame(TaskRows, RowsOfGroup, tasks, s.groups);
    SumAppend(TaskRows, a.tasks, tasks);
  }

  lemma {:induction false} OtherRows(q: Request, i: nat, a: Assembly, a': Assembly)
    requires i < |q.proposal.tasks| && q.proposal.tasks[i].kind != Financial && OtherStep(q, i, a) == Going(a')
    ensures PlanRows(a'.tasks) == PlanRows(a.tasks) + Yielded(q, i)
  {
    var t := TaskAlone(q, i).value;
    var named := t.(taskId := KindId(q.proposal.tasks[i].kind, i));
    assert a'.tasks == a.tasks + [named];
    SumAppend(TaskRows, a.tasks, [named]);
    SumOne(TaskRows, named);
    assert TaskRows(named) == TaskRows(t);
  }

  lemma {:induction false} TaskStepRows(q: Request, i: nat, a: Assembly, a': Assembly)
    requires i < |q.proposal.tasks| && TaskStep(q, i, a) == Going(a')
    ensures PlanRows(a'.tasks) == PlanRows(a.tasks) + Yielded(q, i)
  {
    if q.proposal.tasks[i].kind == Financial {
      FinancialRows(q, i, a, FactsAfter(q, i, |q.proposal.tasks[i].facts|, a).state);
    } else {
      OtherRows(q, i, a, a');
    }
  }

  ghost predicate KeptUpTo(q: Request, n: nat, a: Assembly) {
    n <= |q.proposal.tasks| && PlanRows(a.tasks) == YieldedUpTo(q, n)
  }

  lemma {:induction false} KeptTaskNext(q: Request, n: nat, a: Assembly)
    requires n < |q.proposal.tasks| && KeptUpTo(q, n, a) && TaskStepOf(q)(n, a).Going?
    ensures KeptUpTo(q, n + 1, TaskStepOf(q)(n, a).state)
  {
    TaskStepRows(q, n, a, TaskStepOf(q)(n, a).state);
  }

  lemma {:induction false} AssembledRows(q: Request, a: Assembly)
    requires TasksAfter(q, |q.proposal.tasks|) == Going(a)
    ensures KeptUpTo(q, |q.proposal.tasks|, a)
  {
    var m, step := |q.proposal.tasks|, TaskStepOf(q);
    var kept := (n: nat, b: Assembly) => KeptUpTo(q, n, b);
    forall n: nat, b | n < m && kept(n, b) && step(n, b).Going?
      ensures kept(n + 1, step(n, b).state)
    {
      KeptTaskNext(q, n, b);
    }
    NothingYet(q);
    IterateKeeps(step, m, EMPTY, kept);
  }

  lemma {:induction false} NothingYet(q: Request)
    ensures KeptUpTo(q, 0, EMPTY)
  {
    assert EMPTY.tasks == [];
  }

  /** A ready plan holds every fact the delegate resolved, each under its own date and view and exactly as
      often as it was resolved, and no other fact. */
  lemma {:induction false} EveryFactOnce(q: Request, plan: ResolvedQueryPlan)
    requires Resolve(q) == Returned(PlanReady(plan))
    ensures PlanRows(plan.tasks) == YieldedUpTo(q, |q.proposal.tasks|)
  {
    ResolveIsAllOrNothing(q);
    var a, links, claims :| ReadyParts(q, plan, a, links, claims);
    AssembledRows(q, a);
  }
}
