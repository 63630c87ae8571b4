/** Exactly when a proposal resolves to a plan, and which part of the plan each of its parts becomes. */
module PlanReady {
  import opened Wrappers
  import opened Decimals
  import opened Contracts
  import opened PlanValidity
  import opened Proposal
  import opened PlanPaths
  import opened PlanAssembly
  import opened PlanMeaning

  /* ---- Verdicts ---- */

  type Stamp = (Date, Date)

  /** The delegate has a plan with at least one task. */
  ghost predicate HasTask(o: Outcome) {
    o.Returned? && o.v.PlanReady? && o.v.plan.tasks != []
  }

  function StampOf(o: Outcome): Stamp
    requires HasTask(o)
  {
    (o.v.plan.referenceDate, o.v.plan.corpusCutoff)
  }

  /** The verdict fits what was collected: no dates yet, or the same ones. */
  ghost predicate Fits(stamp: Option<Stamp>, o: Outcome) {
    HasTask(o) && (stamp.None? || stamp.value == StampOf(o))
  }

  /** Everything `items` and then, in order, everything of `more` that is not there yet. */
  ghost predicate Adds(items: seq<string>, more: seq<string>, all: seq<string>) {
    && items <= all && Elements(all) == Elements(items) + Elements(more)
    && (Distinct(items) ==> Distinct(all))
  }

  lemma {:induction false} DefaultsAdd(held: seq<string>, more: seq<string>)
    ensures Adds(held, more, AddDefaults(held, more))
    decreases more
  {
    if more != [] {
      var next := if more[0] in held then held else held + [more[0]];
      DefaultsAdd(next, more[1..]);
      assert Elements(more) == {more[0]} + Elements(more[1..]);
      assert Elements(next) == Elements(held) + {more[0]};
      assert held <= next;
    }
  }

  /** `a` took the verdict in and is otherwise as before. */
  ghost predicate TookIn(before: Assembly, o: Outcome, a: Assembly)
    requires HasTask(o)
  {
    && a.stamp == Some(StampOf(o)) && Adds(before.defaults, o.v.plan.appliedDefaults, a.defaults)
    && a.tasks == before.tasks && a.labels == before.labels && a.taskIds == before.taskIds
  }

  /** A verdict is taken in exactly when it has a task and its dates fit; otherwise the exception it is or causes, or the
      verdict itself. */
  lemma {:induction false} AcceptExactly(a: Assembly, o: Outcome)
    ensures Accept(a, o).Going? <==> Fits(a.stamp, o)
    ensures Accept(a, o).Going? ==> TookIn(a, o, Accept(a, o).state.0) && Accept(a, o).state.1 == o.v.plan.tasks[0]
    ensures Accept(a, o).Stopped? ==> Accept(a, o).outcome == if o.Returned? && !o.v.PlanReady? then o else Raised
  {
    if HasTask(o) {
      DefaultsAdd(a.defaults, o.v.plan.appliedDefaults);
    }
  }

  /* ---- Facts ---- */

  /** The verdict is a financial task whose first fact may be read from the proposed statement. */
  ghost predicate IsFact(q: Request, proposed: ProposedFact, o: Outcome) {
    && HasTask(o) && o.v.plan.tasks[0].FinancialTask? && o.v.plan.tasks[0].facts != []
    && (proposed.statement == "unspecified" || proposed.statement in q.allowedStatements(o.v.plan.tasks[0].facts[0].concept))
  }

  /** What the assembly of facts is after one more: its label names it, and it joins the group of its date and view. */
  ghost predicate TookFact(s: Grouping, proposed: ProposedFact, o: Outcome, s': Grouping)
    requires HasTask(o) && o.v.plan.tasks[0].FinancialTask? && o.v.plan.tasks[0].facts != []
  {
    var t := o.v.plan.tasks[0];
    && s'.assembly.labels == s.assembly.labels[proposed.resultLabel := proposed.resultLabel]
    && TookIn(s.assembly, o, s'.assembly.(labels := s.assembly.labels))
    && s'.groups == AddFact(s.groups, t.asOf, t.view, Labelled(proposed, t.facts[0]))
  }

  lemma {:induction false} FactStepExactly(q: Request, proposed: ProposedFact, o: Outcome, s: Grouping)
    ensures FactStep(q, proposed, o, s).Going? <==> Fits(s.assembly.stamp, o) && IsFact(q, proposed, o)
    ensures FactStep(q, proposed, o, s).Going? ==> TookFact(s, proposed, o, FactStep(q, proposed, o, s).state)
    ensures Fits(s.assembly.stamp, o) && !o.v.plan.tasks[0].FinancialTask? ==>
              FactStep(q, proposed, o, s) == Stopped(Returned(Unresolved("unsupported_request", ["financial_resolver_returned_wrong_task"])))
    ensures Fits(s.assembly.stamp, o) && o.v.plan.tasks[0].FinancialTask? && o.v.plan.tasks[0].facts != [] && !IsFact(q, proposed, o) ==>
              FactStep(q, proposed, o, s) == Stopped(Returned(Unresolved("unsupported_request", ["financial_statement_concept_mismatch"])))
  {
    AcceptExactly(s.assembly, o);
  }

  /* ---- Other tasks ---- */

  /** As many outputs as labels, or a task of a kind that may leave its labels unbound. */
  ghost predicate IsTask(task: ProposalTask, o: Outcome) {
    && HasTask(o)
    && (|task.resultLabels| == |ScalarOutputs(o.v.plan.tasks[0])| || (task.resultLabels != [] && task.kind in {Document, Narrative}))
  }

  /** Labels bound position by position, the last of equal ones winning. */
  ghost predicate BindsLabels(labels: map<string, string>, names: seq<string>, outputs: seq<string>, all: map<string, string>)
    requires |names| == |outputs|
  {
    && (forall name :: name in all <==> name in labels || name in names)
    && (forall name | name in labels && name !in names :: all[name] == labels[name])
    && (forall k | 0 <= k < |names| && names[k] !in names[k + 1..] :: all[names[k]] == outputs[k])
  }

  lemma {:induction false} BindExactly(labels: map<string, string>, names: seq<string>, outputs: seq<string>, n: nat)
    requires n <= |names| == |outputs|
    ensures BindsLabels(labels, names[..n], outputs[..n], Bind(labels, names, outputs, n))
  {
    if n > 0 {
      BindExactly(labels, names, outputs, n - 1);
      var before, all := Bind(labels, names, outputs, n - 1), Bind(labels, names, outputs, n);
      assert names[..n] == names[..n - 1] + [names[n - 1]];
      forall k | 0 <= k < n && names[..n][k] !in names[..n][k + 1..]
        ensures all[names[..n][k]] == outputs[..n][k]
      {
        if k < n - 1 {
          assert names[..n][k + 1..] == names[..n - 1][k + 1..] + [names[n - 1]];
          assert before[names[..n - 1][k]] == outputs[..n - 1][k];
        }
      }
    }
  }

  /** The task under its generated id, its labels bound when there are as many as outputs. */
  ghost predicate PlacedTask(before: Assembly, task: ProposalTask, i: nat, o: Outcome, a: Assembly)
    requires HasTask(o)
  {
    var t, id := o.v.plan.tasks[0], KindId(task.kind, i);
    && a.tasks == before.tasks + [t.(taskId := id)] && a.taskIds == before.taskIds + [[id]]
    && TookIn(before, o, a.(tasks := before.tasks, taskIds := before.taskIds, labels := before.labels))
    && if |task.resultLabels| == |ScalarOutputs(t)| then BindsLabels(before.labels, task.resultLabels, ScalarOutputs(t), a.labels)
       else a.labels == before.labels
  }

  lemma {:induction false} PlaceExactly(task: ProposalTask, t: ResolvedTask, a: Assembly)
    ensures Place(task, t, a).Going? <==>
            |task.resultLabels| == |ScalarOutputs(t)| || (task.resultLabels != [] && task.kind in {Document, Narrative})
    ensures Place(task, t, a).Going? ==>
              var a' := Place(task, t, a).state;
              && a'.tasks == a.tasks + [t] && a'.taskIds == a.taskIds + [[t.taskId]] && a'.stamp == a.stamp && a'.defaults == a.defaults
              && if |task.resultLabels| == |ScalarOutputs(t)| then BindsLabels(a.labels, task.resultLabels, ScalarOutputs(t), a'.labels)
                 else a'.labels == a.labels
    ensures Place(task, t, a).Stopped? && task.resultLabels == [] ==> Place(task, t, a).outcome == Raised
    ensures Place(task, t, a).Stopped? && task.resultLabels != [] ==>
              Place(task, t, a).outcome == Returned(Unresolved("unsupported_request", ["result_label_binding_mismatch"]))
  {
    var names, outputs := task.resultLabels, ScalarOutputs(t);
    if |names| == |outputs| {
      BindExactly(a.labels, names, outputs, |names|);
      assert names[..|names|] == names && outputs[..|names|] == outputs;
    }
  }

  lemma {:induction false} OtherStepExactly(q: Request, i: nat, a: Assembly)
    requires i < |q.proposal.tasks|
    ensures OtherStep(q, i, a).Going? <==> Fits(a.stamp, q.taskVerdict(i)) && IsTask(q.proposal.tasks[i], q.taskVerdict(i))
    ensures OtherStep(q, i, a).Going? ==> PlacedTask(a, q.proposal.tasks[i], i, q.taskVerdict(i), OtherStep(q, i, a).state)
  {
    var task, o := q.proposal.tasks[i], q.taskVerdict(i);
    AcceptExactly(a, o);
    if HasTask(o) {
      var named := o.v.plan.tasks[0].(taskId := KindId(task.kind, i));
      assert ScalarOutputs(named) == ScalarOutputs(o.v.plan.tasks[0]);
      if Accept(a, o).Going? {
        PlaceExactly(task, named, Accept(a, o).state.0);
      }
    }
  }

  /* ---- All verdicts together ---- */

  /** The verdicts asked for task `i`, in order. */
  function Verdicts(q: Request, i: nat): seq<Outcome>
    requires i < |q.proposal.tasks|
  {
    var task := q.proposal.tasks[i];
    if task.kind == Financial then FactVerdicts(q, i, |task.facts|) else [q.taskVerdict(i)]
  }

  function FactVerdicts(q: Request, i: nat, n: nat): seq<Outcome> {
    seq(n, j requires 0 <= j < n => q.factVerdict(i, j))
  }

  /** All verdicts asked for the first `n` tasks, in order. */
  function Asked(q: Request, n: nat): seq<Outcome>
    requires n <= |q.proposal.tasks|
  {
    if n == 0 then [] else Asked(q, n - 1) + Verdicts(q, n - 1)
  }

  /** All verdicts have a task, and they and what was collected before agree on the dates. */
  ghost predicate OneDate(stamp: Option<Stamp>, verdicts: seq<Outcome>) {
    exists s: Stamp :: DatedBy(s, stamp, verdicts)
  }

  ghost predicate DatedBy(s: Stamp, stamp: Option<Stamp>, verdicts: seq<Outcome>) {
    (stamp.Some? ==> stamp.value == s) && forall k | 0 <= k < |verdicts| :: HasTask(verdicts[k]) && StampOf(verdicts[k]) == s
  }

  /** The dates after some verdicts were taken in. */
  ghost predicate StampAfter(stamp: Option<Stamp>, verdicts: seq<Outcome>, after: Option<Stamp>) {
    if verdicts == [] then after == stamp else after.Some? && DatedBy(after.value, stamp, verdicts)
  }

  lemma {:induction false} OneMoreDate(stamp: Option<Stamp>, verdicts: seq<Outcome>, after: Option<Stamp>, o: Outcome)
    requires OneDate(stamp, verdicts) && StampAfter(stamp, verdicts, after)
    ensures OneDate(stamp, verdicts + [o]) <==> Fits(after, o)
    ensures Fits(after, o) ==> StampAfter(stamp, verdicts + [o], Some(StampOf(o)))
  {
    var all := verdicts + [o];
    assert all[|verdicts|] == o;
    if Fits(after, o) {
      assert DatedBy(StampOf(o), stamp, all);
    }
    if s: Stamp :| DatedBy(s, stamp, all) {
      assert verdicts != [] ==> all[0] == verdicts[0];
    }
  }

  lemma {:induction false} FewerDates(stamp: Option<Stamp>, verdicts: seq<Outcome>, more: seq<Outcome>)
    requires OneDate(stamp, verdicts + more)
    ensures OneDate(stamp, verdicts)
  {
    var all := verdicts + more;
    var s: Stamp :| DatedBy(s, stamp, all);
    assert forall k | 0 <= k < |verdicts| :: all[k] == verdicts[k];
    assert DatedBy(s, stamp, verdicts);
  }

  lemma {:induction false} MoreDates(stamp: Option<Stamp>, a: seq<Outcome>, after: Option<Stamp>, b: seq<Outcome>)
    requires OneDate(stamp, a) && StampAfter(stamp, a, after)
    ensures OneDate(stamp, a + b) <==> OneDate(after, b)
    ensures forall last | StampAfter(after, b, last) && OneDate(after, b) :: StampAfter(stamp, a + b, last)
  {
    var all := a + b;
    assert forall k | 0 <= k < |a| :: all[k] == a[k];
    assert forall k | 0 <= k < |b| :: all[|a| + k] == b[k];
    if s: Stamp :| DatedBy(s, stamp, all) {
      assert a != [] ==> all[0] == a[0];
      assert DatedBy(s, after, b);
    }
    if s: Stamp :| DatedBy(s, after, b) {
      var t := if after.Some? then after.value else s;
      assert DatedBy(t, stamp, all);
    }
    forall last | StampAfter(after, b, last) && OneDate(after, b)
      ensures StampAfter(stamp, all, last)
    {
      if b == [] {
        assert all == a;
      } else {
        assert DatedBy(last.value, stamp, all);
      }
    }
  }

  /** The defaults the verdicts applied. */
  function DefaultsOf(verdicts: seq<Outcome>): set<string> {
    set o, d | o in verdicts && o.Returned? && o.v.PlanReady? && d in o.v.plan.appliedDefaults :: d
  }

  lemma {:induction false} DefaultsOfMore(a: seq<Outcome>, b: seq<Outcome>)
    ensures DefaultsOf(a + b) == DefaultsOf(a) + DefaultsOf(b)
  {
    assert forall o :: o in a + b <==> o in a || o in b;
  }

  lemma {:induction false} DefaultsOfOne(o: Outcome)
    requires HasTask(o)
    ensures DefaultsOf([o]) == Elements(o.v.plan.appliedDefaults)
  {
    assert forall x :: x in [o] <==> x == o;
  }

  /* ---- The facts of one task ---- */

  lemma {:induction false} FactsStep(q: Request, i: nat, n: nat, a: Assembly)
    requires i < |q.proposal.tasks| && 0 < n <= |q.proposal.tasks[i].facts|
    ensures FactsAfter(q, i, n, a) ==
            match FactsAfter(q, i, n - 1, a)
            case Stopped(outcome) => Stopped(outcome)
            case Going(s) => FactStep(q, q.proposal.tasks[i].facts[n - 1], q.factVerdict(i, n - 1), s)
  {
  }

  ghost predicate AreFacts(q: Request, i: nat, n: nat)
    requires i < |q.proposal.tasks| && n <= |q.proposal.tasks[i].facts|
  {
    forall j | 0 <= j < n :: IsFact(q, q.proposal.tasks[i].facts[j], q.factVerdict(i, j))
  }

  /** What `n` facts leave: their dates and defaults taken in, their labels naming themselves, nothing else changed. */
  ghost predicate TookFacts(a: Assembly, labels: seq<string>, verdicts: seq<Outcome>, s: Assembly) {
    && StampAfter(a.stamp, verdicts, s.stamp)
    && Elements(s.defaults) == Elements(a.defaults) + DefaultsOf(verdicts) && (Distinct(a.defaults) ==> Distinct(s.defaults))
    && s.tasks == a.tasks && s.taskIds == a.taskIds
    && forall name :: (name in s.labels <==> name in a.labels || name in labels)
                      && (name in labels ==> s.labels[name] == name)
                      && (name !in labels && name in a.labels ==> s.labels[name] == a.labels[name])
  }

  function FactLabels(facts: seq<ProposedFact>, n: nat): seq<string>
    requires n <= |facts|
  {
    seq(n, j requires 0 <= j < n => facts[j].resultLabel)
  }

  lemma {:induction false} TookNone(a: Assembly)
    ensures TookFacts(a, [], [], a)
  {
    assert DefaultsOf([]) == {};
  }

  lemma {:induction false} TookOneMore(a: Assembly, labels: seq<string>, verdicts: seq<Outcome>, s: Grouping, proposed: ProposedFact,
                                       o: Outcome, s': Grouping)
    requires TookFacts(a, labels, verdicts, s.assembly) && OneDate(a.stamp, verdicts) && Fits(s.assembly.stamp, o)
    requires o.v.plan.tasks[0].FinancialTask? && o.v.plan.tasks[0].facts != [] && TookFact(s, proposed, o, s')
    ensures TookFacts(a, labels + [proposed.resultLabel], verdicts + [o], s'.assembly)
  {
    OneMoreDate(a.stamp, verdicts, s.assembly.stamp, o);
    DefaultsOfMore(verdicts, [o]);
    DefaultsOfOne(o);
  }

  /** The facts of a task are taken in exactly when each is a fact and their dates fit. */
  lemma {:induction false} FactsExactly(q: Request, i: nat, n: nat, a: Assembly)
    requires i < |q.proposal.tasks| && n <= |q.proposal.tasks[i].facts|
    ensures FactsAfter(q, i, n, a).Going? <==> AreFacts(q, i, n) && OneDate(a.stamp, FactVerdicts(q, i, n))
    ensures FactsAfter(q, i, n, a).Going? ==>
              TookFacts(a, FactLabels(q.proposal.tasks[i].facts, n), FactVerdicts(q, i, n), FactsAfter(q, i, n, a).state.assembly)
  {
    var facts := q.proposal.tasks[i].facts;
    if n == 0 {
      var s := if a.stamp.Some? then a.stamp.value else (0, 0);
      assert DatedBy(s, a.stamp, []);
      TookNone(a);
      assert FactVerdicts(q, i, 0) == [] && FactLabels(facts, 0) == [];
    } else {
      var o, before := q.factVerdict(i, n - 1), FactVerdicts(q, i, n - 1);
      FactsExactly(q, i, n - 1, a);
      FactsStep(q, i, n, a);
      assert FactVerdicts(q, i, n) == before + [o];
      assert FactLabels(facts, n) == FactLabels(facts, n - 1) + [facts[n - 1].resultLabel];
      FactsExactlyNext(q, i, n, a, o, before);
    }
  }

  lemma {:induction false} FactsExactlyNext(q: Request, i: nat, n: nat, a: Assembly, o: Outcome, before: seq<Outcome>)
    requires i < |q.proposal.tasks| && 0 < n <= |q.proposal.tasks[i].facts| && o == q.factVerdict(i, n - 1)
    requires var earlier := FactsAfter(q, i, n - 1, a);
             && (earlier.Going? <==> AreFacts(q, i, n - 1) && OneDate(a.stamp, before))
             && (earlier.Going? ==> TookFacts(a, FactLabels(q.proposal.tasks[i].facts, n - 1), before, earlier.state.assembly))
             && FactsAfter(q, i, n, a) == (match earlier
                                           case Stopped(outcome) => Stopped(outcome)
                                           case Going(s) => FactStep(q, q.proposal.tasks[i].facts[n - 1], o, s))
    ensures FactsAfter(q, i, n, a).Going? <==> AreFacts(q, i, n) && OneDate(a.stamp, before + [o])
    ensures FactsAfter(q, i, n, a).Going? ==>
              TookFacts(a, FactLabels(q.proposal.tasks[i].facts, n - 1) + [q.proposal.tasks[i].facts[n - 1].resultLabel], before + [o],
                        FactsAfter(q, i, n, a).state.assembly)
  {
    var earlier, proposed := FactsAfter(q, i, n - 1, a), q.proposal.tasks[i].facts[n - 1];
    if earlier.Going? {
      var s := earlier.state;
      FactStepExactly(q, proposed, o, s);
      OneMoreDate(a.stamp, before, s.assembly.stamp, o);
      if FactStep(q, proposed, o, s).Going? {
        TookOneMore(a, FactLabels(q.proposal.tasks[i].facts, n - 1), before, s, proposed, o, FactStep(q, proposed, o, s).state);
      }
    } else if OneDate(a.stamp, before + [o]) {
      FewerDates(a.stamp, before, [o]);
    }
  }

  /* ---- All tasks ---- */

  ghost predicate TaskFine(q: Request, i: nat)
    requires i < |q.proposal.tasks|
  {
    var task := q.proposal.tasks[i];
    if task.kind == Financial then AreFacts(q, i, |task.facts|) else IsTask(task, q.taskVerdict(i))
  }

  /** The labels a fine task binds. */
  function BoundBy(q: Request, i: nat): seq<string>
    requires i < |q.proposal.tasks|
  {
    var task := q.proposal.tasks[i];
    if task.kind == Financial then FactLabels(task.facts, |task.facts|)
    else match TaskAlone(q, i)
         case None => []
         case Some(t) => if |task.resultLabels| == |ScalarOutputs(t)| then task.resultLabels else []
  }

  function AllBoundBy(q: Request, n: nat): seq<string>
    requires n <= |q.proposal.tasks|
  {
    if n == 0 then [] else AllBoundBy(q, n - 1) + BoundBy(q, n - 1)
  }

  /** What tasks leave of the dates, the defaults and the labels. */
  ghost predicate TookTasks(a: Assembly, labels: seq<string>, verdicts: seq<Outcome>, s: Assembly) {
    && StampAfter(a.stamp, verdicts, s.stamp)
    && Elements(s.defaults) == Elements(a.defaults) + DefaultsOf(verdicts) && (Distinct(a.defaults) ==> Distinct(s.defaults))
    && forall name :: name in s.labels <==> name in a.labels || name in labels
  }

  lemma {:induction false} OneVerdict(stamp: Option<Stamp>, o: Outcome)
    ensures OneDate(stamp, [o]) <==> Fits(stamp, o)
    ensures Fits(stamp, o) ==> StampAfter(stamp, [o], Some(StampOf(o)))
  {
    var s := if stamp.Some? then stamp.value else (0, 0);
    assert DatedBy(s, stamp, []);
    OneMoreDate(stamp, [], stamp, o);
    assert [] + [o] == [o];
  }

  lemma {:induction false} PlacedTook(a: Assembly, q: Request, i: nat, a': Assembly)
    requires i < |q.proposal.tasks| && q.proposal.tasks[i].kind != Financial
    requires Fits(a.stamp, q.taskVerdict(i)) && PlacedTask(a, q.proposal.tasks[i], i, q.taskVerdict(i), a')
    ensures TookTasks(a, BoundBy(q, i), Verdicts(q, i), a')
  {
    var o := q.taskVerdict(i);
    OneVerdict(a.stamp, o);
    DefaultsOfOne(o);
    assert TaskAlone(q, i) == Some(o.v.plan.tasks[0]);
  }

  lemma {:induction false} TaskExactly(q: Request, i: nat, a: Assembly)
    requires i < |q.proposal.tasks|
    ensures TaskStep(q, i, a).Going? <==> TaskFine(q, i) && OneDate(a.stamp, Verdicts(q, i))
    ensures TaskStep(q, i, a).Going? ==> TookTasks(a, BoundBy(q, i), Verdicts(q, i), TaskStep(q, i, a).state)
  {
    var task := q.proposal.tasks[i];
    if task.kind == Financial {
      FactsExactly(q, i, |task.facts|, a);
    } else {
      OtherStepExactly(q, i, a);
      OneVerdict(a.stamp, q.taskVerdict(i));
      if OtherStep(q, i, a).Going? {
        PlacedTook(a, q, i, OtherStep(q, i, a).state);
      }
    }
  }

  /** `step` takes in exactly the fine tasks, and of each what its verdicts give. */
  ghost predicate TakesTasks(q: Request, step: (nat, Assembly) -> Progress<Assembly>) {
    forall i: nat, a {:trigger step(i, a)} | i < |q.proposal.tasks| ::
      && (step(i, a).Going? <==> TaskFine(q, i) && OneDate(a.stamp, Verdicts(q, i)))
      && (step(i, a).Going? ==> TookTasks(a, BoundBy(q, i), Verdicts(q, i), step(i, a).state))
  }

  lemma {:induction false} StepTakesTasks(q: Request)
    ensures TakesTasks(q, TaskStepOf(q))
  {
    forall i: nat, a | i < |q.proposal.tasks|
      ensures TaskStepOf(q)(i, a).Going? <==> TaskFine(q, i) && OneDate(a.stamp, Verdicts(q, i))
      ensures TaskStepOf(q)(i, a).Going? ==> TookTasks(a, BoundBy(q, i), Verdicts(q, i), TaskStepOf(q)(i, a).state)
    {
      TaskExactly(q, i, a);
    }
  }

  lemma {:induction false} TookMore(a: Assembly, la: seq<string>, va: seq<Outcome>, b: Assembly, lb: seq<string>, vb: seq<Outcome>, c: Assembly)
    requires TookTasks(a, la, va, b) && OneDate(a.stamp, va) && TookTasks(b, lb, vb, c) && OneDate(b.stamp, vb)
    ensures TookTasks(a, la + lb, va + vb, c)
  {
    MoreDates(a.stamp, va, b.stamp, vb);
    DefaultsOfMore(va, vb);
  }

  ghost predicate TasksFine(q: Request, n: nat)
    requires n <= |q.proposal.tasks|
  {
    forall i {:trigger TaskFine(q, i)} | 0 <= i < n :: TaskFine(q, i)
  }

  /** The tasks of a proposal are assembled exactly when each is fine and all verdicts agree on the dates; then the assembly has
      these dates, every default once, and an output for exactly the labels that bind one. */
  ghost predicate Assembled(q: Request, n: nat, r: Progress<Assembly>)
    requires n <= |q.proposal.tasks|
  {
    && (r.Going? <==> TasksFine(q, n) && OneDate(None, Asked(q, n)))
    && (r.Going? ==> TookTasks(EMPTY, AllBoundBy(q, n), Asked(q, n), r.state))
  }

  lemma {:induction false} TasksExactly(q: Request, n: nat)
    requires n <= |q.proposal.tasks|
    ensures Assembled(q, n, TasksAfter(q, n))
  {
    StepTakesTasks(q);
    TasksTaken(q, TaskStepOf(q), n);
  }

  lemma {:induction false} TasksTaken(q: Request, step: (nat, Assembly) -> Progress<Assembly>, n: nat)
    requires n <= |q.proposal.tasks| && TakesTasks(q, step)
    ensures Assembled(q, n, Iterate(step, n, EMPTY))
  {
    if n == 0 {
      assert DatedBy((0, 0), None, []);
      assert DefaultsOf([]) == {};
    } else {
      TasksTaken(q, step, n - 1);
      var before := Iterate(step, n - 1, EMPTY);
      if before.Going? {
        TaskAdds(q, n - 1, before.state, AllBoundBy(q, n - 1), Asked(q, n - 1), step(n - 1, before.state));
        AssembledOn(q, n, step(n - 1, before.state));
      } else if OneDate(None, Asked(q, n)) {
        FewerDates(None, Asked(q, n - 1), Verdicts(q, n - 1));
      }
    }
  }

  lemma {:induction false} AssembledOn(q: Request, n: nat, r: Progress<Assembly>)
    requires 0 < n <= |q.proposal.tasks| && TasksFine(q, n - 1)
    requires r.Going? <==> TaskFine(q, n - 1) && OneDate(None, Asked(q, n - 1) + Verdicts(q, n - 1))
    requires r.Going? ==> TookTasks(EMPTY, AllBoundBy(q, n - 1) + BoundBy(q, n - 1), Asked(q, n - 1) + Verdicts(q, n - 1), r.state)
    ensures Assembled(q, n, r)
  {
    FineNext(q, n);
    assert Asked(q, n) == Asked(q, n - 1) + Verdicts(q, n - 1);
    assert AllBoundBy(q, n) == AllBoundBy(q, n - 1) + BoundBy(q, n - 1);
  }

  lemma {:induction false} FineNext(q: Request, n: nat)
    requires 0 < n <= |q.proposal.tasks|
    ensures TasksFine(q, n) <==> TasksFine(q, n - 1) && TaskFine(q, n - 1)
  {
  }

  lemma {:induction false} TaskAdds(q: Request, i: nat, a: Assembly, labels: seq<string>, verdicts: seq<Outcome>, r: Progress<Assembly>)
    requires i < |q.proposal.tasks| && OneDate(None, verdicts) && TookTasks(EMPTY, labels, verdicts, a)
    requires r.Going? <==> TaskFine(q, i) && OneDate(a.stamp, Verdicts(q, i))
    requires r.Going? ==> TookTasks(a, BoundBy(q, i), Verdicts(q, i), r.state)
    ensures r.Going? <==> TaskFine(q, i) && OneDate(None, verdicts + Verdicts(q, i))
    ensures r.Going? ==> TookTasks(EMPTY, labels + BoundBy(q, i), verdicts + Verdicts(q, i), r.state)
  {
    MoreDates(None, verdicts, a.stamp, Verdicts(q, i));
    if r.Going? {
      TookMore(EMPTY, labels, verdicts, a, BoundBy(q, i), Verdicts(q, i), r.state);
    }
  }
}
