/** Plans, part by part. */
module PlanPieces {
  import opened Wrappers
  import opened Decimals
  import opened Contracts
  import opened PlanValidity
  import opened Proposal
  import opened PlanPaths
  import opened PlanAssembly
  import opened PlanMeaning
  import opened PlanIdentity
  import opened PlanReady

  /* ---- Labels and what they name ---- */

  /** One of the first `m` derivations is called `name`. */
  ghost predicate IsDerived(ds: seq<ProposedDerivation>, m: nat, name: string) {
    exists j :: 0 <= j < m && j < |ds| && ds[j].resultLabel == name
  }

  ghost predicate IsKnown(labels: map<string, string>, ds: seq<ProposedDerivation>, m: nat, name: string) {
    name in labels || IsDerived(ds, m, name)
  }

  /** The output a known label names: a derived label names itself. */
  ghost function Names(labels: map<string, string>, ds: seq<ProposedDerivation>, m: nat, name: string): string
    requires IsKnown(labels, ds, m, name)
  {
    if IsDerived(ds, m, name) then name else labels[name]
  }

  /** `after` names what the labels and the first `m` derivations name. */
  ghost predicate NamesAll(labels: map<string, string>, ds: seq<ProposedDerivation>, m: nat, after: map<string, string>) {
    forall name :: (name in after <==> IsKnown(labels, ds, m, name))
                   && (IsKnown(labels, ds, m, name) ==> after[name] == Names(labels, ds, m, name))
  }

  lemma {:induction false} NamesOneMore(labels: map<string, string>, ds: seq<ProposedDerivation>, m: nat, before: map<string, string>)
    requires m < |ds| && NamesAll(labels, ds, m, before)
    ensures NamesAll(labels, ds, m + 1, before[ds[m].resultLabel := ds[m].resultLabel])
  {
    forall name
      ensures IsDerived(ds, m + 1, name) <==> IsDerived(ds, m, name) || name == ds[m].resultLabel
    {
    }
  }

  /* ---- Additive outputs ---- */

  /** Some financial task of the list has a fact with this output. */
  ghost predicate FactAt(tasks: seq<ResolvedTask>, n: nat, output: string, t: nat, k: nat) {
    t < n <= |tasks| && tasks[t].FinancialTask? && k < |tasks[t].facts| && tasks[t].facts[k].outputId == output
  }

  ghost predicate HasFact(tasks: seq<ResolvedTask>, n: nat, output: string) {
    exists t: nat, k: nat :: FactAt(tasks, n, output, t, k)
  }

  ghost predicate IsPolicy(aggregation: string -> string, tasks: seq<ResolvedTask>, n: nat, output: string, policy: string) {
    exists t: nat, k: nat :: FactAt(tasks, n, output, t, k) && policy == aggregation(tasks[t].facts[k].concept)
  }

  /** An output has a policy when it has a name and a fact, and then that of the concept of such a fact. */
  ghost predicate PoliciesFrom(aggregation: string -> string, tasks: seq<ResolvedTask>, n: nat, policies: map<string, string>) {
    forall output ::
      && (output in policies <==> output != "" && HasFact(tasks, n, output))
      && (output in policies ==> IsPolicy(aggregation, tasks, n, output, policies[output]))
  }

  ghost predicate NamedAmong(facts: seq<FactSpec>, n: nat, output: string) {
    exists k :: 0 <= k < n <= |facts| && facts[k].outputId == output
  }

  ghost predicate PolicyAmong(aggregation: string -> string, facts: seq<FactSpec>, n: nat, output: string, policy: string) {
    exists k :: 0 <= k < n <= |facts| && facts[k].outputId == output && policy == aggregation(facts[k].concept)
  }

  ghost predicate FactsFrom(aggregation: string -> string, facts: seq<FactSpec>, n: nat, earlier: map<string, string>, policies: map<string, string>) {
    forall output ::
      && (output in policies <==> output in earlier || (output != "" && NamedAmong(facts, n, output)))
      && (output in policies ==>
            (output in earlier && policies[output] == earlier[output]) || PolicyAmong(aggregation, facts, n, output, policies[output]))
  }

  lemma {:induction false} FactPolicies(aggregation: string -> string, facts: seq<FactSpec>, n: nat, earlier: map<string, string>)
    requires n <= |facts|
    ensures FactsFrom(aggregation, facts, n, earlier, FactAggregations(aggregation, facts, n, earlier))
  {
    if n > 0 {
      FactPolicies(aggregation, facts, n - 1, earlier);
      var f := facts[n - 1];
      var after := FactAggregations(aggregation, facts, n, earlier);
      forall output
        ensures NamedAmong(facts, n, output) <==> NamedAmong(facts, n - 1, output) || f.outputId == output
        ensures output in after && output == f.outputId != "" ==> PolicyAmong(aggregation, facts, n, output, after[output])
      {
      }
      forall output, policy | PolicyAmong(aggregation, facts, n - 1, output, policy)
        ensures PolicyAmong(aggregation, facts, n, output, policy)
      {
      }
    }
  }

  lemma {:induction false} PoliciesAreFacts(aggregation: string -> string, tasks: seq<ResolvedTask>, n: nat)
    requires n <= |tasks|
    ensures PoliciesFrom(aggregation, tasks, n, Aggregations(aggregation, tasks, n))
  {
    if n > 0 {
      PoliciesAreFacts(aggregation, tasks, n - 1);
      var t, earlier := tasks[n - 1], Aggregations(aggregation, tasks, n - 1);
      if t.FinancialTask? {
        FactPolicies(aggregation, t.facts, |t.facts|, earlier);
      }
      forall output
      {
        OneTaskMore(aggregation, tasks, n, output);
      }
      forall output, policy | IsPolicy(aggregation, tasks, n - 1, output, policy)
        ensures IsPolicy(aggregation, tasks, n, output, policy)
      {
        PolicyStays(aggregation, tasks, n, output, policy);
      }
    }
  }

  lemma {:induction false} OneTaskMore(aggregation: string -> string, tasks: seq<ResolvedTask>, n: nat, output: string)
    requires 0 < n <= |tasks|
    ensures HasFact(tasks, n, output) <==>
            HasFact(tasks, n - 1, output) || (tasks[n - 1].FinancialTask? && NamedAmong(tasks[n - 1].facts, |tasks[n - 1].facts|, output))
    ensures tasks[n - 1].FinancialTask? ==>
              forall policy | PolicyAmong(aggregation, tasks[n - 1].facts, |tasks[n - 1].facts|, output, policy) ::
                IsPolicy(aggregation, tasks, n, output, policy)
  {
    var last, m := tasks[n - 1], n - 1;
    if t: nat, k: nat :| FactAt(tasks, n, output, t, k) {
      if t < n - 1 {
        assert FactAt(tasks, n - 1, output, t, k);
      }
    }
    if t: nat, k: nat :| FactAt(tasks, m, output, t, k) {
      assert FactAt(tasks, n, output, t, k);
    }
    if last.FinancialTask? {
      forall k: nat | k < |last.facts| && last.facts[k].outputId == output
        ensures FactAt(tasks, n, output, n - 1, k)
      {
      }
    }
  }

  lemma {:induction false} PolicyStays(aggregation: string -> string, tasks: seq<ResolvedTask>, n: nat, output: string, policy: string)
    requires 0 < n <= |tasks| && IsPolicy(aggregation, tasks, n - 1, output, policy)
    ensures IsPolicy(aggregation, tasks, n, output, policy)
  {
    var t: nat, k: nat :| FactAt(tasks, n - 1, output, t, k) && policy == aggregation(tasks[t].facts[k].concept);
    assert FactAt(tasks, n, output, t, k);
  }

  /* ---- Derivations ---- */

  /** An output takes part in a difference of cumulative values when it is no fact's, or an additive one. */
  ghost predicate IsAdditive(policies: map<string, string>, output: string) {
    output in policies ==> policies[output] == "additive_duration"
  }

  /** As many operands as the operator takes; a ratio needs a presentation that a proposal cannot give. */
  ghost predicate ArityOk(d: ProposedDerivation) {
    && d.operandLabels != [] && d.operator != "concept_ratio"
    && (d.operator in {"difference", "absolute_difference", "percent_change", "discrete_from_cumulative", "equal"} ==> |d.operandLabels| == 2)
    && (d.operator in {"argmax", "sum"} ==> |d.operandLabels| >= 2)
    && (d.operator == "equal" ==> d.roundingRule == "unspecified")
  }

  ghost predicate OperandsKnown(labels: map<string, string>, ds: seq<ProposedDerivation>, m: nat)
    requires m < |ds|
  {
    forall x | 0 <= x < |ds[m].operandLabels| :: IsKnown(labels, ds, m, ds[m].operandLabels[x])
  }

  ghost predicate OperandsAdd(policies: map<string, string>, labels: map<string, string>, ds: seq<ProposedDerivation>, m: nat)
    requires m < |ds| && OperandsKnown(labels, ds, m)
  {
    forall x | 0 <= x < |ds[m].operandLabels| :: IsAdditive(policies, Names(labels, ds, m, ds[m].operandLabels[x]))
  }

  /** Derivation `m` uses known labels, subtracts only what adds up, and has the arity of its operator. */
  ghost predicate DerivationFine(policies: map<string, string>, labels: map<string, string>, ds: seq<ProposedDerivation>, m: nat)
    requires m < |ds|
  {
    && OperandsKnown(labels, ds, m)
    && (ds[m].operator == "discrete_from_cumulative" ==> OperandsAdd(policies, labels, ds, m))
    && ArityOk(ds[m])
  }

  /** The plan's derivation: the proposed label, operator and rounding, on the outputs its operand labels name. */
  ghost predicate DerivationShows(labels: map<string, string>, ds: seq<ProposedDerivation>, m: nat, r: Derivation)
    requires m < |ds|
  {
    var d := ds[m];
    && r.outputId == d.resultLabel && r.operator == d.operator && r.presentation.None?
    && (if d.roundingRule == "unspecified" then r.rounding.None? else r.rounding == Some(d.roundingRule))
    && |r.operands| == |d.operandLabels|
    && forall x | 0 <= x < |d.operandLabels| ::
         IsKnown(labels, ds, m, d.operandLabels[x]) && r.operands[x] == Names(labels, ds, m, d.operandLabels[x])
  }

  lemma {:induction false} BoundIsKnown(labels: map<string, string>, ds: seq<ProposedDerivation>, m: nat, now: map<string, string>)
    requires m < |ds| && NamesAll(labels, ds, m, now)
    ensures AllBound(now, ds[m].operandLabels) <==> OperandsKnown(labels, ds, m)
    ensures AllBound(now, ds[m].operandLabels) ==>
              forall x | 0 <= x < |ds[m].operandLabels| ::
                OutputsOf(now, ds[m].operandLabels)[x] == Names(labels, ds, m, ds[m].operandLabels[x])
  {
    var names := ds[m].operandLabels;
    forall x | 0 <= x < |names|
      ensures names[x] in now <==> IsKnown(labels, ds, m, names[x])
    {
    }
  }

  lemma {:induction false} ArityExactly(d: ProposedDerivation, operands: seq<string>)
    requires |operands| == |d.operandLabels|
    ensures DerivationOk(Derivation(d.resultLabel, d.operator, operands, Rounding(d), None)) <==> ArityOk(d)
  {
  }

  /** One derivation resolves exactly when it is fine, and then to itself; otherwise the first thing wrong is said. */
  lemma {:induction false} DerivationExactly(policies: map<string, string>, labels: map<string, string>, ds: seq<ProposedDerivation>, m: nat, s: Links)
    requires m < |ds| && NamesAll(labels, ds, m, s.labels)
    ensures DerivationStep(policies, ds[m], s).Going? <==> DerivationFine(policies, labels, ds, m)
    ensures DerivationStep(policies, ds[m], s).Going? ==>
              var s' := DerivationStep(policies, ds[m], s).state;
              && NamesAll(labels, ds, m + 1, s'.labels) && |s'.derivations| == |s.derivations| + 1 && s.derivations <= s'.derivations
              && DerivationShows(labels, ds, m, s'.derivations[|s.derivations|])
    ensures !OperandsKnown(labels, ds, m) ==>
              DerivationStep(policies, ds[m], s) == Stopped(Returned(Unresolved("unsupported_request", ["derivation_operand_has_no_scalar_output"])))
    ensures OperandsKnown(labels, ds, m) && ds[m].operator == "discrete_from_cumulative" && !OperandsAdd(policies, labels, ds, m) ==>
              DerivationStep(policies, ds[m], s) == Stopped(Returned(Unresolved("unsupported_request", ["derivation_operator_not_additive"])))
  {
    var d := ds[m];
    BoundIsKnown(labels, ds, m, s.labels);
    NamesOneMore(labels, ds, m, s.labels);
    if AllBound(s.labels, d.operandLabels) {
      var operands := OutputsOf(s.labels, d.operandLabels);
      ArityExactly(d, operands);
      assert (forall x | 0 <= x < |operands| :: Additive(policies, operands[x])) <==> OperandsAdd(policies, labels, ds, m) by {
        assert forall x | 0 <= x < |operands| :: Additive(policies, operands[x]) <==> IsAdditive(policies, operands[x]);
      }
    }
  }

  ghost predicate DerivationsFine(policies: map<string, string>, labels: map<string, string>, ds: seq<ProposedDerivation>, m: nat)
    requires m <= |ds|
  {
    forall k {:trigger DerivationFine(policies, labels, ds, k)} | 0 <= k < m :: DerivationFine(policies, labels, ds, k)
  }

  ghost predicate DerivationsShow(labels: map<string, string>, ds: seq<ProposedDerivation>, m: nat, rs: seq<Derivation>) {
    |rs| == m <= |ds| && forall k | 0 <= k < m :: DerivationShows(labels, ds, k, rs[k])
  }

  ghost predicate LinkedExactly(policies: map<string, string>, labels: map<string, string>, ds: seq<ProposedDerivation>, m: nat, r: Progress<Links>)
    requires m <= |ds|
  {
    && (r.Going? <==> DerivationsFine(policies, labels, ds, m))
    && (r.Going? ==> NamesAll(labels, ds, m, r.state.labels) && DerivationsShow(labels, ds, m, r.state.derivations))
  }

  lemma {:induction false} DerivationsExactly(policies: map<string, string>, labels: map<string, string>, ds: seq<ProposedDerivation>, m: nat)
    requires m <= |ds|
    ensures LinkedExactly(policies, labels, ds, m, DerivationsAfter(policies, labels, ds, m))
  {
    if m > 0 {
      DerivationsExactly(policies, labels, ds, m - 1);
      var before, r := DerivationsAfter(policies, labels, ds, m - 1), DerivationsAfter(policies, labels, ds, m);
      if before.Going? {
        DerivationNext(policies, labels, ds, m, before.state);
        LinkedNext(policies, labels, ds, m, before.state, r);
      } else {
        assert r.Stopped?;
        assert DerivationsFine(policies, labels, ds, m) ==> DerivationsFine(policies, labels, ds, m - 1);
      }
    }
  }

  lemma {:induction false} DerivationNext(policies: map<string, string>, labels: map<string, string>, ds: seq<ProposedDerivation>, m: nat, s: Links)
    requires 0 < m <= |ds| && DerivationsAfter(policies, labels, ds, m - 1) == Going(s) && NamesAll(labels, ds, m - 1, s.labels)
    ensures var r := DerivationsAfter(policies, labels, ds, m);
            && (r.Going? <==> DerivationFine(policies, labels, ds, m - 1))
            && (r.Going? ==>
                  && NamesAll(labels, ds, m, r.state.labels) && |r.state.derivations| == |s.derivations| + 1 && s.derivations <= r.state.derivations
                  && DerivationShows(labels, ds, m - 1, r.state.derivations[|s.derivations|]))
  {
    assert DerivationsAfter(policies, labels, ds, m) == DerivationStep(policies, ds[m - 1], s);
    DerivationExactly(policies, labels, ds, m - 1, s);
  }

  lemma {:induction false} LinkedNext(policies: map<string, string>, labels: map<string, string>, ds: seq<ProposedDerivation>, m: nat, s: Links,
                                      r: Progress<Links>)
    requires 0 < m <= |ds| && DerivationsFine(policies, labels, ds, m - 1) && DerivationsShow(labels, ds, m - 1, s.derivations)
    requires r.Going? <==> DerivationFine(policies, labels, ds, m - 1)
    requires r.Going? ==>
               && NamesAll(labels, ds, m, r.state.labels) && |r.state.derivations| == |s.derivations| + 1 && s.derivations <= r.state.derivations
               && DerivationShows(labels, ds, m - 1, r.state.derivations[|s.derivations|])
    ensures LinkedExactly(policies, labels, ds, m, r)
  {
    assert DerivationsFine(policies, labels, ds, m) <==> DerivationFine(policies, labels, ds, m - 1);
    if r.Going? {
      forall k | 0 <= k < m
        ensures DerivationShows(labels, ds, k, r.state.derivations[k])
      {
        assert k < m - 1 ==> r.state.derivations[k] == s.derivations[k];
      }
    }
  }

  /* ---- Premises ---- */

  /** The proposal indices listed for premise `k`, if any are listed at all. */
  function ListedTasks(q: Request, k: nat): seq<int> {
    if q.side.premiseTasks != [] && k < |q.side.premiseTasks| then q.side.premiseTasks[k] else []
  }

  /** The plan tasks of each listed index, index by index. */
  function NamedTasks(taskIds: seq<seq<string>>, indices: seq<int>): seq<string> {
    Gather(indices, (i: int) => if 0 <= i < |taskIds| then taskIds[i] else [], |indices|)
  }

  lemma {:induction false} IdsOfOneMore(taskIds: seq<seq<string>>, indices: seq<int>, last: int)
    requires (forall i | 0 <= i < |indices| :: 0 <= indices[i] < |taskIds|) && 0 <= last < |taskIds|
    ensures IdsOf(taskIds, indices + [last]) == IdsOf(taskIds, indices) + taskIds[last]
  {
    if indices == [] {
      assert [] + [last] == [last] && IdsOf(taskIds, [last]) == taskIds[last] + IdsOf(taskIds, []);
    } else {
      IdsOfOneMore(taskIds, indices[1..], last);
      assert (indices + [last])[1..] == indices[1..] + [last];
    }
  }

  lemma {:induction false} GatheredUpTo(part: int -> seq<string>, indices: seq<int>, n: nat)
    requires n <= |indices|
    ensures Gather(indices, part, n) == Gather(indices[..n], part, n)
  {
    GatherSame(part, indices, indices[..n], n);
  }

  lemma {:induction false} GatherSame(part: int -> seq<string>, a: seq<int>, b: seq<int>, n: nat)
    requires n <= |a| && n <= |b| && a[..n] == b[..n]
    ensures Gather(a, part, n) == Gather(b, part, n)
  {
    if n > 0 {
      assert a[..n][n - 1] == b[..n][n - 1] && a[..n][..n - 1] == a[..n - 1] && b[..n][..n - 1] == b[..n - 1];
      GatherSame(part, a, b, n - 1);
    }
  }

  lemma {:induction false} IdsAreNamed(taskIds: seq<seq<string>>, indices: seq<int>)
    requires forall i | 0 <= i < |indices| :: 0 <= indices[i] < |taskIds|
    ensures IdsOf(taskIds, indices) == NamedTasks(taskIds, indices)
  {
    if indices != [] {
      var n := |indices| - 1;
      IdsAreNamed(taskIds, indices[..n]);
      IdsOfOneMore(taskIds, indices[..n], indices[n]);
      assert indices == indices[..n] + [indices[n]];
      GatheredUpTo((i: int) => if 0 <= i < |taskIds| then taskIds[i] else [], indices, n);
    }
  }

  /** Premise `k` verifies known labels and resolved tasks, at least one of either, and none twice. */
  ghost predicate PremiseFine(q: Request, taskIds: seq<seq<string>>, labels: map<string, string>, k: nat)
    requires k < |q.proposal.premises|
  {
    var premise, indices := q.proposal.premises[k], ListedTasks(q, k);
    && (forall x | 0 <= x < |premise.verifyLabels| :: premise.verifyLabels[x] in labels)
    && (forall x | 0 <= x < |indices| :: 0 <= indices[x] < |taskIds|)
    && (premise.verifyLabels != [] || exists x :: 0 <= x < |indices| && taskIds[indices[x]] != [])
    && (forall x, y | 0 <= x < y < |premise.verifyLabels| :: labels[premise.verifyLabels[x]] != labels[premise.verifyLabels[y]])
    && Distinct(NamedTasks(taskIds, indices))
  }

  /** The plan's claim: numbered from one, the proposed kind and wording, the outputs and tasks it names in order. */
  ghost predicate PremiseShows(q: Request, taskIds: seq<seq<string>>, labels: map<string, string>, k: nat, claim: PremiseClaim)
    requires k < |q.proposal.premises| && PremiseFine(q, taskIds, labels, k)
  {
    var premise := q.proposal.premises[k];
    && claim.claimId == "premise-" + Dec(k + 1) && claim.kind == premise.kind && claim.rawText == premise.rawText
    && |claim.verifyWith| == |premise.verifyLabels|
    && (forall x | 0 <= x < |claim.verifyWith| :: claim.verifyWith[x] == labels[premise.verifyLabels[x]])
    && claim.verifyTasks == NamedTasks(taskIds, ListedTasks(q, k))
  }

  lemma {:induction false} IdsOfEmpty(taskIds: seq<seq<string>>, indices: seq<int>)
    requires forall i | 0 <= i < |indices| :: 0 <= indices[i] < |taskIds|
    ensures IdsOf(taskIds, indices) != [] <==> exists x :: 0 <= x < |indices| && taskIds[indices[x]] != []
  {
    if indices != [] {
      IdsOfEmpty(taskIds, indices[1..]);
      assert forall x | 0 < x < |indices| :: indices[x] == indices[1..][x - 1];
    }
  }

  lemma {:induction false} OutputsDiffer(labels: map<string, string>, names: seq<string>)
    requires AllBound(labels, names)
    ensures Distinct(OutputsOf(labels, names)) <==> forall x, y | 0 <= x < y < |names| :: labels[names[x]] != labels[names[y]]
  {
  }

  lemma {:induction false} PremiseRefused(q: Request, a: Assembly, labels: map<string, string>, k: nat)
    requires k < |q.proposal.premises|
    ensures (exists x :: 0 <= x < |q.proposal.premises[k].verifyLabels| && q.proposal.premises[k].verifyLabels[x] !in labels) ==>
              PremiseStep(q, a, labels, k) == Stopped(Returned(Unresolved("unsupported_request", ["premise_reference_has_no_scalar_output"])))
    ensures (forall x | 0 <= x < |q.proposal.premises[k].verifyLabels| :: q.proposal.premises[k].verifyLabels[x] in labels)
            && (exists x :: 0 <= x < |ListedTasks(q, k)| && !(0 <= ListedTasks(q, k)[x] < |a.taskIds|)) ==>
              PremiseStep(q, a, labels, k) == Stopped(Returned(Unresolved("unsupported_request", ["premise_reference_has_no_resolved_task"])))
    ensures q.proposal.premises[k].verifyLabels == [] && ListedTasks(q, k) == [] ==>
              PremiseStep(q, a, labels, k) == Stopped(Returned(Unresolved("unsupported_request", ["premise_reference_missing"])))
  {
  }

  /** One premise resolves exactly when it is fine, and then to itself. `PremiseRefused` says what is said otherwise. */
  lemma {:induction false} PremiseExactly(q: Request, a: Assembly, labels: map<string, string>, k: nat)
    requires k < |q.proposal.premises|
    ensures PremiseStep(q, a, labels, k).Going? <==> PremiseFine(q, a.taskIds, labels, k)
    ensures PremiseStep(q, a, labels, k).Going? ==> PremiseShows(q, a.taskIds, labels, k, PremiseStep(q, a, labels, k).state)
  {
    var premise, indices := q.proposal.premises[k], ListedTasks(q, k);
    if AllBound(labels, premise.verifyLabels) && forall x | 0 <= x < |indices| :: 0 <= indices[x] < |a.taskIds| {
      IdsOfEmpty(a.taskIds, indices);
      IdsAreNamed(a.taskIds, indices);
      OutputsDiffer(labels, premise.verifyLabels);
    }
  }

  ghost predicate PremisesFine(q: Request, taskIds: seq<seq<string>>, labels: map<string, string>, m: nat)
    requires m <= |q.proposal.premises|
  {
    forall k {:trigger PremiseFine(q, taskIds, labels, k)} | 0 <= k < m :: PremiseFine(q, taskIds, labels, k)
  }

  ghost predicate ClaimedExactly(q: Request, taskIds: seq<seq<string>>, labels: map<string, string>, m: nat, r: Progress<seq<PremiseClaim>>)
    requires m <= |q.proposal.premises|
  {
    && (r.Going? <==> PremisesFine(q, taskIds, labels, m))
    && (r.Going? ==> |r.state| == m && forall k | 0 <= k < m :: PremiseShows(q, taskIds, labels, k, r.state[k]))
  }

  lemma {:induction false} PremiseNext(q: Request, a: Assembly, labels: map<string, string>, m: nat, claims: seq<PremiseClaim>)
    requires 0 < m <= |q.proposal.premises| && PremisesAfter(q, a, labels, m - 1) == Going(claims)
    ensures var r := PremisesAfter(q, a, labels, m);
            && (r.Going? <==> PremiseFine(q, a.taskIds, labels, m - 1))
            && (r.Going? ==> |r.state| == |claims| + 1 && claims <= r.state && PremiseShows(q, a.taskIds, labels, m - 1, r.state[|claims|]))
  {
    PremiseExactly(q, a, labels, m - 1);
    assert PremisesAfter(q, a, labels, m) == PremiseStepOf(q, a, labels)(m - 1, claims);
  }

  lemma {:induction false} PremisesExactly(q: Request, a: Assembly, labels: map<string, string>, m: nat)
    requires m <= |q.proposal.premises|
    ensures ClaimedExactly(q, a.taskIds, labels, m, PremisesAfter(q, a, labels, m))
  {
    if m > 0 {
      PremisesExactly(q, a, labels, m - 1);
      var before, r := PremisesAfter(q, a, labels, m - 1), PremisesAfter(q, a, labels, m);
      if before.Going? {
        PremiseNext(q, a, labels, m, before.state);
        ClaimedNext(q, a.taskIds, labels, m, before.state, r);
      } else {
        assert r.Stopped?;
        FewerPremises(q, a.taskIds, labels, m);
      }
    }
  }

  lemma {:induction false} ClaimedNext(q: Request, taskIds: seq<seq<string>>, labels: map<string, string>, m: nat, claims: seq<PremiseClaim>,
                                       r: Progress<seq<PremiseClaim>>)
    requires 0 < m <= |q.proposal.premises| && PremisesFine(q, taskIds, labels, m - 1)
    requires |claims| == m - 1 && forall k | 0 <= k < m - 1 :: PremiseShows(q, taskIds, labels, k, claims[k])
    requires r.Going? <==> PremiseFine(q, taskIds, labels, m - 1)
    requires r.Going? ==> |r.state| == |claims| + 1 && claims <= r.state && PremiseShows(q, taskIds, labels, m - 1, r.state[|claims|])
    ensures ClaimedExactly(q, taskIds, labels, m, r)
  {
    assert PremisesFine(q, taskIds, labels, m) <==> PremiseFine(q, taskIds, labels, m - 1);
    if r.Going? {
      forall k | 0 <= k < m
        ensures PremiseShows(q, taskIds, labels, k, r.state[k])
      {
        assert k < m - 1 ==> r.state[k] == claims[k];
      }
    }
  }

  lemma {:induction false} FewerPremises(q: Request, taskIds: seq<seq<string>>, labels: map<string, string>, m: nat)
    requires 0 < m <= |q.proposal.premises|
    ensures PremisesFine(q, taskIds, labels, m) ==> PremisesFine(q, taskIds, labels, m - 1)
  {
  }

  /* ---- Before anything is resolved ---- */

  /** The tasks among the first `n` that are not financial, and those that are about documents. */
  ghost function Companies(tasks: seq<ProposalTask>, n: nat): set<nat>
    requires n <= |tasks|
  {
    set i: nat | i < n && tasks[i].kind != Financial
  }

  ghost function Documents(tasks: seq<ProposalTask>, n: nat): set<nat>
    requires n <= |tasks|
  {
    set i: nat | i < n && (tasks[i].kind == Document || tasks[i].kind == Narrative)
  }

  ghost function CompanyCount(tasks: seq<ProposalTask>): nat {
    |Companies(tasks, |tasks|)|
  }

  ghost function DocumentCount(tasks: seq<ProposalTask>): nat {
    |Documents(tasks, |tasks|)|
  }

  /** The sidecar is one the proposal can take: one target-period entry per task and one task list per premise if there are
      any, and a chosen company or receipt only where exactly one task can mean it. */
  ghost predicate Resolvable(p: PlanProposal, side: Sidecar) {
    && p.disposition == "process"
    && (side.targetPeriods == [] || |side.targetPeriods| == |p.tasks|)
    && (side.premiseTasks == [] || |side.premiseTasks| == |p.premises|)
    && (side.company.Some? ==> CompanyCount(p.tasks) == 1)
    && (side.receipt.Some? ==> DocumentCount(p.tasks) == 1)
  }

  lemma {:induction false} CompaniesNext(tasks: seq<ProposalTask>, n: nat)
    requires 0 < n <= |tasks|
    ensures Companies(tasks, n) == Companies(tasks, n - 1) + if tasks[n - 1].kind != Financial then {n - 1} else {}
    ensures n - 1 !in Companies(tasks, n - 1)
  {
  }

  lemma {:induction false} CompaniesCounted(tasks: seq<ProposalTask>, n: nat)
    requires n <= |tasks|
    ensures |CompanyTasks(tasks, n)| == |Companies(tasks, n)|
    ensures forall i :: i in CompanyTasks(tasks, n) <==> i in Companies(tasks, n)
  {
    if n > 0 {
      CompaniesCounted(tasks, n - 1);
      CompaniesNext(tasks, n);
    }
  }

  lemma {:induction false} DocumentsNext(tasks: seq<ProposalTask>, n: nat)
    requires 0 < n <= |tasks|
    ensures Documents(tasks, n) == Documents(tasks, n - 1) + if tasks[n - 1].kind in {Document, Narrative} then {n - 1} else {}
    ensures n - 1 !in Documents(tasks, n - 1)
  {
  }

  lemma {:induction false} DocumentsCounted(tasks: seq<ProposalTask>, n: nat)
    requires n <= |tasks|
    ensures |DocumentTasks(tasks, n)| == |Documents(tasks, n)|
    ensures forall i :: i in DocumentTasks(tasks, n) <==> i in Documents(tasks, n)
  {
    if n > 0 {
      DocumentsCounted(tasks, n - 1);
      DocumentsNext(tasks, n);
    }
  }

  /** Exactly when the checks before resolution pass, and what the first failing one says. */
  lemma {:induction false} PrecheckExactly(p: PlanProposal, side: Sidecar)
    ensures Precheck(p, side).None? <==> Resolvable(p, side)
    ensures Precheck(p, side).Some? ==>
              Precheck(p, side).value == Returned(Unresolved("unsupported_request", [
                if p.disposition != "process" then "terminal_decision_gate_required"
                else if side.targetPeriods != [] && |side.targetPeriods| != |p.tasks| then "document_target_period_sidecar_shape_mismatch"
                else if side.premiseTasks != [] && |side.premiseTasks| != |p.premises| then "premise_task_sidecar_shape_mismatch"
                else if side.company.Some? && CompanyCount(p.tasks) != 1 then "company_context_ambiguous_across_tasks"
                else "document_receipt_context_ambiguous_across_tasks"]))
  {
    CompaniesCounted(p.tasks, |p.tasks|);
    DocumentsCounted(p.tasks, |p.tasks|);
  }

  /* ---- What the delegate is asked ---- */

  /** The proposal reduced to one task. */
  ghost predicate IsAlone(p: PlanProposal, task: ProposalTask, one: PlanProposal) {
    && one.tasks == [task] && one.derivations == [] && one.premises == [] && one.presentation == "unspecified"
    && one.disposition == p.disposition && one.reasonCodes == p.reasonCodes
  }

  /** A fact is asked about by itself, without any context, and the verdict is told of task `i` and fact `j`. */
  lemma {:induction false} FactIsAskedAlone(r: Resolver, p: PlanProposal, side: Sidecar, revision: nat, i: nat, j: nat)
    requires i < |p.tasks| && j < |p.tasks[i].facts|
    ensures exists one ::
              && IsAlone(p, p.tasks[i].(facts := [p.tasks[i].facts[j]]), one)
              && RequestFor(r, p, side, revision).factVerdict(i, j) == Rebased(r.single(one, revision, [], None, None), i, Some(j))
  {
    var one := Alone(p, p.tasks[i].(facts := [p.tasks[i].facts[j]]));
    assert IsAlone(p, p.tasks[i].(facts := [p.tasks[i].facts[j]]), one);
  }

  /** Another task is asked about by itself, with its own target periods, and with the chosen company or receipt exactly when it
      is the only task that can mean it. */
  lemma {:induction false} TaskIsAskedAlone(r: Resolver, p: PlanProposal, side: Sidecar, revision: nat, i: nat)
    requires i < |p.tasks| && p.tasks[i].kind != Financial
    ensures exists one ::
              && IsAlone(p, p.tasks[i], one)
              && RequestFor(r, p, side, revision).taskVerdict(i) == Rebased(r.single(one, revision,
                   if i < |side.targetPeriods| then [side.targetPeriods[i]] else [],
                   if CompanyCount(p.tasks) == 1 then side.company else None,
                   if p.tasks[i].kind in {Document, Narrative} && DocumentCount(p.tasks) == 1 then side.receipt else None), i, None)
  {
    CompaniesCounted(p.tasks, |p.tasks|);
    DocumentsCounted(p.tasks, |p.tasks|);
    var companies, documents := CompanyTasks(p.tasks, |p.tasks|), DocumentTasks(p.tasks, |p.tasks|);
    assert i in companies;
    OnlyOne(companies, i);
    OnlyOne(documents, i);
    assert IsAlone(p, p.tasks[i], Alone(p, p.tasks[i]));
  }

  lemma {:induction false} OnlyOne(s: seq<nat>, i: nat)
    ensures s == [i] <==> i in s && |s| == 1
  {
  }

  /* ---- Ready ---- */

  /** Everything a plan needs of the proposal, the sidecar and the delegate's verdicts. */
  ghost predicate CanBePlanned(q: Request) {
    var n := |q.proposal.tasks|;
    && Resolvable(q.proposal, q.side) && TasksFine(q, n) && OneDate(None, Asked(q, n)) && Asked(q, n) != []
    && TasksAfter(q, n).Going?
    && var a := TasksAfter(q, n).state;
       var ds, policies := q.proposal.derivations, Aggregations(q.aggregation, a.tasks, |a.tasks|);
       && DerivationsFine(policies, a.labels, ds, |ds|)
       && Derived(q, a).Going?
       && PremisesFine(q, a.taskIds, Derived(q, a).state.labels, |q.proposal.premises|)
  }

  /** The parts of the plan that come from the proposal itself. */
  ghost predicate PlanShows(q: Request, plan: ResolvedQueryPlan) {
    var n := |q.proposal.tasks|;
    && plan.revision == q.revision
    && (if q.proposal.presentation == "unspecified" then plan.presentation.None? else plan.presentation == Some(q.proposal.presentation))
    && DatedBy((plan.referenceDate, plan.corpusCutoff), None, Asked(q, n))
    && Elements(plan.appliedDefaults) == DefaultsOf(Asked(q, n)) && Distinct(plan.appliedDefaults)
    && TasksAfter(q, n).Going?
    && var a := TasksAfter(q, n).state;
       && plan.tasks == a.tasks
       && DerivationsShow(a.labels, q.proposal.derivations, |q.proposal.derivations|, plan.derivations)
       && Derived(q, a).Going?
       && |plan.premises| == |q.proposal.premises|
       && forall k | 0 <= k < |plan.premises| ::
            PremiseFine(q, a.taskIds, Derived(q, a).state.labels, k)
            && PremiseShows(q, a.taskIds, Derived(q, a).state.labels, k, plan.premises[k])
  }

  /** The one plan the request can have, well formed or not. */
  ghost function Candidate(q: Request): ResolvedQueryPlan
    requires CanBePlanned(q)
    ensures PlanShows(q, Candidate(q))
  {
    var n := |q.proposal.tasks|;
    TasksExactly(q, n);
    var a := TasksAfter(q, n).state;
    var links := Derived(q, a).state;
    DerivationsExactly(Aggregations(q.aggregation, a.tasks, |a.tasks|), a.labels, q.proposal.derivations, |q.proposal.derivations|);
    PremisesExactly(q, a, links.labels, |q.proposal.premises|);
    PlanOf(q, a, links, PremisesAfter(q, a, links.labels, |q.proposal.premises|).state)
  }

  /** A proposal resolves to a plan exactly when it can be planned and the candidate is well formed, and then to that. */
  lemma {:induction false} ReadyExactly(q: Request, plan: ResolvedQueryPlan)
    ensures Resolve(q) == Returned(PlanReady(plan)) <==> CanBePlanned(q) && plan == Candidate(q) && WellFormedPlan(plan)
  {
    PrecheckExactly(q.proposal, q.side);
    TasksExactly(q, |q.proposal.tasks|);
    var tasks := TasksAfter(q, |q.proposal.tasks|);
    if tasks.Going? {
      AskedStamp(q, tasks.state);
      var policies := Aggregations(q.aggregation, tasks.state.tasks, |tasks.state.tasks|);
      DerivationsExactly(policies, tasks.state.labels, q.proposal.derivations, |q.proposal.derivations|);
      var derived := Derived(q, tasks.state);
      if derived.Going? {
        PremisesExactly(q, tasks.state, derived.state.labels, |q.proposal.premises|);
      }
    }
    if Resolve(q) == Returned(PlanReady(plan)) {
      ResolveIsAllOrNothing(q);
    }
  }

  lemma {:induction false} AskedStamp(q: Request, a: Assembly)
    requires TookTasks(EMPTY, AllBoundBy(q, |q.proposal.tasks|), Asked(q, |q.proposal.tasks|), a)
    ensures a.stamp.Some? <==> Asked(q, |q.proposal.tasks|) != []
  {
  }

  /** What a ready plan shows of its proposal: the dates and defaults of every verdict, each derivation with its own label,
      operator and rounding on the outputs its labels name, each premise with its own wording, and the presentation. */
  lemma {:induction false} ReadyPlansShow(q: Request, plan: ResolvedQueryPlan)
    requires Resolve(q) == Returned(PlanReady(plan))
    ensures PlanShows(q, plan)
  {
    ReadyExactly(q, plan);
  }
}
