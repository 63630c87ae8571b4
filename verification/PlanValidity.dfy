/** What the plan validator accepts. */
module PlanValidity {
  import opened Wrappers
  import opened Ordering
  import opened Contracts

  /* ---- The validator ---- */

  /** Whether two named sets overlap for some pair taken in name order. */
  method NamespacesOverlap(names: seq<string>, spaces: map<string, set<string>>) returns (overlap: bool)
    requires forall i | 0 <= i < |names| :: names[i] in spaces
    ensures overlap <==> exists i, j | 0 <= i < |names| && 0 <= j < |names| && Less(names[i], names[j]) ::
                           spaces[names[i]] * spaces[names[j]] != {}
  {
    for i := 0 to |names|
      invariant forall p, j | 0 <= p < i && 0 <= j < |names| && Less(names[p], names[j]) ::
                  spaces[names[p]] * spaces[names[j]] == {}
    {
      for j := 0 to |names|
        invariant forall q | 0 <= q < j && Less(names[i], names[q]) :: spaces[names[i]] * spaces[names[q]] == {}
      {
        if Less(names[i], names[j]) && spaces[names[i]] * spaces[names[j]] != {} {
          return true;
        }
      }
    }
    return false;
  }

  /** The half-visited loop over names still compares every pair of different names. */
  lemma {:induction false} PairwiseDisjoint(names: seq<string>, spaces: map<string, set<string>>)
    requires forall i | 0 <= i < |names| :: names[i] in spaces
    requires forall i, j | 0 <= i < |names| && 0 <= j < |names| && Less(names[i], names[j]) ::
               spaces[names[i]] * spaces[names[j]] == {}
    ensures forall i, j | 0 <= i < |names| && 0 <= j < |names| && names[i] != names[j] ::
              spaces[names[i]] !! spaces[names[j]]
  {
    forall i, j | 0 <= i < |names| && 0 <= j < |names| && names[i] != names[j]
      ensures spaces[names[i]] !! spaces[names[j]]
    {
      LessIsTotal(names[i], names[j]);
      if Less(names[i], names[j]) {
        DisjointEitherWay(spaces[names[i]], spaces[names[j]]);
      } else {
        DisjointEitherWay(spaces[names[j]], spaces[names[i]]);
      }
    }
  }

  lemma {:induction false} DisjointEitherWay(a: set<string>, b: set<string>)
    requires a * b == {}
    ensures a !! b && b !! a
  {
    assert forall x | x in a && x in b :: x in a * b;
  }

  lemma {:induction false} LateDateStays(plan: ResolvedQueryPlan, k: nat, n: nat)
    requires k <= n <= |plan.tasks| && !DatesOkUpTo(plan, k)
    ensures !DatesOkUpTo(plan, n)
  {
    if k < n {
      LateDateStays(plan, k, n - 1);
    }
  }

  method CollectOutputs(plan: ResolvedQueryPlan) returns (outputIds: Option<seq<string>>)
    ensures outputIds.Some? <==> DatesOkUpTo(plan, |plan.tasks|)
    ensures outputIds.Some? ==> outputIds.value == AllOutputs(plan.tasks)
  {
    var ids: seq<string> := [];
    for i := 0 to |plan.tasks|
      invariant ids == OutputsUpTo(plan.tasks, i)
      invariant DatesOkUpTo(plan, i)
    {
      if !TaskDatesOk(plan.tasks[i], plan.corpusCutoff) {
        LateDateStays(plan, i + 1, |plan.tasks|);
        return None;
      }
      ids := ids + Outputs(plan.tasks[i]);
    }
    outputIds := Some(ids);
  }

  method IsSubset(names: seq<string>, known: set<string>) returns (ok: bool)
    ensures ok <==> Subset(names, known)
  {
    for i := 0 to |names|
      invariant forall k | 0 <= k < i :: names[k] in known
    {
      if names[i] !in known {
        return false;
      }
    }
    return true;
  }

  /** Grows the known outputs derivation by derivation. */
  method LinkDerivations(plan: ResolvedQueryPlan, outputIds: seq<string>) returns (known: Option<set<string>>)
    requires outputIds == AllOutputs(plan.tasks)
    ensures known == if forall i | 0 <= i < |plan.derivations| :: DerivationLinked(plan, i)
                     then Some(Known(plan)) else None
  {
    var grown := Elements(outputIds);
    for i := 0 to |plan.derivations|
      invariant grown == KnownBefore(plan, i)
      invariant forall k | 0 <= k < i :: DerivationLinked(plan, k)
    {
      var d := plan.derivations[i];
      var linked := IsSubset(d.operands, grown);
      assert DerivationLinked(plan, i) <==> d.outputId !in grown && linked;
      if d.outputId in grown || !linked {
        return None;
      }
      KnownGrows(plan, i);
      grown := grown + {d.outputId};
    }
    known := Some(grown);
  }

  lemma {:induction false} KnownGrows(plan: ResolvedQueryPlan, i: nat)
    requires i < |plan.derivations|
    ensures KnownBefore(plan, i + 1) == KnownBefore(plan, i) + {plan.derivations[i].outputId}
  {
  }

  method LinkPremises(plan: ResolvedQueryPlan, known: set<string>) returns (ok: bool)
    requires known == Known(plan)
    ensures ok <==> forall i | 0 <= i < |plan.premises| :: PremiseLinked(plan, plan.premises[i])
  {
    for i := 0 to |plan.premises|
      invariant forall k | 0 <= k < i :: PremiseLinked(plan, plan.premises[k])
    {
      var outputs := IsSubset(plan.premises[i].verifyWith, known);
      var tasks := IsSubset(plan.premises[i].verifyTasks, Elements(TaskIds(plan.tasks)));
      if !outputs || !tasks {
        return false;
      }
    }
    return true;
  }

  method ValidatePlan(plan: ResolvedQueryPlan) returns (ok: bool)
    ensures ok <==> WellFormedPlan(plan)
  {
    var taskIds, claimIds := TaskIds(plan.tasks), ClaimIds(plan.premises);
    if plan.tasks == [] || !Distinct(taskIds) || !Distinct(claimIds) || !Distinct(plan.appliedDefaults) {
      return false;
    }
    var outputIds := CollectOutputs(plan);
    if outputIds.None? || !Distinct(outputIds.value) {
      return false;
    }
    var known := LinkDerivations(plan, outputIds.value);
    if known.None? {
      return false;
    }
    var linked := LinkPremises(plan, known.value);
    if !linked {
      return false;
    }
    ok := NamespacesDisjoint(Elements(taskIds), known.value, Elements(claimIds));
  }

  /** Among three names some pair that the loop visits overlaps exactly when some pair does. */
  lemma {:induction false} ThreeSpaces(names: seq<string>, spaces: map<string, set<string>>)
    requires |names| == 3 && Distinct(names) && forall i | 0 <= i < |names| :: names[i] in spaces
    ensures (exists i, j | 0 <= i < |names| && 0 <= j < |names| && Less(names[i], names[j]) ::
               spaces[names[i]] * spaces[names[j]] != {})
       <==> !(&& spaces[names[0]] !! spaces[names[1]] && spaces[names[0]] !! spaces[names[2]]
              && spaces[names[1]] !! spaces[names[2]])
  {
    if i, j :| 0 <= i < |names| && 0 <= j < |names| && Less(names[i], names[j]) && spaces[names[i]] * spaces[names[j]] != {} {
      LessIsTotal(names[i], names[j]);
      OverlapIsNotDisjoint(spaces[names[i]], spaces[names[j]]);
    } else {
      PairwiseDisjoint(names, spaces);
    }
  }

  lemma {:induction false} OverlapIsNotDisjoint(a: set<string>, b: set<string>)
    requires a * b != {}
    ensures !(a !! b) && !(b !! a)
  {
    var x :| x in a * b;
  }

  method NamespacesDisjoint(tasks: set<string>, outputs: set<string>, claims: set<string>) returns (disjoint: bool)
    ensures disjoint <==> tasks !! outputs && tasks !! claims && outputs !! claims
  {
    var names := ["task_id", "output_id", "claim_id"];
    var spaces := map[names[0] := tasks, names[1] := outputs, names[2] := claims];
    assert names[0] != names[1] && names[0] != names[2] && names[1] != names[2];
    var overlap := NamespacesOverlap(names, spaces);
    ThreeSpaces(names, spaces);
    disjoint := !overlap;
  }

  /* ---- Evaluating an accepted plan ---- */

  /** Outside meaning: what a task output fetches and what an operator computes. */
  datatype Meaning<!V> = Meaning(fetch: (ResolvedTask, string) -> V, apply: (Derivation, seq<V>) -> V)

  function FetchedFrom<T, V>(tasks: seq<T>, outputs: T -> seq<string>, fetch: (T, string) -> V, n: nat): map<string, V>
    requires n <= |tasks|
  {
    if n == 0 then map[] else
    var t := tasks[n - 1];
    FetchedFrom(tasks, outputs, fetch, n - 1) + map id | id in outputs(t) :: fetch(t, id)
  }

  /** The values of the outputs of the first `n` tasks. */
  function Fetched<V>(plan: ResolvedQueryPlan, m: Meaning<V>, n: nat): map<string, V>
    requires n <= |plan.tasks|
  {
    FetchedFrom(plan.tasks, Outputs, m.fetch, n)
  }

  /** The operands' values, when all are defined. */
  function Operands<V>(env: map<string, V>, names: seq<string>): Option<seq<V>> {
    if forall i | 0 <= i < |names| :: names[i] in env
    then Some(seq(|names|, i requires 0 <= i < |names| => env[names[i]])) else None
  }

  /** List-order evaluation of the first `n` derivations; None when an operand is undefined. */
  function Evaluate<V>(plan: ResolvedQueryPlan, m: Meaning<V>, n: nat): Option<map<string, V>>
    requires n <= |plan.derivations|
  {
    if n == 0 then Some(Fetched(plan, m, |plan.tasks|)) else
    match Evaluate(plan, m, n - 1)
    case None => None
    case Some(env) =>
      var d := plan.derivations[n - 1];
      match Operands(env, d.operands)
      case None => None
      case Some(values) => Some(env[d.outputId := m.apply(d, values)])
  }

  lemma {:induction false} FetchedKeys<T, V>(tasks: seq<T>, outputs: T -> seq<string>, fetch: (T, string) -> V, n: nat)
    requires n <= |tasks|
    ensures FetchedFrom(tasks, outputs, fetch, n).Keys == Elements(Gather(tasks, outputs, n))
  {
    if n > 0 {
      FetchedKeys(tasks, outputs, fetch, n - 1);
    }
  }

  lemma {:induction false} EvaluationNext<V>(plan: ResolvedQueryPlan, m: Meaning<V>, n: nat)
    requires n < |plan.derivations| && DerivationLinked(plan, n)
    requires Evaluate(plan, m, n).Some? && Evaluate(plan, m, n).value.Keys == KnownBefore(plan, n)
    ensures Evaluate(plan, m, n + 1).Some?
    ensures Evaluate(plan, m, n + 1).value.Keys == KnownBefore(plan, n + 1)
    ensures forall id | id in Evaluate(plan, m, n).value ::
              id in Evaluate(plan, m, n + 1).value && Evaluate(plan, m, n + 1).value[id] == Evaluate(plan, m, n).value[id]
  {
    KnownGrows(plan, n);
    assert Operands(Evaluate(plan, m, n).value, plan.derivations[n].operands).Some?;
  }

  /** An accepted plan evaluates in list order without meeting an undefined operand, defines exactly
      its known ids, and never overwrites a value. */
  lemma {:induction false} EvaluationIsTotal<V>(plan: ResolvedQueryPlan, m: Meaning<V>, n: nat)
    requires WellFormedPlan(plan) && n <= |plan.derivations|
    ensures Evaluate(plan, m, n).Some? && Evaluate(plan, m, n).value.Keys == KnownBefore(plan, n)
    ensures n > 0 ==> Evaluate(plan, m, n - 1).Some?
                      && forall id | id in Evaluate(plan, m, n - 1).value ::
                           id in Evaluate(plan, m, n).value
                           && Evaluate(plan, m, n).value[id] == Evaluate(plan, m, n - 1).value[id]
  {
    if n == 0 {
      FetchedKeys(plan.tasks, Outputs, m.fetch, |plan.tasks|);
    } else {
      EvaluationIsTotal(plan, m, n - 1);
      EvaluationNext(plan, m, n - 1);
    }
  }

  /** Where an id is defined: 0 for a task output, its place in the list for a derivation. */
  ghost function Rank(plan: ResolvedQueryPlan, id: string): nat
    requires id in Known(plan)
  {
    if id in Elements(AllOutputs(plan.tasks)) then 0
    else var i :| 0 <= i < |plan.derivations| && plan.derivations[i].outputId == id; i + 1
  }

  /** No id is defined twice, and every operand ranks below the derivation that uses it, so the
      dependency relation has no cycle and bottoms out in task outputs. */
  lemma {:induction false} DependenciesDescend(plan: ResolvedQueryPlan, i: nat, operand: string)
    requires WellFormedPlan(plan) && i < |plan.derivations| && operand in plan.derivations[i].operands
    ensures plan.derivations[i].outputId in Known(plan) && Rank(plan, plan.derivations[i].outputId) == i + 1
    ensures operand in Known(plan) && Rank(plan, operand) <= i
  {
    assert DerivationLinked(plan, i);
    DefinedOnce(plan, i);
    if operand !in Elements(AllOutputs(plan.tasks)) {
      var k := Rank(plan, operand) - 1;
      var p :| 0 <= p < i && plan.derivations[p].outputId == operand;
      DefinedOnce(plan, p);
    }
  }

  lemma {:induction false} DefinedOnce(plan: ResolvedQueryPlan, i: nat)
    requires WellFormedPlan(plan) && i < |plan.derivations|
    ensures plan.derivations[i].outputId !in AllOutputs(plan.tasks)
    ensures forall k | 0 <= k < |plan.derivations| && k != i :: plan.derivations[k].outputId != plan.derivations[i].outputId
  {
    assert DerivationLinked(plan, i);
    forall k | 0 <= k < |plan.derivations| && k != i
      ensures plan.derivations[k].outputId != plan.derivations[i].outputId
    {
      assert DerivationLinked(plan, k);
    }
  }

  /** Walking operands from any known id reaches only known ids and ends at task outputs. */
  ghost predicate Grounded(plan: ResolvedQueryPlan, id: string, rank: nat)
    decreases rank
  {
    || id in AllOutputs(plan.tasks)
    || exists i | 0 <= i < |plan.derivations| && i < rank ::
         plan.derivations[i].outputId == id
         && forall j | 0 <= j < |plan.derivations[i].operands| :: Grounded(plan, plan.derivations[i].operands[j], i)
  }

  lemma {:induction false} EveryIdIsGrounded(plan: ResolvedQueryPlan, id: string, rank: nat)
    requires WellFormedPlan(plan) && rank <= |plan.derivations| && id in KnownBefore(plan, rank)
    ensures Grounded(plan, id, rank)
    decreases rank
  {
    if id !in AllOutputs(plan.tasks) {
      var i :| 0 <= i < rank && plan.derivations[i].outputId == id;
      assert DerivationLinked(plan, i);
      forall j | 0 <= j < |plan.derivations[i].operands|
        ensures Grounded(plan, plan.derivations[i].operands[j], i)
      {
        EveryIdIsGrounded(plan, plan.derivations[i].operands[j], i);
      }
    }
  }
}
