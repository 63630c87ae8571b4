/** The ids an assembly generates, and the scan that finds them again. */
module PlanIdentity {
  import opened Wrappers
  import opened Decimals
  import opened Contracts
  import opened Proposal
  import opened PlanAssembly
  import opened PlanMeaning

  /** `id` is written for proposal index `i`: a kind, the 1-based index, and maybe a group number. */
  ghost predicate WrittenFor(i: nat, id: string) {
    exists kind: Kind, rest: string :: IsIdOf(i, id, kind, rest)
  }

  predicate IsIdOf(i: nat, id: string, kind: Kind, rest: string) {
    id == kind.Name() + "-" + Dec(i + 1) + rest && (rest == "" || rest[0] == '-')
  }

  lemma {:induction false} KindsDiffer(k: Kind, l: Kind, a: string, b: string)
    requires k.Name() + "-" + a == l.Name() + "-" + b
    ensures k == l && a == b
  {
    var s := k.Name() + "-" + a;
    assert s[..2] == k.Name()[..2];
    assert s == l.Name() + "-" + b;
    assert s[..2] == l.Name()[..2];
    assert k == l by {
      assert k.Name()[0] == s[..2][0] && k.Name()[1] == s[..2][1];
      assert l.Name()[0] == s[..2][0] && l.Name()[1] == s[..2][1];
    }
    assert a == s[|k.Name()| + 1..] && b == s[|l.Name()| + 1..];
  }

  lemma {:induction false} AfterKind(i: nat, id: string, k: Kind, a: string)
    requires IsIdOf(i, id, k, a)
    ensures k.Name() + "-" + (Dec(i + 1) + a) == id
  {
    AddInAnyOrder(k.Name() + "-", Dec(i + 1), a);
  }

  lemma {:induction false} AddInAnyOrder(a: string, b: string, c: string)
    ensures a + b + c == a + (b + c)
  {
  }

  /** An id tells its kind, its proposal index and its group. */
  lemma {:induction false} IdTellsEverything(i: nat, j: nat, id: string, k: Kind, l: Kind, a: string, b: string)
    requires IsIdOf(i, id, k, a) && IsIdOf(j, id, l, b)
    ensures i == j && k == l && a == b
  {
    AfterKind(i, id, k, a);
    AfterKind(j, id, l, b);
    KindsDiffer(k, l, Dec(i + 1) + a, Dec(j + 1) + b);
    DecThenUnique(i + 1, j + 1, a, b);
  }

  lemma {:induction false} WrittenForOne(i: nat, j: nat, id: string)
    requires WrittenFor(i, id) && WrittenFor(j, id)
    ensures i == j
  {
    var k, a :| IsIdOf(i, id, k, a);
    var l, b :| IsIdOf(j, id, l, b);
    IdTellsEverything(i, j, id, k, l, a, b);
  }

  function Suffix(g: nat, count: nat): string {
    if count == 1 then "" else "-" + Dec(g + 1)
  }

  lemma {:induction false} GroupIdShape(i: nat, g: nat, count: nat)
    ensures IsIdOf(i, GroupId(i, g, count), Financial, Suffix(g, count))
    ensures BelongsTo(i, GroupId(i, g, count))
  {
    var stem := FINANCIAL + Dec(i + 1);
    assert FINANCIAL == Financial.Name() + "-";
    assert count != 1 ==> GroupId(i, g, count) == stem + "-" + Dec(g + 1);
    assert count == 1 ==> GroupId(i, g, count) == stem;
  }

  lemma {:induction false} KindIdShape(kind: Kind, i: nat)
    ensures WrittenFor(i, KindId(kind, i))
  {
    assert IsIdOf(i, KindId(kind, i), kind, "");
  }

  /** The prefix test never mistakes one index for another, however many digits they have. */
  lemma {:induction false} BelongsToWriter(i: nat, id: string)
    requires BelongsTo(i, id)
    ensures WrittenFor(i, id)
  {
    var stem := FINANCIAL + Dec(i + 1);
    assert FINANCIAL == Financial.Name() + "-";
    if id == stem {
      assert IsIdOf(i, id, Financial, "");
    } else {
      var rest := id[|stem|..];
      assert rest[0] == (stem + "-")[|stem|];
      assert id == stem + rest;
      assert IsIdOf(i, id, Financial, rest);
    }
  }

  function Concat(ids: seq<seq<string>>): seq<string> {
    if ids == [] then [] else Concat(ids[..|ids| - 1]) + ids[|ids| - 1]
  }

  /** Ids are filed under the index they were written for, in the order of the tasks, none twice. */
  ghost predicate Filed(a: Assembly, n: nat) {
    && |a.taskIds| == n
    && Concat(a.taskIds) == TaskIds(a.tasks)
    && (forall i | 0 <= i < n :: FiledFor(i, a.taskIds[i]))
    && Distinct(TaskIds(a.tasks))
    && WrittenBelow(n, TaskIds(a.tasks))
  }

  ghost predicate FiledFor(i: nat, ids: seq<string>) {
    forall k | 0 <= k < |ids| :: WrittenFor(i, ids[k])
  }

  ghost predicate WrittenEarlier(n: nat, id: string) {
    exists i | 0 <= i < n :: WrittenFor(i, id)
  }

  ghost predicate WrittenBelow(n: nat, ids: seq<string>) {
    forall k | 0 <= k < |ids| :: WrittenEarlier(n, ids[k])
  }

  lemma {:induction false} WriteMore(n: nat, ids: seq<string>, more: seq<string>)
    requires WrittenBelow(n, ids) && FiledFor(n, more)
    ensures WrittenBelow(n + 1, ids + more)
  {
    forall k | 0 <= k < |ids + more|
      ensures WrittenEarlier(n + 1, (ids + more)[k])
    {
      if k < |ids| {
        assert WrittenEarlier(n, ids[k]);
      } else {
        assert WrittenFor(n, more[k - |ids|]);
      }
    }
  }

  lemma {:induction false} DistinctMore(n: nat, ids: seq<string>, more: seq<string>)
    requires WrittenBelow(n, ids) && FiledFor(n, more) && Distinct(ids) && Distinct(more)
    ensures Distinct(ids + more)
  {
    forall k, l | 0 <= k < |ids| && 0 <= l < |more|
      ensures ids[k] != more[l]
    {
      assert WrittenEarlier(n, ids[k]);
      var i :| 0 <= i < n && WrittenFor(i, ids[k]);
      if ids[k] == more[l] {
        WrittenForOne(i, n, ids[k]);
      }
    }
  }

  lemma {:induction false} FileMore(a: Assembly, n: nat, added: seq<ResolvedTask>, a': Assembly)
    requires Filed(a, n) && FiledFor(n, TaskIds(added)) && Distinct(TaskIds(added))
    requires a'.tasks == a.tasks + added && a'.taskIds == a.taskIds + [TaskIds(added)]
    ensures Filed(a', n + 1)
  {
    var ids, more := TaskIds(a.tasks), TaskIds(added);
    assert TaskIds(a'.tasks) == ids + more;
    assert a'.taskIds[..n] == a.taskIds;
    WriteMore(n, ids, more);
    DistinctMore(n, ids, more);
  }

  lemma {:induction false} GroupIdsAreFiled(i: nat, groups: seq<Group>)
    ensures FiledFor(i, TaskIds(GroupTasks(i, groups))) && Distinct(TaskIds(GroupTasks(i, groups)))
    ensures forall id | id in TaskIds(GroupTasks(i, groups)) :: BelongsTo(i, id)
  {
    var ids := TaskIds(GroupTasks(i, groups));
    forall g | 0 <= g < |groups|
      ensures WrittenFor(i, ids[g]) && BelongsTo(i, ids[g])
    {
      GroupIdShape(i, g, |groups|);
    }
    forall g, h | 0 <= g < h < |groups|
      ensures ids[g] != ids[h]
    {
      GroupIdShape(i, g, |groups|);
      GroupIdShape(i, h, |groups|);
      if ids[g] == ids[h] {
        IdTellsEverything(i, i, ids[g], Financial, Financial, Suffix(g, |groups|), Suffix(h, |groups|));
        assert Dec(g + 1) == Suffix(g, |groups|)[1..] && Dec(h + 1) == Suffix(h, |groups|)[1..];
        DecInjective(g + 1, h + 1);
      }
    }
  }

  /** Scanning every task so far by prefix finds exactly the tasks of this proposal index. */
  lemma {:induction false} PrefixScanIsExact(a: Assembly, i: nat, groups: seq<Group>)
    requires Filed(a, i)
    ensures Filter((id: string) => BelongsTo(i, id), TaskIds(a.tasks + GroupTasks(i, groups)))
         == TaskIds(GroupTasks(i, groups))
  {
    var keep, ids, more := (id: string) => BelongsTo(i, id), TaskIds(a.tasks), TaskIds(GroupTasks(i, groups));
    assert TaskIds(a.tasks + GroupTasks(i, groups)) == ids + more;
    FilterAppend(keep, ids, more);
    forall id | id in ids
      ensures !keep(id)
    {
      var k :| 0 <= k < |ids| && ids[k] == id;
      assert WrittenEarlier(i, ids[k]);
      var j :| 0 <= j < i && WrittenFor(j, ids[k]);
      if BelongsTo(i, id) {
        BelongsToWriter(i, id);
        WrittenForOne(i, j, id);
      }
    }
    FilterNone(keep, ids);
    GroupIdsAreFiled(i, groups);
    FilterAll(keep, more);
  }

  /** A grouping leaves the tasks filed before it alone. */
  lemma {:induction false} FactsLeaveTasks(q: Request, i: nat, n: nat, a: Assembly, s: Grouping)
    requires i < |q.proposal.tasks| && n <= |q.proposal.tasks[i].facts| && FactsAfter(q, i, n, a) == Going(s)
    ensures s.assembly.tasks == a.tasks && s.assembly.taskIds == a.taskIds
  {
    if n > 0 {
      FactsNext(q, i, n, a);
      var before := FactsAfter(q, i, n - 1, a).state;
      FactsLeaveTasks(q, i, n - 1, a, before);
      FactStepShape(q, q.proposal.tasks[i].facts[n - 1], q.factVerdict(i, n - 1), before);
    }
  }

  lemma {:induction false} PlaceAddsOne(task: ProposalTask, resolved: ResolvedTask, a: Assembly)
    requires Place(task, resolved, a).Going?
    ensures var a' := Place(task, resolved, a).state;
            a'.tasks == a.tasks + [resolved] && a'.taskIds == a.taskIds + [[resolved.taskId]]
  {
  }

  lemma {:induction false} AcceptLeavesTasks(a: Assembly, o: Outcome)
    requires Accept(a, o).Going?
    ensures Accept(a, o).state.0.tasks == a.tasks && Accept(a, o).state.0.taskIds == a.taskIds
  {
  }

  lemma {:induction false} OtherAddsOne(q: Request, i: nat, a: Assembly, a': Assembly) returns (t: ResolvedTask)
    requires i < |q.proposal.tasks| && OtherStep(q, i, a) == Going(a')
    ensures t.taskId == KindId(q.proposal.tasks[i].kind, i)
    ensures a'.tasks == a.tasks + [t] && a'.taskIds == a.taskIds + [[t.taskId]]
  {
    var accepted := Accept(a, q.taskVerdict(i));
    AcceptLeavesTasks(a, q.taskVerdict(i));
    t := accepted.state.1.(taskId := KindId(q.proposal.tasks[i].kind, i));
    PlaceAddsOne(q.proposal.tasks[i], t, accepted.state.0);
  }

  lemma {:induction false} OtherIsFiled(q: Request, i: nat, a: Assembly, a': Assembly)
    requires i < |q.proposal.tasks| && OtherStep(q, i, a) == Going(a') && Filed(a, i)
    ensures Filed(a', i + 1)
  {
    var task := OtherAddsOne(q, i, a, a');
    KindIdShape(q.proposal.tasks[i].kind, i);
    OneMore(a, i, task, a');
  }

  lemma {:induction false} OneMore(a: Assembly, i: nat, t: ResolvedTask, a': Assembly)
    requires Filed(a, i) && WrittenFor(i, t.taskId)
    requires a'.tasks == a.tasks + [t] && a'.taskIds == a.taskIds + [[t.taskId]]
    ensures Filed(a', i + 1)
  {
    assert TaskIds([t]) == [t.taskId];
    FileMore(a, i, [t], a');
  }

  lemma {:induction false} TaskIsFiled(q: Request, i: nat, a: Assembly, a': Assembly)
    requires i < |q.proposal.tasks| && TaskStep(q, i, a) == Going(a') && Filed(a, i)
    ensures Filed(a', i + 1)
  {
    var task := q.proposal.tasks[i];
    if task.kind == Financial {
      var s := FactsAfter(q, i, |task.facts|, a).state;
      FactsLeaveTasks(q, i, |task.facts|, a, s);
      PrefixScanIsExact(a, i, s.groups);
      GroupIdsAreFiled(i, s.groups);
      FileMore(a, i, GroupTasks(i, s.groups), a');
    } else {
      OtherIsFiled(q, i, a, a');
    }
  }

  /** Generated ids never collide and are filed, in order, under the proposal index they came from. */
  lemma {:induction false} IdsAreFiled(q: Request, a: Assembly)
    requires TasksAfter(q, |q.proposal.tasks|) == Going(a)
    ensures Filed(a, |q.proposal.tasks|)
  {
    var filed := (i: nat, b: Assembly) => Filed(b, i);
    forall i: nat, b | i < |q.proposal.tasks| && filed(i, b) && TaskStepOf(q)(i, b).Going?
      ensures filed(i + 1, TaskStepOf(q)(i, b).state)
    {
      TaskIsFiled(q, i, b, TaskStepOf(q)(i, b).state);
    }
    IterateKeeps(TaskStepOf(q), |q.proposal.tasks|, EMPTY, filed);
  }

  lemma {:induction false} ConcatHas(ids: seq<seq<string>>, id: string)
    ensures id in Concat(ids) <==> exists i | 0 <= i < |ids| :: id in ids[i]
  {
    if ids != [] {
      ConcatHas(ids[..|ids| - 1], id);
    }
  }

  lemma {:induction false} IdsOfHas(taskIds: seq<seq<string>>, indices: seq<int>, id: string)
    requires forall i | 0 <= i < |indices| :: 0 <= indices[i] < |taskIds|
    ensures id in IdsOf(taskIds, indices) <==> exists i | 0 <= i < |indices| :: id in taskIds[indices[i]]
  {
    if indices != [] {
      IdsOfHas(taskIds, indices[1..], id);
      assert forall i | 1 <= i < |indices| :: indices[i] == indices[1..][i - 1];
    }
  }

  lemma {:induction false} FiledUnder(a: Assembly, n: nat, i: nat, id: string)
    requires Filed(a, n) && i < n
    ensures id in a.taskIds[i] <==> id in TaskIds(a.tasks) && WrittenFor(i, id)
  {
    assert FiledFor(i, a.taskIds[i]);
    ConcatHas(a.taskIds, id);
    if id in TaskIds(a.tasks) && WrittenFor(i, id) {
      var j :| 0 <= j < n && id in a.taskIds[j];
      assert FiledFor(j, a.taskIds[j]);
      WrittenForOne(i, j, id);
    }
  }

  lemma {:induction false} PremiseTasksListed(q: Request, a: Assembly, labels: map<string, string>, claims: seq<PremiseClaim>, k: nat)
    requires k < |q.proposal.premises| && PremisesAfter(q, a, labels, |q.proposal.premises|) == Going(claims)
    ensures |claims| == |q.proposal.premises|
    ensures var indices := PremiseIndices(q, k);
            && (forall i | 0 <= i < |indices| :: 0 <= indices[i] < |a.taskIds|)
            && claims[k].verifyTasks == IdsOf(a.taskIds, indices)
  {
    PremisesAreKept(q, a, labels, |q.proposal.premises|, k);
  }

  /** A premise is checked against exactly the plan tasks written for the proposal indices it names. */
  lemma {:induction false} PremiseNamesItsTasks(q: Request, plan: ResolvedQueryPlan, k: nat, id: string)
    requires Resolve(q) == Returned(PlanReady(plan)) && k < |q.proposal.premises|
    ensures |plan.premises| == |q.proposal.premises|
    ensures id in plan.premises[k].verifyTasks <==>
              id in TaskIds(plan.tasks)
              && exists i | 0 <= i < |q.proposal.tasks| ::
                   k < |q.side.premiseTasks| && i in q.side.premiseTasks[k] && WrittenFor(i, id)
  {
    ResolveIsAllOrNothing(q);
    var a, links, claims :| ReadyParts(q, plan, a, links, claims);
    var indices := PremiseIndices(q, k);
    IdsAreFiled(q, a);
    PremiseTasksListed(q, a, links.labels, claims, k);
    IdsOfHas(a.taskIds, indices, id);
    if c :| 0 <= c < |indices| && id in a.taskIds[indices[c]] {
      FiledUnder(a, |q.proposal.tasks|, indices[c], id);
      assert indices[c] in indices;
    }
    if i :| 0 <= i < |q.proposal.tasks| && i in indices && WrittenFor(i, id) && id in TaskIds(plan.tasks) {
      var c :| 0 <= c < |indices| && indices[c] == i;
      FiledUnder(a, |q.proposal.tasks|, i, id);
    }
  }

  /** How generated ids are spelled: the kind, the position counted from one, and the group when there are several. */
  lemma {:induction false} IdsAreSpelled(kind: Kind, i: nat, g: nat, count: nat)
    ensures KindId(kind, i) ==
            (match kind
             case Financial => "financial-" + Dec(i + 1)
             case Disclosure => "disclosure-" + Dec(i + 1)
             case Event => "event-" + Dec(i + 1)
             case Correction => "correction-" + Dec(i + 1)
             case Document => "document-" + Dec(i + 1)
             case Narrative => "narrative-" + Dec(i + 1))
    ensures GroupId(i, g, 1) == "financial-" + Dec(i + 1)
    ensures count != 1 ==> GroupId(i, g, count) == "financial-" + Dec(i + 1) + "-" + Dec(g + 1)
  {
    assert GroupId(i, g, 1) == "financial-" + Dec(i + 1) + "";
    assert "financial-" + Dec(i + 1) + ("-" + Dec(g + 1)) == "financial-" + Dec(i + 1) + "-" + Dec(g + 1);
    match kind {
      case Financial => assert "financial" + "-" == "financial-";
      case Disclosure => assert "disclosure" + "-" == "disclosure-";
      case Event => assert "event" + "-" == "event-";
      case Correction => assert "correction" + "-" == "correction-";
      case Document => assert "document" + "-" == "document-";
      case Narrative => assert "narrative" + "-" == "narrative-";
    }
  }
}
