/** The proposals that strict validation lets through, written out. */
module ProposalMeaning {
  import opened Wrappers
  import opened Proposal

  /* ---- Labels ---- */

  /** Task `t` introduces `name`, by one of its facts or by itself. */
  ghost predicate Introduces(t: ProposalTask, name: string) {
    (exists j :: 0 <= j < |t.facts| && t.facts[j].resultLabel == name) || name in t.resultLabels
  }

  /** A label is known before derivation `n` when a task or an earlier derivation introduces it. */
  ghost predicate KnownBefore(p: PlanProposal, n: nat, name: string) {
    || (exists i :: 0 <= i < |p.tasks| && Introduces(p.tasks[i], name))
    || (exists k :: 0 <= k < n && k < |p.derivations| && p.derivations[k].resultLabel == name)
  }

  lemma {:induction false} IntroducesExactly(t: ProposalTask, name: string)
    ensures name in TaskLabels(t) <==> Introduces(t, name)
  {
    var own := Map((f: ProposedFact) => f.resultLabel, t.facts);
    assert TaskLabels(t) == own + t.resultLabels;
    if j :| 0 <= j < |t.facts| && t.facts[j].resultLabel == name {
      assert own[j] == name;
    }
  }

  lemma {:induction false} TaskLabelsKnown(tasks: seq<ProposalTask>, n: nat, name: string)
    requires n <= |tasks|
    ensures name in LabelsUpTo(tasks, n) <==> exists i :: 0 <= i < n && Introduces(tasks[i], name)
  {
    if n > 0 {
      TaskLabelsKnown(tasks, n - 1, name);
      IntroducesExactly(tasks[n - 1], name);
    }
  }

  lemma {:induction false} KnownExactly(p: PlanProposal, n: nat, name: string)
    requires n <= |p.derivations|
    ensures name in LabelsBefore(p, n) <==> KnownBefore(p, n, name)
  {
    TaskLabelsKnown(p.tasks, |p.tasks|, name);
  }

  /** No task introduces a label twice, and no two tasks introduce the same one. */
  ghost predicate IntroducedOnce(tasks: seq<ProposalTask>, n: nat)
    requires n <= |tasks|
  {
    && (forall i | 0 <= i < n :: OnceEach(tasks[i]))
    && forall i, k, name | 0 <= i < k < n && Introduces(tasks[i], name) :: !Introduces(tasks[k], name)
  }

  ghost predicate OnceEach(t: ProposalTask) {
    && (forall i, j | 0 <= i < j < |t.facts| :: t.facts[i].resultLabel != t.facts[j].resultLabel)
    && Distinct(t.resultLabels) && forall j | 0 <= j < |t.facts| :: t.facts[j].resultLabel !in t.resultLabels
  }

  lemma {:induction false} OnceEachExactly(t: ProposalTask)
    ensures Distinct(TaskLabels(t)) <==> OnceEach(t)
  {
    var own := Map((f: ProposedFact) => f.resultLabel, t.facts);
    DistinctParts(own, t.resultLabels);
    assert forall x | x in own :: exists j :: 0 <= j < |t.facts| && t.facts[j].resultLabel == x;
    assert forall j | 0 <= j < |t.facts| :: own[j] in own;
  }

  lemma {:induction false} IntroducedOnceExactly(tasks: seq<ProposalTask>, n: nat)
    requires n <= |tasks|
    ensures Distinct(LabelsUpTo(tasks, n)) <==> IntroducedOnce(tasks, n)
  {
    if n > 0 {
      var before, own := LabelsUpTo(tasks, n - 1), TaskLabels(tasks[n - 1]);
      IntroducedOnceExactly(tasks, n - 1);
      OnceEachExactly(tasks[n - 1]);
      DistinctParts(before, own);
      forall name
        ensures name in before <==> exists i :: 0 <= i < n - 1 && Introduces(tasks[i], name)
        ensures name in own <==> Introduces(tasks[n - 1], name)
      {
        TaskLabelsKnown(tasks, n - 1, name);
        IntroducesExactly(tasks[n - 1], name);
      }
      IntroducedNext(tasks, n, before, own);
    }
  }

  lemma {:induction false} IntroducedNext(tasks: seq<ProposalTask>, n: nat, before: seq<string>, own: seq<string>)
    requires 0 < n <= |tasks|
    requires forall name :: name in before <==> exists i :: 0 <= i < n - 1 && Introduces(tasks[i], name)
    requires forall name :: name in own <==> Introduces(tasks[n - 1], name)
    ensures IntroducedOnce(tasks, n) <==>
            IntroducedOnce(tasks, n - 1) && OnceEach(tasks[n - 1]) && forall x | x in before :: x !in own
  {
    if IntroducedOnce(tasks, n) {
      assert OnceEach(tasks[n - 1]);
      forall x | x in before
        ensures x !in own
      {
        var i :| 0 <= i < n - 1 && Introduces(tasks[i], x);
      }
    }
    if IntroducedOnce(tasks, n - 1) && OnceEach(tasks[n - 1]) && forall x | x in before :: x !in own {
      forall i, k, name | 0 <= i < k < n && Introduces(tasks[i], name)
        ensures !Introduces(tasks[k], name)
      {
        assert k == n - 1 ==> name in before;
      }
    }
  }

  /* ---- Records ---- */

  ghost predicate FactFine(f: ProposedFact) {
    && 1 <= |f.resultLabel| <= 80 && 1 <= |f.companyMention| <= 200 && 1 <= |f.conceptMention| <= 200
    && 1 <= |f.periodExpression| <= 100
    && (f.scope == "unspecified" || f.scope == "CFS" || f.scope == "SFS")
    && (f.statement == "unspecified" || f.statement == "BS" || f.statement == "IS" || f.statement == "CI" || f.statement == "CF")
    && (f.view == "unspecified" || f.view == "as_filed" || f.view == "restated")
  }

  ghost predicate TaskFine(t: ProposalTask) {
    && 1 <= |t.taskLabel| <= 80 && 1 <= |t.asOfExpression| <= 100 && |t.eventTypeText| <= 200 && |t.counterpartyText| <= 300
    && |t.contractNameText| <= 500 && |t.seedReceiptText| <= 100 && |t.retrievalQuery| <= 1000
    && (t.documentGroup == "unspecified" || t.documentGroup == "periodic" || t.documentGroup == "exchange"
        || t.documentGroup == "major" || t.documentGroup == "holding")
    && |t.companyMentions| <= 8 && |t.facts| <= 16 && |t.requestedSlots| <= 32 && |t.resultLabels| <= 16
    && (forall j | 0 <= j < |t.facts| :: FactFine(t.facts[j]))
    && Distinct(t.companyMentions) && Distinct(t.requestedSlots)
    && match t.kind
       case Financial => t.operation == "lookup" && t.facts != []
       case Disclosure => (t.operation == "lookup" || t.operation == "list") && t.facts == []
       case Event => (t.operation == "status" || t.operation == "timeline" || t.operation == "list") && t.facts == []
       case Correction => (t.operation == "diff" || t.operation == "history") && t.facts == []
       case Document => (t.operation == "find" || t.operation == "latest" || t.operation == "version_history") && t.facts == []
       case Narrative => (t.operation == "search" || t.operation == "summarize" || t.operation == "compare") && t.facts == []
  }

  /** Operands known before, a label that is not, and the operator's number of operands. */
  ghost predicate DerivationFine(p: PlanProposal, k: nat)
    requires k < |p.derivations|
  {
    var d := p.derivations[k];
    && 1 <= |d.resultLabel| <= 80 && !KnownBefore(p, k, d.resultLabel)
    && (forall name | name in d.operandLabels :: KnownBefore(p, k, name))
    && (|| (d.operator == "argmax" && 2 <= |d.operandLabels| <= 32)
        || (&& |d.operandLabels| == 2
            && (d.operator == "difference" || d.operator == "absolute_difference" || d.operator == "percent_change"
                || d.operator == "discrete_from_cumulative" || d.operator == "concept_ratio")))
    && (d.roundingRule == "unspecified" || d.roundingRule == "round_half_up_0" || d.roundingRule == "round_half_up_1"
        || d.roundingRule == "round_half_up_2" || d.roundingRule == "truncate_0")
  }

  ghost predicate PremiseFine(p: PlanProposal, c: ProposedPremise) {
    && 1 <= |c.claimLabel| <= 80 && 1 <= |c.rawText| <= 1000 && |c.verifyLabels| <= 32
    && (c.kind == "numeric" || c.kind == "state" || c.kind == "comparison" || c.kind == "existence" || c.kind == "causal")
    && forall name | name in c.verifyLabels :: KnownBefore(p, |p.derivations|, name)
  }

  /** A lower-case letter, then up to 63 lower-case letters, digits and underscores. */
  ghost predicate IsCode(code: string) {
    && code != "" && |code| <= 64 && code[0] in "abcdefghijklmnopqrstuvwxyz"
    && forall c | c in code :: c in "abcdefghijklmnopqrstuvwxyz0123456789_"
  }

  /** Work for a proposal that is processed, typed reasons for one that is not, and every label introduced once and before it is used. */
  ghost predicate ProposalFine(p: PlanProposal) {
    && (|| (p.disposition == "process" && p.tasks != [] && p.reasonCodes == [])
        || (&& (p.disposition == "out_of_scope" || p.disposition == "unsupported_request" || p.disposition == "policy_refusal")
            && p.tasks == [] && p.derivations == [] && p.premises == [] && p.reasonCodes != []))
    && (p.presentation == "unspecified" || p.presentation == "prose" || p.presentation == "table" || p.presentation == "list")
    && |p.tasks| <= 12 && |p.derivations| <= 32 && |p.premises| <= 32 && |p.reasonCodes| <= 16
    && (forall i | 0 <= i < |p.reasonCodes| :: IsCode(p.reasonCodes[i]))
    && TasksFine(p.tasks) && IntroducedOnce(p.tasks, |p.tasks|)
    && (forall i, k | 0 <= i < k < |p.tasks| :: p.tasks[i].taskLabel != p.tasks[k].taskLabel)
    && (forall k | 0 <= k < |p.derivations| :: DerivationFine(p, k))
    && forall k | 0 <= k < |p.premises| :: PremiseFine(p, p.premises[k])
  }

  lemma {:induction false} CodeExactly(code: string)
    ensures IsReasonCode(code) <==> IsCode(code)
  {
    forall c: char
      ensures c in "abcdefghijklmnopqrstuvwxyz" <==> 'a' <= c <= 'z'
      ensures c in "abcdefghijklmnopqrstuvwxyz0123456789_" <==> 'a' <= c <= 'z' || '0' <= c <= '9' || c == '_'
    {
      LettersAre(c);
    }
    assert forall i | 0 <= i < |code| :: code[i] in code;
  }

  lemma {:induction false} LettersAre(c: char)
    ensures c in "abcdefghijklmnopqrstuvwxyz" <==> 'a' <= c <= 'z'
    ensures c in "abcdefghijklmnopqrstuvwxyz0123456789_" <==> 'a' <= c <= 'z' || '0' <= c <= '9' || c == '_'
  {
    var letters, all := "abcdefghijklmnopqrstuvwxyz", "abcdefghijklmnopqrstuvwxyz0123456789_";
    assert forall i | 0 <= i < 26 :: letters[i] == all[i] == 'a' + i as char;
    assert forall i | 26 <= i < 36 :: all[i] == '0' + (i - 26) as char;
    assert all[36] == '_';
    if 'a' <= c <= 'z' {
      assert letters[c as int - 'a' as int] == c && all[c as int - 'a' as int] == c;
    }
    if '0' <= c <= '9' {
      assert all[c as int - '0' as int + 26] == c;
    }
  }

  lemma {:induction false} TaskExactly(t: ProposalTask)
    ensures TaskOk(t) <==> TaskFine(t) && OnceEach(t)
  {
    OnceEachExactly(t);
    assert forall f: ProposedFact :: FactOk(f) <==> FactFine(f);
  }

  lemma {:induction false} LabelsInExactly(p: PlanProposal, n: nat, labels: seq<string>)
    requires n <= |p.derivations|
    ensures LabelsIn(labels, LabelsBefore(p, n)) <==> forall name | name in labels :: KnownBefore(p, n, name)
  {
    forall i | 0 <= i < |labels|
      ensures labels[i] in LabelsBefore(p, n) <==> KnownBefore(p, n, labels[i])
    {
      KnownExactly(p, n, labels[i]);
    }
    assert forall name | name in labels :: exists i :: 0 <= i < |labels| && labels[i] == name;
    assert forall i | 0 <= i < |labels| :: labels[i] in labels;
  }

  lemma {:induction false} DerivationExactly(p: PlanProposal, k: nat)
    requires k < |p.derivations|
    ensures ProposedDerivationOk(p.derivations[k]) && DerivationKnown(p, k) <==> DerivationFine(p, k)
  {
    LabelsInExactly(p, k, p.derivations[k].operandLabels);
    KnownExactly(p, k, p.derivations[k].resultLabel);
  }

  lemma {:induction false} PremiseExactly(p: PlanProposal, c: ProposedPremise)
    ensures ProposedPremiseOk(c) && LabelsIn(c.verifyLabels, LabelsBefore(p, |p.derivations|)) <==> PremiseFine(p, c)
  {
    LabelsInExactly(p, |p.derivations|, c.verifyLabels);
  }

  ghost predicate TasksFine(tasks: seq<ProposalTask>) {
    forall i {:trigger TaskFine(tasks[i])} | 0 <= i < |tasks| :: TaskFine(tasks[i])
  }

  lemma {:induction false} TasksExactly(tasks: seq<ProposalTask>)
    ensures (forall i | 0 <= i < |tasks| :: TaskOk(tasks[i])) && Distinct(LabelsUpTo(tasks, |tasks|))
            <==> TasksFine(tasks) && IntroducedOnce(tasks, |tasks|)
  {
    IntroducedOnceExactly(tasks, |tasks|);
    forall i | 0 <= i < |tasks|
      ensures TaskOk(tasks[i]) <==> TaskFine(tasks[i]) && OnceEach(tasks[i])
    {
      TaskExactly(tasks[i]);
    }
  }

  lemma {:induction false} DispositionExactly(p: PlanProposal)
    ensures DispositionOk(p) && p.disposition in {"process", "out_of_scope", "unsupported_request", "policy_refusal"} <==>
            || (p.disposition == "process" && p.tasks != [] && p.reasonCodes == [])
            || (&& (p.disposition == "out_of_scope" || p.disposition == "unsupported_request" || p.disposition == "policy_refusal")
                && p.tasks == [] && p.derivations == [] && p.premises == [] && p.reasonCodes != [])
  {
  }

  lemma {:induction false} DerivationsExactly(p: PlanProposal)
    ensures (forall k | 0 <= k < |p.derivations| :: ProposedDerivationOk(p.derivations[k]))
            && (forall k | 0 <= k < |p.derivations| :: DerivationKnown(p, k))
            <==> forall k | 0 <= k < |p.derivations| :: DerivationFine(p, k)
  {
    forall k | 0 <= k < |p.derivations|
      ensures ProposedDerivationOk(p.derivations[k]) && DerivationKnown(p, k) <==> DerivationFine(p, k)
    {
      DerivationExactly(p, k);
    }
  }

  lemma {:induction false} PremisesExactly(p: PlanProposal)
    ensures (forall k | 0 <= k < |p.premises| :: ProposedPremiseOk(p.premises[k]))
            && (forall k | 0 <= k < |p.premises| :: LabelsIn(p.premises[k].verifyLabels, LabelsBefore(p, |p.derivations|)))
            <==> forall k | 0 <= k < |p.premises| :: PremiseFine(p, p.premises[k])
  {
    forall k | 0 <= k < |p.premises|
      ensures ProposedPremiseOk(p.premises[k]) && LabelsIn(p.premises[k].verifyLabels, LabelsBefore(p, |p.derivations|))
              <==> PremiseFine(p, p.premises[k])
    {
      PremiseExactly(p, p.premises[k]);
    }
  }

  lemma {:induction false} CodesExactly(codes: seq<string>)
    ensures (forall i | 0 <= i < |codes| :: IsReasonCode(codes[i])) <==> forall i | 0 <= i < |codes| :: IsCode(codes[i])
  {
    forall i | 0 <= i < |codes|
      ensures IsReasonCode(codes[i]) <==> IsCode(codes[i])
    {
      CodeExactly(codes[i]);
    }
  }

  lemma {:induction false} TaskLabelsDiffer(tasks: seq<ProposalTask>)
    ensures Distinct(Map((t: ProposalTask) => t.taskLabel, tasks)) <==>
            forall i, k | 0 <= i < k < |tasks| :: tasks[i].taskLabel != tasks[k].taskLabel
  {
    var names := Map((t: ProposalTask) => t.taskLabel, tasks);
    assert forall i | 0 <= i < |tasks| :: names[i] == tasks[i].taskLabel;
  }

  /** Strict validation lets through exactly the fine proposals. */
  lemma {:induction false} StrictExactly(p: PlanProposal)
    ensures StrictProposal(p) <==> ProposalFine(p)
  {
    DispositionExactly(p);
    CodesExactly(p.reasonCodes);
    TasksExactly(p.tasks);
    TaskLabelsDiffer(p.tasks);
    DerivationsExactly(p);
    PremisesExactly(p);
  }
}
