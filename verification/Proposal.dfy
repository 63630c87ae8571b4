/** The semantic proposal a plan is assembled from, and its validator. */
module Proposal {
  import opened Wrappers

  const UNSPECIFIED: string := "unspecified"

  datatype Kind = Financial | Disclosure | Event | Correction | Document | Narrative {
    function Name(): string {
      match this
      case Financial => "financial"
      case Disclosure => "disclosure"
      case Event => "event"
      case Correction => "correction"
      case Document => "document"
      case Narrative => "narrative"
    }
  }

  datatype ProposedFact = ProposedFact(
    resultLabel: string, companyMention: string, conceptMention: string, periodExpression: string,
    scope: string, statement: string, view: string)

  datatype ProposalTask = ProposalTask(
    taskLabel: string, kind: Kind, operation: string, companyMentions: seq<string>, facts: seq<ProposedFact>,
    asOfExpression: string, documentGroup: string, eventTypeText: string, counterpartyText: string,
    contractNameText: string, seedReceiptText: string, retrievalQuery: string,
    requestedSlots: seq<string>, resultLabels: seq<string>)

  datatype ProposedDerivation = ProposedDerivation(
    resultLabel: string, operator: string, operandLabels: seq<string>, roundingRule: string)

  datatype ProposedPremise = ProposedPremise(
    claimLabel: string, kind: string, rawText: string, verifyLabels: seq<string>)

  datatype PlanProposal = PlanProposal(
    disposition: string, tasks: seq<ProposalTask>, derivations: seq<ProposedDerivation>,
    premises: seq<ProposedPremise>, presentation: string, reasonCodes: seq<string>)

  /* ---- The proposal contract ---- */

  predicate IsReasonCode(code: string) {
    && 1 <= |code| <= 64 && 'a' <= code[0] <= 'z'
    && forall i | 0 <= i < |code| :: 'a' <= code[i] <= 'z' || '0' <= code[i] <= '9' || code[i] == '_'
  }

  predicate DispositionOk(p: PlanProposal) {
    if p.disposition == "process" then p.tasks != [] && p.reasonCodes == []
    else p.tasks == [] && p.derivations == [] && p.premises == [] && p.reasonCodes != []
  }

  /** The labels a task introduces: one per fact, then its own. */
  function TaskLabels(t: ProposalTask): seq<string> {
    Map((f: ProposedFact) => f.resultLabel, t.facts) + t.resultLabels
  }

  /** The labels of the first `n` tasks, in order. */
  function LabelsUpTo(tasks: seq<ProposalTask>, n: nat): seq<string>
    requires n <= |tasks|
  {
    if n == 0 then [] else LabelsUpTo(tasks, n - 1) + TaskLabels(tasks[n - 1])
  }

  /** The labels a derivation at position `n` may refer to. */
  function LabelsBefore(p: PlanProposal, n: nat): set<string>
    requires n <= |p.derivations|
  {
    Elements(LabelsUpTo(p.tasks, |p.tasks|)) + set i | 0 <= i < n :: p.derivations[i].resultLabel
  }

  ghost predicate LabelsIn(labels: seq<string>, known: set<string>) {
    forall i | 0 <= i < |labels| :: labels[i] in known
  }

  ghost predicate DerivationKnown(p: PlanProposal, i: nat)
    requires i < |p.derivations|
  {
    && LabelsIn(p.derivations[i].operandLabels, LabelsBefore(p, i))
    && p.derivations[i].resultLabel !in LabelsBefore(p, i)
  }

  ghost predicate WellFormedProposal(p: PlanProposal) {
    && DispositionOk(p)
    && (forall i | 0 <= i < |p.reasonCodes| :: IsReasonCode(p.reasonCodes[i]))
    && Distinct(Map((t: ProposalTask) => t.taskLabel, p.tasks))
    && Distinct(LabelsUpTo(p.tasks, |p.tasks|))
    && (forall i | 0 <= i < |p.derivations| :: DerivationKnown(p, i))
    && (forall i | 0 <= i < |p.premises| :: LabelsIn(p.premises[i].verifyLabels, LabelsBefore(p, |p.derivations|)))
  }

  /* ---- The records of a proposal ---- */

  predicate Within(s: string, least: nat, most: nat) {
    least <= |s| <= most
  }

  predicate FactOk(f: ProposedFact) {
    && Within(f.resultLabel, 1, 80) && Within(f.companyMention, 1, 200) && Within(f.conceptMention, 1, 200)
    && Within(f.periodExpression, 1, 100)
    && f.scope in {UNSPECIFIED, "CFS", "SFS"}
    && f.statement in {UNSPECIFIED, "BS", "IS", "CI", "CF"}
    && f.view in {UNSPECIFIED, "as_filed", "restated"}
  }

  function Operations(kind: Kind): set<string> {
    match kind
    case Financial => {"lookup"}
    case Disclosure => {"lookup", "list"}
    case Event => {"status", "timeline", "list"}
    case Correction => {"diff", "history"}
    case Document => {"find", "latest", "version_history"}
    case Narrative => {"search", "summarize", "compare"}
  }

  predicate TaskTextsOk(t: ProposalTask) {
    && Within(t.taskLabel, 1, 80) && Within(t.asOfExpression, 1, 100)
    && t.documentGroup in {UNSPECIFIED, "periodic", "exchange", "major", "holding"}
    && Within(t.eventTypeText, 0, 200) && Within(t.counterpartyText, 0, 300) && Within(t.contractNameText, 0, 500)
    && Within(t.seedReceiptText, 0, 100) && Within(t.retrievalQuery, 0, 1000)
  }

  /** The shape rules of one task: operations by kind, facts for financial tasks only, no duplicates. */
  predicate TaskOk(t: ProposalTask) {
    && TaskTextsOk(t)
    && |t.companyMentions| <= 8 && |t.facts| <= 16 && |t.requestedSlots| <= 32 && |t.resultLabels| <= 16
    && (forall i | 0 <= i < |t.facts| :: FactOk(t.facts[i]))
    && t.operation in Operations(t.kind) && (t.kind == Financial <==> t.facts != [])
    && Distinct(TaskLabels(t)) && Distinct(t.companyMentions) && Distinct(t.requestedSlots)
  }

  predicate ProposedDerivationOk(d: ProposedDerivation) {
    && Within(d.resultLabel, 1, 80) && 1 <= |d.operandLabels| <= 32
    && d.operator in {"difference", "absolute_difference", "percent_change", "discrete_from_cumulative", "argmax", "concept_ratio"}
    && d.roundingRule in {UNSPECIFIED, "round_half_up_0", "round_half_up_1", "round_half_up_2", "truncate_0"}
    && (if d.operator == "argmax" then |d.operandLabels| >= 2 else |d.operandLabels| == 2)
  }

  predicate ProposedPremiseOk(c: ProposedPremise) {
    && Within(c.claimLabel, 1, 80) && Within(c.rawText, 1, 1000) && |c.verifyLabels| <= 32
    && c.kind in {"numeric", "state", "comparison", "existence", "causal"}
  }

  predicate RecordsOk(p: PlanProposal) {
    && p.disposition in {"process", "out_of_scope", "unsupported_request", "policy_refusal"}
    && p.presentation in {UNSPECIFIED, "prose", "table", "list"}
    && |p.tasks| <= 12 && |p.derivations| <= 32 && |p.premises| <= 32 && |p.reasonCodes| <= 16
    && (forall i | 0 <= i < |p.tasks| :: TaskOk(p.tasks[i]))
    && (forall i | 0 <= i < |p.derivations| :: ProposedDerivationOk(p.derivations[i]))
    && (forall i | 0 <= i < |p.premises| :: ProposedPremiseOk(p.premises[i]))
  }

  /** The proposals that strict validation lets through. */
  ghost predicate StrictProposal(p: PlanProposal) {
    RecordsOk(p) && WellFormedProposal(p)
  }

  method ValidateStrict(p: PlanProposal) returns (ok: bool)
    ensures ok <==> StrictProposal(p)
  {
    if !RecordsOk(p) {
      return false;
    }
    ok := ValidateProposal(p);
  }

  method AllIn(labels: seq<string>, known: set<string>) returns (ok: bool)
    ensures ok <==> LabelsIn(labels, known)
  {
    for i := 0 to |labels|
      invariant forall k | 0 <= k < i :: labels[k] in known
    {
      if labels[i] !in known {
        return false;
      }
    }
    return true;
  }

  /** Adds labels one by one, stopping at the first one already known. */
  method AddLabels(labels: seq<string>, known: set<string>, ghost before: seq<string>) returns (grown: Option<set<string>>)
    requires known == Elements(before) && Distinct(before)
    ensures grown == if Distinct(before + labels) then Some(Elements(before + labels)) else None
  {
    var all := known;
    for i := 0 to |labels|
      invariant all == Elements(before + labels[..i]) && Distinct(before + labels[..i])
    {
      ghost var seen := before + labels[..i];
      assert before + labels[..i + 1] == seen + [labels[i]];
      if labels[i] in all {
        ghost var k :| 0 <= k < |seen| && seen[k] == labels[i];
        assert (before + labels)[k] == seen[k] && (before + labels)[|before| + i] == labels[i];
        return None;
      }
      all := all + {labels[i]};
    }
    assert labels[..|labels|] == labels;
    grown := Some(all);
  }

  method TaskLabelsKnown(p: PlanProposal) returns (known: Option<set<string>>)
    ensures known == if Distinct(LabelsUpTo(p.tasks, |p.tasks|))
                     then Some(Elements(LabelsUpTo(p.tasks, |p.tasks|))) else None
  {
    var all: set<string> := {};
    for i := 0 to |p.tasks|
      invariant all == Elements(LabelsUpTo(p.tasks, i)) && Distinct(LabelsUpTo(p.tasks, i))
    {
      var grown := AddLabels(TaskLabels(p.tasks[i]), all, LabelsUpTo(p.tasks, i));
      if grown.None? {
        DuplicateStays(p.tasks, i + 1, |p.tasks|);
        return None;
      }
      all := grown.value;
    }
    known := Some(all);
  }

  lemma {:induction false} DuplicateStays(tasks: seq<ProposalTask>, k: nat, n: nat)
    requires k <= n <= |tasks| && !Distinct(LabelsUpTo(tasks, k))
    ensures !Distinct(LabelsUpTo(tasks, n))
  {
    if k < n {
      DuplicateStays(tasks, k, n - 1);
      var before, after := LabelsUpTo(tasks, n - 1), LabelsUpTo(tasks, n);
      var i, j :| 0 <= i < j < |before| && before[i] == before[j];
      assert after[i] == before[i] && after[j] == before[j];
    }
  }

  method ValidateProposal(p: PlanProposal) returns (ok: bool)
    ensures ok <==> WellFormedProposal(p)
  {
    if !DispositionOk(p) || (exists i | 0 <= i < |p.reasonCodes| :: !IsReasonCode(p.reasonCodes[i]))
       || !Distinct(Map((t: ProposalTask) => t.taskLabel, p.tasks)) {
      return false;
    }
    var labels := TaskLabelsKnown(p);
    if labels.None? {
      return false;
    }
    var known := labels.value;
    for i := 0 to |p.derivations|
      invariant known == LabelsBefore(p, i)
      invariant forall k | 0 <= k < i :: DerivationKnown(p, k)
    {
      var d := p.derivations[i];
      var linked := AllIn(d.operandLabels, known);
      assert DerivationKnown(p, i) <==> linked && d.resultLabel !in known;
      if !linked || d.resultLabel in known {
        return false;
      }
      known := known + {d.resultLabel};
    }
    for i := 0 to |p.premises|
      invariant forall k | 0 <= k < i :: LabelsIn(p.premises[k].verifyLabels, known)
    {
      var linked := AllIn(p.premises[i].verifyLabels, known);
      if !linked {
        return false;
      }
    }
    return true;
  }
}
