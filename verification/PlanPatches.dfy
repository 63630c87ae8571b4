/** Applying a clarification batch to a proposal. */
module PlanPatches {
  import opened Wrappers
  import opened Decimals
  import opened Contracts
  import opened Proposal
  import opened PlanPaths

  /* ---- The value of a slot ---- */

  function Texts(ss: seq<string>): Value {
    Items(Map((s: string) => Text(s), ss))
  }

  function TaskField(t: ProposalTask, field: string): Value {
    if field == "company_mentions" then Texts(t.companyMentions)
    else if field == "as_of_expression" then Text(t.asOfExpression)
    else if field == "document_group" then Text(t.documentGroup)
    else if field == "event_type_text" then Text(t.eventTypeText)
    else if field == "counterparty_text" then Text(t.counterpartyText)
    else if field == "contract_name_text" then Text(t.contractNameText)
    else if field == "seed_receipt_text" then Text(t.seedReceiptText)
    else if field == "retrieval_query" then Text(t.retrievalQuery)
    else if field == "requested_slots" then Texts(t.requestedSlots)
    else Null
  }

  function FactField(f: ProposedFact, field: string): Value {
    if field == "company_mention" then Text(f.companyMention)
    else if field == "concept_mention" then Text(f.conceptMention)
    else if field == "period_expression" then Text(f.periodExpression)
    else if field == "scope" then Text(f.scope)
    else if field == "statement" then Text(f.statement)
    else if field == "view" then Text(f.view)
    else Null
  }

  /** What a proposal holds in a slot. */
  function SlotValue(p: PlanProposal, slot: Slot): Value
    requires ValidSlot(p, slot)
  {
    match slot
    case TaskSlot(i, field) => TaskField(p.tasks[i], field)
    case FactSlot(i, j, field) => FactField(p.tasks[i].facts[j], field)
  }

  predicate SameFact(f: ProposedFact, g: ProposedFact) {
    f.resultLabel == g.resultLabel
  }

  predicate SameTask(t: ProposalTask, u: ProposalTask) {
    && t.taskLabel == u.taskLabel && t.kind == u.kind && t.operation == u.operation && t.resultLabels == u.resultLabels
    && |t.facts| == |u.facts| && forall j | 0 <= j < |t.facts| :: SameFact(t.facts[j], u.facts[j])
  }

  /** The two proposals are the same but for what their slots hold. */
  predicate SameFrame(p: PlanProposal, r: PlanProposal) {
    && r.(tasks := p.tasks) == p && |p.tasks| == |r.tasks|
    && forall i | 0 <= i < |p.tasks| :: SameTask(p.tasks[i], r.tasks[i])
  }

  /* ---- The payload a batch is written into ---- */

  /** A fact or task dumped to a dictionary: the patchable entries hold any value until they are validated. */
  datatype RawFact = RawFact(base: ProposedFact, fields: map<string, Value>)

  datatype RawTask = RawTask(base: ProposalTask, fields: map<string, Value>, facts: seq<RawFact>)

  type Payload = seq<RawTask>

  function DumpFact(f: ProposedFact): RawFact {
    RawFact(f, map field | field in FACT_FIELDS :: FactField(f, field))
  }

  function DumpTask(t: ProposalTask): RawTask {
    RawTask(t, map field | field in TASK_FIELDS :: TaskField(t, field), Map((f: ProposedFact) => DumpFact(f), t.facts))
  }

  function Dump(p: PlanProposal): Payload {
    Map((t: ProposalTask) => DumpTask(t), p.tasks)
  }

  /** The payload has the entries of the slot. */
  predicate HasSlot(payload: Payload, slot: Slot) {
    && slot.task < |payload|
    && (slot.FactSlot? ==> slot.fact < |payload[slot.task].facts|)
  }

  /** The nested assignment `payload["tasks"][i]["facts"][j][field] = value`, or `payload["tasks"][i][field] = value`. */
  function Assign(payload: Payload, slot: Slot, value: Value): Payload
    requires HasSlot(payload, slot)
  {
    var task := payload[slot.task];
    match slot
    case TaskSlot(i, field) => payload[i := task.(fields := task.fields[field := value])]
    case FactSlot(i, j, field) =>
      payload[i := task.(facts := task.facts[j := task.facts[j].(fields := task.facts[j].fields[field := value])])]
  }

  function Str(n: int): string {
    if n < 0 then "-" + Dec(-n) else Dec(n)
  }

  /** The value as the slot's field stores it. */
  function Coerced(slot: Slot, value: Value): Value {
    if slot.TaskSlot? && slot.field in {"company_mentions", "requested_slots"} && !value.Items? then Items([value])
    else if slot.FactSlot? && slot.field == "period_expression" && value.Number? then Text(Str(value.n))
    else value
  }

  /** What a slot holds of a submitted value: lists of one for the list fields, digits for a numeric period, and otherwise
      the value itself. */
  lemma {:induction false} CoercedHolds(slot: Slot, value: Value)
    ensures slot.TaskSlot? && (slot.field == "company_mentions" || slot.field == "requested_slots") ==>
              Coerced(slot, value) == if value.Items? then value else Items([value])
    ensures slot.FactSlot? && slot.field == "period_expression" && value.Number? && value.n >= 0 ==>
              Coerced(slot, value) == Text(Dec(value.n))
    ensures slot.FactSlot? && slot.field == "period_expression" && value.Number? && value.n < 0 ==>
              Coerced(slot, value) == Text("-" + Dec(-value.n))
    ensures (!(slot.TaskSlot? && (slot.field == "company_mentions" || slot.field == "requested_slots"))
             && !(slot.FactSlot? && slot.field == "period_expression" && value.Number?)) ==> Coerced(slot, value) == value
  {
  }

  /** One submitted value and the path it is for, in submission order. */
  datatype Patch = Patch(path: string, value: Value)

  /** A patch resolved to the slot and the value it stores. */
  datatype Write = Write(slot: Slot, value: Value)

  type Parser = string -> Option<Slot>

  function ParserOf(p: PlanProposal): Parser {
    path => ParsePath(p, path)
  }

  function WriteFor(parse: Parser, patch: Patch): Option<Write> {
    match parse(patch.path)
    case None => None
    case Some(slot) => Some(Write(slot, Coerced(slot, patch.value)))
  }

  /** The writes of the first `n` patches; None when a path is outside the allowlist. */
  function WritesFor(parse: Parser, batch: seq<Patch>, n: nat): (r: Option<seq<Write>>)
    requires n <= |batch|
    ensures r.Some? ==> |r.value| == n
  {
    if n == 0 then Some([]) else
    match WritesFor(parse, batch, n - 1)
    case None => None
    case Some(earlier) =>
      match WriteFor(parse, batch[n - 1])
      case None => None
      case Some(write) => Some(earlier + [write])
  }

  predicate AllHave(payload: Payload, writes: seq<Write>) {
    forall i | 0 <= i < |writes| :: HasSlot(payload, writes[i].slot)
  }

  /** The payload after the first `n` writes. */
  function Written(payload: Payload, writes: seq<Write>, n: nat): (r: Payload)
    requires n <= |writes| && AllHave(payload, writes)
    ensures SameSlots(payload, r)
  {
    if n == 0 then payload
    else Assign(Written(payload, writes, n - 1), writes[n - 1].slot, writes[n - 1].value)
  }

  /** Same tasks and facts underneath, so the same slots. */
  predicate SameSlots(a: Payload, b: Payload) {
    && |a| == |b|
    && forall i | 0 <= i < |a| :: a[i].base == b[i].base && |a[i].facts| == |b[i].facts|
         && forall j | 0 <= j < |a[i].facts| :: a[i].facts[j].base == b[i].facts[j].base
  }

  /* ---- Validating a payload ---- */

  predicate IsTexts(v: Value) {
    v.Items? && forall i | 0 <= i < |v.items| :: v.items[i].Text?
  }

  function StringsOf(v: Value): seq<string> {
    if IsTexts(v) then Map((item: Value) => if item.Text? then item.s else "", v.items) else []
  }

  function StringOf(v: Value): string {
    if v.Text? then v.s else ""
  }

  /** The type strict validation asks of a task field. */
  predicate Typed(field: string, v: Value) {
    if field in {"company_mentions", "requested_slots"} then IsTexts(v) else v.Text?
  }

  function Entry(fields: map<string, Value>, field: string): Value {
    if field in fields then fields[field] else Null
  }

  predicate FactTyped(raw: RawFact) {
    forall field | field in FACT_FIELDS :: Entry(raw.fields, field).Text?
  }

  predicate TaskTyped(raw: RawTask) {
    && (forall field | field in TASK_FIELDS :: Typed(field, Entry(raw.fields, field)))
    && (forall j | 0 <= j < |raw.facts| :: FactTyped(raw.facts[j]))
  }

  function LoadFact(raw: RawFact): ProposedFact {
    ProposedFact(raw.base.resultLabel, StringOf(Entry(raw.fields, "company_mention")),
                 StringOf(Entry(raw.fields, "concept_mention")), StringOf(Entry(raw.fields, "period_expression")),
                 StringOf(Entry(raw.fields, "scope")), StringOf(Entry(raw.fields, "statement")),
                 StringOf(Entry(raw.fields, "view")))
  }

  function LoadTask(raw: RawTask): ProposalTask {
    ProposalTask(raw.base.taskLabel, raw.base.kind, raw.base.operation,
                 StringsOf(Entry(raw.fields, "company_mentions")), Map((f: RawFact) => LoadFact(f), raw.facts),
                 StringOf(Entry(raw.fields, "as_of_expression")), StringOf(Entry(raw.fields, "document_group")),
                 StringOf(Entry(raw.fields, "event_type_text")), StringOf(Entry(raw.fields, "counterparty_text")),
                 StringOf(Entry(raw.fields, "contract_name_text")), StringOf(Entry(raw.fields, "seed_receipt_text")),
                 StringOf(Entry(raw.fields, "retrieval_query")), StringsOf(Entry(raw.fields, "requested_slots")),
                 raw.base.resultLabels)
  }

  predicate AllTyped(payload: Payload) {
    forall i | 0 <= i < |payload| :: TaskTyped(payload[i])
  }

  /** The proposal loaded from a payload without asking whether it is valid. */
  function LoadedAs(p: PlanProposal, payload: Payload): PlanProposal {
    p.(tasks := Map((raw: RawTask) => LoadTask(raw), payload))
  }

  /** The proposals validation lets through. */
  type Validator = PlanProposal -> bool

  ghost function Strictly(): Validator {
    r => StrictProposal(r)
  }

  /** The proposal a payload stands for; None when its types or the validator refuse it. */
  ghost function Loaded(valid: Validator, p: PlanProposal, payload: Payload): Option<PlanProposal> {
    if AllTyped(payload) && valid(LoadedAs(p, payload)) then Some(LoadedAs(p, payload)) else None
  }

  /** Every path the parser knows leads to a slot of the payload. */
  ghost predicate ParserFits(parse: Parser, payload: Payload) {
    forall path | parse(path).Some? :: HasSlot(payload, parse(path).value)
  }

  /** The payload after a batch; None when a path is outside the allowlist. */
  function Filled(parse: Parser, payload: Payload, batch: seq<Patch>): Option<Payload> {
    match WritesFor(parse, batch, |batch|)
    case None => None
    case Some(writes) => if AllHave(payload, writes) then Some(Written(payload, writes, |writes|)) else None
  }

  type Loader = Payload -> Option<PlanProposal>

  ghost function LoaderFor(valid: Validator, p: PlanProposal): Loader {
    payload => Loaded(valid, p, payload)
  }

  function PatchedBy(parse: Parser, load: Loader, payload: Payload, batch: seq<Patch>): Option<PlanProposal> {
    if batch == [] then None else
    match Filled(parse, payload, batch)
    case None => None
    case Some(filled) => load(filled)
  }

  /** What `apply` makes of a batch; None where it raises. */
  ghost function Patched(p: PlanProposal, batch: seq<Patch>): Option<PlanProposal> {
    PatchedBy(ParserOf(p), LoaderFor(Strictly(), p), Dump(p), batch)
  }

  method Load(p: PlanProposal, payload: Payload) returns (r: Option<PlanProposal>)
    ensures r == Loaded(Strictly(), p, payload)
  {
    if !AllTyped(payload) {
      return None;
    }
    var loaded := LoadedAs(p, payload);
    var ok := ValidateStrict(loaded);
    r := if ok then Some(loaded) else None;
  }

  /** Writes the batch in submission order, refusing it at the first path outside the allowlist. */
  method WriteAll(parse: Parser, payload: Payload, batch: seq<Patch>) returns (r: Option<Payload>)
    requires ParserFits(parse, payload)
    ensures r == Filled(parse, payload, batch)
  {
    var written := payload;
    ghost var writes: seq<Write> := [];
    for i := 0 to |batch|
      invariant WritesFor(parse, batch, i) == Some(writes) && AllHave(payload, writes)
      invariant written == Written(payload, writes, i)
    {
      var write := WriteFor(parse, batch[i]);
      if write.None? {
        RefusalStays(parse, batch, i + 1, |batch|);
        return None;
      }
      WrittenPrefix(payload, writes, write.value, i);
      written := Assign(written, write.value.slot, write.value.value);
      writes := writes + [write.value];
    }
    r := Some(written);
  }

  method Apply(p: PlanProposal, batch: seq<Patch>) returns (r: Option<PlanProposal>)
    ensures r == Patched(p, batch)
  {
    if batch == [] {
      return None;
    }
    ParserOfKnows(p);
    ParserOfFits(ParserOf(p), p);
    var payload := WriteAll(ParserOf(p), Dump(p), batch);
    if payload.None? {
      return None;
    }
    r := Load(p, payload.value);
  }

  /** Every path the parser knows denotes a slot of the proposal. */
  ghost predicate ParserKnows(parse: Parser, p: PlanProposal) {
    forall path | parse(path).Some? :: ValidSlot(p, parse(path).value)
  }

  lemma {:induction false} ParserOfKnows(p: PlanProposal)
    ensures ParserKnows(ParserOf(p), p)
  {
  }

  lemma {:induction false} ParserOfFits(parse: Parser, p: PlanProposal)
    requires ParserKnows(parse, p)
    ensures ParserFits(parse, Dump(p))
  {
  }

  lemma {:induction false} WrittenPrefix(payload: Payload, writes: seq<Write>, more: Write, n: nat)
    requires n <= |writes| && AllHave(payload, writes) && HasSlot(payload, more.slot)
    ensures AllHave(payload, writes + [more])
    ensures Written(payload, writes + [more], n) == Written(payload, writes, n)
  {
    if n > 0 {
      WrittenPrefix(payload, writes, more, n - 1);
    }
  }

  lemma {:induction false} RefusalStays(parse: Parser, batch: seq<Patch>, k: nat, n: nat)
    requires k <= n <= |batch| && WritesFor(parse, batch, k).None?
    ensures WritesFor(parse, batch, n).None?
  {
    if k < n {
      RefusalStays(parse, batch, k, n - 1);
    }
  }

  /* ---- What a payload holds ---- */

  function RawAt(payload: Payload, slot: Slot): Value
    requires HasSlot(payload, slot)
  {
    match slot
    case TaskSlot(i, field) => Entry(payload[i].fields, field)
    case FactSlot(i, j, field) => Entry(payload[i].facts[j].fields, field)
  }

  /** An assignment changes its own slot and no other. */
  lemma {:induction false} AssignAt(payload: Payload, slot: Slot, value: Value, other: Slot)
    requires HasSlot(payload, slot) && HasSlot(payload, other)
    ensures HasSlot(Assign(payload, slot, value), other)
    ensures RawAt(Assign(payload, slot, value), other) == if other == slot then value else RawAt(payload, other)
  {
  }

  /** What the first `n` writes leave in the slots they are to: the last value written. */
  function Finals(writes: seq<Write>, n: nat): map<Slot, Value>
    requires n <= |writes|
  {
    if n == 0 then map[] else Finals(writes, n - 1)[writes[n - 1].slot := writes[n - 1].value]
  }

  lemma {:induction false} WrittenAt(payload: Payload, writes: seq<Write>, n: nat, slot: Slot)
    requires n <= |writes| && AllHave(payload, writes) && HasSlot(payload, slot)
    ensures HasSlot(Written(payload, writes, n), slot)
    ensures RawAt(Written(payload, writes, n), slot)
         == if slot in Finals(writes, n) then Finals(writes, n)[slot] else RawAt(payload, slot)
  {
    if n > 0 {
      WrittenAt(payload, writes, n - 1, slot);
      AssignAt(Written(payload, writes, n - 1), writes[n - 1].slot, writes[n - 1].value, slot);
    }
  }

  lemma {:induction false} DumpAt(p: PlanProposal, slot: Slot)
    requires ValidSlot(p, slot)
    ensures HasSlot(Dump(p), slot) && RawAt(Dump(p), slot) == SlotValue(p, slot)
  {
  }

  /* ---- Records and dictionaries ---- */

  lemma {:induction false} TextsOfStrings(v: Value)
    requires IsTexts(v)
    ensures Texts(StringsOf(v)) == v
  {
    assert Texts(StringsOf(v)).items == v.items;
  }

  lemma {:induction false} StringsOfTexts(ss: seq<string>)
    ensures IsTexts(Texts(ss)) && StringsOf(Texts(ss)) == ss
  {
  }

  /** A loaded fact holds what its dictionary held. */
  lemma {:induction false} LoadedFactAt(raw: RawFact, field: string)
    requires FactTyped(raw) && field in FACT_FIELDS
    ensures FactField(LoadFact(raw), field) == Entry(raw.fields, field)
  {
  }

  /** A dictionary that holds what a fact holds is well typed and loads as that fact. */
  lemma {:induction false} FactLoads(raw: RawFact, f: ProposedFact)
    requires SameFact(raw.base, f) && forall field | field in FACT_FIELDS :: Entry(raw.fields, field) == FactField(f, field)
    ensures FactTyped(raw) && LoadFact(raw) == f
  {
  }

  lemma {:induction false} LoadedTaskAt(raw: RawTask, field: string)
    requires TaskTyped(raw) && field in TASK_FIELDS
    ensures TaskField(LoadTask(raw), field) == Entry(raw.fields, field)
  {
    var v := Entry(raw.fields, field);
    if field in {"company_mentions", "requested_slots"} {
      TextsOfStrings(v);
    }
  }

  lemma {:induction false} TaskLoads(raw: RawTask, t: ProposalTask)
    requires SameTask(raw.base, t) && |raw.facts| == |t.facts|
    requires forall field | field in TASK_FIELDS :: Entry(raw.fields, field) == TaskField(t, field)
    requires forall j | 0 <= j < |raw.facts| :: FactTyped(raw.facts[j]) && LoadFact(raw.facts[j]) == t.facts[j]
    ensures TaskTyped(raw) && LoadTask(raw) == t
  {
    StringsOfTexts(t.companyMentions);
    StringsOfTexts(t.requestedSlots);
    assert LoadTask(raw).facts == t.facts;
  }

  /* ---- What applying a batch does ---- */

  /** What a slot of `p` holds once `finals` are written. */
  function Left(p: PlanProposal, finals: map<Slot, Value>, slot: Slot): Value
    requires ValidSlot(p, slot)
  {
    if slot in finals then finals[slot] else SlotValue(p, slot)
  }

  /** `r` is `p` but for its slots, and these hold what is left there. */
  ghost predicate HoldsFinals(p: PlanProposal, r: PlanProposal, finals: map<Slot, Value>) {
    SameFrame(p, r) && forall slot | ValidSlot(p, slot) :: ValidSlot(r, slot) && SlotValue(r, slot) == Left(p, finals, slot)
  }

  /** `payload` is `p` dumped and written into. */
  ghost predicate HoldsRaw(p: PlanProposal, payload: Payload, finals: map<Slot, Value>) {
    && SameSlots(Dump(p), payload)
    && forall slot | ValidSlot(p, slot) :: HasSlot(payload, slot) && RawAt(payload, slot) == Left(p, finals, slot)
  }

  lemma {:induction false} WrittenHolds(p: PlanProposal, writes: seq<Write>)
    requires AllHave(Dump(p), writes)
    ensures HoldsRaw(p, Written(Dump(p), writes, |writes|), Finals(writes, |writes|))
  {
    forall slot | ValidSlot(p, slot)
      ensures var payload := Written(Dump(p), writes, |writes|);
              HasSlot(payload, slot) && RawAt(payload, slot) == Left(p, Finals(writes, |writes|), slot)
    {
      DumpAt(p, slot);
      WrittenAt(Dump(p), writes, |writes|, slot);
    }
  }

  lemma {:induction false} LoadedFrame(p: PlanProposal, payload: Payload)
    requires SameSlots(Dump(p), payload)
    ensures SameFrame(p, LoadedAs(p, payload))
    ensures forall slot | ValidSlot(p, slot) :: ValidSlot(LoadedAs(p, payload), slot)
  {
    var r := LoadedAs(p, payload);
    forall i | 0 <= i < |p.tasks|
      ensures SameTask(p.tasks[i], r.tasks[i])
    {
      assert Dump(p)[i] == DumpTask(p.tasks[i]) && r.tasks[i] == LoadTask(payload[i]);
      forall j | 0 <= j < |p.tasks[i].facts|
        ensures SameFact(p.tasks[i].facts[j], r.tasks[i].facts[j])
      {
        assert Dump(p)[i].facts[j] == DumpFact(p.tasks[i].facts[j]);
      }
    }
  }

  lemma {:induction false} LoadedAt(p: PlanProposal, payload: Payload, slot: Slot)
    requires SameSlots(Dump(p), payload) && AllTyped(payload) && ValidSlot(p, slot)
    ensures HasSlot(payload, slot) && ValidSlot(LoadedAs(p, payload), slot)
    ensures SlotValue(LoadedAs(p, payload), slot) == RawAt(payload, slot)
  {
    DumpAt(p, slot);
    LoadedFrame(p, payload);
    assert TaskTyped(payload[slot.task]) && LoadedAs(p, payload).tasks[slot.task] == LoadTask(payload[slot.task]);
    match slot
    case TaskSlot(i, field) => LoadedTaskAt(payload[i], field);
    case FactSlot(i, j, field) => LoadedFactAt(payload[i].facts[j], field);
  }

  /** A payload that holds in every slot what `r` holds there is well typed and loads as `r`. */
  lemma {:induction false} LoadsAs(p: PlanProposal, r: PlanProposal, payload: Payload)
    requires SameSlots(Dump(p), payload) && SameFrame(p, r)
    requires forall slot | ValidSlot(p, slot) :: HasSlot(payload, slot) && ValidSlot(r, slot) && RawAt(payload, slot) == SlotValue(r, slot)
    ensures AllTyped(payload) && LoadedAs(p, payload) == r
  {
    forall i | 0 <= i < |payload|
      ensures TaskTyped(payload[i]) && LoadTask(payload[i]) == r.tasks[i]
    {
      TaskLoadsAs(p, r, payload, i);
    }
    assert LoadedAs(p, payload).tasks == r.tasks;
  }

  lemma {:induction false} TaskLoadsAs(p: PlanProposal, r: PlanProposal, payload: Payload, i: nat)
    requires SameSlots(Dump(p), payload) && SameFrame(p, r) && i < |payload|
    requires forall slot | ValidSlot(p, slot) :: HasSlot(payload, slot) && ValidSlot(r, slot) && RawAt(payload, slot) == SlotValue(r, slot)
    ensures i < |r.tasks| && TaskTyped(payload[i]) && LoadTask(payload[i]) == r.tasks[i]
  {
    assert Dump(p)[i] == DumpTask(p.tasks[i]);
    assert SameTask(p.tasks[i], r.tasks[i]);
    forall field | field in TASK_FIELDS
      ensures Entry(payload[i].fields, field) == TaskField(r.tasks[i], field)
    {
      assert ValidSlot(p, TaskSlot(i, field));
    }
    forall j | 0 <= j < |payload[i].facts|
      ensures FactTyped(payload[i].facts[j]) && LoadFact(payload[i].facts[j]) == r.tasks[i].facts[j]
    {
      assert Dump(p)[i].facts[j] == DumpFact(p.tasks[i].facts[j]);
      forall field | field in FACT_FIELDS
        ensures Entry(payload[i].facts[j].fields, field) == FactField(r.tasks[i].facts[j], field)
      {
        assert ValidSlot(p, FactSlot(i, j, field));
      }
      FactLoads(payload[i].facts[j], r.tasks[i].facts[j]);
    }
    TaskLoads(payload[i], r.tasks[i]);
  }

  lemma {:induction false} AppliedBy(parse: Parser, load: Loader, payload: Payload, batch: seq<Patch>, writes: seq<Write>)
    requires ParserFits(parse, payload) && batch != [] && WritesFor(parse, batch, |batch|) == Some(writes)
    ensures AllHave(payload, writes)
    ensures PatchedBy(parse, load, payload, batch) == load(Written(payload, writes, |writes|))
  {
    KnownWritesFit(parse, payload, batch, writes, |batch|);
  }

  lemma {:induction false} AppliedWith(parse: Parser, valid: Validator, p: PlanProposal, batch: seq<Patch>, writes: seq<Write>, r: PlanProposal)
    requires ParserKnows(parse, p) && batch != [] && WritesFor(parse, batch, |batch|) == Some(writes)
    ensures PatchedBy(parse, LoaderFor(valid, p), Dump(p), batch) == Some(r)
       <==> valid(r) && HoldsFinals(p, r, Finals(writes, |writes|))
  {
    ParserOfFits(parse, p);
    AppliedBy(parse, LoaderFor(valid, p), Dump(p), batch, writes);
    WrittenHolds(p, writes);
    LoaderExactly(valid, p, Written(Dump(p), writes, |writes|), Finals(writes, |writes|), r);
  }

  lemma {:induction false} LoaderExactly(valid: Validator, p: PlanProposal, payload: Payload, finals: map<Slot, Value>, r: PlanProposal)
    requires HoldsRaw(p, payload, finals)
    ensures LoaderFor(valid, p)(payload) == Some(r) <==> valid(r) && HoldsFinals(p, r, finals)
  {
    LoadedExactly(valid, p, payload, finals, r);
  }

  /** Exactly when a batch whose paths are all known is applied, and to what: to the one proposal that
      strict validation lets through, that is `p` but for its slots, and whose slots hold what was last
      written there. Values of the wrong type, outside a vocabulary or against a rule leave none. */
  lemma {:induction false} AppliedExactly(p: PlanProposal, batch: seq<Patch>, writes: seq<Write>, r: PlanProposal)
    requires batch != [] && WritesFor(ParserOf(p), batch, |batch|) == Some(writes)
    ensures Patched(p, batch) == Some(r) <==> StrictProposal(r) && HoldsFinals(p, r, Finals(writes, |writes|))
  {
    ParserOfKnows(p);
    var parse, valid := ParserOf(p), Strictly();
    AppliedWith(parse, valid, p, batch, writes, r);
    assert valid(r) <==> StrictProposal(r);
  }

  lemma {:induction false} KnownWritesFit(parse: Parser, payload: Payload, batch: seq<Patch>, writes: seq<Write>, n: nat)
    requires ParserFits(parse, payload) && n <= |batch| && WritesFor(parse, batch, n) == Some(writes)
    ensures AllHave(payload, writes)
    decreases n
  {
    if n > 0 {
      KnownWritesFit(parse, payload, batch, WritesFor(parse, batch, n - 1).value, n - 1);
    }
  }

  lemma {:induction false} LoadedExactly(valid: Validator, p: PlanProposal, payload: Payload, finals: map<Slot, Value>, r: PlanProposal)
    requires HoldsRaw(p, payload, finals)
    ensures Loaded(valid, p, payload) == Some(r) <==> valid(r) && HoldsFinals(p, r, finals)
  {
    if AllTyped(payload) && r == LoadedAs(p, payload) {
      LoadedFrame(p, payload);
      forall slot | ValidSlot(p, slot)
        ensures ValidSlot(r, slot) && SlotValue(r, slot) == Left(p, finals, slot)
      {
        LoadedAt(p, payload, slot);
      }
    }
    if HoldsFinals(p, r, finals) {
      LoadsAs(p, r, payload);
    }
  }

  /* ---- Batches of canonical paths ---- */

  /** Batch entry `i` is the printed path of slot `i` with value `i`. */
  ghost predicate PrintsSlots(p: PlanProposal, slots: seq<Slot>, values: seq<Value>, batch: seq<Patch>) {
    && |batch| == |slots| == |values|
    && forall i | 0 <= i < |slots| :: ValidSlot(p, slots[i]) && batch[i] == Patch(Print(slots[i]), values[i])
  }

  /** Each slot holds its own coerced value, and every other slot what it held before. */
  ghost predicate ChangesExactly(p: PlanProposal, slots: seq<Slot>, values: seq<Value>, r: PlanProposal)
    requires |slots| == |values|
  {
    && SameFrame(p, r) && (forall slot | ValidSlot(p, slot) :: ValidSlot(r, slot))
    && (forall i | 0 <= i < |slots| :: ValidSlot(r, slots[i]) && SlotValue(r, slots[i]) == Coerced(slots[i], values[i]))
    && (forall slot | ValidSlot(p, slot) && slot !in slots :: SlotValue(r, slot) == SlotValue(p, slot))
  }

  lemma {:induction false} PrintedWrites(parse: Parser, slots: seq<Slot>, values: seq<Value>, batch: seq<Patch>, n: nat)
    requires |batch| == |slots| == |values| && n <= |batch|
    requires forall i | 0 <= i < |slots| :: batch[i].value == values[i] && parse(batch[i].path) == Some(slots[i])
    ensures WritesFor(parse, batch, n).Some?
    ensures forall i | 0 <= i < n :: WritesFor(parse, batch, n).value[i] == Write(slots[i], Coerced(slots[i], values[i]))
  {
    if n > 0 {
      PrintedWrites(parse, slots, values, batch, n - 1);
    }
  }

  /** With different slots the last write to a slot is the only one. */
  lemma {:induction false} OnlyWrite(writes: seq<Write>, n: nat)
    requires n <= |writes| && forall i, j | 0 <= i < j < |writes| :: writes[i].slot != writes[j].slot
    ensures forall i | 0 <= i < n :: writes[i].slot in Finals(writes, n) && Finals(writes, n)[writes[i].slot] == writes[i].value
    ensures forall slot | slot in Finals(writes, n) :: exists i | 0 <= i < n :: writes[i].slot == slot
  {
    if n > 0 {
      OnlyWrite(writes, n - 1);
    }
  }

  /** A batch of canonical paths to different slots succeeds with `r` if and only if `r` is a valid
      proposal that differs from `p` in exactly those slots, each holding its own value. */
  lemma {:induction false} PrintedBatchIsExact(p: PlanProposal, slots: seq<Slot>, values: seq<Value>, batch: seq<Patch>, r: PlanProposal)
    requires PrintsSlots(p, slots, values, batch) && Distinct(slots) && slots != []
    ensures Patched(p, batch) == Some(r) <==> StrictProposal(r) && ChangesExactly(p, slots, values, r)
  {
    var parse := ParserOf(p);
    forall i | 0 <= i < |slots|
      ensures parse(batch[i].path) == Some(slots[i])
    {
      PrintParses(p, slots[i]);
    }
    ParserOfKnows(p);
    PrintedBatchBy(parse, Strictly(), p, slots, values, batch, r);
  }

  lemma {:induction false} PrintedBatchBy(parse: Parser, valid: Validator, p: PlanProposal, slots: seq<Slot>, values: seq<Value>,
                       batch: seq<Patch>, r: PlanProposal)
    requires ParserKnows(parse, p) && |batch| == |slots| == |values| > 0 && Distinct(slots)
    requires forall i | 0 <= i < |slots| :: batch[i].value == values[i] && parse(batch[i].path) == Some(slots[i])
    ensures PatchedBy(parse, LoaderFor(valid, p), Dump(p), batch) == Some(r) <==> valid(r) && ChangesExactly(p, slots, values, r)
  {
    PrintedWrites(parse, slots, values, batch, |batch|);
    var writes := WritesFor(parse, batch, |batch|).value;
    AppliedWith(parse, valid, p, batch, writes, r);
    forall i | 0 <= i < |slots|
      ensures ValidSlot(p, slots[i])
    {
      assert parse(batch[i].path).Some?;
    }
    DistinctWrites(p, slots, values, writes, r);
  }

  lemma {:induction false} DistinctWrites(p: PlanProposal, slots: seq<Slot>, values: seq<Value>, writes: seq<Write>, r: PlanProposal)
    requires |slots| == |values| == |writes| && Distinct(slots) && forall i | 0 <= i < |slots| :: ValidSlot(p, slots[i])
    requires forall i | 0 <= i < |slots| :: writes[i] == Write(slots[i], Coerced(slots[i], values[i]))
    ensures HoldsFinals(p, r, Finals(writes, |writes|)) <==> ChangesExactly(p, slots, values, r)
  {
    var finals := Finals(writes, |writes|);
    OnlyWrite(writes, |writes|);
    forall i | 0 <= i < |slots|
      ensures slots[i] in finals && finals[slots[i]] == Coerced(slots[i], values[i])
    {
      assert writes[i].slot == slots[i];
    }
    FinalsAreChanges(p, slots, values, finals, r);
  }

  lemma {:induction false} FinalsAreChanges(p: PlanProposal, slots: seq<Slot>, values: seq<Value>, finals: map<Slot, Value>, r: PlanProposal)
    requires |slots| == |values| && forall i | 0 <= i < |slots| :: ValidSlot(p, slots[i])
    requires forall i | 0 <= i < |slots| :: slots[i] in finals && finals[slots[i]] == Coerced(slots[i], values[i])
    requires forall slot | slot in finals :: slot in slots
    ensures HoldsFinals(p, r, finals) <==> ChangesExactly(p, slots, values, r)
  {
    if ChangesExactly(p, slots, values, r) {
      forall slot | ValidSlot(p, slot)
        ensures ValidSlot(r, slot) && SlotValue(r, slot) == Left(p, finals, slot)
      {
        if slot in finals {
          var i :| 0 <= i < |slots| && slots[i] == slot;
        }
      }
    }
  }

  /** Only what was last written to each slot matters: batches that agree on that give one result. In
      particular the order of a batch does not matter when its paths denote different slots. */
  lemma {:induction false} OrderDoesNotMatter(p: PlanProposal, a: seq<Patch>, b: seq<Patch>, wa: seq<Write>, wb: seq<Write>)
    requires a != [] && b != []
    requires WritesFor(ParserOf(p), a, |a|) == Some(wa) && WritesFor(ParserOf(p), b, |b|) == Some(wb)
    requires Finals(wa, |wa|) == Finals(wb, |wb|)
    ensures Patched(p, a) == Patched(p, b)
  {
    var left, right := Patched(p, a), Patched(p, b);
    forall r
      ensures left == Some(r) <==> right == Some(r)
    {
      SameFinals(p, a, b, wa, wb, r);
    }
    SameOption(left, right);
  }

  lemma {:induction false} SameFinals(p: PlanProposal, a: seq<Patch>, b: seq<Patch>, wa: seq<Write>, wb: seq<Write>, r: PlanProposal)
    requires a != [] && b != []
    requires WritesFor(ParserOf(p), a, |a|) == Some(wa) && WritesFor(ParserOf(p), b, |b|) == Some(wb)
    requires Finals(wa, |wa|) == Finals(wb, |wb|)
    ensures Patched(p, a) == Some(r) <==> Patched(p, b) == Some(r)
  {
    AppliedExactly(p, a, wa, r);
    AppliedExactly(p, b, wb, r);
  }

  lemma {:induction false} SameOption(a: Option<PlanProposal>, b: Option<PlanProposal>)
    requires forall r :: a == Some(r) <==> b == Some(r)
    ensures a == b
  {
    if a.Some? {
      assert a == Some(a.value);
    }
    if b.Some? {
      assert b == Some(b.value);
    }
  }

  /** A batch of canonical paths to different slots gives the same result in any order. */
  lemma {:induction false} CanonicalOrderDoesNotMatter(p: PlanProposal, slots: seq<Slot>, values: seq<Value>, a: seq<Patch>,
                                    others: seq<Slot>, moved: seq<Value>, b: seq<Patch>)
    requires PrintsSlots(p, slots, values, a) && Distinct(slots) && slots != []
    requires PrintsSlots(p, others, moved, b) && Distinct(others) && others != []
    requires forall patch :: patch in a <==> patch in b
    ensures Patched(p, a) == Patched(p, b)
  {
    var left, right := Patched(p, a), Patched(p, b);
    forall r
      ensures left == Some(r) <==> right == Some(r)
    {
      PrintedBatchIsExact(p, slots, values, a, r);
      PrintedBatchIsExact(p, others, moved, b, r);
      SameChanges(p, slots, values, a, others, moved, b, r);
      SameChanges(p, others, moved, b, slots, values, a, r);
    }
    SameOption(left, right);
  }

  lemma {:induction false} SameChanges(p: PlanProposal, slots: seq<Slot>, values: seq<Value>, a: seq<Patch>,
                    others: seq<Slot>, moved: seq<Value>, b: seq<Patch>, r: PlanProposal)
    requires PrintsSlots(p, slots, values, a) && PrintsSlots(p, others, moved, b)
    requires forall patch :: patch in a <==> patch in b
    ensures ChangesExactly(p, slots, values, r) ==> ChangesExactly(p, others, moved, r)
  {
    forall i | 0 <= i < |others|
      ensures exists k | 0 <= k < |slots| :: slots[k] == others[i] && values[k] == moved[i]
    {
      assert b[i] in b;
      var k :| 0 <= k < |a| && a[k] == b[i];
      PrintParses(p, slots[k]);
      PrintParses(p, others[i]);
    }
    forall k | 0 <= k < |slots|
      ensures slots[k] in others
    {
      assert a[k] in a;
      var i :| 0 <= i < |b| && b[i] == a[k];
      PrintParses(p, slots[k]);
      PrintParses(p, others[i]);
    }
  }

  /** A value of the wrong type, or a document group outside the vocabulary, is refused whatever the proposal is. */
  lemma {:induction false} BatchCanBeRefused(p: PlanProposal, value: Value)
    requires p.tasks != [] && (value.Text? ==> value.s !in {UNSPECIFIED, "periodic", "exchange", "major", "holding"})
    ensures var slot := TaskSlot(0, "document_group");
            ValidSlot(p, slot) && Patched(p, [Patch(Print(slot), value)]).None?
  {
    var slot := TaskSlot(0, "document_group");
    var batch, slots, values := [Patch(Print(slot), value)], [slot], [value];
    assert ValidSlot(p, slots[0]) && batch[0] == Patch(Print(slots[0]), values[0]);
    forall r
      ensures Patched(p, batch) != Some(r)
    {
      PrintedBatchIsExact(p, slots, values, batch, r);
      NoSuchGroup(p, r, value);
    }
    NoneOf(Patched(p, batch));
  }

  lemma {:induction false} NoneOf(o: Option<PlanProposal>)
    requires forall r :: o != Some(r)
    ensures o.None?
  {
    SameOption(o, None);
  }

  lemma {:induction false} NoSuchGroup(p: PlanProposal, r: PlanProposal, value: Value)
    requires p.tasks != [] && (value.Text? ==> value.s !in {UNSPECIFIED, "periodic", "exchange", "major", "holding"})
    ensures !(StrictProposal(r) && ChangesExactly(p, [TaskSlot(0, "document_group")], [value], r))
  {
    var slots, values := [TaskSlot(0, "document_group")], [value];
    assert StrictProposal(r) && r.tasks != [] ==> TaskOk(r.tasks[0]);
    assert slots[0] == TaskSlot(0, "document_group") && Coerced(slots[0], values[0]) == value;
    assert ChangesExactly(p, slots, values, r) ==> SlotValue(r, slots[0]) == value;
  }

  /** Two spellings of one slot in a batch: the second value wins, and the first is never even validated. */
  lemma {:induction false} LeadingZerosAlias(p: PlanProposal, first: Value, second: Value)
    requires p.tasks != []
    ensures var plain, padded := TASKS + "0" + (DOT + "document_group"), TASKS + "00" + (DOT + "document_group");
            && plain != padded && ParsePath(p, plain) == ParsePath(p, padded) == Some(TaskSlot(0, "document_group"))
            && Patched(p, [Patch(plain, first), Patch(padded, second)]) == Patched(p, [Patch(plain, second)])
  {
    var plain, padded := TASKS + "0" + (DOT + "document_group"), TASKS + "00" + (DOT + "document_group");
    var slot, parse := TaskSlot(0, "document_group"), ParserOf(p);
    assert |plain| + 1 == |padded|;
    assert Parse("0") == 0 && "00"[..1] == "0" && Parse("00") == 0;
    ParseTaskPath(p, "0", "document_group");
    ParseTaskPath(p, "00", "document_group");
    assert parse(plain) == parse(padded) == Some(slot);
    var a, b, x, y := Patch(plain, first), Patch(padded, second), Write(slot, Coerced(slot, first)), Write(slot, Coerced(slot, second));
    TwoWrites(parse, a, b, x, y);
    OneWrite(parse, Patch(plain, second), y);
    assert Finals([x, y], 2) == Finals([y], 1) by {
      FinalsOf(x, y);
    }
    OrderDoesNotMatter(p, [a, b], [Patch(plain, second)], [x, y], [y]);
  }

  lemma {:induction false} OneWrite(parse: Parser, a: Patch, x: Write)
    requires WriteFor(parse, a) == Some(x)
    ensures WritesFor(parse, [a], 1) == Some([x])
  {
    var none: seq<Write> := [];
    assert WritesFor(parse, [a], 0) == Some(none) && [a][0] == a && none + [x] == [x];
  }

  lemma {:induction false} TwoWrites(parse: Parser, a: Patch, b: Patch, x: Write, y: Write)
    requires WriteFor(parse, a) == Some(x) && WriteFor(parse, b) == Some(y)
    ensures WritesFor(parse, [a, b], 2) == Some([x, y])
  {
    var none: seq<Write> := [];
    assert WritesFor(parse, [a, b], 0) == Some(none) && none + [x] == [x] && [x] + [y] == [x, y];
    assert [a, b][0] == a && [a, b][1] == b;
    assert WritesFor(parse, [a, b], 1) == Some([x]);
  }

  lemma {:induction false} FinalsOf(x: Write, y: Write)
    requires x.slot == y.slot
    ensures Finals([x, y], 2) == Finals([y], 1) == map[y.slot := y.value]
  {
    assert [x, y][0] == x && [x, y][1] == y && [y][0] == y;
    assert Finals([x, y], 0) == map[] && Finals([y], 0) == map[];
    assert Finals([x, y], 1) == map[x.slot := x.value];
  }
}
