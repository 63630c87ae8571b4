/** The structural snapshot of a payload: names, counts and places of values, words of closed vocabularies,
    and nothing else. Two payloads that differ in free text alone have one snapshot. */
module PayloadShape {
  import opened Wrappers
  import opened Decimals
  import opened Ordering
  import opened Json

  /** What a snapshot may repeat: member names it looks behind, names of lists checked for duplicates, and
      closed vocabularies. */
  datatype Vocabulary = Vocabulary(
    safeKeys: set<string>, listKeys: set<string>,
    taskModes: set<string>, dispositions: set<string>, speechActs: set<string>, operators: set<string>,
    claimKinds: set<string>, targetKinds: set<string>, operations: set<string>, projectionModes: set<string>,
    outputShapes: set<string>, presentations: set<string>, refKinds: set<string>)
  {
    /** Every word, with the two texts a snapshot reports the place of. */
    function Words(): set<string> {
      taskModes + dispositions + speechActs + operators + claimKinds + targetKinds + operations + projectionModes
      + outputShapes + presentations + refKinds + {"", "unspecified"}
    }
  }

  const CLOSED: Vocabulary := Vocabulary(
    {
    "schema_version", "disposition", "tasks", "derivations", "premise_claims", "presentation", "reason_codes",
    "task_label", "kind", "operation", "company_mentions", "facts", "as_of_expression", "document_group",
    "event_type_text", "counterparty_text", "contract_name_text", "seed_receipt_text", "retrieval_query",
    "selector_mentions", "requested_slots", "source_slots", "target_period_expressions", "requested_outputs",
    "verification_refs", "context_task_refs", "result_labels", "result_label", "company_mention",
    "concept_mention", "period_expression", "scope", "statement", "view", "scope_expression",
    "statement_expression", "view_expression", "operator", "operand_labels", "rounding_rule", "claim_label",
    "raw_text", "verify_labels", "proposed_disposition", "speech_act", "analyses", "claims", "output_refs",
    "operands", "task_index", "fact_index", "slot_index", "analysis_index", "entities", "answer_items",
    "answer_groups", "premises", "unresolved_mentions", "surface", "kind_hint", "target", "entity_indexes",
    "qualifier_surfaces", "document_group_expression", "scope_qualifier_expressions", "selection", "mode",
    "criterion_surface", "k", "output", "shape", "projection_mode", "field_surfaces", "item_indexes",
    "applies_to_item_indexes", "role_hint"},
    {
    "company_mentions", "target_period_expressions", "selector_mentions", "source_slots", "requested_outputs",
    "verification_refs", "context_task_refs", "operands", "entities", "answer_items", "answer_groups", "premises",
    "unresolved_mentions", "entity_indexes", "qualifier_surfaces", "scope_qualifier_expressions", "field_surfaces",
    "item_indexes", "applies_to_item_indexes"},
    {"financial_lookup", "disclosure_lookup", "disclosure_list", "event_status", "event_timeline", "event_list",
     "correction_diff", "correction_history", "document_find", "document_latest", "document_version_history",
     "narrative_search", "narrative_summarize", "narrative_compare"},
    {"process", "out_of_scope", "unsupported_request", "policy_refusal"},
    {"request", "verification", "mixed"},
    {"difference", "absolute_difference", "percent_change", "discrete_from_cumulative", "argmax"},
    {"numeric", "state", "comparison", "existence", "causal"},
    {"metric", "attribute", "event", "document", "topic", "entity"},
    {"retrieve", "compare"},
    {"named_fields", "whole_target"},
    {"scalar", "record", "record_list", "comparison", "timeline", "narrative", "verdict"},
    {"auto", "prose", "table", "list"},
    {"analysis", "task", "fact", "slot"})

  /** The words a reference may call its kind. */
  predicate KnowsReferences(words: set<string>) {
    "analysis" in words && "task" in words && "fact" in words && "slot" in words
  }

  const INVALID: string := "invalid_or_missing"

  /* ---- Parts of a snapshot ---- */

  function ListLength(v: Option<Json>): int {
    if v.Some? && v.value.JArr? then |v.value.items| else -1
  }

  function SafeEnum(v: Option<Json>, allowed: set<string>): string {
    if v.Some? && v.value.JStr? && v.value.s in allowed then v.value.s else INVALID
  }

  function SafeKeys(members: seq<Member>, safe: set<string>): seq<string> {
    Sorted(SafeSet(members, safe))
  }

  function SafeSet(members: seq<Member>, safe: set<string>): set<string> {
    set m | m in members && m.key in safe :: m.key
  }

  /** The first `n` rows of a list, or none. */
  function Rows(v: Option<Json>, n: nat): seq<Json> {
    if v.Some? && v.value.JArr? then v.value.items[..if |v.value.items| < n then |v.value.items| else n] else []
  }

  /** What a dictionary holds under a key; other values hold nothing. */
  function Child(v: Option<Json>, key: string): Option<Json> {
    if v.Some? && v.value.JObj? then Get(v.value.members, key) else None
  }

  function IntText(n: int): string {
    if n < 0 then "-" + Dec(-n) else Dec(n)
  }

  function IndexText(row: Json, key: string): Option<string> {
    var v := Child(Some(row), key);
    if v.Some? && v.value.JInt? then Some(IntText(v.value.n)) else None
  }

  /** None where the test against the closed set raises: a list or an object cannot be hashed. */
  function RefText(kind: Option<Json>, task: Option<string>, analysis: Option<string>, fact: Option<string>,
                   slot: Option<string>): Option<string>
  {
    if kind.None? || (IsScalar(kind.value) && !kind.value.JStr?) then Some("invalid")
    else if !kind.value.JStr? then None
    else if kind.value.s == "analysis" && analysis.Some? then Some("analysis:" + analysis.value)
    else if kind.value.s == "task" && task.Some? then Some("task:" + task.value)
    else if kind.value.s == "fact" && task.Some? && fact.Some? then Some("fact:" + task.value + ":" + fact.value)
    else if kind.value.s == "slot" && task.Some? && slot.Some? then Some("slot:" + task.value + ":" + slot.value)
    else Some("invalid")
  }

  function RefShape(row: Json): Option<string> {
    RefText(Child(Some(row), "kind"), IndexText(row, "task_index"), IndexText(row, "analysis_index"),
            IndexText(row, "fact_index"), IndexText(row, "slot_index"))
  }

  /** All the texts, unless one of them raised. */
  function AllTexts(texts: seq<Option<string>>): Option<seq<string>> {
    if texts == [] then Some([])
    else if texts[0].None? || AllTexts(texts[1..]).None? then None
    else Some([texts[0].value] + AllTexts(texts[1..]).value)
  }

  function RefTexts(members: seq<Member>): Option<seq<string>> {
    AllTexts(Map((row: Json) => RefShape(row), Rows(Get(members, "requested_outputs"), 32)))
  }

  datatype TaskShape = TaskShape(mode: string, fields: seq<string>, facts: int, slots: int, periods: int)

  function TaskShapeOf(words: Vocabulary, task: Json): TaskShape {
    if !task.JObj? then TaskShape(INVALID, [], -1, -1, -1) else
    TaskShape(SafeEnum(Get(task.members, "task_mode"), words.taskModes), SafeKeys(task.members, words.safeKeys),
              ListLength(Get(task.members, "facts")), ListLength(Get(task.members, "source_slots")),
              ListLength(Get(task.members, "target_period_expressions")))
  }

  datatype ItemShape = ItemShape(targetKind: string, operation: string, projectionMode: string, outputShape: string, fields: int)

  function ItemShapeOf(words: Vocabulary, item: Json): ItemShape {
    if !item.JObj? then ItemShape(INVALID, INVALID, INVALID, INVALID, -1) else
    var target, output := Get(item.members, "target"), Get(item.members, "output");
    ItemShape(SafeEnum(Child(target, "kind"), words.targetKinds), SafeEnum(Get(item.members, "operation"), words.operations),
              SafeEnum(Child(output, "projection_mode"), words.projectionModes),
              SafeEnum(Child(output, "shape"), words.outputShapes), ListLength(Child(output, "field_surfaces")))
  }

  /* ---- Paths of blanks, sentinels and duplicates ---- */

  datatype Marks = Marks(blank: set<string>, unspecified: set<string>, duplicate: set<string>) {
    function Join(other: Marks): Marks {
      Marks(blank + other.blank, unspecified + other.unspecified, duplicate + other.duplicate)
    }
  }

  const NO_MARKS: Marks := Marks({}, {}, {})

  /** A value with the members of every object in key order, as its canonical text lists them. */
  function Canonical(j: Json): Json {
    match j
    case JArr(items) => JArr(seq(|items|, i requires 0 <= i < |items| => Canonical(items[i])))
    case JObj(members) =>
      var keys := Sorted(KeySet(members));
      JObj(seq(|keys|, i requires 0 <= i < |keys| =>
        assert keys[i] in Elements(keys);
        KeyPresent(members, keys[i]);
        assert members[IndexOf(members, keys[i])] in members;
        Member(keys[i], Canonical(members[IndexOf(members, keys[i])].value))))
    case _ => j
  }

  function KeySet(members: seq<Member>): set<string> {
    set m | m in members :: m.key
  }

  lemma {:induction false} KeyPresent(members: seq<Member>, key: string)
    ensures key in KeySet(members) <==> Has(members, key)
  {
    var i := IndexOf(members, key);
    assert i < |members| ==> members[i] in members;
    if m :| m in members && m.key == key {
      var k :| 0 <= k < |members| && members[k] == m;
    }
  }

  /** Two elements with one canonical text. */
  predicate HasDuplicate(items: seq<Json>) {
    exists i, k | 0 <= i < k < |items| :: Canonical(items[i]) == Canonical(items[k])
  }

  function ChildPath(path: string, key: string): string {
    if path == "" then key else path + "." + key
  }

  function ElementPath(path: string, i: nat): string {
    path + "[" + Dec(i) + "]"
  }

  function Scan(words: Vocabulary, node: Json, path: string, field: Option<string>): Marks
    decreases node, 1, 0
  {
    match node
    case JObj(members) => ScanMembers(words, members, |members|, path)
    case JArr(items) =>
      var own := if field.Some? && field.value in words.listKeys && HasDuplicate(items) then NO_MARKS.(duplicate := {path}) else NO_MARKS;
      own.Join(ScanItems(words, items, if |items| < 50 then |items| else 50, path, field))
    case JStr(s) =>
      if s == "" then NO_MARKS.(blank := {path})
      else if s == "unspecified" then NO_MARKS.(unspecified := {path}) else NO_MARKS
    case _ => NO_MARKS
  }

  function ScanMembers(words: Vocabulary, members: seq<Member>, n: nat, path: string): Marks
    requires n <= |members|
    decreases members, 0, n
  {
    if n == 0 then NO_MARKS else
    var m := members[n - 1];
    var before := ScanMembers(words, members, n - 1, path);
    if m.key in words.safeKeys then before.Join(Scan(words, m.value, ChildPath(path, m.key), Some(m.key))) else before
  }

  function ScanItems(words: Vocabulary, items: seq<Json>, n: nat, path: string, field: Option<string>): Marks
    requires n <= |items|
    decreases items, 0, n
  {
    if n == 0 then NO_MARKS
    else ScanItems(words, items, n - 1, path, field).Join(Scan(words, items[n - 1], ElementPath(path, n - 1), field))
  }

  function Truncated(paths: set<string>): seq<string> {
    var sorted := Sorted(paths);
    sorted[..if |sorted| < 32 then |sorted| else 32]
  }

  /* ---- The snapshot ---- */

  datatype Counts = Counts(tasks: int, analyses: int, claims: int, outputs: int, reasons: int,
                           entities: int, items: int, groups: int, premises: int, unresolved: int)

  datatype Head = Head(rootFields: seq<string>, disposition: string, speechAct: string, presentation: string, counts: Counts)

  datatype RowShapes = RowShapes(tasks: seq<TaskShape>, operators: seq<string>, claimKinds: seq<string>,
                                 refs: seq<string>, items: seq<ItemShape>)

  /** What taking a snapshot comes to: none of a payload that is no object, an exception, or a snapshot. */
  datatype Snapshot = NoShape | Raised | Taken(shape: Shape)

  /** The snapshot; its parts are grouped here and flat in the program. */
  datatype Shape = Shape(head: Head, rows: RowShapes,
                         blankPaths: seq<string>, unspecifiedPaths: seq<string>, duplicatePaths: seq<string>)

  function CountsOf(members: seq<Member>): Counts {
    Counts(ListLength(Get(members, "tasks")), ListLength(Get(members, "analyses")), ListLength(Get(members, "claims")),
           ListLength(Get(members, "requested_outputs")), ListLength(Get(members, "reason_codes")),
           ListLength(Get(members, "entities")), ListLength(Get(members, "answer_items")),
           ListLength(Get(members, "answer_groups")), ListLength(Get(members, "premises")),
           ListLength(Get(members, "unresolved_mentions")))
  }

  function HeadOf(words: Vocabulary, members: seq<Member>): Head {
    Head(SafeKeys(members, words.safeKeys),
         SafeEnum(Get(members, "proposed_disposition"), words.dispositions),
         SafeEnum(Get(members, "speech_act"), words.speechActs),
         SafeEnum(Get(members, "presentation"), words.presentations),
         CountsOf(members))
  }

  function RowShapesOf(words: Vocabulary, members: seq<Member>, refs: seq<string>): RowShapes {
    RowShapes(
      Map((row: Json) => TaskShapeOf(words, row), Rows(Get(members, "tasks"), 12)),
      Map((row: Json) => SafeEnum(Child(Some(row), "operator"), words.operators), Rows(Get(members, "analyses"), 32)),
      Map((row: Json) => SafeEnum(Child(Some(row), "kind"), words.claimKinds), Rows(Get(members, "claims"), 32)),
      refs,
      Map((row: Json) => ItemShapeOf(words, row), Rows(Get(members, "answer_items"), 50)))
  }

  function ShapeOf(words: Vocabulary, payload: Json): Snapshot {
    if !payload.JObj? then NoShape else
    match RefTexts(payload.members)
    case None => Raised
    case Some(refs) =>
      var marks := Scan(words, payload, "", None);
      Taken(Shape(HeadOf(words, payload.members), RowShapesOf(words, payload.members, refs),
                  Truncated(marks.blank), Truncated(marks.unspecified), Truncated(marks.duplicate)))
  }

  /* ---- When there is no snapshot ---- */

  /** A row whose `kind` is a list or an object. */
  predicate UnhashableKind(row: Json) {
    row.JObj? && Has(row.members, "kind") && !IsScalar(At(row.members, "kind"))
  }

  lemma {:induction false} AllTextsExactly(texts: seq<Option<string>>)
    ensures AllTexts(texts).None? <==> exists i :: 0 <= i < |texts| && texts[i].None?
  {
    if texts != [] {
      AllTextsExactly(texts[1..]);
      assert forall i | 0 < i < |texts| :: texts[i] == texts[1..][i - 1];
    }
  }

  lemma {:induction false} RefShapeExactly(row: Json)
    ensures RefShape(row).None? <==> UnhashableKind(row)
  {
  }

  /** Taking the snapshot raises exactly when one of the first 32 requested outputs has an unhashable kind. */
  lemma {:induction false} RaisesExactly(words: Vocabulary, payload: Json)
    ensures ShapeOf(words, payload) == Raised <==>
            && payload.JObj?
            && var rows := Get(payload.members, "requested_outputs");
               && rows.Some? && rows.value.JArr?
               && exists i | 0 <= i < |rows.value.items| && i < 32 :: UnhashableKind(rows.value.items[i])
  {
    if payload.JObj? {
      var v := Get(payload.members, "requested_outputs");
      var rows := Rows(v, 32);
      var texts := Map((row: Json) => RefShape(row), rows);
      AllTextsExactly(texts);
      forall i | 0 <= i < |rows|
        ensures texts[i].None? <==> UnhashableKind(rows[i])
      {
        RefShapeExactly(rows[i]);
      }
      assert v.Some? && v.value.JArr? ==> forall i | 0 <= i < |rows| :: rows[i] == v.value.items[i];
    }
  }

  /** Such a payload: an empty list for a kind. */
  lemma {:induction false} ListKindRaises(words: Vocabulary)
    ensures ShapeOf(words, JObj([Member("requested_outputs", JArr([JObj([Member("kind", JArr([]))])]))])) == Raised
  {
    var row := JObj([Member("kind", JArr([]))]);
    var members := [Member("requested_outputs", JArr([row]))];
    assert members[0].key == "requested_outputs" && row.members[0].key == "kind";
    assert At(row.members, "kind") == JArr([]);
    assert At(members, "requested_outputs") == JArr([row]) && [row][0] == row;
    RaisesExactly(words, JObj(members));
  }

  /* ---- Replacing texts ---- */

  /** The same value with every text replaced; keys stay. */
  function Replace(f: string -> string, j: Json): Json {
    match j
    case JStr(s) => JStr(f(s))
    case JArr(items) => JArr(seq(|items|, i requires 0 <= i < |items| => Replace(f, items[i])))
    case JObj(members) => JObj(seq(|members|, i requires 0 <= i < |members| => Member(members[i].key, Replace(f, members[i].value))))
    case _ => j
  }

  function ReplaceIn(f: string -> string, v: Option<Json>): Option<Json> {
    if v.Some? then Some(Replace(f, v.value)) else None
  }

  /** A replacement that keeps different texts different and leaves the given words alone. */
  ghost predicate Neutral(f: string -> string, words: set<string>) {
    && (forall a, b | f(a) == f(b) :: a == b)
    && (forall w | w in words :: f(w) == w)
  }

  lemma {:induction false} GetReplaced(f: string -> string, members: seq<Member>, key: string)
    ensures Get(Replace(f, JObj(members)).members, key) == ReplaceIn(f, Get(members, key))
  {
    var replaced := Replace(f, JObj(members)).members;
    SameKeysSameIndex(members, replaced, key);
  }

  lemma {:induction false} EnumSame(f: string -> string, v: Option<Json>, allowed: set<string>)
    requires Neutral(f, allowed)
    ensures SafeEnum(ReplaceIn(f, v), allowed) == SafeEnum(v, allowed)
  {
    if v.Some? && v.value.JStr? {
    }
  }

  lemma {:induction false} LengthSame(f: string -> string, v: Option<Json>)
    ensures ListLength(ReplaceIn(f, v)) == ListLength(v)
  {
  }

  lemma {:induction false} ChildReplaced(f: string -> string, v: Option<Json>, key: string)
    ensures Child(ReplaceIn(f, v), key) == ReplaceIn(f, Child(v, key))
  {
    if v.Some? && v.value.JObj? {
      GetReplaced(f, v.value.members, key);
    }
  }

  lemma {:induction false} SameKeysSameSet(a: seq<Member>, b: seq<Member>, safe: set<string>)
    requires |a| == |b| && forall i | 0 <= i < |a| :: a[i].key == b[i].key
    ensures SafeSet(a, safe) <= SafeSet(b, safe)
    ensures KeySet(a) <= KeySet(b)
  {
    forall m | m in a
      ensures exists n :: n in b && n.key == m.key
    {
      var i :| 0 <= i < |a| && a[i] == m;
      assert b[i] in b;
    }
  }

  lemma {:induction false} KeysSame(f: string -> string, members: seq<Member>, safe: set<string>)
    ensures SafeKeys(Replace(f, JObj(members)).members, safe) == SafeKeys(members, safe)
    ensures KeySet(Replace(f, JObj(members)).members) == KeySet(members)
  {
    var replaced := Replace(f, JObj(members)).members;
    SameKeysSameSet(members, replaced, safe);
    SameKeysSameSet(replaced, members, safe);
    assert SafeSet(replaced, safe) == SafeSet(members, safe);
  }

  lemma {:induction false} RowsReplaced(f: string -> string, v: Option<Json>, n: nat)
    ensures |Rows(ReplaceIn(f, v), n)| == |Rows(v, n)|
    ensures forall i | 0 <= i < |Rows(v, n)| :: Rows(ReplaceIn(f, v), n)[i] == Replace(f, Rows(v, n)[i])
  {
  }

  lemma {:induction false} IndexTextSame(f: string -> string, row: Json, key: string)
    ensures IndexText(Replace(f, row), key) == IndexText(row, key)
  {
    ChildReplaced(f, Some(row), key);
  }

  lemma {:induction false} RefTextSame(f: string -> string, words: set<string>, kind: Option<Json>, task: Option<string>,
                    analysis: Option<string>, fact: Option<string>, slot: Option<string>)
    requires Neutral(f, words) && KnowsReferences(words)
    ensures RefText(ReplaceIn(f, kind), task, analysis, fact, slot) == RefText(kind, task, analysis, fact, slot)
  {
    if kind.Some? && kind.value.JStr? {
    }
  }

  lemma {:induction false} RefSame(f: string -> string, words: set<string>, row: Json)
    requires Neutral(f, words) && KnowsReferences(words)
    ensures RefShape(Replace(f, row)) == RefShape(row)
  {
    ChildReplaced(f, Some(row), "kind");
    IndexTextSame(f, row, "task_index");
    IndexTextSame(f, row, "analysis_index");
    IndexTextSame(f, row, "fact_index");
    IndexTextSame(f, row, "slot_index");
    RefTextSame(f, words, Child(Some(row), "kind"), IndexText(row, "task_index"), IndexText(row, "analysis_index"),
                IndexText(row, "fact_index"), IndexText(row, "slot_index"));
  }

  /** Members whose texts were replaced, seen key by key. */
  ghost predicate ReplacedMembers(f: string -> string, members: seq<Member>, replaced: seq<Member>) {
    forall key :: Get(replaced, key) == ReplaceIn(f, Get(members, key))
  }

  lemma {:induction false} MembersReplaced(f: string -> string, members: seq<Member>)
    ensures ReplacedMembers(f, members, Replace(f, JObj(members)).members)
  {
    forall key
      ensures Get(Replace(f, JObj(members)).members, key) == ReplaceIn(f, Get(members, key))
    {
      GetReplaced(f, members, key);
    }
  }

  lemma {:induction false} TaskSame(f: string -> string, words: Vocabulary, task: Json)
    requires Neutral(f, words.taskModes)
    ensures TaskShapeOf(words, Replace(f, task)) == TaskShapeOf(words, task)
  {
    if task.JObj? {
      MembersReplaced(f, task.members);
      KeysSame(f, task.members, words.safeKeys);
      TaskMembersSame(f, words, task.members, Replace(f, task).members);
    }
  }

  lemma {:induction false} TaskMembersSame(f: string -> string, words: Vocabulary, members: seq<Member>, replaced: seq<Member>)
    requires Neutral(f, words.taskModes) && ReplacedMembers(f, members, replaced)
    requires SafeKeys(replaced, words.safeKeys) == SafeKeys(members, words.safeKeys)
    ensures TaskShapeOf(words, JObj(replaced)) == TaskShapeOf(words, JObj(members))
  {
    EnumSame(f, Get(members, "task_mode"), words.taskModes);
    assert Get(replaced, "task_mode") == ReplaceIn(f, Get(members, "task_mode"));
    LengthSame(f, Get(members, "facts"));
    LengthSame(f, Get(members, "source_slots"));
    LengthSame(f, Get(members, "target_period_expressions"));
  }

  lemma {:induction false} ItemSame(f: string -> string, words: Vocabulary, item: Json)
    requires Neutral(f, words.targetKinds) && Neutral(f, words.operations)
    requires Neutral(f, words.projectionModes) && Neutral(f, words.outputShapes)
    ensures ItemShapeOf(words, Replace(f, item)) == ItemShapeOf(words, item)
  {
    if item.JObj? {
      MembersReplaced(f, item.members);
      ItemMembersSame(f, words, item.members, Replace(f, item).members);
    }
  }

  lemma {:induction false} ChildEnumSame(f: string -> string, v: Option<Json>, key: string, allowed: set<string>)
    requires Neutral(f, allowed)
    ensures SafeEnum(Child(ReplaceIn(f, v), key), allowed) == SafeEnum(Child(v, key), allowed)
  {
    ChildReplaced(f, v, key);
    EnumSame(f, Child(v, key), allowed);
  }

  lemma {:induction false} ItemMembersSame(f: string -> string, words: Vocabulary, members: seq<Member>, replaced: seq<Member>)
    requires Neutral(f, words.targetKinds) && Neutral(f, words.operations)
    requires Neutral(f, words.projectionModes) && Neutral(f, words.outputShapes)
    requires ReplacedMembers(f, members, replaced)
    ensures ItemShapeOf(words, JObj(replaced)) == ItemShapeOf(words, JObj(members))
  {
    var target, output := Get(members, "target"), Get(members, "output");
    assert Get(replaced, "target") == ReplaceIn(f, target) && Get(replaced, "output") == ReplaceIn(f, output);
    ChildEnumSame(f, target, "kind", words.targetKinds);
    ChildEnumSame(f, output, "projection_mode", words.projectionModes);
    ChildEnumSame(f, output, "shape", words.outputShapes);
    ChildReplaced(f, output, "field_surfaces");
    LengthSame(f, Child(output, "field_surfaces"));
    EnumSame(f, Get(members, "operation"), words.operations);
  }

  /* ---- Duplicates ---- */

  lemma {:induction false} CanonicalReplaced(f: string -> string, j: Json)
    ensures Canonical(Replace(f, j)) == Replace(f, Canonical(j))
  {
    match j
    case JArr(items) =>
      forall i | 0 <= i < |items|
        ensures Canonical(Replace(f, items[i])) == Replace(f, Canonical(items[i]))
      {
        CanonicalReplaced(f, items[i]);
      }
    case JObj(members) =>
      forall m | m in members
        ensures Canonical(Replace(f, m.value)) == Replace(f, Canonical(m.value))
      {
        CanonicalReplaced(f, m.value);
      }
      CanonicalMembers(f, members);
    case _ =>
  }

  /** The member a canonical object has under `key`. */
  lemma {:induction false} CanonicalAt(members: seq<Member>, i: nat)
    requires i < |KeySet(members)|
    ensures |Canonical(JObj(members)).members| == |KeySet(members)|
    ensures var key := Sorted(KeySet(members))[i];
            Has(members, key) && Canonical(JObj(members)).members[i] == Member(key, Canonical(At(members, key)))
  {
    var keys := Sorted(KeySet(members));
    assert keys[i] in Elements(keys);
    KeyPresent(members, keys[i]);
  }

  lemma {:induction false} CanonicalMemberReplaced(f: string -> string, members: seq<Member>, i: nat)
    requires forall m | m in members :: Canonical(Replace(f, m.value)) == Replace(f, Canonical(m.value))
    requires i < |KeySet(members)| == |KeySet(Replace(f, JObj(members)).members)|
    requires KeySet(members) == KeySet(Replace(f, JObj(members)).members)
    ensures var key := Sorted(KeySet(members))[i];
            && Has(members, key)
            && Canonical(JObj(Replace(f, JObj(members)).members)).members[i] == Member(key, Replace(f, Canonical(At(members, key))))
  {
    var replaced, key := Replace(f, JObj(members)).members, Sorted(KeySet(members))[i];
    CanonicalAt(members, i);
    CanonicalAt(replaced, i);
    SameKeysSameIndex(members, replaced, key);
    assert members[IndexOf(members, key)] in members;
  }

  lemma {:induction false} CanonicalThenReplaced(f: string -> string, members: seq<Member>, i: nat)
    requires i < |KeySet(members)|
    ensures |Replace(f, Canonical(JObj(members))).members| == |KeySet(members)|
    ensures var key := Sorted(KeySet(members))[i];
            Has(members, key)
            && Replace(f, Canonical(JObj(members))).members[i] == Member(key, Replace(f, Canonical(At(members, key))))
  {
    CanonicalAt(members, i);
  }

  lemma {:induction false} CanonicalMembers(f: string -> string, members: seq<Member>)
    requires forall m | m in members :: Canonical(Replace(f, m.value)) == Replace(f, Canonical(m.value))
    ensures Canonical(Replace(f, JObj(members))) == Replace(f, Canonical(JObj(members)))
  {
    var left, right, n := Canonical(Replace(f, JObj(members))), Replace(f, Canonical(JObj(members))), |KeySet(members)|;
    KeysSame(f, members, {});
    forall i | 0 <= i < n
      ensures left.members[i] == right.members[i]
    {
      CanonicalMemberReplaced(f, members, i);
      CanonicalThenReplaced(f, members, i);
    }
  }

  /** Replacing by an injective map loses no difference. */
  lemma {:induction false} ReplaceIsInjective(f: string -> string, a: Json, b: Json)
    requires forall s, t | f(s) == f(t) :: s == t
    ensures Replace(f, a) == Replace(f, b) <==> a == b
  {
    if Replace(f, a) == Replace(f, b) {
      match a
      case JArr(items) =>
        assert |Replace(f, a).items| == |Replace(f, b).items|;
        forall i | 0 <= i < |items|
          ensures items[i] == b.items[i]
        {
          assert Replace(f, a).items[i] == Replace(f, b).items[i];
          ReplaceIsInjective(f, items[i], b.items[i]);
        }
      case JObj(members) =>
        assert |Replace(f, a).members| == |Replace(f, b).members|;
        forall i | 0 <= i < |members|
          ensures members[i] == b.members[i]
        {
          assert Replace(f, a).members[i] == Replace(f, b).members[i];
          ReplaceIsInjective(f, members[i].value, b.members[i].value);
        }
      case _ =>
    }
  }

  lemma {:induction false} DuplicatesSame(f: string -> string, items: seq<Json>)
    requires forall s, t | f(s) == f(t) :: s == t
    ensures HasDuplicate(Replace(f, JArr(items)).items) <==> HasDuplicate(items)
  {
    var replaced := Replace(f, JArr(items)).items;
    forall i, k | 0 <= i < k < |items|
      ensures Canonical(replaced[i]) == Canonical(replaced[k]) <==> Canonical(items[i]) == Canonical(items[k])
    {
      CanonicalReplaced(f, items[i]);
      CanonicalReplaced(f, items[k]);
      ReplaceIsInjective(f, Canonical(items[i]), Canonical(items[k]));
    }
  }

  /* ---- Scanning ---- */

  lemma {:induction false} ScanSame(f: string -> string, words: Vocabulary, node: Json, path: string, field: Option<string>)
    requires Neutral(f, {"", "unspecified"})
    ensures Scan(words, Replace(f, node), path, field) == Scan(words, node, path, field)
    decreases node, 1, 0
  {
    match node
    case JObj(members) =>
      ScanMembersSame(f, words, members, Replace(f, node).members, |members|, path);
    case JArr(items) =>
      DuplicatesSame(f, items);
      ScanItemsSame(f, words, items, if |items| < 50 then |items| else 50, path, field);
    case JStr(s) =>
    case _ =>
  }

  lemma {:induction false} ScanMembersSame(f: string -> string, words: Vocabulary, members: seq<Member>, replaced: seq<Member>,
                                           n: nat, path: string)
    requires Neutral(f, {"", "unspecified"}) && n <= |members| == |replaced|
    requires forall i | 0 <= i < |members| :: replaced[i] == Member(members[i].key, Replace(f, members[i].value))
    ensures ScanMembers(words, replaced, n, path) == ScanMembers(words, members, n, path)
    decreases members, 0, n
  {
    if n > 0 {
      ScanMembersSame(f, words, members, replaced, n - 1, path);
      var m := members[n - 1];
      ScanSame(f, words, m.value, ChildPath(path, m.key), Some(m.key));
    }
  }

  lemma {:induction false} ScanItemsSame(f: string -> string, words: Vocabulary, items: seq<Json>, n: nat, path: string, field: Option<string>)
    requires Neutral(f, {"", "unspecified"}) && n <= |items|
    ensures ScanItems(words, Replace(f, JArr(items)).items, n, path, field) == ScanItems(words, items, n, path, field)
    decreases items, 0, n
  {
    if n > 0 {
      ScanItemsSame(f, words, items, n - 1, path, field);
      ScanSame(f, words, items[n - 1], ElementPath(path, n - 1), field);
    }
  }

  /* ---- The theorem ---- */

  lemma {:induction false} CountsSame(f: string -> string, members: seq<Member>)
    ensures CountsOf(Replace(f, JObj(members)).members) == CountsOf(members)
  {
    forall key
      ensures ListLength(Get(Replace(f, JObj(members)).members, key)) == ListLength(Get(members, key))
    {
      GetReplaced(f, members, key);
    }
  }

  lemma {:induction false} MapSame<T>(f: string -> string, g: Json -> T, v: Option<Json>, n: nat)
    requires forall row :: g(Replace(f, row)) == g(row)
    ensures Map(g, Rows(ReplaceIn(f, v), n)) == Map(g, Rows(v, n))
  {
    RowsReplaced(f, v, n);
  }

  lemma {:induction false} EnumRowsSame(f: string -> string, members: seq<Member>, list: string, key: string, allowed: set<string>)
    requires Neutral(f, allowed)
    ensures var enum := (row: Json) => SafeEnum(Child(Some(row), key), allowed);
            Map(enum, Rows(Get(Replace(f, JObj(members)).members, list), 32)) == Map(enum, Rows(Get(members, list), 32))
  {
    var enum := (row: Json) => SafeEnum(Child(Some(row), key), allowed);
    forall row
      ensures enum(Replace(f, row)) == enum(row)
    {
      ChildReplaced(f, Some(row), key);
      EnumSame(f, Child(Some(row), key), allowed);
    }
    GetReplaced(f, members, list);
    MapSame(f, enum, Get(members, list), 32);
  }

  lemma {:induction false} TaskRowsSame(f: string -> string, words: Vocabulary, members: seq<Member>)
    requires Neutral(f, words.taskModes)
    ensures var shape := (row: Json) => TaskShapeOf(words, row);
            Map(shape, Rows(Get(Replace(f, JObj(members)).members, "tasks"), 12)) == Map(shape, Rows(Get(members, "tasks"), 12))
  {
    forall row ensures TaskShapeOf(words, Replace(f, row)) == TaskShapeOf(words, row) { TaskSame(f, words, row); }
    GetReplaced(f, members, "tasks");
    MapSame(f, (row: Json) => TaskShapeOf(words, row), Get(members, "tasks"), 12);
  }

  lemma {:induction false} ItemRowsSame(f: string -> string, words: Vocabulary, members: seq<Member>)
    requires Neutral(f, words.targetKinds) && Neutral(f, words.operations)
    requires Neutral(f, words.projectionModes) && Neutral(f, words.outputShapes)
    ensures var shape := (row: Json) => ItemShapeOf(words, row);
            Map(shape, Rows(Get(Replace(f, JObj(members)).members, "answer_items"), 50)) == Map(shape, Rows(Get(members, "answer_items"), 50))
  {
    forall row ensures ItemShapeOf(words, Replace(f, row)) == ItemShapeOf(words, row) { ItemSame(f, words, row); }
    GetReplaced(f, members, "answer_items");
    MapSame(f, (row: Json) => ItemShapeOf(words, row), Get(members, "answer_items"), 50);
  }

  lemma {:induction false} RefRowsSame(f: string -> string, words: set<string>, members: seq<Member>)
    requires Neutral(f, words) && KnowsReferences(words)
    ensures var shape := (row: Json) => RefShape(row);
            Map(shape, Rows(Get(Replace(f, JObj(members)).members, "requested_outputs"), 32)) == Map(shape, Rows(Get(members, "requested_outputs"), 32))
  {
    forall row ensures RefShape(Replace(f, row)) == RefShape(row) { RefSame(f, words, row); }
    GetReplaced(f, members, "requested_outputs");
    MapSame(f, (row: Json) => RefShape(row), Get(members, "requested_outputs"), 32);
  }

  lemma {:induction false} RowShapesSame(f: string -> string, words: Vocabulary, members: seq<Member>, refs: seq<string>)
    requires Neutral(f, words.Words())
    ensures RowShapesOf(words, Replace(f, JObj(members)).members, refs) == RowShapesOf(words, members, refs)
  {
    TaskRowsSame(f, words, members);
    EnumRowsSame(f, members, "analyses", "operator", words.operators);
    EnumRowsSame(f, members, "claims", "kind", words.claimKinds);
    ItemRowsSame(f, words, members);
  }

  lemma {:induction false} RefTextsSame(f: string -> string, words: Vocabulary, members: seq<Member>)
    requires Neutral(f, words.Words()) && KnowsReferences(words.refKinds)
    ensures RefTexts(Replace(f, JObj(members)).members) == RefTexts(members)
  {
    RefRowsSame(f, words.refKinds, members);
  }

  lemma {:induction false} WholeScanSame(f: string -> string, words: Vocabulary, payload: Json)
    requires Neutral(f, words.Words())
    ensures Scan(words, Replace(f, payload), "", None) == Scan(words, payload, "", None)
  {
    ScanSame(f, words, payload, "", None);
  }

  lemma {:induction false} RootEnumSame(f: string -> string, members: seq<Member>, key: string, allowed: set<string>)
    requires Neutral(f, allowed)
    ensures SafeEnum(Get(Replace(f, JObj(members)).members, key), allowed) == SafeEnum(Get(members, key), allowed)
  {
    GetReplaced(f, members, key);
    EnumSame(f, Get(members, key), allowed);
  }

  lemma {:induction false} HeadSame(f: string -> string, words: Vocabulary, members: seq<Member>)
    requires Neutral(f, words.Words())
    ensures HeadOf(words, Replace(f, JObj(members)).members) == HeadOf(words, members)
  {
    KeysSame(f, members, words.safeKeys);
    RootEnumSame(f, members, "proposed_disposition", words.dispositions);
    RootEnumSame(f, members, "speech_act", words.speechActs);
    RootEnumSame(f, members, "presentation", words.presentations);
    CountsSame(f, members);
  }

  lemma {:induction false} SameParts(words: Vocabulary, a: Json, b: Json)
    requires a.JObj? && b.JObj? && HeadOf(words, a.members) == HeadOf(words, b.members)
    requires RefTexts(a.members) == RefTexts(b.members) && Scan(words, a, "", None) == Scan(words, b, "", None)
    requires RefTexts(b.members).Some? ==>
               RowShapesOf(words, a.members, RefTexts(b.members).value) == RowShapesOf(words, b.members, RefTexts(b.members).value)
    ensures ShapeOf(words, a) == ShapeOf(words, b)
  {
  }

  /** A snapshot depends on structure alone: replacing texts by other texts, different for different,
      changes nothing, whether it is taken or raises, as long as the closed vocabularies, the blank and
      the sentinel stay. */
  lemma {:induction false} ShapeIgnoresText(f: string -> string, words: Vocabulary, payload: Json)
    requires Neutral(f, words.Words()) && KnowsReferences(words.refKinds)
    ensures ShapeOf(words, Replace(f, payload)) == ShapeOf(words, payload)
  {
    if payload.JObj? {
      HeadSame(f, words, payload.members);
      RefTextsSame(f, words, payload.members);
      if RefTexts(payload.members).Some? {
        RowShapesSame(f, words, payload.members, RefTexts(payload.members).value);
      }
      WholeScanSame(f, words, payload);
      SameParts(words, Replace(f, payload), payload);
    }
  }

  /** The vocabularies of the program are such. */
  lemma {:induction false} ClosedShapeIgnoresText(f: string -> string, payload: Json)
    requires Neutral(f, CLOSED.Words())
    ensures ShapeOf(CLOSED, Replace(f, payload)) == ShapeOf(CLOSED, payload)
  {
    assert KnowsReferences(CLOSED.refKinds);
    ShapeIgnoresText(f, CLOSED, payload);
  }

  /* ---- The snapshot as it is taken ---- */

  /** The scan as it walks, adding to the marks found so far. */
  method ScanInto(words: Vocabulary, node: Json, path: string, field: Option<string>, marks: Marks) returns (found: Marks)
    ensures found == marks.Join(Scan(words, node, path, field))
    decreases node, 1
  {
    match node
    case JObj(members) =>
      found := ScanMembersInto(words, members, path, marks);
    case JArr(items) =>
      var own := marks;
      if field.Some? && field.value in words.listKeys && HasDuplicate(items) {
        own := marks.(duplicate := marks.duplicate + {path});
      }
      found := ScanItemsInto(words, items, path, field, own);
    case JStr(s) =>
      found := if s == "" then marks.(blank := marks.blank + {path})
               else if s == "unspecified" then marks.(unspecified := marks.unspecified + {path}) else marks;
    case _ =>
      found := marks;
  }

  method ScanMembersInto(words: Vocabulary, members: seq<Member>, path: string, marks: Marks) returns (found: Marks)
    ensures found == marks.Join(ScanMembers(words, members, |members|, path))
    decreases members, 0
  {
    found := marks;
    for n := 0 to |members|
      invariant found == marks.Join(ScanMembers(words, members, n, path))
    {
      var m := members[n];
      if m.key in words.safeKeys {
        found := ScanInto(words, m.value, ChildPath(path, m.key), Some(m.key), found);
      }
    }
  }

  method ScanItemsInto(words: Vocabulary, items: seq<Json>, path: string, field: Option<string>, marks: Marks) returns (found: Marks)
    ensures found == marks.Join(ScanItems(words, items, if |items| < 50 then |items| else 50, path, field))
    decreases items, 0
  {
    found := marks;
    for n := 0 to if |items| < 50 then |items| else 50
      invariant found == marks.Join(ScanItems(words, items, n, path, field))
    {
      found := ScanInto(words, items[n], ElementPath(path, n), field, found);
    }
  }

  /** The shapes of the first rows, appended one by one. */
  method CollectRows<T>(shape: Json -> T, rows: seq<Json>) returns (shapes: seq<T>)
    ensures shapes == Map(shape, rows)
  {
    shapes := [];
    for n := 0 to |rows|
      invariant |shapes| == n && forall i | 0 <= i < n :: shapes[i] == shape(rows[i])
    {
      shapes := shapes + [shape(rows[n])];
    }
  }

  /** The reference texts of the rows, up to the first that raises. */
  method CollectRefs(rows: seq<Json>) returns (refs: Option<seq<string>>)
    ensures refs == AllTexts(Map((row: Json) => RefShape(row), rows))
  {
    ghost var texts := Map((row: Json) => RefShape(row), rows);
    var found := [];
    for n := 0 to |rows|
      invariant |found| == n && forall i | 0 <= i < n :: texts[i] == Some(found[i])
    {
      var text := RefShape(rows[n]);
      if text.None? {
        AllTextsExactly(texts);
        assert texts[n].None?;
        return None;
      }
      found := found + [text.value];
    }
    AllPresent(texts, found);
    return Some(found);
  }

  lemma {:induction false} AllPresent(texts: seq<Option<string>>, found: seq<string>)
    requires |texts| == |found| && forall i | 0 <= i < |texts| :: texts[i] == Some(found[i])
    ensures AllTexts(texts) == Some(found)
  {
    if texts != [] {
      AllPresent(texts[1..], found[1..]);
      assert [found[0]] + found[1..] == found;
    }
  }

  method SafePayloadShape(words: Vocabulary, payload: Json) returns (shape: Snapshot)
    ensures shape == ShapeOf(words, payload)
  {
    if !payload.JObj? {
      return NoShape;
    }
    var members := payload.members;
    var tasks := CollectRows((row: Json) => TaskShapeOf(words, row), Rows(Get(members, "tasks"), 12));
    var items := CollectRows((row: Json) => ItemShapeOf(words, row), Rows(Get(members, "answer_items"), 50));
    var marks := ScanInto(words, payload, "", None, NO_MARKS);
    assert marks == Scan(words, payload, "", None);
    var refs := CollectRefs(Rows(Get(members, "requested_outputs"), 32));
    if refs.None? {
      return Raised;
    }
    shape := Taken(Shape(
      HeadOf(words, members),
      RowShapes(tasks,
        Map((row: Json) => SafeEnum(Child(Some(row), "operator"), words.operators), Rows(Get(members, "analyses"), 32)),
        Map((row: Json) => SafeEnum(Child(Some(row), "kind"), words.claimKinds), Rows(Get(members, "claims"), 32)),
        refs.value, items),
      Truncated(marks.blank), Truncated(marks.unspecified), Truncated(marks.duplicate)));
  }
}
