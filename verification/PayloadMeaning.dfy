/** What a payload snapshot tells, place by place. */
module PayloadMeaning {
  import opened Wrappers
  import opened Decimals
  import opened Ordering
  import opened Json
  import opened PayloadShape

  /* ---- Places ---- */

  /** One step into a payload: behind a member name, or to a list item. */
  datatype Turn = Key(key: string) | Item(index: nat)

  /** From `node` these turns lead to `target`: behind known names only, and to the first fifty items only. */
  ghost predicate Leads(words: Vocabulary, node: Json, trail: seq<Turn>, target: Json)
    decreases |trail|
  {
    if trail == [] then node == target else
    match trail[0]
    case Key(key) =>
      node.JObj? && key in words.safeKeys && exists m :: m in node.members && m.key == key && Leads(words, m.value, trail[1..], target)
    case Item(index) =>
      node.JArr? && index < |node.items| && index < 50 && Leads(words, node.items[index], trail[1..], target)
  }

  /** How a place is written: names joined by dots, positions in brackets. */
  function Written(path: string, trail: seq<Turn>): string
    decreases |trail|
  {
    if trail == [] then path else
    match trail[0]
    case Key(key) => Written(if path == "" then key else path + "." + key, trail[1..])
    case Item(index) => Written(path + "[" + Dec(index) + "]", trail[1..])
  }

  /** The last name on the way. */
  function LastName(field: Option<string>, trail: seq<Turn>): Option<string>
    decreases |trail|
  {
    if trail == [] then field else LastName(if trail[0].Key? then Some(trail[0].key) else field, trail[1..])
  }

  /** `p` is the place of a text `s`. */
  ghost predicate TextAt(words: Vocabulary, node: Json, path: string, s: string, p: string) {
    exists trail :: TextBy(words, node, path, s, p, trail)
  }

  ghost predicate TextBy(words: Vocabulary, node: Json, path: string, s: string, p: string, trail: seq<Turn>) {
    Leads(words, node, trail, JStr(s)) && p == Written(path, trail)
  }

  /** `p` is the place of a checked list with two elements of one canonical text. */
  ghost predicate DuplicateAt(words: Vocabulary, node: Json, path: string, field: Option<string>, p: string) {
    exists trail, items :: DuplicateBy(words, node, path, field, p, trail, items)
  }

  ghost predicate DuplicateBy(words: Vocabulary, node: Json, path: string, field: Option<string>, p: string, trail: seq<Turn>,
                              items: seq<Json>) {
    && Leads(words, node, trail, JArr(items)) && p == Written(path, trail) && HasDuplicate(items)
    && LastName(field, trail).Some? && LastName(field, trail).value in words.listKeys
  }

  ghost predicate MarksExact(words: Vocabulary, node: Json, path: string, field: Option<string>, marks: Marks) {
    && (forall p :: p in marks.blank <==> TextAt(words, node, path, "", p))
    && (forall p :: p in marks.unspecified <==> TextAt(words, node, path, "unspecified", p))
    && (forall p :: p in marks.duplicate <==> DuplicateAt(words, node, path, field, p))
  }

  /* ---- One level ---- */

  lemma {:induction false} HereOnly(words: Vocabulary, node: Json, trail: seq<Turn>, target: Json)
    requires !node.JObj? && !node.JArr? && Leads(words, node, trail, target)
    ensures trail == [] && node == target
  {
  }

  lemma {:induction false} ScalarMarks(words: Vocabulary, node: Json, path: string, field: Option<string>)
    requires !node.JObj? && !node.JArr?
    ensures MarksExact(words, node, path, field, Scan(words, node, path, field))
  {
    assert forall s :: node == JStr(s) ==> TextBy(words, node, path, s, path, []);
    forall trail, target | Leads(words, node, trail, target)
      ensures trail == [] && node == target
    {
      HereOnly(words, node, trail, target);
    }
  }

  /* ---- Members and items ---- */

  function Below(path: string, key: string): string {
    if path == "" then key else path + "." + key
  }

  ghost predicate MemberText(words: Vocabulary, m: Member, path: string, s: string, p: string) {
    m.key in words.safeKeys && TextAt(words, m.value, Below(path, m.key), s, p)
  }

  ghost predicate MemberDuplicate(words: Vocabulary, m: Member, path: string, p: string) {
    m.key in words.safeKeys && DuplicateAt(words, m.value, Below(path, m.key), Some(m.key), p)
  }

  lemma {:induction false} TextBelow(words: Vocabulary, members: seq<Member>, path: string, s: string, p: string)
    ensures TextAt(words, JObj(members), path, s, p) <==>
            exists m :: m in members && MemberText(words, m, path, s, p)
  {
    var node := JObj(members);
    if trail: seq<Turn> :| TextBy(words, node, path, s, p, trail) {
      var m :| m in members && m.key == trail[0].key && Leads(words, m.value, trail[1..], JStr(s));
      assert TextBy(words, m.value, Below(path, m.key), s, p, trail[1..]);
    }
    if m :| m in members && m.key in words.safeKeys && TextAt(words, m.value, Below(path, m.key), s, p) {
      var rest: seq<Turn> :| TextBy(words, m.value, Below(path, m.key), s, p, rest);
      var trail := [Key(m.key)] + rest;
      assert trail[1..] == rest;
      assert TextBy(words, node, path, s, p, trail);
    }
  }

  lemma {:induction false} DuplicateBelow(words: Vocabulary, members: seq<Member>, path: string, field: Option<string>, p: string)
    ensures DuplicateAt(words, JObj(members), path, field, p) <==>
            exists m :: m in members && MemberDuplicate(words, m, path, p)
  {
    var node := JObj(members);
    if trail: seq<Turn>, items :| DuplicateBy(words, node, path, field, p, trail, items) {
      var m :| m in members && m.key == trail[0].key && Leads(words, m.value, trail[1..], JArr(items));
      assert DuplicateBy(words, m.value, Below(path, m.key), Some(m.key), p, trail[1..], items);
    }
    if m :| m in members && m.key in words.safeKeys && DuplicateAt(words, m.value, Below(path, m.key), Some(m.key), p) {
      var rest: seq<Turn>, items :| DuplicateBy(words, m.value, Below(path, m.key), Some(m.key), p, rest, items);
      var trail := [Key(m.key)] + rest;
      assert trail[1..] == rest;
      assert DuplicateBy(words, node, path, field, p, trail, items);
    }
  }

  function Inside(path: string, index: nat): string {
    path + "[" + Dec(index) + "]"
  }

  lemma {:induction false} TextInside(words: Vocabulary, items: seq<Json>, path: string, s: string, p: string)
    ensures TextAt(words, JArr(items), path, s, p) <==>
            exists k: nat :: k < |items| && k < 50 && TextAt(words, items[k], Inside(path, k), s, p)
  {
    var node := JArr(items);
    if trail: seq<Turn> :| TextBy(words, node, path, s, p, trail) {
      assert TextBy(words, items[trail[0].index], Inside(path, trail[0].index), s, p, trail[1..]);
    }
    if k: nat :| k < |items| && k < 50 && TextAt(words, items[k], Inside(path, k), s, p) {
      var rest: seq<Turn> :| TextBy(words, items[k], Inside(path, k), s, p, rest);
      var trail := [Item(k)] + rest;
      assert trail[1..] == rest;
      assert TextBy(words, node, path, s, p, trail);
    }
  }

  lemma {:induction false} DuplicateDeeper(words: Vocabulary, items: seq<Json>, path: string, field: Option<string>, p: string, k: nat)
    requires k < |items| && k < 50 && DuplicateAt(words, items[k], Inside(path, k), field, p)
    ensures DuplicateAt(words, JArr(items), path, field, p)
  {
    var rest: seq<Turn>, list :| DuplicateBy(words, items[k], Inside(path, k), field, p, rest, list);
    var trail := [Item(k)] + rest;
    assert trail[1..] == rest;
    assert DuplicateBy(words, JArr(items), path, field, p, trail, list);
  }

  lemma {:induction false} DuplicateFrom(words: Vocabulary, items: seq<Json>, path: string, field: Option<string>, p: string)
    requires DuplicateAt(words, JArr(items), path, field, p)
    ensures || (p == path && HasDuplicate(items) && field.Some? && field.value in words.listKeys)
            || exists k: nat :: k < |items| && k < 50 && DuplicateAt(words, items[k], Inside(path, k), field, p)
  {
    var trail: seq<Turn>, list :| DuplicateBy(words, JArr(items), path, field, p, trail, list);
    if trail != [] {
      assert DuplicateBy(words, items[trail[0].index], Inside(path, trail[0].index), field, p, trail[1..], list);
    }
  }

  /** The list at this place itself counts as a duplicate, or one inside it does. */
  lemma {:induction false} DuplicateInside(words: Vocabulary, items: seq<Json>, path: string, field: Option<string>, p: string)
    ensures DuplicateAt(words, JArr(items), path, field, p) <==>
            || (p == path && HasDuplicate(items) && field.Some? && field.value in words.listKeys)
            || exists k: nat :: k < |items| && k < 50 && DuplicateAt(words, items[k], Inside(path, k), field, p)
  {
    if DuplicateAt(words, JArr(items), path, field, p) {
      DuplicateFrom(words, items, path, field, p);
    }
    if p == path && HasDuplicate(items) && field.Some? && field.value in words.listKeys {
      assert DuplicateBy(words, JArr(items), path, field, p, [], items);
    }
    if k: nat :| k < |items| && k < 50 && DuplicateAt(words, items[k], Inside(path, k), field, p) {
      DuplicateDeeper(words, items, path, field, p, k);
    }
  }

  /* ---- The scan ---- */

  ghost predicate SomeText(words: Vocabulary, members: seq<Member>, n: nat, path: string, s: string, p: string) {
    exists k :: 0 <= k < n <= |members| && MemberText(words, members[k], path, s, p)
  }

  ghost predicate SomeDuplicate(words: Vocabulary, members: seq<Member>, n: nat, path: string, p: string) {
    exists k :: 0 <= k < n <= |members| && MemberDuplicate(words, members[k], path, p)
  }

  /** The marks of the first members. */
  ghost predicate MembersExact(words: Vocabulary, members: seq<Member>, n: nat, path: string, marks: Marks) {
    && (forall p :: p in marks.blank <==> SomeText(words, members, n, path, "", p))
    && (forall p :: p in marks.unspecified <==> SomeText(words, members, n, path, "unspecified", p))
    && (forall p :: p in marks.duplicate <==> SomeDuplicate(words, members, n, path, p))
  }

  lemma {:induction false} TextAtNext(words: Vocabulary, members: seq<Member>, n: nat, path: string, s: string, p: string)
    requires 0 < n <= |members|
    ensures SomeText(words, members, n, path, s, p) <==>
            SomeText(words, members, n - 1, path, s, p) || MemberText(words, members[n - 1], path, s, p)
  {
  }

  lemma {:induction false} TextNext(words: Vocabulary, members: seq<Member>, n: nat, path: string, s: string, before: set<string>, own: set<string>)
    requires 0 < n <= |members| && forall p :: p in before <==> SomeText(words, members, n - 1, path, s, p)
    requires forall p :: p in own <==> MemberText(words, members[n - 1], path, s, p)
    ensures forall p :: p in before + own <==> SomeText(words, members, n, path, s, p)
  {
    forall p
      ensures p in before + own <==> SomeText(words, members, n, path, s, p)
    {
      TextAtNext(words, members, n, path, s, p);
    }
  }

  lemma {:induction false} DuplicateNext(words: Vocabulary, members: seq<Member>, n: nat, path: string, before: set<string>, own: set<string>)
    requires 0 < n <= |members| && forall p :: p in before <==> SomeDuplicate(words, members, n - 1, path, p)
    requires forall p :: p in own <==> MemberDuplicate(words, members[n - 1], path, p)
    ensures forall p :: p in before + own <==> SomeDuplicate(words, members, n, path, p)
  {
    forall p
      ensures SomeDuplicate(words, members, n, path, p) <==>
              SomeDuplicate(words, members, n - 1, path, p) || MemberDuplicate(words, members[n - 1], path, p)
    {
    }
  }

  ghost predicate ItemsExact(words: Vocabulary, items: seq<Json>, n: nat, path: string, field: Option<string>, marks: Marks)
    requires n <= |items|
  {
    && (forall p :: p in marks.blank <==> exists k: nat :: k < n && TextAt(words, items[k], Inside(path, k), "", p))
    && (forall p :: p in marks.unspecified <==> exists k: nat :: k < n && TextAt(words, items[k], Inside(path, k), "unspecified", p))
    && (forall p :: p in marks.duplicate <==> exists k: nat :: k < n && DuplicateAt(words, items[k], Inside(path, k), field, p))
  }

  /** What one member adds: nothing when its name is not known. */
  ghost predicate OwnMarks(words: Vocabulary, m: Member, path: string, own: Marks) {
    && (forall p :: p in own.blank <==> MemberText(words, m, path, "", p))
    && (forall p :: p in own.unspecified <==> MemberText(words, m, path, "unspecified", p))
    && (forall p :: p in own.duplicate <==> MemberDuplicate(words, m, path, p))
  }

  lemma {:induction false} MarksAreOwn(words: Vocabulary, m: Member, path: string, own: Marks)
    requires m.key in words.safeKeys && MarksExact(words, m.value, Below(path, m.key), Some(m.key), own)
    ensures OwnMarks(words, m, path, own)
  {
  }

  lemma {:induction false} MembersNext(words: Vocabulary, members: seq<Member>, n: nat, path: string, before: Marks, own: Marks)
    requires 0 < n <= |members| && MembersExact(words, members, n - 1, path, before) && OwnMarks(words, members[n - 1], path, own)
    ensures MembersExact(words, members, n, path, before.Join(own))
  {
    TextNext(words, members, n, path, "", before.blank, own.blank);
    TextNext(words, members, n, path, "unspecified", before.unspecified, own.unspecified);
    DuplicateNext(words, members, n, path, before.duplicate, own.duplicate);
  }

  lemma {:induction false} MembersScanned(words: Vocabulary, members: seq<Member>, n: nat, path: string)
    requires n <= |members|
    ensures MembersExact(words, members, n, path, ScanMembers(words, members, n, path))
    decreases members, 0, n
  {
    if n > 0 {
      MembersScanned(words, members, n - 1, path);
      var m, before := members[n - 1], ScanMembers(words, members, n - 1, path);
      if m.key in words.safeKeys {
        ScanExactly(words, m.value, Below(path, m.key), Some(m.key));
        MarksAreOwn(words, m, path, Scan(words, m.value, Below(path, m.key), Some(m.key)));
        MembersNext(words, members, n, path, before, Scan(words, m.value, Below(path, m.key), Some(m.key)));
      } else {
        MembersNext(words, members, n, path, before, NO_MARKS);
        assert before.Join(NO_MARKS) == before;
      }
    }
  }

  lemma {:induction false} ItemsNext(words: Vocabulary, items: seq<Json>, n: nat, path: string, field: Option<string>, before: Marks, own: Marks)
    requires 0 < n <= |items| && ItemsExact(words, items, n - 1, path, field, before)
    requires MarksExact(words, items[n - 1], Inside(path, n - 1), field, own)
    ensures ItemsExact(words, items, n, path, field, before.Join(own))
  {
  }

  lemma {:induction false} ItemsScanned(words: Vocabulary, items: seq<Json>, n: nat, path: string, field: Option<string>)
    requires n <= |items|
    ensures ItemsExact(words, items, n, path, field, ScanItems(words, items, n, path, field))
    decreases items, 0, n
  {
    if n > 0 {
      ItemsScanned(words, items, n - 1, path, field);
      ScanExactly(words, items[n - 1], Inside(path, n - 1), field);
      ItemsNext(words, items, n, path, field, ScanItems(words, items, n - 1, path, field), Scan(words, items[n - 1], Inside(path, n - 1), field));
    }
  }

  /** The scan marks exactly the places of empty texts, of the sentinel, and of checked lists with duplicates. */
  lemma {:induction false} ScanExactly(words: Vocabulary, node: Json, path: string, field: Option<string>)
    ensures MarksExact(words, node, path, field, Scan(words, node, path, field))
    decreases node, 1, 0
  {
    match node
    case JObj(members) =>
      MembersScanned(words, members, |members|, path);
      ObjectMarks(words, members, path, field, Scan(words, node, path, field));
    case JArr(items) =>
      var n := if |items| < 50 then |items| else 50;
      ItemsScanned(words, items, n, path, field);
      ListMarks(words, items, n, path, field, ScanItems(words, items, n, path, field), Scan(words, node, path, field));
    case _ =>
      ScalarMarks(words, node, path, field);
  }

  lemma {:induction false} ObjectMarks(words: Vocabulary, members: seq<Member>, path: string, field: Option<string>, marks: Marks)
    requires MembersExact(words, members, |members|, path, marks)
    ensures MarksExact(words, JObj(members), path, field, marks)
  {
    forall p
      ensures p in marks.blank <==> TextAt(words, JObj(members), path, "", p)
      ensures p in marks.unspecified <==> TextAt(words, JObj(members), path, "unspecified", p)
      ensures p in marks.duplicate <==> DuplicateAt(words, JObj(members), path, field, p)
    {
      TextBelow(words, members, path, "", p);
      TextBelow(words, members, path, "unspecified", p);
      DuplicateBelow(words, members, path, field, p);
      AmongMembers(words, members, path, p);
    }
  }

  lemma {:induction false} AmongMembers(words: Vocabulary, members: seq<Member>, path: string, p: string)
    ensures forall s :: SomeText(words, members, |members|, path, s, p) <==> exists m :: m in members && MemberText(words, m, path, s, p)
    ensures SomeDuplicate(words, members, |members|, path, p) <==> exists m :: m in members && MemberDuplicate(words, m, path, p)
  {
    assert forall m | m in members :: exists k :: 0 <= k < |members| && members[k] == m;
  }

  lemma {:induction false} ListMarks(words: Vocabulary, items: seq<Json>, n: nat, path: string, field: Option<string>, inner: Marks, marks: Marks)
    requires n == (if |items| < 50 then |items| else 50) && ItemsExact(words, items, n, path, field, inner)
    requires marks.blank == inner.blank && marks.unspecified == inner.unspecified
    requires forall p :: p in marks.duplicate <==>
               (p == path && HasDuplicate(items) && field.Some? && field.value in words.listKeys) || p in inner.duplicate
    ensures MarksExact(words, JArr(items), path, field, marks)
  {
    forall p
      ensures p in marks.blank <==> TextAt(words, JArr(items), path, "", p)
      ensures p in marks.unspecified <==> TextAt(words, JArr(items), path, "unspecified", p)
      ensures p in marks.duplicate <==> DuplicateAt(words, JArr(items), path, field, p)
    {
      TextInside(words, items, path, "", p);
      TextInside(words, items, path, "unspecified", p);
      DuplicateInside(words, items, path, field, p);
    }
  }

  /* ---- Single values ---- */

  /** A word of the vocabulary is repeated; anything else is called invalid. */
  ghost predicate Word(members: seq<Member>, key: string, allowed: set<string>, told: string) {
    if exists w :: w in allowed && Get(members, key) == Some(JStr(w)) then Get(members, key) == Some(JStr(told)) else told == "invalid_or_missing"
  }

  /** The length of a list, and -1 for anything else. */
  ghost predicate Length(members: seq<Member>, key: string, told: int) {
    match Get(members, key)
    case Some(JArr(items)) => told == |items|
    case _ => told == -1
  }

  /** The known names of an object, in increasing order. */
  ghost predicate NamesOf(members: seq<Member>, safe: set<string>, told: seq<string>) {
    StrictlySorted(told) && forall key :: key in told <==> key in safe && Has(members, key)
  }

  /** The members of an object, none for anything else. */
  function MembersOf(v: Option<Json>): seq<Member> {
    match v
    case Some(JObj(members)) => members
    case _ => []
  }

  lemma {:induction false} WordTold(members: seq<Member>, key: string, allowed: set<string>)
    ensures Word(members, key, allowed, SafeEnum(Get(members, key), allowed))
  {
  }

  lemma {:induction false} ChildTold(v: Option<Json>, key: string)
    ensures Child(v, key) == Get(MembersOf(v), key)
  {
  }

  lemma {:induction false} NamesTold(members: seq<Member>, safe: set<string>)
    ensures NamesOf(members, safe, SafeKeys(members, safe))
  {
    forall key
      ensures key in SafeKeys(members, safe) <==> key in safe && Has(members, key)
    {
      KeyPresent(members, key);
      assert key in SafeKeys(members, safe) <==> key in Elements(SafeKeys(members, safe));
      assert key in SafeSet(members, safe) <==> key in safe && key in KeySet(members);
    }
  }

  /* ---- The head ---- */

  ghost predicate HeadTells(words: Vocabulary, members: seq<Member>, h: Head) {
    && NamesOf(members, words.safeKeys, h.rootFields)
    && Word(members, "proposed_disposition", words.dispositions, h.disposition)
    && Word(members, "speech_act", words.speechActs, h.speechAct)
    && Word(members, "presentation", words.presentations, h.presentation)
    && Length(members, "tasks", h.counts.tasks) && Length(members, "analyses", h.counts.analyses)
    && Length(members, "claims", h.counts.claims) && Length(members, "requested_outputs", h.counts.outputs)
    && Length(members, "reason_codes", h.counts.reasons) && Length(members, "entities", h.counts.entities)
    && Length(members, "answer_items", h.counts.items) && Length(members, "answer_groups", h.counts.groups)
    && Length(members, "premises", h.counts.premises) && Length(members, "unresolved_mentions", h.counts.unresolved)
  }

  lemma {:induction false} HeadIsTold(words: Vocabulary, members: seq<Member>)
    ensures HeadTells(words, members, HeadOf(words, members))
  {
    NamesTold(members, words.safeKeys);
    WordTold(members, "proposed_disposition", words.dispositions);
    WordTold(members, "speech_act", words.speechActs);
    WordTold(members, "presentation", words.presentations);
  }

  /* ---- Rows ---- */

  /** The first `most` rows of a list. */
  ghost predicate FirstRows(members: seq<Member>, key: string, most: nat, rows: seq<Json>) {
    match Get(members, key)
    case Some(JArr(items)) => rows <= items && |rows| == (if |items| <= most then |items| else most)
    case _ => rows == []
  }

  ghost predicate TaskTells(words: Vocabulary, task: Json, t: TaskShape) {
    match task
    case JObj(members) =>
      && Word(members, "task_mode", words.taskModes, t.mode) && NamesOf(members, words.safeKeys, t.fields)
      && Length(members, "facts", t.facts) && Length(members, "source_slots", t.slots)
      && Length(members, "target_period_expressions", t.periods)
    case _ => t == TaskShape("invalid_or_missing", [], -1, -1, -1)
  }

  ghost predicate ItemTells(words: Vocabulary, item: Json, i: ItemShape) {
    match item
    case JObj(members) =>
      var target, output := MembersOf(Get(members, "target")), MembersOf(Get(members, "output"));
      && Word(target, "kind", words.targetKinds, i.targetKind) && Word(members, "operation", words.operations, i.operation)
      && Word(output, "projection_mode", words.projectionModes, i.projectionMode)
      && Word(output, "shape", words.outputShapes, i.outputShape) && Length(output, "field_surfaces", i.fields)
    case _ => i == ItemShape("invalid_or_missing", "invalid_or_missing", "invalid_or_missing", "invalid_or_missing", -1)
  }

  /** A reference is told by its kind and its positions when it has them all. */
  ghost predicate RefTells(row: Json, text: string) {
    var members := MembersOf(Some(row));
    var kind, task, analysis := Get(members, "kind"), Get(members, "task_index"), Get(members, "analysis_index");
    var fact, slot := Get(members, "fact_index"), Get(members, "slot_index");
    if kind == Some(JStr("analysis")) && IsInt(analysis) then text == "analysis:" + IntText(analysis.value.n)
    else if kind == Some(JStr("task")) && IsInt(task) then text == "task:" + IntText(task.value.n)
    else if kind == Some(JStr("fact")) && IsInt(task) && IsInt(fact) then
      text == "fact:" + IntText(task.value.n) + ":" + IntText(fact.value.n)
    else if kind == Some(JStr("slot")) && IsInt(task) && IsInt(slot) then
      text == "slot:" + IntText(task.value.n) + ":" + IntText(slot.value.n)
    else text == "invalid"
  }

  predicate IsInt(v: Option<Json>) {
    v.Some? && v.value.JInt?
  }

  /** The first rows of a list, told one by one in order. */
  ghost predicate RowsTold<T(!new)>(members: seq<Member>, key: string, most: nat, tells: (Json, T) -> bool, told: seq<T>) {
    exists rows :: FirstRows(members, key, most, rows) && |told| == |rows| && forall k | 0 <= k < |rows| :: tells(rows[k], told[k])
  }

  ghost predicate RowsTell(words: Vocabulary, members: seq<Member>, r: RowShapes) {
    && RowsTold(members, "tasks", 12, (row: Json, t: TaskShape) => TaskTells(words, row, t), r.tasks)
    && RowsTold(members, "analyses", 32, (row: Json, w: string) => Word(MembersOf(Some(row)), "operator", words.operators, w), r.operators)
    && RowsTold(members, "claims", 32, (row: Json, w: string) => Word(MembersOf(Some(row)), "kind", words.claimKinds, w), r.claimKinds)
    && RowsTold(members, "requested_outputs", 32, (row: Json, text: string) => RefTells(row, text), r.refs)
    && RowsTold(members, "answer_items", 50, (row: Json, i: ItemShape) => ItemTells(words, row, i), r.items)
  }

  lemma {:induction false} TaskIsTold(words: Vocabulary, task: Json)
    ensures TaskTells(words, task, TaskShapeOf(words, task))
  {
    if task.JObj? {
      WordTold(task.members, "task_mode", words.taskModes);
      NamesTold(task.members, words.safeKeys);
    }
  }

  lemma {:induction false} ItemIsTold(words: Vocabulary, item: Json)
    ensures ItemTells(words, item, ItemShapeOf(words, item))
  {
    if item.JObj? {
      var target, output := Get(item.members, "target"), Get(item.members, "output");
      WordTold(item.members, "operation", words.operations);
      WordTold(MembersOf(target), "kind", words.targetKinds);
      WordTold(MembersOf(output), "projection_mode", words.projectionModes);
      WordTold(MembersOf(output), "shape", words.outputShapes);
      ChildTold(target, "kind");
      ChildTold(output, "projection_mode");
      ChildTold(output, "shape");
      ChildTold(output, "field_surfaces");
    }
  }

  lemma {:induction false} RefIsTold(row: Json)
    requires RefShape(row).Some?
    ensures RefTells(row, RefShape(row).value)
  {
    ChildTold(Some(row), "kind");
    ChildTold(Some(row), "task_index");
    ChildTold(Some(row), "analysis_index");
    ChildTold(Some(row), "fact_index");
    ChildTold(Some(row), "slot_index");
  }

  lemma {:induction false} AllTextsAre(texts: seq<Option<string>>, k: nat)
    requires AllTexts(texts).Some? && k < |texts|
    ensures |AllTexts(texts).value| == |texts| && texts[k] == Some(AllTexts(texts).value[k])
  {
    if k > 0 {
      AllTextsAre(texts[1..], k - 1);
    } else if |texts| > 1 {
      AllTextsAre(texts[1..], 0);
    } else {
      assert texts[1..] == [];
    }
  }

  lemma {:induction false} MappedRows<T(!new)>(members: seq<Member>, key: string, most: nat, shape: Json -> T, tells: (Json, T) -> bool)
    requires forall row :: tells(row, shape(row))
    ensures RowsTold(members, key, most, tells, Map(shape, Rows(Get(members, key), most)))
  {
    var rows := Rows(Get(members, key), most);
    assert FirstRows(members, key, most, rows);
  }

  lemma {:induction false} RefRows(members: seq<Member>)
    requires RefTexts(members).Some?
    ensures RowsTold(members, "requested_outputs", 32, (row: Json, text: string) => RefTells(row, text), RefTexts(members).value)
  {
    var rows := Rows(Get(members, "requested_outputs"), 32);
    var texts := Map((row: Json) => RefShape(row), rows);
    assert FirstRows(members, "requested_outputs", 32, rows);
    if rows == [] {
      assert texts == [];
    }
    forall k | 0 <= k < |rows|
      ensures |RefTexts(members).value| == |rows| && RefTells(rows[k], RefTexts(members).value[k])
    {
      AllTextsAre(texts, k);
      RefIsTold(rows[k]);
    }
  }

  lemma {:induction false} OperatorRows(members: seq<Member>, list: string, key: string, allowed: set<string>)
    ensures RowsTold(members, list, 32, (row: Json, w: string) => Word(MembersOf(Some(row)), key, allowed, w),
                     Map((row: Json) => SafeEnum(Child(Some(row), key), allowed), Rows(Get(members, list), 32)))
  {
    var shape := (row: Json) => SafeEnum(Child(Some(row), key), allowed);
    var tells := (row: Json, w: string) => Word(MembersOf(Some(row)), key, allowed, w);
    forall row
      ensures tells(row, shape(row))
    {
      ChildTold(Some(row), key);
      WordTold(MembersOf(Some(row)), key, allowed);
    }
    MappedRows(members, list, 32, shape, tells);
  }

  lemma {:induction false} RowsAreTold(words: Vocabulary, members: seq<Member>)
    requires RefTexts(members).Some?
    ensures RowsTell(words, members, RowShapesOf(words, members, RefTexts(members).value))
  {
    forall row { TaskIsTold(words, row); }
    forall row { ItemIsTold(words, row); }
    MappedRows(members, "tasks", 12, (row: Json) => TaskShapeOf(words, row), (row: Json, t: TaskShape) => TaskTells(words, row, t));
    OperatorRows(members, "analyses", "operator", words.operators);
    OperatorRows(members, "claims", "kind", words.claimKinds);
    RefRows(members);
    MappedRows(members, "answer_items", 50, (row: Json) => ItemShapeOf(words, row), (row: Json, i: ItemShape) => ItemTells(words, row, i));
  }

  /* ---- The whole snapshot ---- */

  /** The first thirty-two, in increasing order, of the paths that are so. */
  ghost predicate FirstPaths(told: seq<string>, isSo: string -> bool) {
    && StrictlySorted(told) && |told| <= 32 && (forall p | p in told :: isSo(p))
    && forall p | isSo(p) && p !in told :: |told| == 32 && forall q | q in told :: Less(q, p)
  }

  lemma {:induction false} TruncatedTells(paths: set<string>, isSo: string -> bool)
    requires forall p :: p in paths <==> isSo(p)
    ensures FirstPaths(Truncated(paths), isSo)
  {
    var all, told := Sorted(paths), Truncated(paths);
    assert forall p :: p in all <==> p in Elements(all);
    assert forall j | 0 <= j < |told| :: told[j] == all[j];
    forall p | isSo(p) && p !in told
      ensures |told| == 32 && forall q | q in told :: Less(q, p)
    {
      var k :| 0 <= k < |all| && all[k] == p;
      forall q | q in told
        ensures Less(q, p)
      {
        var j :| 0 <= j < |told| && told[j] == q;
        assert all[j] == q;
      }
    }
  }

  /** A snapshot that is taken tells, of every named part, exactly what is there: known words and names, lengths, the first rows
      in order, and the first paths of blanks, sentinels and duplicates. */
  ghost predicate SnapshotTells(words: Vocabulary, payload: Json, s: Shape)
    requires payload.JObj?
  {
    && HeadTells(words, payload.members, s.head) && RowsTell(words, payload.members, s.rows)
    && FirstPaths(s.blankPaths, (p: string) => TextAt(words, payload, "", "", p))
    && FirstPaths(s.unspecifiedPaths, (p: string) => TextAt(words, payload, "", "unspecified", p))
    && FirstPaths(s.duplicatePaths, (p: string) => DuplicateAt(words, payload, "", None, p))
  }

  lemma {:induction false} SnapshotIsTold(words: Vocabulary, payload: Json)
    ensures ShapeOf(words, payload).Taken? ==> payload.JObj? && SnapshotTells(words, payload, ShapeOf(words, payload).shape)
  {
    if ShapeOf(words, payload).Taken? {
      var marks := Scan(words, payload, "", None);
      HeadIsTold(words, payload.members);
      RowsAreTold(words, payload.members);
      ScanExactly(words, payload, "", None);
      TruncatedTells(marks.blank, (p: string) => TextAt(words, payload, "", "", p));
      TruncatedTells(marks.unspecified, (p: string) => TextAt(words, payload, "", "unspecified", p));
      TruncatedTells(marks.duplicate, (p: string) => DuplicateAt(words, payload, "", None, p));
    }
  }

  /* ---- One canonical text ---- */

  /** The same value but for the order of members. */
  ghost predicate SameValue(a: Json, b: Json) {
    match a
    case JArr(items) => b.JArr? && |b.items| == |items| && forall i | 0 <= i < |items| :: SameValue(items[i], b.items[i])
    case JObj(members) =>
      && b.JObj? && KeySet(members) == KeySet(b.members)
      && forall i | 0 <= i < |members| :: Has(b.members, members[i].key) && SameValue(members[i].value, At(b.members, members[i].key))
    case _ => a == b
  }

  lemma {:induction false} CanonicalMember(members: seq<Member>, k: nat)
    requires k < |Sorted(KeySet(members))|
    ensures var key := Sorted(KeySet(members))[k];
            && Has(members, key)
            && Canonical(JObj(members)).members[k] == Member(key, Canonical(At(members, key)))
  {
    var keys := Sorted(KeySet(members));
    assert keys[k] in Elements(keys);
    KeyPresent(members, keys[k]);
    var c := Canonical(JObj(members));
    assert c.members[k].key == keys[k];
  }

  lemma {:induction false} CanonicalKeys(members: seq<Member>)
    ensures Canonical(JObj(members)).JObj? && |Canonical(JObj(members)).members| == |Sorted(KeySet(members))|
    ensures forall k | 0 <= k < |Sorted(KeySet(members))| :: Canonical(JObj(members)).members[k].key == Sorted(KeySet(members))[k]
  {
    forall k | 0 <= k < |Sorted(KeySet(members))|
      ensures Canonical(JObj(members)).members[k].key == Sorted(KeySet(members))[k]
    {
      CanonicalMember(members, k);
    }
  }

  lemma {:induction false} SameCanonicalKeys(a: seq<Member>, b: seq<Member>)
    requires Canonical(JObj(a)) == Canonical(JObj(b))
    ensures KeySet(a) == KeySet(b)
  {
    CanonicalKeys(a);
    CanonicalKeys(b);
    assert Sorted(KeySet(a)) == Sorted(KeySet(b));
    assert Elements(Sorted(KeySet(a))) == KeySet(a) && Elements(Sorted(KeySet(b))) == KeySet(b);
  }

  lemma {:induction false} KeyPlace(members: seq<Member>, i: nat) returns (k: nat)
    requires i < |members|
    ensures k < |Sorted(KeySet(members))| && Sorted(KeySet(members))[k] == members[i].key
  {
    var keys := Sorted(KeySet(members));
    assert members[i] in members && members[i].key in KeySet(members);
    assert members[i].key in Elements(keys);
    k :| 0 <= k < |keys| && keys[k] == members[i].key;
  }

  /** Two values have one canonical text exactly when they are the same but for the order of members. */
  lemma {:induction false} CanonicalExactly(a: Json, b: Json)
    requires WellFormed(a) && WellFormed(b)
    ensures Canonical(a) == Canonical(b) <==> SameValue(a, b)
    decreases a
  {
    assert a.JArr? ==> Canonical(a).JArr? && |Canonical(a).items| == |a.items|;
    assert b.JArr? ==> Canonical(b).JArr? && |Canonical(b).items| == |b.items|;
    if a.JArr? && b.JArr? && |a.items| == |b.items| {
      forall i | 0 <= i < |a.items|
        ensures Canonical(a.items[i]) == Canonical(b.items[i]) <==> SameValue(a.items[i], b.items[i])
      {
        CanonicalExactly(a.items[i], b.items[i]);
      }
      CanonicalLists(a.items, b.items);
    } else if a.JObj? && b.JObj? {
      ObjectsExactly(a, b);
    }
  }

  lemma {:induction false} CanonicalLists(a: seq<Json>, b: seq<Json>)
    requires |a| == |b|
    ensures Canonical(JArr(a)) == Canonical(JArr(b)) <==> forall i | 0 <= i < |a| :: Canonical(a[i]) == Canonical(b[i])
  {
    var x, y := Canonical(JArr(a)).items, Canonical(JArr(b)).items;
    assert forall i | 0 <= i < |a| :: x[i] == Canonical(a[i]) && y[i] == Canonical(b[i]);
    assert x == y <==> forall i | 0 <= i < |a| :: x[i] == y[i];
  }

  lemma {:induction false} ObjectsExactly(a: Json, b: Json)
    requires a.JObj? && b.JObj? && WellFormed(a) && WellFormed(b)
    ensures Canonical(a) == Canonical(b) <==> SameValue(a, b)
    decreases a, 0
  {
    var m, n := a.members, b.members;
    forall i | 0 <= i < |m| && Has(n, m[i].key)
      ensures Canonical(m[i].value) == Canonical(At(n, m[i].key)) <==> SameValue(m[i].value, At(n, m[i].key))
    {
      CanonicalExactly(m[i].value, At(n, m[i].key));
    }
    CanonicalKeys(m);
    CanonicalKeys(n);
    if Canonical(a) == Canonical(b) {
      SameCanonicalKeys(m, n);
      forall i | 0 <= i < |m|
        ensures Has(n, m[i].key) && SameValue(m[i].value, At(n, m[i].key))
      {
        var k := KeyPlace(m, i);
        CanonicalMember(m, k);
        CanonicalMember(n, k);
        IndexUnique(m, i);
      }
    }
    if SameValue(a, b) {
      forall k | 0 <= k < |Sorted(KeySet(m))|
        ensures Canonical(a).members[k] == Canonical(b).members[k]
      {
        CanonicalMember(m, k);
        CanonicalMember(n, k);
        var i := IndexOf(m, Sorted(KeySet(m))[k]);
        assert m[i].key == Sorted(KeySet(m))[k];
      }
      assert Canonical(a).members == Canonical(b).members;
    }
  }
}
