/** Paths to the slots of a proposal. */
module PlanPaths {
  import opened Wrappers
  import opened Decimals
  import opened Contracts
  import opened Proposal

  const TASK_FIELDS: set<string> := {
    "company_mentions", "as_of_expression", "document_group", "event_type_text", "counterparty_text",
    "contract_name_text", "seed_receipt_text", "retrieval_query", "requested_slots"}

  const FACT_FIELDS: set<string> := {
    "company_mention", "concept_mention", "period_expression", "scope", "statement", "view"}

  const TASKS: string := "proposal.tasks["
  const FACTS: string := "].facts["
  const DOT: string := "]."

  datatype Slot = TaskSlot(task: nat, field: string) | FactSlot(task: nat, fact: nat, field: string)

  /** The allowlisted slots of a proposal. */
  predicate ValidSlot(p: PlanProposal, slot: Slot) {
    && slot.task < |p.tasks|
    && match slot
       case TaskSlot(_, field) => field in TASK_FIELDS
       case FactSlot(i, j, field) => j < |p.tasks[i].facts| && field in FACT_FIELDS
  }

  function Print(slot: Slot): string {
    match slot
    case TaskSlot(i, field) => TASKS + Dec(i) + DOT + field
    case FactSlot(i, j, field) => TASKS + Dec(i) + FACTS + Dec(j) + DOT + field
  }

  /* ---- Parsing ---- */

  /** Splits off the leading run of digits; None when there is none. */
  function SplitNumber(s: string): (r: Option<(string, string)>)
    ensures r.Some? ==> r.value.0 != "" && AllDigits(r.value.0) && s == r.value.0 + r.value.1
    ensures r.Some? ==> r.value.1 == "" || !IsDigit(r.value.1[0])
  {
    if s == "" || !IsDigit(s[0]) then None else
    match SplitNumber(s[1..])
    case None => Some(([s[0]], s[1..]))
    case Some((digits, rest)) => Some(([s[0]] + digits, rest))
  }

  /** The rest of `s` after `prefix`, when it starts with it. */
  function After(prefix: string, s: string): Option<string> {
    if prefix <= s then Some(s[|prefix|..]) else None
  }

  predicate IsFieldName(s: string) {
    s != "" && forall i | 0 <= i < |s| :: 'a' <= s[i] <= 'z' || s[i] == '_'
  }

  /** `proposal.tasks[N]` and what follows the numeral. */
  function SplitTask(path: string): Option<(nat, string)> {
    match After(TASKS, path)
    case None => None
    case Some(rest) =>
      match SplitNumber(rest)
      case None => None
      case Some((digits, tail)) => Some((Parse(digits), tail))
  }

  function ParseFactTail(task: nat, tail: string): Option<Slot> {
    match After(FACTS, tail)
    case None => None
    case Some(rest) =>
      match SplitNumber(rest)
      case None => None
      case Some((digits, end)) =>
        match After(DOT, end)
        case None => None
        case Some(field) => if IsFieldName(field) then Some(FactSlot(task, Parse(digits), field)) else None
  }

  function ParseTaskTail(task: nat, tail: string): Option<Slot> {
    match After(DOT, tail)
    case None => None
    case Some(field) => if IsFieldName(field) then Some(TaskSlot(task, field)) else None
  }

  /** The slot a path denotes in `p`: the fact pattern is tried first, then the task pattern. */
  function ParsePath(p: PlanProposal, path: string): Option<Slot> {
    match SplitTask(path)
    case None => None
    case Some((task, tail)) =>
      var slot := if ParseFactTail(task, tail).Some? then ParseFactTail(task, tail) else ParseTaskTail(task, tail);
      if slot.Some? && ValidSlot(p, slot.value) then slot else None
  }

  /* ---- Round trip ---- */

  lemma {:induction false} SplitDigits(digits: string, rest: string)
    requires digits != "" && AllDigits(digits) && (rest == "" || !IsDigit(rest[0]))
    ensures SplitNumber(digits + rest) == Some((digits, rest))
  {
    var s := digits + rest;
    assert s[0] == digits[0] && s[1..] == digits[1..] + rest;
    if |digits| > 1 {
      SplitDigits(digits[1..], rest);
      assert [digits[0]] + digits[1..] == digits;
    } else {
      assert digits[1..] + rest == rest && digits == [digits[0]];
    }
  }

  lemma {:induction false} AfterPrefix(prefix: string, s: string)
    ensures After(prefix, prefix + s) == Some(s)
  {
  }

  lemma {:induction false} TaskFieldNames()
    ensures forall f | f in TASK_FIELDS :: IsFieldName(f)
  {
  }

  lemma {:induction false} FactFieldNames()
    ensures forall f | f in FACT_FIELDS :: IsFieldName(f)
  {
  }

  lemma {:induction false} SplitTaskPath(digits: string, tail: string)
    requires digits != "" && AllDigits(digits) && (tail == "" || !IsDigit(tail[0]))
    ensures SplitTask(TASKS + digits + tail) == Some((Parse(digits), tail))
  {
    assert TASKS + digits + tail == TASKS + (digits + tail);
    AfterPrefix(TASKS, digits + tail);
    SplitDigits(digits, tail);
  }

  lemma {:induction false} FactTailParses(task: nat, j: string, field: string)
    requires j != "" && AllDigits(j) && IsFieldName(field)
    ensures ParseFactTail(task, FACTS + j + DOT + field) == Some(FactSlot(task, Parse(j), field))
  {
    assert FACTS + j + DOT + field == FACTS + (j + (DOT + field));
    AfterPrefix(FACTS, j + (DOT + field));
    SplitDigits(j, DOT + field);
    AfterPrefix(DOT, field);
  }

  /** Any numerals for the indices, canonical or not, parse to the slot they count. */
  lemma {:induction false} ParseFactPath(p: PlanProposal, i: string, j: string, field: string)
    requires i != "" && AllDigits(i) && j != "" && AllDigits(j)
    requires ValidSlot(p, FactSlot(Parse(i), Parse(j), field))
    ensures ParsePath(p, TASKS + i + (FACTS + j + DOT + field)) == Some(FactSlot(Parse(i), Parse(j), field))
  {
    FactFieldNames();
    var tail := FACTS + j + DOT + field;
    assert tail[0] == FACTS[0];
    SplitTaskPath(i, tail);
    FactTailParses(Parse(i), j, field);
  }

  lemma {:induction false} ParseTaskPath(p: PlanProposal, i: string, field: string)
    requires i != "" && AllDigits(i) && ValidSlot(p, TaskSlot(Parse(i), field))
    ensures ParsePath(p, TASKS + i + (DOT + field)) == Some(TaskSlot(Parse(i), field))
  {
    TaskFieldNames();
    SplitTaskPath(i, DOT + field);
    AfterPrefix(DOT, field);
    assert (DOT + field)[2..] == field;
    assert FACTS[7] == '[';
    assert |field| > 5 ==> (DOT + field)[7] == field[5];
  }

  lemma {:induction false} PrintedFactParses(p: PlanProposal, i: nat, j: nat, field: string)
    requires ValidSlot(p, FactSlot(i, j, field))
    ensures ParsePath(p, Print(FactSlot(i, j, field))) == Some(FactSlot(i, j, field))
  {
    ParseDec(i);
    ParseDec(j);
    assert Print(FactSlot(i, j, field)) == TASKS + Dec(i) + (FACTS + Dec(j) + DOT + field);
    ParseFactPath(p, Dec(i), Dec(j), field);
  }

  lemma {:induction false} PrintedTaskParses(p: PlanProposal, i: nat, field: string)
    requires ValidSlot(p, TaskSlot(i, field))
    ensures ParsePath(p, Print(TaskSlot(i, field))) == Some(TaskSlot(i, field))
  {
    ParseDec(i);
    assert Print(TaskSlot(i, field)) == TASKS + Dec(i) + (DOT + field);
    ParseTaskPath(p, Dec(i), field);
  }

  /** A printed slot parses back to exactly that slot. */
  lemma {:induction false} PrintParses(p: PlanProposal, slot: Slot)
    requires ValidSlot(p, slot)
    ensures ParsePath(p, Print(slot)) == Some(slot)
  {
    if slot.FactSlot? {
      PrintedFactParses(p, slot.task, slot.fact, slot.field);
    } else {
      PrintedTaskParses(p, slot.task, slot.field);
    }
  }

  /* ---- Rebasing a single-task path ---- */

  const FIRST_TASK: string := "proposal.tasks[0]"
  const FIRST_FACT: string := "proposal.tasks[0].facts[0]"

  /** Moves a path of the one-task proposal to task `task`, fact `fact` of the whole one. */
  function Rebase(path: string, task: nat, fact: Option<nat>): string {
    if fact.Some? && FIRST_FACT <= path
    then TASKS + Dec(task) + FACTS + Dec(fact.value) + "]" + path[|FIRST_FACT|..]
    else if FIRST_TASK <= path then TASKS + Dec(task) + "]" + path[|FIRST_TASK|..]
    else path
  }

  function RebaseAll(paths: seq<string>, task: nat, fact: Option<nat>): seq<string> {
    Map((path: string) => Rebase(path, task, fact), paths)
  }

  /** The verdict in the coordinates of the whole proposal. */
  function RebaseValidation(v: PlanValidation, task: nat, fact: Option<nat>): PlanValidation {
    match v
    case NeedsClarification(r) =>
      NeedsClarification(r.(
        fieldPaths := RebaseAll(r.fieldPaths, task, fact),
        patchPaths := RebaseAll(r.patchPaths, task, fact),
        options := Map((c: Choices) => Choices(Rebase(c.path, task, fact), c.values), r.options)))
    case _ => v
  }

  lemma {:induction false} DecZero()
    ensures Dec(0) == "0"
  {
  }

  lemma {:induction false} RebasePrintedFact(i: nat, j: nat, field: string)
    ensures Rebase(Print(FactSlot(0, 0, field)), i, Some(j)) == Print(FactSlot(i, j, field))
  {
    DecZero();
    var path := Print(FactSlot(0, 0, field));
    assert path == FIRST_FACT + ("." + field);
    assert path[|FIRST_FACT|..] == "." + field;
    assert TASKS + Dec(i) + FACTS + Dec(j) + "]" + ("." + field) == Print(FactSlot(i, j, field));
  }

  /** A task path is no fact path, because no field name holds a bracket. */
  lemma {:induction false} TaskIsNotFact(field: string)
    requires IsFieldName(field)
    ensures !(FIRST_FACT <= FIRST_TASK + ("." + field))
  {
    var path := FIRST_TASK + ("." + field);
    assert FIRST_FACT[23] == '[';
    assert |field| > 5 ==> path[23] == field[5];
  }

  lemma {:induction false} RebasePrintedTask(i: nat, fact: Option<nat>, field: string)
    requires IsFieldName(field)
    ensures Rebase(Print(TaskSlot(0, field)), i, fact) == Print(TaskSlot(i, field))
  {
    DecZero();
    var path := Print(TaskSlot(0, field));
    assert path == FIRST_TASK + ("." + field);
    TaskIsNotFact(field);
    assert path[|FIRST_TASK|..] == "." + field;
    assert TASKS + Dec(i) + "]" + ("." + field) == Print(TaskSlot(i, field));
  }

  /** A fact path of the one-task proposal, rebased to task `i` and fact `j`, denotes the same field
      of that fact. */
  lemma {:induction false} RebasedFactParses(p: PlanProposal, i: nat, j: nat, field: string)
    requires ValidSlot(p, FactSlot(i, j, field))
    ensures ParsePath(p, Rebase(Print(FactSlot(0, 0, field)), i, Some(j))) == Some(FactSlot(i, j, field))
  {
    RebasePrintedFact(i, j, field);
    PrintParses(p, FactSlot(i, j, field));
  }

  /** A task path rebased to task `i` denotes the same field of that task, whether or not a fact
      index is at hand. */
  lemma {:induction false} RebasedTaskParses(p: PlanProposal, i: nat, fact: Option<nat>, field: string)
    requires ValidSlot(p, TaskSlot(i, field))
    ensures ParsePath(p, Rebase(Print(TaskSlot(0, field)), i, fact)) == Some(TaskSlot(i, field))
  {
    TaskFieldNames();
    RebasePrintedTask(i, fact, field);
    PrintParses(p, TaskSlot(i, field));
  }

  /** Paths outside the proposal are left alone. */
  lemma {:induction false} RebaseKeepsSidecar(path: string, i: nat, fact: Option<nat>)
    requires !(FIRST_TASK <= path)
    ensures Rebase(path, i, fact) == path
  {
    assert FIRST_TASK == FIRST_FACT[..|FIRST_TASK|];
  }

  /* ---- Which paths denote one slot ---- */

  /** A numeral without its leading zeros. */
  function Stripped(digits: string): string {
    if |digits| > 1 && digits[0] == '0' then Stripped(digits[1..]) else digits
  }

  /** A path with the leading zeros of every numeral in it stripped. */
  function Plain(path: string): string
    decreases |path|
  {
    match SplitNumber(path)
    case Some((digits, rest)) => Stripped(digits) + Plain(rest)
    case None => if path == "" then "" else [path[0]] + Plain(path[1..])
  }

  /** No numeral in the path has a leading zero. */
  predicate IsCanonical(path: string)
    decreases |path|
  {
    match SplitNumber(path)
    case Some((digits, rest)) => (|digits| == 1 || digits[0] != '0') && IsCanonical(rest)
    case None => path == "" || IsCanonical(path[1..])
  }

  lemma {:induction false} StrippedReads(digits: string)
    requires digits != "" && AllDigits(digits)
    ensures Stripped(digits) != "" && AllDigits(Stripped(digits)) && Parse(Stripped(digits)) == Parse(digits)
    ensures |Stripped(digits)| <= |digits|
    ensures |Stripped(digits)| == 1 || Stripped(digits)[0] != '0'
  {
    if |digits| > 1 && digits[0] == '0' {
      StrippedReads(digits[1..]);
      ZeroInFront(digits);
    }
  }

  lemma {:induction false} ZeroInFront(digits: string)
    requires digits != "" && AllDigits(digits) && digits[0] == '0'
    ensures Parse(digits) == Parse(digits[1..])
  {
    var n := |digits| - 1;
    if n > 0 {
      ZeroInFront(digits[..n]);
      assert digits[..n][1..] == digits[1..][..n - 1];
    }
  }

  lemma {:induction false} StrippedIsPrinted(digits: string)
    requires digits != "" && AllDigits(digits)
    ensures Stripped(digits) == Dec(Parse(digits))
  {
    StrippedReads(digits);
    NumeralIsPrinted(Stripped(digits));
  }

  predicate NoDigits(s: string) {
    forall i | 0 <= i < |s| :: !IsDigit(s[i])
  }

  /** Text without digits is left alone, whatever follows. */
  lemma {:induction false} PlainText(text: string, rest: string)
    requires NoDigits(text)
    ensures Plain(text + rest) == text + Plain(rest)
  {
    if text == "" {
      assert text + rest == rest;
    } else {
      assert (text + rest)[0] == text[0] && (text + rest)[1..] == text[1..] + rest;
      PlainText(text[1..], rest);
      assert [text[0]] + (text[1..] + Plain(rest)) == text + Plain(rest);
    }
  }

  lemma {:induction false} PlainNumeral(digits: string, rest: string)
    requires digits != "" && AllDigits(digits) && (rest == "" || !IsDigit(rest[0]))
    ensures Plain(digits + rest) == Dec(Parse(digits)) + Plain(rest)
  {
    SplitDigits(digits, rest);
    StrippedIsPrinted(digits);
  }

  lemma {:induction false} PlainEnd(text: string)
    requires NoDigits(text)
    ensures Plain(text) == text
  {
    PlainText(text, "");
    assert text + "" == text;
  }

  lemma {:induction false} FieldHasNoDigits(field: string)
    requires IsFieldName(field)
    ensures NoDigits(DOT + field) && Plain(DOT + field) == DOT + field
  {
    assert forall i | 0 <= i < |DOT + field| :: (DOT + field)[i] == (if i < 2 then DOT[i] else field[i - 2]);
    PlainEnd(DOT + field);
  }

  /** What stripping does to texts around one numeral, or two. */
  lemma {:induction false} PlainAround(front: string, i: string, back: string)
    requires NoDigits(front) && i != "" && AllDigits(i) && (back == "" || !IsDigit(back[0]))
    ensures Plain(front + i + back) == front + Dec(Parse(i)) + Plain(back)
  {
    assert front + i + back == front + (i + back);
    PlainText(front, i + back);
    PlainNumeral(i, back);
    assert front + (Dec(Parse(i)) + Plain(back)) == front + Dec(Parse(i)) + Plain(back);
  }

  lemma {:induction false} PlainAroundTwo(front: string, i: string, middle: string, j: string, back: string)
    requires NoDigits(front) && i != "" && AllDigits(i) && NoDigits(middle) && middle != "" && j != "" && AllDigits(j)
    requires NoDigits(back) && back != ""
    ensures Plain(front + i + (middle + j + back)) == front + Dec(Parse(i)) + (middle + Dec(Parse(j)) + back)
  {
    PlainAround(middle, j, back);
    PlainEnd(back);
    assert (middle + j + back)[0] == middle[0];
    PlainAround(front, i, middle + j + back);
  }

  lemma {:induction false} PlainTaskPath(i: string, field: string)
    requires i != "" && AllDigits(i) && IsFieldName(field)
    ensures Plain(TASKS + i + (DOT + field)) == Print(TaskSlot(Parse(i), field))
  {
    FieldHasNoDigits(field);
    PlainAround(TASKS, i, DOT + field);
    LastTwo(TASKS, Dec(Parse(i)), DOT, field);
  }

  lemma {:induction false} PlainFactPath(i: string, j: string, field: string)
    requires i != "" && AllDigits(i) && j != "" && AllDigits(j) && IsFieldName(field)
    ensures Plain(TASKS + i + (FACTS + j + DOT + field)) == Print(FactSlot(Parse(i), Parse(j), field))
  {
    FieldHasNoDigits(field);
    var back := DOT + field;
    PlainAroundTwo(TASKS, i, FACTS, j, back);
    SameText(TASKS, i, FACTS, j, DOT, field);
    SameText(TASKS, Dec(Parse(i)), FACTS, Dec(Parse(j)), DOT, field);
  }

  lemma {:induction false} LastTwo(a: string, i: string, c: string, d: string)
    ensures a + i + (c + d) == a + i + c + d
  {
  }

  lemma {:induction false} SameText(a: string, i: string, b: string, j: string, c: string, d: string)
    ensures a + i + (b + j + (c + d)) == a + i + (b + j + c + d) == a + i + b + j + c + d
  {
  }

  lemma {:induction false} AfterShape(prefix: string, s: string)
    requires After(prefix, s).Some?
    ensures s == prefix + After(prefix, s).value
  {
  }

  lemma {:induction false} TaskTailShape(task: nat, tail: string)
    requires ParseTaskTail(task, tail).Some?
    ensures var slot := ParseTaskTail(task, tail).value;
            slot.TaskSlot? && slot.task == task && IsFieldName(slot.field) && tail == DOT + slot.field
  {
    AfterShape(DOT, tail);
  }

  lemma {:induction false} FactTailShape(task: nat, tail: string) returns (j: string)
    requires ParseFactTail(task, tail).Some?
    ensures j != "" && AllDigits(j)
    ensures var slot := ParseFactTail(task, tail).value;
            slot == FactSlot(task, Parse(j), slot.field) && IsFieldName(slot.field) && tail == FACTS + (j + (DOT + slot.field))
  {
    AfterShape(FACTS, tail);
    var rest := After(FACTS, tail).value;
    var (digits, end) := SplitNumber(rest).value;
    AfterShape(DOT, end);
    j := digits;
  }

  lemma {:induction false} TaskShape(path: string) returns (i: string, tail: string)
    requires SplitTask(path).Some?
    ensures i != "" && AllDigits(i) && SplitTask(path) == Some((Parse(i), tail)) && path == TASKS + (i + tail)
  {
    AfterShape(TASKS, path);
    i, tail := SplitNumber(After(TASKS, path).value).value.0, SplitNumber(After(TASKS, path).value).value.1;
  }

  lemma {:induction false} FrontOf(a: string, i: string, tail: string)
    ensures a + (i + tail) == a + i + tail
  {
  }

  lemma {:induction false} MiddleOf(b: string, j: string, c: string, d: string)
    ensures b + (j + (c + d)) == b + j + c + d
  {
  }

  /** A path is exactly a numeral between fixed texts, or two. */
  lemma {:induction false} ParsedShape(p: PlanProposal, path: string) returns (i: string, j: string)
    requires ParsePath(p, path).Some?
    ensures i != "" && AllDigits(i) && j != "" && AllDigits(j)
    ensures match ParsePath(p, path).value
            case TaskSlot(task, field) =>
              IsFieldName(field) && task == Parse(i) && path == TASKS + i + (DOT + field)
            case FactSlot(task, fact, field) =>
              IsFieldName(field) && task == Parse(i) && fact == Parse(j) && path == TASKS + i + (FACTS + j + DOT + field)
  {
    var tail;
    i, tail := TaskShape(path);
    j := "0";
    FrontOf(TASKS, i, tail);
    if ParseFactTail(Parse(i), tail).Some? {
      j := FactTailShape(Parse(i), tail);
      MiddleOf(FACTS, j, DOT, ParsePath(p, path).value.field);
    } else {
      TaskTailShape(Parse(i), tail);
    }
  }

  /** Stripping a path that denotes a slot gives the printed path of that slot. */
  lemma {:induction false} ParsedIsPlain(p: PlanProposal, path: string)
    requires ParsePath(p, path).Some?
    ensures Plain(path) == Print(ParsePath(p, path).value)
  {
    var i, j := ParsedShape(p, path);
    match ParsePath(p, path).value
    case TaskSlot(_, field) => PlainTaskPath(i, field);
    case FactSlot(_, _, field) => PlainFactPath(i, j, field);
  }

  /** Where stripping ends in plain text, the path began with that text. */
  lemma {:induction false} PeelText(path: string, text: string, rest: string) returns (tail: string)
    requires NoDigits(text) && Plain(path) == text + rest
    ensures path == text + tail && Plain(tail) == rest
  {
    if text == "" {
      tail := path;
    } else {
      assert Plain(path)[0] == text[0];
      PlainStart(path);
      assert Plain(path) == [path[0]] + Plain(path[1..]);
      assert Plain(path)[1..] == Plain(path[1..]) && Plain(path)[1..] == text[1..] + rest;
      tail := PeelText(path[1..], text[1..], rest);
      assert path == [path[0]] + path[1..];
    }
  }

  /** A stripped path starts with a digit exactly when the path does. */
  lemma {:induction false} PlainStart(path: string)
    ensures path == "" <==> Plain(path) == ""
    ensures path != "" ==> (IsDigit(path[0]) <==> IsDigit(Plain(path)[0]))
  {
    if SplitNumber(path).Some? {
      var (digits, rest) := SplitNumber(path).value;
      StrippedReads(digits);
      assert Plain(path)[0] == Stripped(digits)[0];
    }
  }

  lemma {:induction false} PeelNumeral(path: string, n: nat, rest: string) returns (digits: string, tail: string)
    requires Plain(path) == Dec(n) + rest && (rest == "" || !IsDigit(rest[0]))
    ensures digits != "" && AllDigits(digits) && Parse(digits) == n && path == digits + tail && Plain(tail) == rest
    ensures tail == "" || !IsDigit(tail[0])
  {
    PlainStart(path);
    assert Plain(path)[0] == Dec(n)[0];
    digits, tail := SplitNumber(path).value.0, SplitNumber(path).value.1;
    StrippedIsPrinted(digits);
    PlainStart(tail);
    DecThenUnique(Parse(digits), n, Plain(tail), rest);
  }

  /** Conversely, a path that strips to the printed path of a slot denotes that slot. */
  lemma {:induction false} PlainParses(p: PlanProposal, path: string, slot: Slot)
    requires ValidSlot(p, slot) && Plain(path) == Print(slot)
    ensures ParsePath(p, path) == Some(slot)
  {
    if slot.FactSlot? {
      FactPlainParses(p, path, slot.task, slot.fact, slot.field);
    } else {
      TaskPlainParses(p, path, slot.task, slot.field);
    }
  }

  /** Peels the text and numeral of a path with one numeral. */
  lemma {:induction false} PeelOne(path: string, front: string, n: nat, back: string) returns (i: string, tail: string)
    requires NoDigits(front) && NoDigits(back) && Plain(path) == front + Dec(n) + back
    ensures i != "" && AllDigits(i) && Parse(i) == n && path == front + i + tail && Plain(tail) == back
  {
    assert front + Dec(n) + back == front + (Dec(n) + back);
    var rest := PeelText(path, front, Dec(n) + back);
    i, tail := PeelNumeral(rest, n, back);
  }

  lemma {:induction false} TaskPlainParses(p: PlanProposal, path: string, task: nat, field: string)
    requires ValidSlot(p, TaskSlot(task, field)) && Plain(path) == Print(TaskSlot(task, field))
    ensures ParsePath(p, path) == Some(TaskSlot(task, field))
  {
    TaskFieldNames();
    FieldHasNoDigits(field);
    LastTwo(TASKS, Dec(task), DOT, field);
    var i, tail := PeelOne(path, TASKS, task, DOT + field);
    PeelField(tail, field);
    ParseTaskPath(p, i, field);
  }

  lemma {:induction false} PeelField(tail: string, field: string)
    requires IsFieldName(field) && Plain(tail) == DOT + field
    ensures tail == DOT + field
  {
    FieldHasNoDigits(field);
    assert DOT + field == (DOT + field) + "";
    var end := PeelText(tail, DOT + field, "");
    PlainStart(end);
  }

  /** Peels the texts and numerals of a path with two numerals. */
  lemma {:induction false} PeelTwo(path: string, front: string, m: nat, middle: string, n: nat, back: string)
    returns (i: string, j: string, tail: string)
    requires NoDigits(front) && NoDigits(middle) && middle != "" && NoDigits(back) && back != ""
    requires Plain(path) == front + Dec(m) + (middle + Dec(n) + back)
    ensures i != "" && AllDigits(i) && Parse(i) == m && j != "" && AllDigits(j) && Parse(j) == n
    ensures path == front + i + (middle + j + tail) && Plain(tail) == back
  {
    var end := middle + Dec(n) + back;
    assert front + Dec(m) + end == front + (Dec(m) + end);
    var rest := PeelText(path, front, Dec(m) + end);
    assert end[0] == middle[0];
    var inner;
    i, inner := PeelNumeral(rest, m, end);
    assert end == middle + (Dec(n) + back);
    var last := PeelText(inner, middle, Dec(n) + back);
    j, tail := PeelNumeral(last, n, back);
  }

  lemma {:induction false} FactPlainParses(p: PlanProposal, path: string, task: nat, fact: nat, field: string)
    requires ValidSlot(p, FactSlot(task, fact, field)) && Plain(path) == Print(FactSlot(task, fact, field))
    ensures ParsePath(p, path) == Some(FactSlot(task, fact, field))
  {
    FactFieldNames();
    FieldHasNoDigits(field);
    SameText(TASKS, Dec(task), FACTS, Dec(fact), DOT, field);
    var i, j, tail := PeelTwo(path, TASKS, task, FACTS, fact, DOT + field);
    PeelField(tail, field);
    SameText(TASKS, i, FACTS, j, DOT, field);
    ParseFactPath(p, i, j, field);
  }

  /** Exactly when two paths denote one slot: when they differ at most in leading zeros of numerals. */
  lemma {:induction false} AliasesExactly(p: PlanProposal, a: string, b: string)
    requires ParsePath(p, a).Some?
    ensures ParsePath(p, b) == ParsePath(p, a) <==> Plain(a) == Plain(b)
  {
    ParsedIsPlain(p, a);
    assert ValidSlot(p, ParsePath(p, a).value);
    if Plain(a) == Plain(b) {
      PlainParses(p, b, ParsePath(p, a).value);
    } else if ParsePath(p, b) == ParsePath(p, a) {
      ParsedIsPlain(p, b);
    }
  }

  lemma {:induction false} CanonicalIsPlain(path: string)
    ensures |Plain(path)| <= |path| && (IsCanonical(path) <==> Plain(path) == path)
    decreases |path|
  {
    match SplitNumber(path)
    case Some((digits, rest)) =>
      CanonicalIsPlain(rest);
      StrippedReads(digits);
      StrippedIsSame(digits);
      if Plain(path) == path {
        assert Stripped(digits) == digits by {
          assert |Stripped(digits)| + |Plain(rest)| == |digits| + |rest|;
          assert Stripped(digits) == path[..|digits|];
        }
        assert Plain(rest) == path[|digits|..];
      }
    case None =>
      if path != "" {
        CanonicalIsPlain(path[1..]);
        assert Plain(path)[1..] == Plain(path[1..]);
      }
  }

  lemma {:induction false} StrippedIsSame(digits: string)
    requires digits != "" && AllDigits(digits)
    ensures Stripped(digits) == digits <==> |digits| == 1 || digits[0] != '0'
  {
    if |digits| > 1 && digits[0] == '0' {
      StrippedReads(digits[1..]);
    }
  }

  /** Exactly the paths without a leading zero are printed paths, so these never collide. */
  lemma {:induction false} CanonicalPathsArePrinted(p: PlanProposal, path: string)
    requires ParsePath(p, path).Some?
    ensures path == Print(ParsePath(p, path).value) <==> IsCanonical(path)
  {
    ParsedIsPlain(p, path);
    CanonicalIsPlain(path);
  }

  /** The slots and their spelling: the patchable fields of a task and of a fact, and the path to each. */
  lemma {:induction false} SlotsAreSpelled(p: PlanProposal, slot: Slot)
    ensures slot.TaskSlot? ==>
              && Print(slot) == "proposal.tasks[" + Dec(slot.task) + "]." + slot.field
              && (ValidSlot(p, slot) <==>
                    slot.task < |p.tasks|
                    && slot.field in ["company_mentions", "as_of_expression", "document_group", "event_type_text", "counterparty_text",
                                      "contract_name_text", "seed_receipt_text", "retrieval_query", "requested_slots"])
    ensures slot.FactSlot? ==>
              && Print(slot) == "proposal.tasks[" + Dec(slot.task) + "].facts[" + Dec(slot.fact) + "]." + slot.field
              && (ValidSlot(p, slot) <==>
                    slot.task < |p.tasks| && slot.fact < |p.tasks[slot.task].facts|
                    && slot.field in ["company_mention", "concept_mention", "period_expression", "scope", "statement", "view"])
  {
  }

  /** Exactly which texts are paths to a slot: its spelling, up to leading zeros. */
  lemma {:induction false} PathsExactly(p: PlanProposal, path: string, slot: Slot)
    ensures ParsePath(p, path) == Some(slot) <==> ValidSlot(p, slot) && Plain(path) == Print(slot)
  {
    if ParsePath(p, path) == Some(slot) {
      ParsedIsPlain(p, path);
    }
    if ValidSlot(p, slot) && Plain(path) == Print(slot) {
      PlainParses(p, path, slot);
    }
  }
}
