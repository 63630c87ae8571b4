/** Which schemas lower. */
module SchemaSuccess {
  import opened Wrappers
  import opened Json
  import opened SchemaLowering
  import opened SchemaSemantics
  import opened SchemaPreservation

  /* ---- Members that make no difference ---- */

  /** Annotations and the members that say nothing here. */
  predicate IsIgnored(m: Member) {
    || m.key in {"title", "default", "examples", "deprecated", "readOnly", "writeOnly", "minLength", "maxLength"}
    || m.key == "$defs"
    || (m.key == "additionalProperties" && m.value == JBool(false))
  }

  function Relevant(members: seq<Member>): seq<Member> {
    Filter((m: Member) => !IsIgnored(m), members)
  }

  lemma {:induction false} IgnoredIsSkipped(m: Member, ctx: Context, stack: seq<string>, depth: nat)
    requires depth <= MAX_SCHEMA_DEPTH
    ensures LowerField(m, ctx, stack, depth).Skip? <==> IsIgnored(m)
  {
    KeywordsDisjoint();
  }

  lemma {:induction false} FieldsOfPrefix(a: seq<Member>, b: seq<Member>, n: nat, ctx: Context, stack: seq<string>, depth: nat)
    requires n <= |a| && n <= |b| && depth <= MAX_SCHEMA_DEPTH && a[..n] == b[..n]
    ensures LowerFields(a, n, ctx, stack, depth) == LowerFields(b, n, ctx, stack, depth)
  {
    if n > 0 {
      assert a[..n - 1] == a[..n][..n - 1] && b[..n - 1] == b[..n][..n - 1];
      FieldsOfPrefix(a, b, n - 1, ctx, stack, depth);
      assert a[n - 1] == a[..n][n - 1] && b[n - 1] == b[..n][n - 1];
    }
  }

  lemma {:induction false} RelevantNext(members: seq<Member>, n: nat)
    requires n < |members|
    ensures Relevant(members[..n + 1]) == Relevant(members[..n]) + if IsIgnored(members[n]) then [] else [members[n]]
  {
    assert members[..n + 1] == members[..n] + [members[n]];
    FilterAppend((m: Member) => !IsIgnored(m), members[..n], [members[n]]);
    assert [members[n]][1..] == [];
  }

  /** Lowering reads the relevant members only. */
  lemma {:induction false} RelevantFields(members: seq<Member>, n: nat, ctx: Context, stack: seq<string>, depth: nat)
    requires n <= |members| && depth <= MAX_SCHEMA_DEPTH
    ensures var kept := Relevant(members[..n]);
            LowerFields(members, n, ctx, stack, depth) == LowerFields(kept, |kept|, ctx, stack, depth)
  {
    if n > 0 {
      var m, before, kept := members[n - 1], Relevant(members[..n - 1]), Relevant(members[..n]);
      RelevantFields(members, n - 1, ctx, stack, depth);
      RelevantNext(members, n - 1);
      IgnoredIsSkipped(m, ctx, stack, depth);
      if !IsIgnored(m) {
        assert kept[..|before|] == before;
        FieldsOfPrefix(kept, before, |before|, ctx, stack, depth);
      } else {
        assert kept == before;
      }
    }
  }

  /** Adding or removing annotations, local definitions or a closed-object mark at a node changes neither whether it lowers
      nor to what. */
  lemma {:induction false} IgnoredMakeNoDifference(a: seq<Member>, b: seq<Member>, ctx: Context, stack: seq<string>, depth: nat)
    requires depth <= MAX_SCHEMA_DEPTH + 1 && Relevant(a) == Relevant(b) && !Has(a, "$ref") && !Has(b, "$ref")
    ensures Lower(JObj(a), ctx, stack, depth) == Lower(JObj(b), ctx, stack, depth)
  {
    if depth <= MAX_SCHEMA_DEPTH {
      RelevantFields(a, |a|, ctx, stack, depth);
      RelevantFields(b, |b|, ctx, stack, depth);
      assert a[..|a|] == a && b[..|b|] == b;
    }
  }

  /* ---- Values behind references ---- */

  /** `value` is a reference to definition `i`. */
  predicate RefersTo(value: Json, defs: seq<Member>, i: nat) {
    && i < |defs| && value == JStr("#/$defs/" + defs[i].key) && defs[i].key != "" && '/' !in defs[i].key
  }

  lemma {:induction false} RefersExactly(ref: Json, defs: seq<Member>, i: nat)
    requires UniqueKeys(defs) && i < |defs|
    ensures RefName(ref, defs) == Some(defs[i].key) <==> RefersTo(ref, defs, i)
    ensures RefName(ref, defs).Some? ==> RefersTo(ref, defs, IndexOf(defs, RefName(ref, defs).value))
    ensures At(defs, defs[i].key) == defs[i].value
  {
    IndexUnique(defs, i);
    if RefersTo(ref, defs, i) {
      assert ("#/$defs/" + defs[i].key)[8..] == defs[i].key;
    }
    if RefName(ref, defs).Some? {
      assert ref.s == "#/$defs/" + ref.s[8..];
    }
  }

  /** What is seen at the end of a chain of references, followed at most `n` times. */
  function Seen(value: Json, defs: seq<Member>, n: nat): Json
    decreases n
  {
    if n > 0 && value.JObj? && Has(value.members, "$ref") then
      match RefName(At(value.members, "$ref"), defs)
      case None => value
      case Some(name) => Seen(At(defs, name), defs, n - 1)
    else value
  }

  /** Following more references than there are levels reaches the same value. */
  const CHAIN: nat := 13

  function SeenBy(value: Json, defs: seq<Member>): Json {
    Seen(value, defs, CHAIN)
  }

  ghost predicate SameScalar(seen: Json, lowered: Json) {
    && (IsScalar(seen) || IsScalar(lowered) ==> lowered == seen)
    && (seen.JArr? <==> lowered.JArr?)
  }

  /** A lowered value shows what is seen of the value it came from: the scalar, or the list item by item. */
  ghost predicate Shown(value: Json, lowered: Json, defs: seq<Member>) {
    var seen := SeenBy(value, defs);
    && SameScalar(seen, lowered)
    && (seen.JArr? ==>
          |lowered.items| == |seen.items|
          && forall i | 0 <= i < |seen.items| :: SameScalar(SeenBy(seen.items[i], defs), lowered.items[i]))
  }

  lemma {:induction false} SeenEarlier(value: Json, ctx: Context, stack: seq<string>, depth: nat, n: nat) returns (stack': seq<string>, depth': nat)
    requires depth <= MAX_SCHEMA_DEPTH + 1 && Lower(value, ctx, stack, depth).Some? && n >= Remaining(depth)
    ensures depth <= depth' <= MAX_SCHEMA_DEPTH
    ensures Lower(Seen(value, ctx.defs, n), ctx, stack', depth') == Lower(value, ctx, stack, depth)
    ensures !(Seen(value, ctx.defs, n).JObj? && Has(Seen(value, ctx.defs, n).members, "$ref"))
    decreases Remaining(depth)
  {
    if value.JObj? && Has(value.members, "$ref") {
      var name := RefName(At(value.members, "$ref"), ctx.defs).value;
      stack', depth' := SeenEarlier(At(ctx.defs, name), ctx, stack + [name], depth + 1, n - 1);
    } else {
      stack', depth' := stack, depth;
    }
  }

  lemma {:induction false} LoweredScalar(value: Json, ctx: Context, stack: seq<string>, depth: nat)
    requires depth <= MAX_SCHEMA_DEPTH + 1 && Lower(value, ctx, stack, depth).Some?
    ensures SameScalar(SeenBy(value, ctx.defs), Lower(value, ctx, stack, depth).value)
  {
    var stack', depth' := SeenEarlier(value, ctx, stack, depth, CHAIN);
  }

  lemma {:induction false} LoweredIsShown(value: Json, ctx: Context, stack: seq<string>, depth: nat)
    requires depth <= MAX_SCHEMA_DEPTH + 1 && Lower(value, ctx, stack, depth).Some?
    ensures Shown(value, Lower(value, ctx, stack, depth).value, ctx.defs)
  {
    LoweredScalar(value, ctx, stack, depth);
    var seen, lowered := SeenBy(value, ctx.defs), Lower(value, ctx, stack, depth).value;
    var stack', depth' := SeenEarlier(value, ctx, stack, depth, CHAIN);
    if seen.JArr? {
      forall i | 0 <= i < |seen.items|
        ensures |lowered.items| == |seen.items| && SameScalar(SeenBy(seen.items[i], ctx.defs), lowered.items[i])
      {
        ItemsShape(seen.items, |seen.items|, ctx, stack', depth' + 1, i);
        LoweredScalar(seen.items[i], ctx, stack', depth' + 1);
      }
    }
  }

  /** A lowered object never has the type `null`. */
  lemma {:induction false} NeverNull(value: Json, ctx: Context, stack: seq<string>, depth: nat)
    requires depth <= MAX_SCHEMA_DEPTH + 1 && Lower(value, ctx, stack, depth).Some?
    requires Lower(value, ctx, stack, depth).value.JObj?
    ensures Get(Lower(value, ctx, stack, depth).value.members, "type") != Some(JStr("null"))
  {
    var stack', depth' := SeenEarlier(value, ctx, stack, depth, CHAIN);
    var seen := SeenBy(value, ctx.defs);
    GetCapped(LowerFields(seen.members, |seen.members|, ctx, stack', depth').value, "type");
  }

  /* ---- The checks, on the schema as it was written ---- */

  /** The value of a keyword, seen through references. */
  function KeySeen(members: seq<Member>, key: string, defs: seq<Member>): Option<Json> {
    if Has(members, key) then Some(SeenBy(At(members, key), defs)) else None
  }

  ghost predicate AlternativesOk(members: seq<Member>, defs: seq<Member>) {
    var anyOf := KeySeen(members, "anyOf", defs);
    anyOf.Some? ==> anyOf.value.JArr? && anyOf.value.items != []
  }

  ghost predicate ChoicesOk(values: seq<Json>) {
    && values != [] && Distinct(values)
    && forall i | 0 <= i < |values| :: !values[i].JArr? && !values[i].JObj? && values[i] != JNull
  }

  function SeenItems(items: seq<Json>, defs: seq<Member>): seq<Json> {
    seq(|items|, i requires 0 <= i < |items| => SeenBy(items[i], defs))
  }

  /** Whichever of `enum` and `const` comes last lists different scalars, none of them null. */
  ghost predicate ChoiceOk(members: seq<Member>, n: nat, defs: seq<Member>)
    requires n <= |members|
  {
    if n == 0 then true
    else if members[n - 1].key == "enum" then
      var values := SeenBy(members[n - 1].value, defs);
      values.JArr? && ChoicesOk(SeenItems(values.items, defs))
    else if members[n - 1].key == "const" then ChoicesOk([members[n - 1].value])
    else ChoiceOk(members, n - 1, defs)
  }

  ghost predicate TextsOk(members: seq<Member>, defs: seq<Member>) {
    var description, format := KeySeen(members, "description", defs), KeySeen(members, "format", defs);
    && (description.Some? ==> description.value.JStr?)
    && (format.Some? ==>
          format.value.JStr?
          && format.value.s in {"date-time", "date", "time", "duration", "email", "hostname", "ipv4", "ipv6", "uuid"})
  }

  ghost predicate RangeOk(members: seq<Member>, defs: seq<Member>) {
    var low, high := KeySeen(members, "minimum", defs), KeySeen(members, "maximum", defs);
    && (low.Some? ==> low.value.JInt? || low.value.JFloat?)
    && (high.Some? ==> high.value.JInt? || high.value.JFloat?)
    && (low.Some? && high.Some? ==> Number(low.value).value <= Number(high.value).value)
  }

  /** The letters a-z and the digits of the case-folded name. */
  function Letters(name: string, fold: char -> string): string {
    Filter((c: char) => 'a' <= c <= 'z' || '0' <= c <= '9', Gather(name, fold, |name|))
  }

  ghost predicate PropertyNameOk(name: string, fold: char -> string) {
    && name != ""
    && Letters(name, fold) !in {
         "corpcode", "sourcefileid", "evidenceid", "eventkey", "accountpath", "planid", "stepid", "taskid", "outputid",
         "revision", "sql", "toolname", "filepath", "indexname", "citation", "citations"}
  }

  ghost predicate ObjectSchemaOk(members: seq<Member>, ctx: Context) {
    && Has(members, "properties") && At(members, "properties").JObj? && At(members, "properties").members != []
    && var properties, required := At(members, "properties").members, KeySeen(members, "required", ctx.defs);
    && (forall i | 0 <= i < |properties| :: PropertyNameOk(properties[i].key, ctx.fold))
    && (required.Some? ==>
          && required.value.JArr?
          && var names := SeenItems(required.value.items, ctx.defs);
             Distinct(names) && forall i | 0 <= i < |names| :: names[i].JStr? && exists k :: 0 <= k < |properties| && properties[k].key == names[i].s)
  }

  ghost predicate ArraySchemaOk(members: seq<Member>, defs: seq<Member>) {
    var low, high := KeySeen(members, "minItems", defs), KeySeen(members, "maxItems", defs);
    && Has(members, "items") && (low.Some? ==> low.value.JInt?) && (high.Some? ==> high.value.JInt?)
    && 0 <= (if low.Some? then low.value.n else 0)
    && (if low.Some? then low.value.n else 0) <= (if high.Some? then high.value.n else 50)
    && (if high.Some? then high.value.n else 50) <= 50
  }

  ghost predicate TypeSeenOk(members: seq<Member>, ctx: Context) {
    var kind := KeySeen(members, "type", ctx.defs);
    || kind.None? || kind.value == JNull
    || (&& kind.value.JStr? && kind.value.s in {"string", "integer", "number", "boolean", "object", "array"}
        && (kind.value.s == "object" ==> ObjectSchemaOk(members, ctx))
        && (kind.value.s == "array" ==> ArraySchemaOk(members, ctx.defs)))
  }

  /** What a node must satisfy besides the lowering of its parts. */
  ghost predicate ChecksOk(members: seq<Member>, ctx: Context) {
    && AlternativesOk(members, ctx.defs) && ChoiceOk(members, |members|, ctx.defs) && TextsOk(members, ctx.defs)
    && RangeOk(members, ctx.defs) && TypeSeenOk(members, ctx)
  }

  /* ---- The schemas that lower ---- */

  predicate IsPlainKeyword(key: string) {
    key in {"type", "description", "format", "minimum", "maximum", "minItems", "maxItems", "items", "required", "enum", "anyOf"}
  }

  /** Nested at most twelve levels deep, references unfolded and never circular, only known keywords, and every check met. */
  ghost predicate Compiles(value: Json, ctx: Context, stack: seq<string>, depth: nat)
    requires depth <= 13
    decreases 13 - depth, 1
  {
    && depth <= 12
    && match value
       case JArr(items) => forall i | 0 <= i < |items| :: Compiles(items[i], ctx, stack, depth + 1)
       case JObj(members) =>
         if exists i :: 0 <= i < |members| && members[i].key == "$ref" then
           && |members| == 1
           && exists i: nat :: RefersTo(members[0].value, ctx.defs, i) && ctx.defs[i].key !in stack
                && Compiles(ctx.defs[i].value, ctx, stack + [ctx.defs[i].key], depth + 1)
         else (forall i | 0 <= i < |members| :: FieldCompiles(members[i], ctx, stack, depth)) && ChecksOk(members, ctx)
       case _ => true
  }

  ghost predicate FieldCompiles(m: Member, ctx: Context, stack: seq<string>, depth: nat)
    requires depth <= 12
    decreases 13 - depth, 0
  {
    || IsIgnored(m) || m.key == "const"
    || (m.key == "properties" && m.value.JObj?
        && forall i | 0 <= i < |m.value.members| :: Compiles(m.value.members[i].value, ctx, stack, depth + 1))
    || (IsPlainKeyword(m.key) && Compiles(m.value, ctx, stack, depth + 1))
  }

  /* ---- Parts succeed one by one ---- */

  lemma {:induction false} FieldsSucceed(members: seq<Member>, n: nat, ctx: Context, stack: seq<string>, depth: nat)
    requires n <= |members| && depth <= MAX_SCHEMA_DEPTH
    ensures LowerFields(members, n, ctx, stack, depth).Some? <==> forall i | 0 <= i < n :: !LowerField(members[i], ctx, stack, depth).Fail?
  {
    if n > 0 {
      FieldsSucceed(members, n - 1, ctx, stack, depth);
    }
  }

  lemma {:induction false} ItemsSucceed(items: seq<Json>, n: nat, ctx: Context, stack: seq<string>, depth: nat)
    requires n <= |items| && depth <= MAX_SCHEMA_DEPTH + 1
    ensures LowerItems(items, n, ctx, stack, depth).Some? <==> forall i | 0 <= i < n :: Lower(items[i], ctx, stack, depth).Some?
  {
    if n > 0 {
      ItemsSucceed(items, n - 1, ctx, stack, depth);
    }
  }

  lemma {:induction false} PropertiesSucceed(properties: seq<Member>, n: nat, ctx: Context, stack: seq<string>, depth: nat)
    requires n <= |properties| && depth <= MAX_SCHEMA_DEPTH + 1
    ensures LowerProperties(properties, n, ctx, stack, depth).Some? <==>
            forall i | 0 <= i < n :: Lower(properties[i].value, ctx, stack, depth).Some?
  {
    if n > 0 {
      PropertiesSucceed(properties, n - 1, ctx, stack, depth);
    }
  }

  /* ---- Lowered keywords show the written ones ---- */

  ghost predicate KeyShows(members: seq<Member>, fields: seq<Member>, key: string, defs: seq<Member>) {
    && (Has(members, key) <==> Has(fields, key))
    && (Has(fields, key) ==> Shown(At(members, key), At(fields, key), defs))
  }

  lemma {:induction false} PlainKeyword(m: Member, ctx: Context, stack: seq<string>, depth: nat)
    requires depth <= MAX_SCHEMA_DEPTH && IsPlainKeyword(m.key)
    ensures m.key in ALLOWED_KEYWORDS
    ensures LowerField(m, ctx, stack, depth) ==
            match Lower(m.value, ctx, stack, depth + 1)
            case None => Fail
            case Some(item) => Put(m.key, item)
  {
    KeywordsDisjoint();
  }

  lemma {:induction false} KeyLowers(members: seq<Member>, ctx: Context, stack: seq<string>, depth: nat, key: string)
    requires depth <= MAX_SCHEMA_DEPTH && UniqueKeys(members) && LowerFields(members, |members|, ctx, stack, depth).Some?
    requires IsPlainKeyword(key) && key != "enum"
    ensures var fields := LowerFields(members, |members|, ctx, stack, depth).value;
            && (Has(members, key) <==> Has(fields, key))
            && (Has(members, key) ==> Lower(At(members, key), ctx, stack, depth + 1) == Some(At(fields, key)))
  {
    FieldsGet(members, |members|, ctx, stack, depth, key);
    PlainKeyword(Member(key, JNull), ctx, stack, depth);
    if Has(members, key) {
      PlainKeyword(members[IndexOf(members, key)], ctx, stack, depth);
    }
  }

  lemma {:induction false} KeyIsShown(members: seq<Member>, ctx: Context, stack: seq<string>, depth: nat, key: string)
    requires depth <= MAX_SCHEMA_DEPTH && UniqueKeys(members) && LowerFields(members, |members|, ctx, stack, depth).Some?
    requires IsPlainKeyword(key) && key != "enum"
    ensures KeyShows(members, LowerFields(members, |members|, ctx, stack, depth).value, key, ctx.defs)
  {
    KeyLowers(members, ctx, stack, depth, key);
    if Has(members, key) {
      LoweredIsShown(At(members, key), ctx, stack, depth + 1);
    }
  }

  lemma {:induction false} PropertiesLower(members: seq<Member>, ctx: Context, stack: seq<string>, depth: nat)
    requires depth <= MAX_SCHEMA_DEPTH && UniqueKeys(members) && LowerFields(members, |members|, ctx, stack, depth).Some?
    ensures var fields := LowerFields(members, |members|, ctx, stack, depth).value;
            && (Has(members, "properties") <==> Has(fields, "properties"))
            && (Has(members, "properties") ==>
                  && At(members, "properties").JObj? && At(fields, "properties").JObj?
                  && SameNames(At(members, "properties").members, At(fields, "properties").members))
  {
    KeywordsDisjoint();
    FieldsGet(members, |members|, ctx, stack, depth, "properties");
    if Has(members, "properties") {
      var properties := At(members, "properties").members;
      forall i | 0 <= i < |properties|
        ensures LowerProperties(properties, |properties|, ctx, stack, depth + 1).value[i].key == properties[i].key
      {
        PropertiesShape(properties, |properties|, ctx, stack, depth + 1, i);
      }
    }
  }

  ghost predicate SameNames(a: seq<Member>, b: seq<Member>) {
    |a| == |b| && forall i | 0 <= i < |a| :: a[i].key == b[i].key
  }

  /* ---- The checks agree ---- */

  lemma {:induction false} BranchNeverNull(value: Json, ctx: Context, stack: seq<string>, depth: nat, i: nat)
    requires depth <= MAX_SCHEMA_DEPTH + 1 && Lower(value, ctx, stack, depth).Some?
    requires var l := Lower(value, ctx, stack, depth).value; l.JArr? && i < |l.items| && l.items[i].JObj?
    ensures Get(Lower(value, ctx, stack, depth).value.items[i].members, "type") != Some(JStr("null"))
  {
    var stack', depth' := SeenEarlier(value, ctx, stack, depth, CHAIN);
    var items := SeenBy(value, ctx.defs).items;
    ItemsShape(items, |items|, ctx, stack', depth' + 1, i);
    NeverNull(items[i], ctx, stack', depth' + 1);
  }

  lemma {:induction false} AlternativesAgree(members: seq<Member>, ctx: Context, stack: seq<string>, depth: nat)
    requires depth <= MAX_SCHEMA_DEPTH && UniqueKeys(members) && LowerFields(members, |members|, ctx, stack, depth).Some?
    ensures AnyOfOk(LowerFields(members, |members|, ctx, stack, depth).value) <==> AlternativesOk(members, ctx.defs)
  {
    var fields := LowerFields(members, |members|, ctx, stack, depth).value;
    KeyIsShown(members, ctx, stack, depth, "anyOf");
    KeyLowers(members, ctx, stack, depth, "anyOf");
    if Has(members, "anyOf") && At(fields, "anyOf").JArr? {
      var branches := At(fields, "anyOf").items;
      forall i | 0 <= i < |branches| && branches[i].JObj?
        ensures Get(branches[i].members, "type") != Some(JStr("null"))
      {
        BranchNeverNull(At(members, "anyOf"), ctx, stack, depth + 1, i);
      }
    }
  }

  lemma {:induction false} TextsAgree(members: seq<Member>, fields: seq<Member>, defs: seq<Member>)
    requires KeyShows(members, fields, "description", defs) && KeyShows(members, fields, "format", defs)
    ensures AnnotationsOk(fields) <==> TextsOk(members, defs)
  {
  }

  lemma {:induction false} RangesAgree(members: seq<Member>, fields: seq<Member>, defs: seq<Member>)
    requires KeyShows(members, fields, "minimum", defs) && KeyShows(members, fields, "maximum", defs)
    ensures BoundsOk(fields) <==> RangeOk(members, defs)
  {
  }

  lemma {:induction false} ArraysAgree(members: seq<Member>, fields: seq<Member>, defs: seq<Member>)
    requires KeyShows(members, fields, "minItems", defs) && KeyShows(members, fields, "maxItems", defs) && KeyShows(members, fields, "items", defs)
    ensures ArrayOk(fields) <==> ArraySchemaOk(members, defs)
  {
  }

  lemma {:induction false} LettersAreKey(name: string, fold: char -> string)
    ensures PropertyKey(name, fold) == Letters(name, fold)
  {
    var keep := (c: char) => 'a' <= c <= 'z' || '0' <= c <= '9';
    if name != "" {
      LettersAreKey(name[1..], fold);
      GatherHead(name, fold, |name|);
      FilterAppend(keep, fold(name[0]), Gather(name[1..], fold, |name| - 1));
    }
  }

  lemma {:induction false} GatherHead(name: string, fold: char -> string, n: nat)
    requires 0 < n <= |name|
    ensures Gather(name, fold, n) == fold(name[0]) + Gather(name[1..], fold, n - 1)
  {
    if n > 1 {
      GatherHead(name, fold, n - 1);
    } else {
      assert Gather(name, fold, 0) == [] && Gather(name[1..], fold, 0) == [];
    }
  }

  ghost predicate AllScalar(items: seq<Json>) {
    forall i | 0 <= i < |items| :: IsScalar(items[i])
  }

  /** Two lists that show each other are equal once one of them is all scalars. */
  lemma {:induction false} ScalarListsSame(a: seq<Json>, b: seq<Json>)
    requires |a| == |b| && forall i | 0 <= i < |a| :: SameScalar(a[i], b[i])
    ensures AllScalar(a) <==> AllScalar(b)
    ensures AllScalar(a) ==> a == b
  {
    assert forall i | 0 <= i < |a| :: IsScalar(a[i]) || IsScalar(b[i]) ==> a[i] == b[i];
    assert AllScalar(a) || AllScalar(b) ==> a == b;
  }

  lemma {:induction false} ChoicesAgree(a: seq<Json>, b: seq<Json>)
    requires |a| == |b| && forall i | 0 <= i < |a| :: SameScalar(a[i], b[i])
    ensures ChoicesOk(a) <==> ChoicesOk(b)
  {
    ScalarListsSame(a, b);
    assert ChoicesOk(a) ==> AllScalar(a);
    assert ChoicesOk(b) ==> AllScalar(b);
  }

  lemma {:induction false} ShownItems(value: Json, lowered: Json, defs: seq<Member>)
    requires Shown(value, lowered, defs) && lowered.JArr?
    ensures var seen := SeenItems(SeenBy(value, defs).items, defs);
            |seen| == |lowered.items| && forall i | 0 <= i < |seen| :: SameScalar(seen[i], lowered.items[i])
  {
  }

  lemma {:induction false} ChoiceAgrees(members: seq<Member>, n: nat, ctx: Context, stack: seq<string>, depth: nat)
    requires n <= |members| && depth <= MAX_SCHEMA_DEPTH && LowerFields(members, n, ctx, stack, depth).Some?
    ensures var c := LoweredChoice(members, n, ctx, stack, depth);
            (c.Some? ==> c.value.JArr? && ChoicesOk(c.value.items)) <==> ChoiceOk(members, n, ctx.defs)
  {
    if n > 0 {
      var m := members[n - 1];
      if m.key == "enum" {
        PlainKeyword(m, ctx, stack, depth);
        LoweredIsShown(m.value, ctx, stack, depth + 1);
        var lowered := Lower(m.value, ctx, stack, depth + 1).value;
        if lowered.JArr? {
          ShownItems(m.value, lowered, ctx.defs);
          ChoicesAgree(SeenItems(SeenBy(m.value, ctx.defs).items, ctx.defs), lowered.items);
        }
      } else if m.key != "const" {
        ChoiceAgrees(members, n - 1, ctx, stack, depth);
      }
    }
  }

  lemma {:induction false} EnumAgrees(members: seq<Member>, ctx: Context, stack: seq<string>, depth: nat)
    requires depth <= MAX_SCHEMA_DEPTH && LowerFields(members, |members|, ctx, stack, depth).Some?
    ensures EnumOk(LowerFields(members, |members|, ctx, stack, depth).value) <==> ChoiceOk(members, |members|, ctx.defs)
  {
    FieldsChoice(members, |members|, ctx, stack, depth);
    ChoiceAgrees(members, |members|, ctx, stack, depth);
    EnumIsChoices(LowerFields(members, |members|, ctx, stack, depth).value);
  }

  lemma {:induction false} EnumIsChoices(fields: seq<Member>)
    ensures EnumOk(fields) <==> (Has(fields, "enum") ==> At(fields, "enum").JArr? && ChoicesOk(At(fields, "enum").items))
  {
  }

  /** Required names, on both sides, are different strings among the property names. */
  ghost predicate NamesOk(names: seq<Json>, properties: seq<Member>) {
    Distinct(names) && forall i | 0 <= i < |names| :: names[i].JStr? && Has(properties, names[i].s)
  }

  lemma {:induction false} NamesAgree(a: seq<Json>, b: seq<Json>, p: seq<Member>, q: seq<Member>)
    requires |a| == |b| && (forall i | 0 <= i < |a| :: SameScalar(a[i], b[i])) && SameNames(p, q)
    ensures NamesOk(a, p) <==> NamesOk(b, q)
  {
    ScalarListsSame(a, b);
    assert NamesOk(a, p) ==> AllScalar(a);
    assert NamesOk(b, q) ==> AllScalar(b);
    forall key
      ensures Has(p, key) <==> Has(q, key)
    {
      SameKeysSameIndex(p, q, key);
    }
  }

  lemma {:induction false} HasMeans(members: seq<Member>, key: string)
    ensures Has(members, key) <==> exists k :: 0 <= k < |members| && members[k].key == key
  {
    var i := IndexOf(members, key);
    if i < |members| {
      assert members[i].key == key;
    }
  }

  lemma {:induction false} RequiredAgrees(members: seq<Member>, fields: seq<Member>, p: seq<Member>, q: seq<Member>, defs: seq<Member>)
    requires KeyShows(members, fields, "required", defs) && SameNames(p, q)
    ensures (Has(fields, "required") ==> At(fields, "required").JArr? && NamesOk(At(fields, "required").items, q)) <==>
            var required := KeySeen(members, "required", defs);
            (required.Some? ==> required.value.JArr? && NamesOk(SeenItems(required.value.items, defs), p))
  {
    if Has(members, "required") && At(fields, "required").JArr? {
      ShownItems(At(members, "required"), At(fields, "required"), defs);
      NamesAgree(SeenItems(SeenBy(At(members, "required"), defs).items, defs), At(fields, "required").items, p, q);
    }
  }

  lemma {:induction false} PropertyNamesAgree(p: seq<Member>, q: seq<Member>, fold: char -> string)
    requires SameNames(p, q)
    ensures (forall i | 0 <= i < |q| :: q[i].key != "" && PropertyKey(q[i].key, fold) !in FORBIDDEN_PROPERTY_KEYS) <==>
            forall i | 0 <= i < |p| :: PropertyNameOk(p[i].key, fold)
  {
    forall i | 0 <= i < |p|
      ensures (q[i].key != "" && PropertyKey(q[i].key, fold) !in FORBIDDEN_PROPERTY_KEYS) <==> PropertyNameOk(p[i].key, fold)
    {
      LettersAreKey(p[i].key, fold);
    }
  }

  /** Both object checks, in the same words. */
  ghost predicate ObjectParts(properties: Option<Json>, required: Option<Json>, fold: char -> string) {
    && properties.Some? && properties.value.JObj? && properties.value.members != []
    && (forall i | 0 <= i < |properties.value.members| :: PropertyNameOk(properties.value.members[i].key, fold))
    && (required.Some? ==> required.value.JArr? && NamesOk(required.value.items, properties.value.members))
  }

  lemma {:induction false} ObjectOkParts(fields: seq<Member>, fold: char -> string)
    ensures ObjectOk(fields, fold) <==> ObjectParts(Get(fields, "properties"), Get(fields, "required"), fold)
  {
    if Has(fields, "properties") && At(fields, "properties").JObj? {
      var p := At(fields, "properties").members;
      PropertyNamesAgree(p, p, fold);
    }
  }

  lemma {:induction false} ObjectSchemaParts(members: seq<Member>, ctx: Context)
    ensures ObjectSchemaOk(members, ctx) <==>
            && Has(members, "properties") && At(members, "properties").JObj? && At(members, "properties").members != []
            && (forall i | 0 <= i < |At(members, "properties").members| :: PropertyNameOk(At(members, "properties").members[i].key, ctx.fold))
            && var required := KeySeen(members, "required", ctx.defs);
               (required.Some? ==> required.value.JArr? && NamesOk(SeenItems(required.value.items, ctx.defs), At(members, "properties").members))
  {
    if Has(members, "properties") && At(members, "properties").JObj? {
      forall key
        ensures Has(At(members, "properties").members, key) <==>
                exists k :: 0 <= k < |At(members, "properties").members| && At(members, "properties").members[k].key == key
      {
        HasMeans(At(members, "properties").members, key);
      }
    }
  }

  lemma {:induction false} ObjectsAgree(members: seq<Member>, ctx: Context, stack: seq<string>, depth: nat)
    requires depth <= MAX_SCHEMA_DEPTH && UniqueKeys(members) && LowerFields(members, |members|, ctx, stack, depth).Some?
    ensures ObjectOk(LowerFields(members, |members|, ctx, stack, depth).value, ctx.fold) <==> ObjectSchemaOk(members, ctx)
  {
    var fields := LowerFields(members, |members|, ctx, stack, depth).value;
    PropertiesLower(members, ctx, stack, depth);
    KeyIsShown(members, ctx, stack, depth, "required");
    ObjectOkParts(fields, ctx.fold);
    ObjectSchemaParts(members, ctx);
    if Has(members, "properties") {
      var p, q := At(members, "properties").members, At(fields, "properties").members;
      PropertyNamesAgree(p, q, ctx.fold);
      PropertyNamesAgree(q, q, ctx.fold);
      RequiredAgrees(members, fields, p, q, ctx.defs);
    }
  }

  lemma {:induction false} TypesAgree(members: seq<Member>, fields: seq<Member>, ctx: Context)
    requires KeyShows(members, fields, "type", ctx.defs)
    requires ObjectOk(fields, ctx.fold) <==> ObjectSchemaOk(members, ctx)
    requires ArrayOk(fields) <==> ArraySchemaOk(members, ctx.defs)
    ensures TypeOk(fields, ctx.fold) <==> TypeSeenOk(members, ctx)
  {
  }

  /** The checks the compiler makes on the lowered keywords are the checks on the written ones. */
  lemma {:induction false} ChecksAgree(members: seq<Member>, ctx: Context, stack: seq<string>, depth: nat)
    requires depth <= MAX_SCHEMA_DEPTH && UniqueKeys(members) && LowerFields(members, |members|, ctx, stack, depth).Some?
    ensures NodeOk(LowerFields(members, |members|, ctx, stack, depth).value, ctx.fold) <==> ChecksOk(members, ctx)
  {
    var fields := LowerFields(members, |members|, ctx, stack, depth).value;
    AlternativesAgree(members, ctx, stack, depth);
    EnumAgrees(members, ctx, stack, depth);
    KeyIsShown(members, ctx, stack, depth, "description");
    KeyIsShown(members, ctx, stack, depth, "format");
    TextsAgree(members, fields, ctx.defs);
    KeyIsShown(members, ctx, stack, depth, "minimum");
    KeyIsShown(members, ctx, stack, depth, "maximum");
    RangesAgree(members, fields, ctx.defs);
    KeyIsShown(members, ctx, stack, depth, "minItems");
    KeyIsShown(members, ctx, stack, depth, "maxItems");
    KeyIsShown(members, ctx, stack, depth, "items");
    ArraysAgree(members, fields, ctx.defs);
    ObjectsAgree(members, ctx, stack, depth);
    KeyIsShown(members, ctx, stack, depth, "type");
    TypesAgree(members, fields, ctx);
  }

  /* ---- Success ---- */

  /** Definition tables as dictionaries hold them. */
  ghost predicate TableOk(defs: seq<Member>) {
    UniqueKeys(defs) && DefinitionsWellFormed(defs)
  }

  lemma {:induction false} FieldExactly(m: Member, ctx: Context, stack: seq<string>, depth: nat)
    requires depth <= MAX_SCHEMA_DEPTH && WellFormed(m.value) && TableOk(ctx.defs)
    ensures !LowerField(m, ctx, stack, depth).Fail? <==> FieldCompiles(m, ctx, stack, depth)
    decreases Remaining(depth), 0, 0
  {
    IgnoredIsSkipped(m, ctx, stack, depth);
    KeywordsDisjoint();
    if m.key == "properties" {
      if m.value.JObj? {
        TableExactly(m.value.members, ctx, stack, depth + 1);
      }
    } else if IsPlainKeyword(m.key) {
      PlainKeyword(m, ctx, stack, depth);
      LowersExactly(m.value, ctx, stack, depth + 1);
    }
  }

  lemma {:induction false} TableExactly(properties: seq<Member>, ctx: Context, stack: seq<string>, depth: nat)
    requires depth <= MAX_SCHEMA_DEPTH + 1 && WellFormed(JObj(properties)) && TableOk(ctx.defs)
    ensures LowerProperties(properties, |properties|, ctx, stack, depth).Some? <==>
            forall i | 0 <= i < |properties| :: Compiles(properties[i].value, ctx, stack, depth)
    decreases Remaining(depth), 2
  {
    forall i | 0 <= i < |properties|
      ensures Lower(properties[i].value, ctx, stack, depth).Some? <==> Compiles(properties[i].value, ctx, stack, depth)
    {
      LowersExactly(properties[i].value, ctx, stack, depth);
    }
    PropertiesSucceed(properties, |properties|, ctx, stack, depth);
  }

  lemma {:induction false} ListExactly(items: seq<Json>, ctx: Context, stack: seq<string>, depth: nat)
    requires depth <= MAX_SCHEMA_DEPTH + 1 && WellFormed(JArr(items)) && TableOk(ctx.defs)
    ensures LowerItems(items, |items|, ctx, stack, depth).Some? <==>
            forall i | 0 <= i < |items| :: Compiles(items[i], ctx, stack, depth)
    decreases Remaining(depth), 2
  {
    forall i | 0 <= i < |items|
      ensures Lower(items[i], ctx, stack, depth).Some? <==> Compiles(items[i], ctx, stack, depth)
    {
      LowersExactly(items[i], ctx, stack, depth);
    }
    ItemsSucceed(items, |items|, ctx, stack, depth);
  }

  lemma {:induction false} ReferenceExactly(members: seq<Member>, ctx: Context, stack: seq<string>, depth: nat)
    requires depth <= MAX_SCHEMA_DEPTH && Has(members, "$ref") && TableOk(ctx.defs)
    ensures LowerRef(members, ctx, stack, depth).Some? <==>
            && |members| == 1
            && exists i: nat :: RefersTo(members[0].value, ctx.defs, i) && ctx.defs[i].key !in stack
                 && Compiles(ctx.defs[i].value, ctx, stack + [ctx.defs[i].key], depth + 1)
    decreases Remaining(depth), 0
  {
    if |members| == 1 {
      var ref := members[0].value;
      assert At(members, "$ref") == ref;
      forall i: nat | i < |ctx.defs|
        ensures RefName(ref, ctx.defs) == Some(ctx.defs[i].key) <==> RefersTo(ref, ctx.defs, i)
        ensures At(ctx.defs, ctx.defs[i].key) == ctx.defs[i].value
        ensures RefersTo(ref, ctx.defs, i) ==>
                (Lower(ctx.defs[i].value, ctx, stack + [ctx.defs[i].key], depth + 1).Some?
                 <==> Compiles(ctx.defs[i].value, ctx, stack + [ctx.defs[i].key], depth + 1))
      {
        RefersExactly(ref, ctx.defs, i);
        LowersExactly(ctx.defs[i].value, ctx, stack + [ctx.defs[i].key], depth + 1);
      }
      if RefName(ref, ctx.defs).Some? {
        var i := IndexOf(ctx.defs, RefName(ref, ctx.defs).value);
        RefersExactly(ref, ctx.defs, i);
      }
    }
  }

  lemma {:induction false} NodeExactly(members: seq<Member>, ctx: Context, stack: seq<string>, depth: nat)
    requires depth <= MAX_SCHEMA_DEPTH && WellFormed(JObj(members)) && TableOk(ctx.defs)
    ensures (LowerFields(members, |members|, ctx, stack, depth).Some?
             && NodeOk(LowerFields(members, |members|, ctx, stack, depth).value, ctx.fold)) <==>
            (forall i | 0 <= i < |members| :: FieldCompiles(members[i], ctx, stack, depth)) && ChecksOk(members, ctx)
    decreases Remaining(depth), 0, 1
  {
    forall i | 0 <= i < |members|
      ensures !LowerField(members[i], ctx, stack, depth).Fail? <==> FieldCompiles(members[i], ctx, stack, depth)
    {
      FieldExactly(members[i], ctx, stack, depth);
    }
    FieldsSucceed(members, |members|, ctx, stack, depth);
    if LowerFields(members, |members|, ctx, stack, depth).Some? {
      ChecksAgree(members, ctx, stack, depth);
    }
  }

  /** A schema lowers exactly when it is nested at most twelve levels deep with its references unfolded, every reference is to
      a definition and none is circular, it has only known keywords, and every check on the written keywords is met. */
  lemma {:induction false} LowersExactly(value: Json, ctx: Context, stack: seq<string>, depth: nat)
    requires depth <= MAX_SCHEMA_DEPTH + 1 && WellFormed(value) && TableOk(ctx.defs)
    ensures Lower(value, ctx, stack, depth).Some? <==> Compiles(value, ctx, stack, depth)
    decreases Remaining(depth), 1
  {
    if depth <= MAX_SCHEMA_DEPTH {
      match value
      case JArr(items) =>
        ListExactly(items, ctx, stack, depth + 1);
      case JObj(members) =>
        HasMeans(members, "$ref");
        if Has(members, "$ref") {
          ReferenceExactly(members, ctx, stack, depth);
        } else {
          NodeExactly(members, ctx, stack, depth);
        }
      case _ =>
    }
  }
}
