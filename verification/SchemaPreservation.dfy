/** What lowering a schema does to the set of values it accepts. */
module SchemaPreservation {
  import opened Wrappers
  import opened Json
  import opened SchemaLowering
  import opened SchemaPointers
  import opened SchemaSemantics

  /** A name a local reference can reach. */
  predicate Referenceable(name: string) {
    name != "" && '/' !in name
  }

  /** Every definition a reference can reach is an object schema. */
  ghost predicate DefinitionsAreObjects(defs: seq<Member>) {
    forall i | 0 <= i < |defs| :: Referenceable(defs[i].key) ==> defs[i].value.JObj?
  }

  /** By the standard a reference to `name` leads nowhere or to the entry called `name`. */
  predicate ReadsAlike(name: string, defs: seq<Member>) {
    Named(name, defs).None? || Named(name, defs) == Get(defs, name)
  }

  ghost predicate ReferencesAgree(defs: seq<Member>) {
    forall i {:trigger ReadsAlike(defs[i].key, defs)} | 0 <= i < |defs| && Referenceable(defs[i].key) ::
      ReadsAlike(defs[i].key, defs)
  }

  ghost predicate DefinitionsWellFormed(defs: seq<Member>) {
    forall i | 0 <= i < |defs| :: WellFormed(defs[i].value)
  }

  /** The lowered members of a schema object without a reference. */
  function LoweredMembers(members: seq<Member>, ctx: Context, stack: seq<string>, depth: nat): seq<Member>
    requires depth <= MAX_SCHEMA_DEPTH && Lower(JObj(members), ctx, stack, depth).Some? && !Has(members, "$ref")
  {
    Capped(LowerFields(members, |members|, ctx, stack, depth).value)
  }

  /* ---- Keyword by keyword ---- */

  lemma {:induction false} KeywordsDisjoint()
    ensures ALLOWED_KEYWORDS !! STRIPPED_ANNOTATIONS
    ensures forall k | k in {"$defs", "$ref", "additionalProperties", "const"} :: k !in ALLOWED_KEYWORDS
  {
  }

  /** The keyword's result was put under `key` and is still there. */
  predicate PutAt(lowered: seq<Member>, result: FieldResult, key: string) {
    result.Put? && result.key == key && Get(lowered, key) == Some(result.value)
  }

  lemma {:induction false} FieldsGet(members: seq<Member>, n: nat, ctx: Context, stack: seq<string>, depth: nat, key: string)
    requires n <= |members| && depth <= MAX_SCHEMA_DEPTH && UniqueKeys(members) && key != "enum"
    requires LowerFields(members, n, ctx, stack, depth).Some?
    ensures var i, lowered := IndexOf(members, key), LowerFields(members, n, ctx, stack, depth).value;
            if i < n && key in ALLOWED_KEYWORDS then PutAt(lowered, LowerField(members[i], ctx, stack, depth), key)
            else !Has(lowered, key)
  {
    if n > 0 {
      FieldsGet(members, n - 1, ctx, stack, depth, key);
      var m, lowered := members[n - 1], LowerFields(members, n - 1, ctx, stack, depth).value;
      IndexUnique(members, n - 1);
      FieldKey(m, ctx, stack, depth, key);
      FieldsGetLast(LowerField(m, ctx, stack, depth), lowered, key);
    }
  }

  /** A keyword that is not refused writes an allowed key of its own, and no other but `enum`. */
  lemma {:induction false} FieldKey(m: Member, ctx: Context, stack: seq<string>, depth: nat, key: string)
    requires depth <= MAX_SCHEMA_DEPTH && !LowerField(m, ctx, stack, depth).Fail? && key != "enum"
    ensures m.key == key && key in ALLOWED_KEYWORDS ==>
              LowerField(m, ctx, stack, depth).Put? && LowerField(m, ctx, stack, depth).key == key
    ensures LowerField(m, ctx, stack, depth).Put? && LowerField(m, ctx, stack, depth).key == key ==>
              m.key == key && key in ALLOWED_KEYWORDS
  {
    KeywordsDisjoint();
  }

  lemma {:induction false} FieldsGetLast(result: FieldResult, lowered: seq<Member>, key: string)
    ensures result.Put? ==> Get(Set(lowered, result.key, result.value), key) == if result.key == key then Some(result.value) else Get(lowered, key)
  {
    if result.Put? {
      GetSet(lowered, result.key, result.value, key);
    }
  }

  /** The choice list the lowered object carries. */
  function LoweredChoice(members: seq<Member>, n: nat, ctx: Context, stack: seq<string>, depth: nat): Option<Json>
    requires n <= |members| && depth <= MAX_SCHEMA_DEPTH
  {
    if n == 0 then None
    else if members[n - 1].key == "enum" then Lower(members[n - 1].value, ctx, stack, depth + 1)
    else if members[n - 1].key == "const" then Some(JArr([members[n - 1].value]))
    else LoweredChoice(members, n - 1, ctx, stack, depth)
  }

  lemma {:induction false} FieldsChoice(members: seq<Member>, n: nat, ctx: Context, stack: seq<string>, depth: nat)
    requires n <= |members| && depth <= MAX_SCHEMA_DEPTH
    requires LowerFields(members, n, ctx, stack, depth).Some?
    ensures Get(LowerFields(members, n, ctx, stack, depth).value, "enum") == LoweredChoice(members, n, ctx, stack, depth)
  {
    if n > 0 {
      KeywordsDisjoint();
      FieldsChoice(members, n - 1, ctx, stack, depth);
      var m, lowered := members[n - 1], LowerFields(members, n - 1, ctx, stack, depth).value;
      match LowerField(m, ctx, stack, depth)
      case Skip =>
      case Put(k, value) => GetSet(lowered, k, value, "enum");
    }
  }

  lemma {:induction false} GetCapped(members: seq<Member>, key: string)
    ensures key != "maxItems" ==> Get(Capped(members), key) == Get(members, key)
    ensures Get(Capped(members), "maxItems") ==
            if Has(members, "maxItems") then Get(members, "maxItems")
            else if Get(members, "type") == Some(JStr("array")) then Some(JInt(MAX_ARRAY_ITEMS)) else None
  {
    GetAppend(members, Member("maxItems", JInt(MAX_ARRAY_ITEMS)), key);
    GetAppend(members, Member("maxItems", JInt(MAX_ARRAY_ITEMS)), "maxItems");
  }

  /** A keyword whose value is lowered like any node. */
  lemma {:induction false} Keyword(members: seq<Member>, ctx: Context, stack: seq<string>, depth: nat, key: string)
    requires depth <= MAX_SCHEMA_DEPTH && UniqueKeys(members) && !Has(members, "$ref")
    requires Lower(JObj(members), ctx, stack, depth).Some?
    requires key in ALLOWED_KEYWORDS && key != "enum" && key != "properties" && key != "maxItems"
    ensures Get(LoweredMembers(members, ctx, stack, depth), key)
         == if Has(members, key) then Lower(At(members, key), ctx, stack, depth + 1) else None
    ensures Has(members, key) ==> Lower(At(members, key), ctx, stack, depth + 1).Some?
  {
    KeywordsDisjoint();
    FieldsGet(members, |members|, ctx, stack, depth, key);
    GetCapped(LowerFields(members, |members|, ctx, stack, depth).value, key);
  }

  /** A keyword the compiler never emits. */
  lemma {:induction false} KeywordGone(members: seq<Member>, ctx: Context, stack: seq<string>, depth: nat, key: string)
    requires depth <= MAX_SCHEMA_DEPTH && UniqueKeys(members) && !Has(members, "$ref")
    requires Lower(JObj(members), ctx, stack, depth).Some? && key !in ALLOWED_KEYWORDS
    ensures !Has(LoweredMembers(members, ctx, stack, depth), key)
  {
    FieldsGet(members, |members|, ctx, stack, depth, key);
    GetCapped(LowerFields(members, |members|, ctx, stack, depth).value, key);
  }

  lemma {:induction false} KeywordProperties(members: seq<Member>, ctx: Context, stack: seq<string>, depth: nat)
    requires depth <= MAX_SCHEMA_DEPTH && UniqueKeys(members) && !Has(members, "$ref")
    requires Lower(JObj(members), ctx, stack, depth).Some?
    ensures var lowered := LoweredMembers(members, ctx, stack, depth);
            if Has(members, "properties")
            then At(members, "properties").JObj?
                 && var properties := At(members, "properties").members;
                 && LowerProperties(properties, |properties|, ctx, stack, depth + 1).Some?
                 && Get(lowered, "properties")
                    == Some(JObj(LowerProperties(properties, |properties|, ctx, stack, depth + 1).value))
            else !Has(lowered, "properties")
  {
    FieldsGet(members, |members|, ctx, stack, depth, "properties");
    GetCapped(LowerFields(members, |members|, ctx, stack, depth).value, "properties");
  }

  lemma {:induction false} KeywordMaxItems(members: seq<Member>, ctx: Context, stack: seq<string>, depth: nat)
    requires depth <= MAX_SCHEMA_DEPTH && UniqueKeys(members) && !Has(members, "$ref")
    requires Lower(JObj(members), ctx, stack, depth).Some?
    ensures var lowered := LoweredMembers(members, ctx, stack, depth);
            Get(lowered, "maxItems") ==
            if Has(members, "maxItems") then Lower(At(members, "maxItems"), ctx, stack, depth + 1)
            else if Get(lowered, "type") == Some(JStr("array")) then Some(JInt(MAX_ARRAY_ITEMS)) else None
    ensures Has(members, "maxItems") ==> Lower(At(members, "maxItems"), ctx, stack, depth + 1).Some?
  {
    var lowered := LowerFields(members, |members|, ctx, stack, depth).value;
    FieldsGet(members, |members|, ctx, stack, depth, "maxItems");
    GetCapped(lowered, "type");
  }

  /* ---- Shapes survive ---- */

  lemma {:induction false} ItemsShape(items: seq<Json>, n: nat, ctx: Context, stack: seq<string>, depth: nat, i: nat)
    requires i < n <= |items| && depth <= MAX_SCHEMA_DEPTH + 1 && LowerItems(items, n, ctx, stack, depth).Some?
    ensures Lower(items[i], ctx, stack, depth) == Some(LowerItems(items, n, ctx, stack, depth).value[i])
  {
    if i < n - 1 {
      ItemsShape(items, n - 1, ctx, stack, depth, i);
    }
  }

  lemma {:induction false} PropertiesShape(properties: seq<Member>, n: nat, ctx: Context, stack: seq<string>, depth: nat, i: nat)
    requires i < n <= |properties| && depth <= MAX_SCHEMA_DEPTH + 1 && LowerProperties(properties, n, ctx, stack, depth).Some?
    ensures var lowered := LowerProperties(properties, n, ctx, stack, depth).value;
            lowered[i].key == properties[i].key
            && Lower(properties[i].value, ctx, stack, depth) == Some(lowered[i].value)
  {
    if i < n - 1 {
      PropertiesShape(properties, n - 1, ctx, stack, depth, i);
    }
  }

  /** Scalars are kept, lists stay lists, and objects stay objects unless a reference leads elsewhere. */
  lemma {:induction false} LowerKeepsShape(value: Json, ctx: Context, stack: seq<string>, depth: nat)
    requires depth <= MAX_SCHEMA_DEPTH + 1 && DefinitionsAreObjects(ctx.defs)
    requires Lower(value, ctx, stack, depth).Some?
    ensures var lowered := Lower(value, ctx, stack, depth).value;
            && (IsScalar(value) ==> lowered == value)
            && (value.JArr? ==> lowered.JArr? && |lowered.items| == |value.items|)
            && (value.JObj? ==> lowered.JObj?)
    decreases Remaining(depth)
  {
    if value.JObj? && Has(value.members, "$ref") {
      var name := RefName(At(value.members, "$ref"), ctx.defs).value;
      assert Referenceable(name) && ctx.defs[IndexOf(ctx.defs, name)].key == name;
      LowerKeepsShape(At(ctx.defs, name), ctx, stack + [name], depth + 1);
    }
  }

  /** A lowered scalar was that scalar before. */
  lemma {:induction false} ScalarBefore(value: Json, ctx: Context, stack: seq<string>, depth: nat)
    requires depth <= MAX_SCHEMA_DEPTH + 1 && DefinitionsAreObjects(ctx.defs)
    requires Lower(value, ctx, stack, depth).Some?
    ensures var lowered := Lower(value, ctx, stack, depth).value;
            (IsScalar(lowered) || IsScalar(value)) ==> lowered == value
    ensures Number(Lower(value, ctx, stack, depth).value) == Number(value)
    ensures Lower(value, ctx, stack, depth).value.JStr? <==> value.JStr?
  {
    LowerKeepsShape(value, ctx, stack, depth);
  }

  /* ---- Scalar keywords mean the same ---- */

  /** A schema object whose lowering succeeded, with everything the keyword lemmas ask for. */
  ghost predicate Lowerable(members: seq<Member>, ctx: Context, stack: seq<string>, depth: nat) {
    && depth <= MAX_SCHEMA_DEPTH && UniqueKeys(members) && !Has(members, "$ref")
    && LowerFields(members, |members|, ctx, stack, depth).Some?
    && NodeOk(LowerFields(members, |members|, ctx, stack, depth).value, ctx.fold) && DefinitionsAreObjects(ctx.defs)
  }

  lemma {:induction false} TypeExact(members: seq<Member>, ctx: Context, stack: seq<string>, depth: nat, v: Json)
    requires Lowerable(members, ctx, stack, depth)
    ensures Get(LoweredMembers(members, ctx, stack, depth), "type") == Get(members, "type")
    ensures TypeAccepts(members, v) <==> TypeAccepts(LoweredMembers(members, ctx, stack, depth), v)
  {
    Keyword(members, ctx, stack, depth, "type");
    GetCapped(LowerFields(members, |members|, ctx, stack, depth).value, "type");
    if Has(members, "type") {
      ScalarBefore(At(members, "type"), ctx, stack, depth + 1);
    }
  }

  lemma {:induction false} ChoiceBefore(members: seq<Member>, n: nat, ctx: Context, stack: seq<string>, depth: nat)
    requires n <= |members| && depth <= MAX_SCHEMA_DEPTH && DefinitionsAreObjects(ctx.defs)
    requires LowerFields(members, n, ctx, stack, depth).Some?
    requires var c := LoweredChoice(members, n, ctx, stack, depth);
             c.Some? ==> c.value.JArr? && forall i | 0 <= i < |c.value.items| :: IsScalar(c.value.items[i])
    ensures LoweredChoice(members, n, ctx, stack, depth) == LastChoice(members, n)
  {
    if n > 0 {
      var m := members[n - 1];
      if m.key == "enum" {
        assert LowerField(m, ctx, stack, depth).Put?;
        var c := Lower(m.value, ctx, stack, depth + 1).value;
        LowerKeepsShape(m.value, ctx, stack, depth + 1);
        assert m.value.JArr?;
        forall i | 0 <= i < |c.items|
          ensures c.items[i] == m.value.items[i]
        {
          ItemsShape(m.value.items, |m.value.items|, ctx, stack, depth + 2, i);
          ScalarBefore(m.value.items[i], ctx, stack, depth + 2);
        }
        assert c.items == m.value.items;
      } else if m.key != "const" {
        ChoiceBefore(members, n - 1, ctx, stack, depth);
      }
    }
  }

  /** The choice list of an accepted node holds scalars only. */
  lemma {:induction false} ChoiceIsScalar(members: seq<Member>, ctx: Context, stack: seq<string>, depth: nat)
    requires Lowerable(members, ctx, stack, depth)
    ensures LowerFields(members, |members|, ctx, stack, depth).Some?
    ensures var c := LoweredChoice(members, |members|, ctx, stack, depth);
            c.Some? ==> c.value.JArr? && forall i | 0 <= i < |c.value.items| :: IsScalar(c.value.items[i])
  {
    var lowered := LowerFields(members, |members|, ctx, stack, depth).value;
    FieldsChoice(members, |members|, ctx, stack, depth);
    assert EnumOk(lowered);
  }

  lemma {:induction false} ChoiceKept(members: seq<Member>, ctx: Context, stack: seq<string>, depth: nat)
    requires Lowerable(members, ctx, stack, depth)
    ensures Get(LoweredMembers(members, ctx, stack, depth), "enum") == LastChoice(members, |members|)
  {
    ChoiceIsScalar(members, ctx, stack, depth);
    ChoiceBefore(members, |members|, ctx, stack, depth);
    FieldsChoice(members, |members|, ctx, stack, depth);
    GetCapped(LowerFields(members, |members|, ctx, stack, depth).value, "enum");
  }

  lemma {:induction false} ChoiceExact(members: seq<Member>, ctx: Context, stack: seq<string>, depth: nat, v: Json)
    requires Lowerable(members, ctx, stack, depth)
    ensures ChoiceAccepts(Relaxed, members, v) <==> ChoiceAccepts(Strict, LoweredMembers(members, ctx, stack, depth), v)
  {
    KeywordsDisjoint();
    ChoiceKept(members, ctx, stack, depth);
    KeywordGone(members, ctx, stack, depth, "const");
  }

  ghost predicate SameLimit(a: Option<Json>, b: Option<Json>) {
    (if a.Some? then Number(a.value) else None) == (if b.Some? then Number(b.value) else None)
  }

  lemma {:induction false} LimitKept(members: seq<Member>, ctx: Context, stack: seq<string>, depth: nat, key: string)
    requires Lowerable(members, ctx, stack, depth) && key in {"minimum", "maximum", "minItems"}
    ensures SameLimit(Get(members, key), Get(LoweredMembers(members, ctx, stack, depth), key))
  {
    Keyword(members, ctx, stack, depth, key);
    if Has(members, key) {
      ScalarBefore(At(members, key), ctx, stack, depth + 1);
    }
  }

  lemma {:induction false} NumberExact(members: seq<Member>, ctx: Context, stack: seq<string>, depth: nat, v: Json)
    requires Lowerable(members, ctx, stack, depth)
    ensures NumberAccepts(members, v) <==> NumberAccepts(LoweredMembers(members, ctx, stack, depth), v)
  {
    LimitKept(members, ctx, stack, depth, "minimum");
    LimitKept(members, ctx, stack, depth, "maximum");
  }

  lemma {:induction false} MaxItemsExact(members: seq<Member>, ctx: Context, stack: seq<string>, depth: nat, n: nat)
    requires Lowerable(members, ctx, stack, depth)
    ensures AtMost(Get(LoweredMembers(members, ctx, stack, depth), "maxItems"), n as real)
       <==> && AtMost(Get(members, "maxItems"), n as real)
            && (Get(members, "type") == Some(JStr("array")) && !Has(members, "maxItems") ==> n <= MAX_ARRAY_ITEMS)
  {
    KeywordMaxItems(members, ctx, stack, depth);
    TypeKept(members, ctx, stack, depth);
    if Has(members, "maxItems") {
      ScalarBefore(At(members, "maxItems"), ctx, stack, depth + 1);
    }
  }

  lemma {:induction false} TypeKept(members: seq<Member>, ctx: Context, stack: seq<string>, depth: nat)
    requires Lowerable(members, ctx, stack, depth)
    ensures Get(LoweredMembers(members, ctx, stack, depth), "type") == Get(members, "type")
  {
    TypeExact(members, ctx, stack, depth, JNull);
  }

  lemma {:induction false} LengthExact(members: seq<Member>, ctx: Context, stack: seq<string>, depth: nat, v: Json)
    requires Lowerable(members, ctx, stack, depth)
    ensures LengthAccepts(Relaxed, members, v) <==> LengthAccepts(Strict, LoweredMembers(members, ctx, stack, depth), v)
  {
    if v.JArr? {
      LimitKept(members, ctx, stack, depth, "minItems");
      MaxItemsExact(members, ctx, stack, depth, |v.items|);
    } else if v.JStr? {
      KeywordsDisjoint();
      KeywordGone(members, ctx, stack, depth, "minLength");
      KeywordGone(members, ctx, stack, depth, "maxLength");
    }
  }

  /** A lowered list keeps its strings where they were and gains none. */
  lemma {:induction false} StringsKept(list: Json, ctx: Context, stack: seq<string>, depth: nat, i: nat)
    requires depth <= MAX_SCHEMA_DEPTH && DefinitionsAreObjects(ctx.defs)
    requires list.JArr? && i < |list.items| && Lower(list, ctx, stack, depth).Some?
    ensures var lowered := Lower(list, ctx, stack, depth).value;
            && lowered.JArr? && |lowered.items| == |list.items|
            && (lowered.items[i].JStr? <==> list.items[i].JStr?)
            && (list.items[i].JStr? ==> lowered.items[i] == list.items[i])
  {
    ItemsShape(list.items, |list.items|, ctx, stack, depth + 1, i);
    ScalarBefore(list.items[i], ctx, stack, depth + 1);
  }

  lemma {:induction false} RequiredExact(members: seq<Member>, ctx: Context, stack: seq<string>, depth: nat, v: Json)
    requires Lowerable(members, ctx, stack, depth)
    ensures RequiredAccepts(Get(members, "required"), v)
       <==> RequiredAccepts(Get(LoweredMembers(members, ctx, stack, depth), "required"), v)
  {
    Keyword(members, ctx, stack, depth, "required");
    if Has(members, "required") {
      RequiredValueExact(At(members, "required"), ctx, stack, depth + 1, v);
    }
  }

  lemma {:induction false} RequiredValueExact(required: Json, ctx: Context, stack: seq<string>, depth: nat, v: Json)
    requires depth <= MAX_SCHEMA_DEPTH + 1 && DefinitionsAreObjects(ctx.defs) && Lower(required, ctx, stack, depth).Some?
    ensures RequiredAccepts(Some(required), v) <==> RequiredAccepts(Lower(required, ctx, stack, depth), v)
  {
    LowerKeepsShape(required, ctx, stack, depth);
    if required.JArr? {
      forall i | 0 <= i < |required.items| {
        StringsKept(required, ctx, stack, depth, i);
      }
    }
  }

  lemma {:induction false} ScalarKeywordsExact(members: seq<Member>, ctx: Context, stack: seq<string>, depth: nat, v: Json)
    requires Lowerable(members, ctx, stack, depth)
    ensures ScalarKeywordsAccept(Relaxed, members, v)
       <==> ScalarKeywordsAccept(Strict, LoweredMembers(members, ctx, stack, depth), v)
  {
    TypeExact(members, ctx, stack, depth, v);
    ChoiceExact(members, ctx, stack, depth, v);
    NumberExact(members, ctx, stack, depth, v);
    LengthExact(members, ctx, stack, depth, v);
    RequiredExact(members, ctx, stack, depth, v);
  }

  /* ---- The accepted sets ---- */

  ghost predicate LoweredAccepts(schema: Json, v: Json) {
    Accepts(Strict, Nowhere, schema, v, 0)
  }

  /** Lowering keeps the relaxed reading exactly: nothing more and nothing less is accepted. */
  lemma {:induction false} LoweringIsExact(schema: Json, ctx: Context, stack: seq<string>, depth: nat, v: Json, fuel: nat)
    requires depth <= MAX_SCHEMA_DEPTH + 1 && fuel >= Remaining(depth)
    requires Lower(schema, ctx, stack, depth).Some?
    requires WellFormed(schema) && DefinitionsWellFormed(ctx.defs) && DefinitionsAreObjects(ctx.defs)
    ensures Accepts(Relaxed, ByName(ctx.defs), schema, v, fuel) <==> LoweredAccepts(Lower(schema, ctx, stack, depth).value, v)
    decreases Remaining(depth), 2
  {
    if schema.JObj? {
      if Has(schema.members, "$ref") {
        ReferenceExact(schema, ctx, stack, depth, v, fuel);
      } else {
        ObjectExact(schema, ctx, stack, depth, v, fuel);
      }
    }
  }

  lemma {:induction false} ReferenceExact(schema: Json, ctx: Context, stack: seq<string>, depth: nat, v: Json, fuel: nat)
    requires depth <= MAX_SCHEMA_DEPTH && fuel >= Remaining(depth)
    requires schema.JObj? && Has(schema.members, "$ref") && Lower(schema, ctx, stack, depth).Some?
    requires DefinitionsWellFormed(ctx.defs) && DefinitionsAreObjects(ctx.defs)
    ensures Accepts(Relaxed, ByName(ctx.defs), schema, v, fuel) <==> LoweredAccepts(Lower(schema, ctx, stack, depth).value, v)
    decreases Remaining(depth), 1
  {
    var name := RefName(At(schema.members, "$ref"), ctx.defs).value;
    OnlyReference(Relaxed, ByName(ctx.defs), schema, v, fuel);
    LoweringIsExact(At(ctx.defs, name), ctx, stack + [name], depth + 1, v, fuel - 1);
  }

  lemma {:induction false} ObjectExact(schema: Json, ctx: Context, stack: seq<string>, depth: nat, v: Json, fuel: nat)
    requires schema.JObj? && Lowerable(schema.members, ctx, stack, depth) && fuel >= Remaining(depth)
    requires WellFormed(schema) && DefinitionsWellFormed(ctx.defs)
    ensures Accepts(Relaxed, ByName(ctx.defs), schema, v, fuel) <==> LoweredAccepts(Lower(schema, ctx, stack, depth).value, v)
    decreases Remaining(depth), 1
  {
    var lowered := JObj(LoweredMembers(schema.members, ctx, stack, depth));
    KeywordsDisjoint();
    KeywordGone(schema.members, ctx, stack, depth, "$ref");
    KeywordGone(schema.members, ctx, stack, depth, "additionalProperties");
    ByKeyword(Relaxed, ByName(ctx.defs), schema, v, fuel);
    ByKeyword(Strict, Nowhere, lowered, v, 0);
    ScalarKeywordsExact(schema.members, ctx, stack, depth, v);
    ItemsExact(schema, ctx, stack, depth, v, fuel);
    PropertiesExact(schema, ctx, stack, depth, v, fuel);
    AnyOfExact(schema, ctx, stack, depth, v, fuel);
  }

  lemma {:induction false} ByKeyword(mode: Mode, leads: Leads, schema: Json, v: Json, fuel: nat)
    requires schema.JObj? && !Has(schema.members, "$ref")
    requires mode == Strict ==> !Has(schema.members, "additionalProperties")
    ensures Accepts(mode, leads, schema, v, fuel)
       <==> && ScalarKeywordsAccept(mode, schema.members, v) && ItemsAccept(mode, leads, schema, v, fuel)
            && PropertiesAccept(mode, leads, schema, v, fuel) && AnyOfAccepts(mode, leads, schema, v, fuel)
  {
  }

  lemma {:induction false} OnlyReference(mode: Mode, leads: Leads, schema: Json, v: Json, fuel: nat)
    requires schema.JObj? && |schema.members| == 1 && Has(schema.members, "$ref")
    ensures Accepts(mode, leads, schema, v, fuel) <==> RefAccepts(mode, leads, schema, v, fuel)
  {
    OnlyKey(schema.members, "$ref");
    OnlyReferenceScalars(mode, schema.members, v);
  }

  lemma {:induction false} OnlyKey(members: seq<Member>, key: string)
    requires |members| == 1 && Has(members, key)
    ensures forall k | Has(members, k) :: k == key
  {
    assert members[0].key == key;
  }

  lemma {:induction false} OnlyReferenceScalars(mode: Mode, members: seq<Member>, v: Json)
    requires |members| == 1 && members[0].key == "$ref" && forall k | Has(members, k) :: k == "$ref"
    ensures ScalarKeywordsAccept(mode, members, v)
  {
    assert LastChoice(members, 1) == None;
  }

  lemma {:induction false} ItemsExact(schema: Json, ctx: Context, stack: seq<string>, depth: nat, v: Json, fuel: nat)
    requires schema.JObj? && Lowerable(schema.members, ctx, stack, depth) && fuel >= Remaining(depth)
    requires WellFormed(schema) && DefinitionsWellFormed(ctx.defs)
    ensures ItemsAccept(Relaxed, ByName(ctx.defs), schema, v, fuel)
       <==> ItemsAccept(Strict, Nowhere, JObj(LoweredMembers(schema.members, ctx, stack, depth)), v, 0)
    decreases Remaining(depth), 0
  {
    Keyword(schema.members, ctx, stack, depth, "items");
    if v.JArr? && Has(schema.members, "items") {
      EachItemExact(At(schema.members, "items"), ctx, stack, depth + 1, v, fuel);
    }
    SameItems(schema, JObj(LoweredMembers(schema.members, ctx, stack, depth)), ByName(ctx.defs), v, fuel);
  }

  lemma {:induction false} EachItemExact(items: Json, ctx: Context, stack: seq<string>, depth: nat, v: Json, fuel: nat)
    requires depth <= MAX_SCHEMA_DEPTH + 1 && fuel >= Remaining(depth) && v.JArr? && Lower(items, ctx, stack, depth).Some?
    requires WellFormed(items) && DefinitionsWellFormed(ctx.defs) && DefinitionsAreObjects(ctx.defs)
    ensures forall i | 0 <= i < |v.items| ::
              Accepts(Relaxed, ByName(ctx.defs), items, v.items[i], fuel)
              <==> LoweredAccepts(Lower(items, ctx, stack, depth).value, v.items[i])
    decreases Remaining(depth), 3
  {
    forall i | 0 <= i < |v.items| {
      LoweringIsExact(items, ctx, stack, depth, v.items[i], fuel);
    }
  }

  /** The `items` keyword in isolation. */
  lemma {:induction false} SameItems(schema: Json, lowered: Json, leads: Leads, v: Json, fuel: nat)
    requires schema.JObj? && lowered.JObj? && (Has(schema.members, "items") <==> Has(lowered.members, "items"))
    requires v.JArr? && Has(schema.members, "items") ==>
               forall i | 0 <= i < |v.items| ::
                 Accepts(Relaxed, leads, At(schema.members, "items"), v.items[i], fuel)
                 <==> LoweredAccepts(At(lowered.members, "items"), v.items[i])
    ensures ItemsAccept(Relaxed, leads, schema, v, fuel) <==> ItemsAccept(Strict, Nowhere, lowered, v, 0)
  {
  }

  lemma {:induction false} PropertyExact(properties: seq<Member>, ctx: Context, stack: seq<string>, depth: nat, v: Json, fuel: nat, i: nat)
    requires depth <= MAX_SCHEMA_DEPTH && fuel >= Remaining(depth) && i < |properties| && v.JObj?
    requires LowerProperties(properties, |properties|, ctx, stack, depth).Some? && WellFormed(JObj(properties))
    requires DefinitionsWellFormed(ctx.defs) && DefinitionsAreObjects(ctx.defs)
    ensures var lowered := LowerProperties(properties, |properties|, ctx, stack, depth).value;
            && |lowered| == |properties| && lowered[i].key == properties[i].key
            && (Has(v.members, properties[i].key) ==>
                  (Accepts(Relaxed, ByName(ctx.defs), properties[i].value, At(v.members, properties[i].key), fuel)
                   <==> LoweredAccepts(lowered[i].value, At(v.members, properties[i].key))))
    decreases Remaining(depth), 3
  {
    PropertiesShape(properties, |properties|, ctx, stack, depth, i);
    if Has(v.members, properties[i].key) {
      LoweringIsExact(properties[i].value, ctx, stack, depth, At(v.members, properties[i].key), fuel);
    }
  }

  /** The `properties` keyword in isolation: two tables of the same names whose schemas agree on `v`. */
  lemma {:induction false} SameProperties(schema: Json, lowered: Json, leads: Leads, v: Json, fuel: nat)
    requires schema.JObj? && lowered.JObj? && v.JObj?
    requires Has(schema.members, "properties") && Has(lowered.members, "properties")
    requires At(schema.members, "properties").JObj? && At(lowered.members, "properties").JObj?
    requires var p, l := At(schema.members, "properties").members, At(lowered.members, "properties").members;
             |p| == |l| && forall i | 0 <= i < |p| ::
               && l[i].key == p[i].key
               && (Has(v.members, p[i].key) ==>
                     (Accepts(Relaxed, leads, p[i].value, At(v.members, p[i].key), fuel)
                      <==> LoweredAccepts(l[i].value, At(v.members, p[i].key))))
    ensures PropertiesAccept(Relaxed, leads, schema, v, fuel) <==> PropertiesAccept(Strict, Nowhere, lowered, v, 0)
  {
    var p, l := At(schema.members, "properties").members, At(lowered.members, "properties").members;
    assert forall i | 0 <= i < |p| :: l[i].key == p[i].key;
  }

  lemma {:induction false} PropertiesExact(schema: Json, ctx: Context, stack: seq<string>, depth: nat, v: Json, fuel: nat)
    requires schema.JObj? && Lowerable(schema.members, ctx, stack, depth) && fuel >= Remaining(depth)
    requires WellFormed(schema) && DefinitionsWellFormed(ctx.defs)
    ensures PropertiesAccept(Relaxed, ByName(ctx.defs), schema, v, fuel)
       <==> PropertiesAccept(Strict, Nowhere, JObj(LoweredMembers(schema.members, ctx, stack, depth)), v, 0)
    decreases Remaining(depth), 0
  {
    KeywordProperties(schema.members, ctx, stack, depth);
    if v.JObj? && Has(schema.members, "properties") {
      var properties := At(schema.members, "properties").members;
      var lowered := LowerProperties(properties, |properties|, ctx, stack, depth + 1).value;
      forall i | 0 <= i < |properties|
        ensures |lowered| == |properties| && lowered[i].key == properties[i].key
        ensures Has(v.members, properties[i].key) ==>
                  (Accepts(Relaxed, ByName(ctx.defs), properties[i].value, At(v.members, properties[i].key), fuel)
                   <==> LoweredAccepts(lowered[i].value, At(v.members, properties[i].key)))
      {
        PropertyExact(properties, ctx, stack, depth + 1, v, fuel, i);
      }
      SameProperties(schema, JObj(LoweredMembers(schema.members, ctx, stack, depth)), ByName(ctx.defs), v, fuel);
    }
  }

  lemma {:induction false} BranchesExact(anyOf: Json, ctx: Context, stack: seq<string>, depth: nat, v: Json, fuel: nat)
    requires depth <= MAX_SCHEMA_DEPTH && fuel >= Remaining(depth)
    requires anyOf.JArr? && Lower(anyOf, ctx, stack, depth).Some? && WellFormed(anyOf)
    requires DefinitionsWellFormed(ctx.defs) && DefinitionsAreObjects(ctx.defs)
    ensures var lowered := Lower(anyOf, ctx, stack, depth).value;
            && lowered.JArr? && |lowered.items| == |anyOf.items|
            && forall i | 0 <= i < |anyOf.items| ::
                 Accepts(Relaxed, ByName(ctx.defs), anyOf.items[i], v, fuel) <==> LoweredAccepts(lowered.items[i], v)
    decreases Remaining(depth), 0
  {
    forall i | 0 <= i < |anyOf.items|
      ensures Accepts(Relaxed, ByName(ctx.defs), anyOf.items[i], v, fuel)
         <==> LoweredAccepts(Lower(anyOf, ctx, stack, depth).value.items[i], v)
    {
      ItemsShape(anyOf.items, |anyOf.items|, ctx, stack, depth + 1, i);
      LoweringIsExact(anyOf.items[i], ctx, stack, depth + 1, v, fuel);
    }
  }

  lemma {:induction false} AnyOfExact(schema: Json, ctx: Context, stack: seq<string>, depth: nat, v: Json, fuel: nat)
    requires schema.JObj? && Lowerable(schema.members, ctx, stack, depth) && fuel >= Remaining(depth)
    requires WellFormed(schema) && DefinitionsWellFormed(ctx.defs)
    ensures AnyOfAccepts(Relaxed, ByName(ctx.defs), schema, v, fuel)
       <==> AnyOfAccepts(Strict, Nowhere, JObj(LoweredMembers(schema.members, ctx, stack, depth)), v, 0)
    decreases Remaining(depth), 0
  {
    Keyword(schema.members, ctx, stack, depth, "anyOf");
    if Has(schema.members, "anyOf") {
      var anyOf := At(schema.members, "anyOf");
      LowerKeepsShape(anyOf, ctx, stack, depth + 1);
      if anyOf.JArr? {
        BranchesExact(anyOf, ctx, stack, depth + 1, v, fuel);
      }
    }
    SameBranches(schema, JObj(LoweredMembers(schema.members, ctx, stack, depth)), ByName(ctx.defs), v, fuel);
  }

  /** The `anyOf` keyword in isolation. */
  lemma {:induction false} SameBranches(schema: Json, lowered: Json, leads: Leads, v: Json, fuel: nat)
    requires schema.JObj? && lowered.JObj? && (Has(schema.members, "anyOf") <==> Has(lowered.members, "anyOf"))
    requires Has(schema.members, "anyOf") ==>
               var a, b := At(schema.members, "anyOf"), At(lowered.members, "anyOf");
               && (a.JArr? <==> b.JArr?)
               && (a.JArr? ==>
                     |a.items| == |b.items|
                     && forall i | 0 <= i < |a.items| :: Accepts(Relaxed, leads, a.items[i], v, fuel) <==> LoweredAccepts(b.items[i], v))
    ensures AnyOfAccepts(Relaxed, leads, schema, v, fuel) <==> AnyOfAccepts(Strict, Nowhere, lowered, v, 0)
  {
  }

  /* ---- The standard's reading ---- */

  lemma {:induction false} LastChoiceSource(members: seq<Member>, n: nat)
    requires n <= |members| && UniqueKeys(members) && LastChoice(members, n).Some?
    ensures var c := LastChoice(members, n);
            || c == Get(members, "enum")
            || (Has(members, "const") && c == Some(JArr([At(members, "const")])))
  {
    var m := members[n - 1];
    IndexUnique(members, n - 1);
    if m.key != "enum" && m.key != "const" {
      LastChoiceSource(members, n - 1);
    }
  }

  lemma {:induction false} StrictScalarsRelaxed(members: seq<Member>, v: Json)
    requires UniqueKeys(members) && SmallArrays(v) && ScalarKeywordsAccept(Strict, members, v)
    ensures ScalarKeywordsAccept(Relaxed, members, v)
  {
    var c := LastChoice(members, |members|);
    if c.Some? {
      LastChoiceSource(members, |members|);
      if c != Get(members, "enum") {
        assert JsonEqual(c.value.items[0], v);
      }
    }
  }

  /** Wherever both lead somewhere, they lead to the same schema. */
  ghost predicate LeadAlike(a: Leads, b: Leads) {
    forall ref: Json :: a(ref).Some? && b(ref).Some? ==> a(ref) == b(ref) && WellFormed(a(ref).value)
  }

  /** The relaxed reading accepts whatever the standard accepts among values with small arrays,
      however many more unfoldings it is allowed. */
  lemma {:induction false} StrictIsRelaxed(strict: Leads, loose: Leads, schema: Json, v: Json, fuel: nat, more: nat)
    requires WellFormed(schema) && LeadAlike(strict, loose) && SmallArrays(v) && fuel <= more
    requires Accepts(Strict, strict, schema, v, fuel)
    ensures Accepts(Relaxed, loose, schema, v, more)
    decreases fuel, schema, 1
  {
    if schema.JObj? {
      if Has(schema.members, "$ref") {
        StrictRefRelaxed(strict, loose, schema, v, fuel, more);
      }
      StrictScalarsRelaxed(schema.members, v);
      StrictItemsRelaxed(strict, loose, schema, v, fuel, more);
      StrictPropertiesRelaxed(strict, loose, schema, v, fuel, more);
      StrictAnyOfRelaxed(strict, loose, schema, v, fuel, more);
    }
  }

  lemma {:induction false} StrictRefRelaxed(strict: Leads, loose: Leads, schema: Json, v: Json, fuel: nat, more: nat)
    requires schema.JObj? && Has(schema.members, "$ref") && LeadAlike(strict, loose)
    requires SmallArrays(v) && fuel <= more && RefAccepts(Strict, strict, schema, v, fuel)
    ensures RefAccepts(Relaxed, loose, schema, v, more)
    decreases fuel, schema, 0
  {
    var ref := At(schema.members, "$ref");
    if loose(ref).Some? {
      StrictIsRelaxed(strict, loose, loose(ref).value, v, fuel - 1, more - 1);
    }
  }

  lemma {:induction false} StrictItemsRelaxed(strict: Leads, loose: Leads, schema: Json, v: Json, fuel: nat, more: nat)
    requires schema.JObj? && WellFormed(schema) && LeadAlike(strict, loose) && SmallArrays(v) && fuel <= more
    requires ItemsAccept(Strict, strict, schema, v, fuel)
    ensures ItemsAccept(Relaxed, loose, schema, v, more)
    decreases fuel, schema, 0
  {
    if v.JArr? && Has(schema.members, "items") {
      forall i | 0 <= i < |v.items| {
        StrictIsRelaxed(strict, loose, At(schema.members, "items"), v.items[i], fuel, more);
      }
    }
  }

  lemma {:induction false} StrictPropertiesRelaxed(strict: Leads, loose: Leads, schema: Json, v: Json, fuel: nat, more: nat)
    requires schema.JObj? && WellFormed(schema) && LeadAlike(strict, loose) && SmallArrays(v) && fuel <= more
    requires PropertiesAccept(Strict, strict, schema, v, fuel)
    ensures PropertiesAccept(Relaxed, loose, schema, v, more)
    decreases fuel, schema, 0
  {
    if v.JObj? && Has(schema.members, "properties") && At(schema.members, "properties").JObj? {
      var properties := At(schema.members, "properties").members;
      assert WellFormed(At(schema.members, "properties"));
      forall i | 0 <= i < |properties| && Has(v.members, properties[i].key) {
        StrictIsRelaxed(strict, loose, properties[i].value, At(v.members, properties[i].key), fuel, more);
      }
    }
  }

  lemma {:induction false} StrictAnyOfRelaxed(strict: Leads, loose: Leads, schema: Json, v: Json, fuel: nat, more: nat)
    requires schema.JObj? && WellFormed(schema) && LeadAlike(strict, loose) && SmallArrays(v) && fuel <= more
    requires AnyOfAccepts(Strict, strict, schema, v, fuel)
    ensures AnyOfAccepts(Relaxed, loose, schema, v, more)
    decreases fuel, schema, 0
  {
    if Has(schema.members, "anyOf") && At(schema.members, "anyOf").JArr? {
      var branches := At(schema.members, "anyOf").items;
      var i :| 0 <= i < |branches| && Accepts(Strict, strict, branches[i], v, fuel);
      assert WellFormed(At(schema.members, "anyOf"));
      StrictIsRelaxed(strict, loose, branches[i], v, fuel, more);
    }
  }

  lemma {:induction false} PointersLeadAlike(defs: seq<Member>)
    requires ReferencesAgree(defs) && DefinitionsWellFormed(defs)
    ensures LeadAlike(ByPointer(defs), ByName(defs))
  {
    forall ref: Json | ByPointer(defs)(ref).Some? && ByName(defs)(ref).Some?
      ensures ByPointer(defs)(ref) == ByName(defs)(ref) && WellFormed(ByPointer(defs)(ref).value)
    {
      var name := RefName(ref, defs).value;
      assert defs[IndexOf(defs, name)].key == name;
      assert ReadsAlike(defs[IndexOf(defs, name)].key, defs);
    }
  }

  /** A schema accepts a value when finitely many reference unfoldings show that it does. */
  ghost predicate SchemaAccepts(defs: seq<Member>, schema: Json, v: Json) {
    exists fuel: nat :: Accepts(Strict, ByPointer(defs), schema, v, fuel)
  }

  /** A successfully lowered schema accepts every value with small arrays that its source accepts. */
  lemma {:induction false} LoweringPreservesAcceptance(schema: Json, ctx: Context, stack: seq<string>, depth: nat, v: Json)
    requires depth <= MAX_SCHEMA_DEPTH + 1 && Lower(schema, ctx, stack, depth).Some?
    requires WellFormed(schema) && DefinitionsWellFormed(ctx.defs)
    requires DefinitionsAreObjects(ctx.defs) && ReferencesAgree(ctx.defs)
    requires SmallArrays(v) && SchemaAccepts(ctx.defs, schema, v)
    ensures LoweredAccepts(Lower(schema, ctx, stack, depth).value, v)
  {
    var fuel: nat :| Accepts(Strict, ByPointer(ctx.defs), schema, v, fuel);
    var enough := if fuel < Remaining(depth) then Remaining(depth) else fuel;
    PointersLeadAlike(ctx.defs);
    StrictIsRelaxed(ByPointer(ctx.defs), ByName(ctx.defs), schema, v, fuel, enough);
    LoweringIsExact(schema, ctx, stack, depth, v, enough);
  }

  /* ---- Exactly when acceptance is preserved ---- */

  /** Definitions are schemas: objects or booleans, one per name. */
  ghost predicate DefinitionsAreSchemas(defs: seq<Member>) {
    && UniqueKeys(defs) && DefinitionsWellFormed(defs)
    && forall i | 0 <= i < |defs| :: defs[i].value.JObj? || defs[i].value.JBool?
  }

  /** Under this definition table every successful lowering preserves acceptance. */
  ghost predicate AlwaysPreserves(ctx: Context) {
    forall schema: Json, v: Json ::
      WellFormed(schema) && Lower(schema, ctx, [], 0).Some? && SmallArrays(v) && SchemaAccepts(ctx.defs, schema, v)
      ==> LoweredAccepts(Lower(schema, ctx, [], 0).value, v)
  }

  /** The object holding just a reference. */
  function ReferenceObject(ref: string): Json {
    JObj([Member("$ref", JStr(ref))])
  }

  /** The schema allowing one listed value. */
  function EnumOf(value: Json): Json {
    JObj([Member("enum", JArr([value]))])
  }

  lemma {:induction false} OneMember(m: Member)
    ensures forall k :: Has([m], k) <==> k == m.key
    ensures At([m], m.key) == m.value
  {
    forall k
      ensures Has([m], k) <==> k == m.key
    {
      assert [m][0] == m;
    }
  }

  lemma {:induction false} OneItemLowers(item: Json, ctx: Context, stack: seq<string>, depth: nat, lowered: Json)
    requires depth <= MAX_SCHEMA_DEPTH && Lower(item, ctx, stack, depth + 1) == Some(lowered)
    ensures Lower(JArr([item]), ctx, stack, depth) == Some(JArr([lowered]))
  {
    var items, none: seq<Json> := [item], [];
    assert LowerItems(items, 0, ctx, stack, depth + 1) == Some(none);
    assert items[0] == item && none + [lowered] == [lowered];
    assert LowerItems(items, 1, ctx, stack, depth + 1) == Some([lowered]);
  }

  lemma {:induction false} OneFieldLowers(m: Member, ctx: Context, stack: seq<string>, depth: nat)
    requires depth <= MAX_SCHEMA_DEPTH && LowerField(m, ctx, stack, depth).Put?
    ensures var put := LowerField(m, ctx, stack, depth);
            LowerFields([m], 1, ctx, stack, depth) == Some([Member(put.key, put.value)])
  {
    var members, put := [m], LowerField(m, ctx, stack, depth);
    assert LowerFields(members, 0, ctx, stack, depth) == Some([]);
    assert Set([], put.key, put.value) == [Member(put.key, put.value)];
  }

  lemma {:induction false} EnumOfLowers(value: Json, ctx: Context, lowered: Json)
    requires Lower(value, ctx, [], 2) == Some(lowered) && IsScalar(lowered) && lowered != JNull
    ensures Lower(EnumOf(value), ctx, [], 0) == Some(EnumOf(lowered))
  {
    var m := Member("enum", JArr([value]));
    OneItemLowers(value, ctx, [], 1, lowered);
    EnumNodeOk(lowered, ctx.fold);
    OneKeywordLowers(m, ctx, [], 0, Member("enum", JArr([lowered])));
  }

  lemma {:induction false} OneKeywordLowers(m: Member, ctx: Context, stack: seq<string>, depth: nat, out: Member)
    requires depth <= MAX_SCHEMA_DEPTH && m.key != "$ref" && LowerField(m, ctx, stack, depth) == Put(out.key, out.value)
    requires NodeOk([out], ctx.fold) && Capped([out]) == [out]
    ensures Lower(JObj([m]), ctx, stack, depth) == Some(JObj([out]))
  {
    OneFieldLowers(m, ctx, stack, depth);
    OneMember(m);
  }

  lemma {:induction false} EnumNodeOk(value: Json, fold: char -> string)
    requires IsScalar(value) && value != JNull
    ensures var node := EnumOf(value).members;
            NodeOk(node, fold) && Capped(node) == node
  {
    OneMember(Member("enum", JArr([value])));
  }

  lemma {:induction false} EnumOfWellFormed(value: Json)
    requires WellFormed(value)
    ensures WellFormed(EnumOf(value))
  {
    assert WellFormed(JArr([value]));
  }

  lemma {:induction false} EnumOfChoice(listed: Json, v: Json)
    ensures ChoiceAccepts(Strict, EnumOf(listed).members, v) <==> JsonEqual(listed, v)
  {
    OneMember(Member("enum", JArr([listed])));
    assert OneOf(Some(JArr([listed])), v) <==> JsonEqual([listed][0], v);
  }

  lemma {:induction false} EnumOfScalars(listed: Json, v: Json)
    ensures ScalarKeywordsAccept(Strict, EnumOf(listed).members, v) <==> JsonEqual(listed, v)
  {
    OneMember(Member("enum", JArr([listed])));
    EnumOfChoice(listed, v);
  }

  lemma {:induction false} EnumOfAccepts(leads: Leads, listed: Json, v: Json)
    ensures Accepts(Strict, leads, EnumOf(listed), v, 0) <==> JsonEqual(listed, v)
  {
    OneMember(Member("enum", JArr([listed])));
    EnumOfScalars(listed, v);
  }

  /** A boolean definition turns a literal reference object inside `enum` into that boolean, and the
      value the source allowed is lost. */
  lemma {:induction false} BooleanDefinitionLosesValue(ctx: Context, i: nat)
    requires DefinitionsAreSchemas(ctx.defs) && i < |ctx.defs|
    requires Referenceable(ctx.defs[i].key) && ctx.defs[i].value.JBool?
    ensures var v := ReferenceObject(REF_PREFIX + ctx.defs[i].key);
            && WellFormed(EnumOf(v)) && SmallArrays(v)
            && Lower(EnumOf(v), ctx, [], 0) == Some(EnumOf(ctx.defs[i].value))
            && SchemaAccepts(ctx.defs, EnumOf(v), v)
            && !LoweredAccepts(EnumOf(ctx.defs[i].value), v)
  {
    var name, b := ctx.defs[i].key, ctx.defs[i].value;
    var ref := REF_PREFIX + name;
    var v := ReferenceObject(ref);
    IndexUnique(ctx.defs, i);
    OneMember(Member("$ref", JStr(ref)));
    assert ref[|REF_PREFIX|..] == name;
    assert RefName(JStr(ref), ctx.defs) == Some(name);
    assert Lower(b, ctx, [name], 3) == Some(b);
    assert WellFormed(JStr(ref)) && WellFormed(v);
    EnumOfWellFormed(v);
    EnumOfLowers(v, ctx, b);
    assert JsonEqual(v, v);
    EnumOfAccepts(ByPointer(ctx.defs), v, v);
    EnumOfAccepts(Nowhere, b, v);
  }

  /** A concrete table: the definition `flag` is the schema `true`. */
  lemma {:induction false} AcceptanceCanBeLost(fold: char -> string)
    ensures !AlwaysPreserves(Context([Member("flag", JBool(true))], fold))
  {
    var ctx := Context([Member("flag", JBool(true))], fold);
    assert WellFormed(JBool(true));
    BooleanDefinitionLosesValue(ctx, 0);
    var v := ReferenceObject(REF_PREFIX + "flag");
    assert ctx.defs[0].key == "flag";
    assert !LoweredAccepts(Lower(EnumOf(v), ctx, [], 0).value, v);
  }

  /** Where references read alike, acceptance is preserved for all schemas and values exactly when no
      reachable definition is a boolean schema. */
  lemma {:induction false} PreservationCondition(ctx: Context)
    requires DefinitionsAreSchemas(ctx.defs)
    ensures AlwaysPreserves(ctx) ==> DefinitionsAreObjects(ctx.defs)
    ensures ReferencesAgree(ctx.defs) ==> (AlwaysPreserves(ctx) <==> DefinitionsAreObjects(ctx.defs))
  {
    if DefinitionsAreObjects(ctx.defs) && ReferencesAgree(ctx.defs) {
      forall schema: Json, v: Json |
        WellFormed(schema) && Lower(schema, ctx, [], 0).Some? && SmallArrays(v) && SchemaAccepts(ctx.defs, schema, v)
        ensures LoweredAccepts(Lower(schema, ctx, [], 0).value, v)
      {
        LoweringPreservesAcceptance(schema, ctx, [], 0, v);
      }
    } else if !DefinitionsAreObjects(ctx.defs) {
      var i :| 0 <= i < |ctx.defs| && Referenceable(ctx.defs[i].key) && !ctx.defs[i].value.JObj?;
      BooleanDefinitionLosesValue(ctx, i);
      var v := ReferenceObject(REF_PREFIX + ctx.defs[i].key);
      assert !LoweredAccepts(Lower(EnumOf(v), ctx, [], 0).value, v);
    }
  }

  /* ---- Names that the standard reads differently ---- */

  /** A table of object definitions under these names. */
  ghost predicate ObjectTable(defs: seq<Member>, names: seq<string>) {
    && |defs| == |names| && DefinitionsWellFormed(defs)
    && forall i | 0 <= i < |defs| :: defs[i].key == names[i] && defs[i].value.JObj?
  }

  /** No reference to a name is, by the standard, one into another entry. */
  predicate NamesReadLiterally(names: seq<string>) {
    forall i | 0 <= i < |names| && Referenceable(names[i]) :: IsLiteral(names[i]) || Tokens(names[i])[0] !in names
  }

  function TypeOnly(name: string): Json {
    JObj([Member("type", JStr(name))])
  }

  /** An object that leads to an integer schema along the tokens. */
  function Nest(tokens: seq<string>): Json {
    if tokens == [] then TypeOnly("integer") else JObj([Member(tokens[0], Nest(tokens[1..]))])
  }

  /** The entry `name` takes strings; all others lead to integers along the later tokens of `name`. */
  function SplitTable(names: seq<string>, name: string): seq<Member> {
    seq(|names|, i requires 0 <= i < |names| =>
      Member(names[i], if names[i] == name then TypeOnly("string") else Nest(Tokens(name)[1..])))
  }

  lemma {:induction false} WalkNest(tokens: seq<string>)
    ensures Walk(Nest(tokens), tokens) == Some(TypeOnly("integer"))
    ensures Nest(tokens).JObj? && WellFormed(Nest(tokens))
  {
    if tokens != [] {
      WalkNest(tokens[1..]);
      OneMember(Member(tokens[0], Nest(tokens[1..])));
    }
  }

  lemma {:induction false} TypeOnlyLowers(name: string, ctx: Context, stack: seq<string>, depth: nat)
    requires depth < MAX_SCHEMA_DEPTH && name in {"string", "integer"}
    ensures Lower(TypeOnly(name), ctx, stack, depth) == Some(TypeOnly(name))
  {
    var m := Member("type", JStr(name));
    TypeNodeOk(name, ctx.fold);
    OneKeywordLowers(m, ctx, stack, depth, m);
  }

  lemma {:induction false} TypeNodeOk(name: string, fold: char -> string)
    requires name in {"string", "integer"}
    ensures var node := TypeOnly(name).members;
            NodeOk(node, fold) && Capped(node) == node
  {
    OneMember(Member("type", JStr(name)));
  }

  lemma {:induction false} TypeOnlyAccepts(name: string, leads: Leads, n: int, fuel: nat)
    requires name in {"string", "integer"}
    ensures Accepts(Strict, leads, TypeOnly(name), JInt(n), fuel) <==> name == "integer"
  {
    OneMember(Member("type", JStr(name)));
  }

  lemma {:induction false} ReferenceAccepts(leads: Leads, ref: string, v: Json)
    requires leads(JStr(ref)).Some? && Accepts(Strict, leads, leads(JStr(ref)).value, v, 0)
    ensures Accepts(Strict, leads, ReferenceObject(ref), v, 1)
  {
    OneMember(Member("$ref", JStr(ref)));
    OnlyReference(Strict, leads, ReferenceObject(ref), v, 1);
  }

  lemma {:induction false} ReferenceLowers(ctx: Context, name: string)
    requires Referenceable(name) && Has(ctx.defs, name)
    ensures Lower(ReferenceObject(REF_PREFIX + name), ctx, [], 0) == Lower(At(ctx.defs, name), ctx, [name], 1)
  {
    var ref := REF_PREFIX + name;
    assert ref[|REF_PREFIX|..] == name;
    assert RefName(JStr(ref), ctx.defs) == Some(name);
    OneMember(Member("$ref", JStr(ref)));
    assert [] + [name] == [name];
  }

  lemma {:induction false} SplitTableReads(names: seq<string>, name: string)
    requires Distinct(names) && name in names && '/' !in name && !IsLiteral(name) && Tokens(name)[0] in names
    ensures var defs := SplitTable(names, name);
            && ObjectTable(defs, names)
            && Get(defs, name) == Some(TypeOnly("string")) && Named(name, defs) == Some(TypeOnly("integer"))
  {
    var defs, tokens := SplitTable(names, name), Tokens(name);
    FirstTokenDiffers(name);
    WalkNest(tokens[1..]);
    WalkNest([]);
    assert WellFormed(TypeOnly("string"));
    var i :| 0 <= i < |names| && names[i] == name;
    var j :| 0 <= j < |names| && names[j] == tokens[0];
    assert UniqueKeys(defs);
    IndexUnique(defs, i);
    IndexUnique(defs, j);
    assert defs[i].key == name && defs[j].key == tokens[0];
  }

  /** A name that the standard reads as one into another entry loses 5 under some table: the entry called
      `name` takes strings, and the schema the standard finds takes integers. */
  lemma {:induction false} EscapedNameLosesValue(names: seq<string>, name: string, fold: char -> string)
    requires Distinct(names) && name in names && Referenceable(name)
    requires !IsLiteral(name) && Tokens(name)[0] in names
    ensures ObjectTable(SplitTable(names, name), names)
    ensures !AlwaysPreserves(Context(SplitTable(names, name), fold))
  {
    var defs := SplitTable(names, name);
    SplitTableReads(names, name);
    NamedApartLosesValue(Context(defs, fold), name);
  }

  lemma {:induction false} ReferenceWellFormed(name: string)
    ensures WellFormed(ReferenceObject(name))
  {
    OneMember(Member("$ref", JStr(name)));
    assert WellFormed(JStr(name));
  }

  lemma {:induction false} NamedApartLosesValue(ctx: Context, name: string)
    requires Referenceable(name)
    requires Get(ctx.defs, name) == Some(TypeOnly("string")) && Named(name, ctx.defs) == Some(TypeOnly("integer"))
    ensures !AlwaysPreserves(ctx)
  {
    var schema := ReferenceObject(REF_PREFIX + name);
    TypeOnlyAccepts("integer", ByPointer(ctx.defs), 5, 0);
    TypeOnlyAccepts("string", Nowhere, 5, 0);
    assert (REF_PREFIX + name)[|REF_PREFIX|..] == name;
    ReferenceAccepts(ByPointer(ctx.defs), REF_PREFIX + name, JInt(5));
    ReferenceLowers(ctx, name);
    TypeOnlyLowers("string", ctx, [name], 1);
    ReferenceWellFormed(REF_PREFIX + name);
    LostUnder(ctx, schema, TypeOnly("string"), JInt(5), 1);
  }

  lemma {:induction false} LostUnder(ctx: Context, schema: Json, lowered: Json, v: Json, fuel: nat)
    requires WellFormed(schema) && Lower(schema, ctx, [], 0) == Some(lowered) && SmallArrays(v)
    requires Accepts(Strict, ByPointer(ctx.defs), schema, v, fuel) && !LoweredAccepts(lowered, v)
    ensures !AlwaysPreserves(ctx)
  {
    assert SchemaAccepts(ctx.defs, schema, v);
    assert !LoweredAccepts(Lower(schema, ctx, [], 0).value, v);
  }

  /** Exactly the names under which every table of object definitions preserves acceptance. */
  lemma {:induction false} NamesCondition(names: seq<string>, fold: char -> string)
    requires Distinct(names)
    ensures (forall defs | ObjectTable(defs, names) :: AlwaysPreserves(Context(defs, fold))) <==> NamesReadLiterally(names)
  {
    if NamesReadLiterally(names) {
      forall defs | ObjectTable(defs, names)
        ensures AlwaysPreserves(Context(defs, fold))
      {
        LiteralNamesAgree(defs, names);
        assert UniqueKeys(defs);
        PreservationCondition(Context(defs, fold));
      }
    } else {
      var i :| 0 <= i < |names| && Referenceable(names[i]) && !IsLiteral(names[i]) && Tokens(names[i])[0] in names;
      EscapedNameLosesValue(names, names[i], fold);
    }
  }

  lemma {:induction false} LiteralNamesAgree(defs: seq<Member>, names: seq<string>)
    requires ObjectTable(defs, names) && NamesReadLiterally(names)
    ensures ReferencesAgree(defs)
  {
    forall i | 0 <= i < |defs| && Referenceable(defs[i].key)
      ensures ReadsAlike(defs[i].key, defs)
    {
      var name := names[i];
      if IsLiteral(name) {
        LiteralNamed(name, defs);
      } else {
        assert !Has(defs, Tokens(name)[0]);
        AbsentNamed(name, defs);
      }
    }
  }

  /** Two names of this kind: `a~1b` is, in a reference, the escaped spelling of `a/b`. */
  lemma {:induction false} SlashNameLosesValue(fold: char -> string)
    ensures exists defs | ObjectTable(defs, ["a~1b", "a/b"]) :: !AlwaysPreserves(Context(defs, fold))
  {
    var name, names := "a~1b", ["a~1b", "a/b"];
    TokensOfEscaped();
    assert names[0] != names[1] && names[1] in names && names[0] in names;
    assert name[0] == 'a' && name[1] == '~' && name[2] == '1' && name[3] == 'b';
    EscapedNameLosesValue(names, name, fold);
  }

  lemma {:induction false} TokensOfEscaped()
    ensures Tokens("a~1b") == ["a/b"] && !IsLiteral("a~1b")
  {
    var s := "a~1b";
    assert s[1..] == "~1b" && s[1..][1..] == "1b" && s[1..][1..][1..] == "b" && s[1..][1..][1..][1..] == "";
    assert Decoded("") == "" && Decoded("b") == "b" && Decoded("1b") == "1b" && Decoded("~1b") == "~1b" && Decoded(s) == s;
    assert Split(s) == [s];
    assert "~1b"[2..] == "b" && "b"[1..] == "";
    assert Unescaped("b") == "b" && Unescaped("~1b") == "/" + "b" && Unescaped(s) == "a" + "/b";
    assert "a" + "/b" == "a/b";
    assert "a/b"[1] != s[1];
  }
}
