/** The shape of lowered schemas. Nothing a provider would reject is left in them, and lowering one again gives it
    back unless the depth guard fires. */
module SchemaNormalForm {
  import opened Wrappers
  import opened Json
  import opened SchemaLowering
  import opened SchemaPreservation

  /** Only allowed keywords, each once; every node passes the node checks and every array schema
      states its cap. Property names are free: the restriction is on keywords, not on them. */
  ghost predicate NormalForm(j: Json, fold: char -> string) {
    match j
    case JArr(items) => forall i | 0 <= i < |items| :: NormalForm(items[i], fold)
    case JObj(members) =>
      && UniqueKeys(members) && NodeOk(members, fold)
      && (Get(members, "type") == Some(JStr("array")) ==> Has(members, "maxItems"))
      && forall i | 0 <= i < |members| :: members[i].key in ALLOWED_KEYWORDS && NormalField(members[i], fold)
    case _ => true
  }

  ghost predicate NormalField(m: Member, fold: char -> string)
    decreases m, 0
  {
    if m.key == "properties"
    then m.value.JObj? && forall i | 0 <= i < |m.value.members| :: NormalForm(m.value.members[i].value, fold)
    else NormalForm(m.value, fold)
  }

  /** The depth guard does not fire anywhere inside `j` when `j` sits at `depth`. */
  predicate Fits(j: Json, depth: nat)
    decreases j, 0
  {
    && depth <= MAX_SCHEMA_DEPTH
    && match j
       case JArr(items) => ItemsFit(items, |items|, depth + 1)
       case JObj(members) => FieldsFit(members, |members|, depth)
       case _ => true
  }

  predicate ItemsFit(items: seq<Json>, n: nat, depth: nat)
    requires n <= |items|
    decreases items, n
  {
    n == 0 || (ItemsFit(items, n - 1, depth) && Fits(items[n - 1], depth))
  }

  predicate PropertiesFit(properties: seq<Member>, n: nat, depth: nat)
    requires n <= |properties|
    decreases properties, n
  {
    n == 0 || (PropertiesFit(properties, n - 1, depth) && Fits(properties[n - 1].value, depth))
  }

  predicate FieldsFit(members: seq<Member>, n: nat, depth: nat)
    requires n <= |members|
    decreases members, n
  {
    n == 0 || (FieldsFit(members, n - 1, depth) && FieldFits(members[n - 1], depth))
  }

  /** Property schemas sit one level below the keyword, other values likewise; the table itself does not count. */
  predicate FieldFits(m: Member, depth: nat)
    decreases m, 0
  {
    if m.key == "properties" && m.value.JObj?
    then PropertiesFit(m.value.members, |m.value.members|, depth + 1)
    else Fits(m.value, depth + 1)
  }

  /* ---- Lowering produces normal forms ---- */

  lemma {:induction false} CappedSame(members: seq<Member>)
    ensures forall key | key != "maxItems" ::
              Has(Capped(members), key) == Has(members, key)
              && (Has(members, key) ==> At(Capped(members), key) == At(members, key))
  {
    forall key | key != "maxItems"
      ensures Has(Capped(members), key) == Has(members, key)
              && (Has(members, key) ==> At(Capped(members), key) == At(members, key))
    {
      GetCapped(members, key);
      assert Get(Capped(members), key) == Get(members, key);
    }
  }

  lemma {:induction false} CappedArrayOk(members: seq<Member>)
    requires ArrayOk(members) && Get(members, "type") == Some(JStr("array"))
    ensures ArrayOk(Capped(members)) && Has(Capped(members), "maxItems")
  {
    CappedSame(members);
    GetCapped(members, "maxItems");
    assert Get(Capped(members), "maxItems").Some?;
  }

  /** Stating the default cap keeps every node check. */
  lemma {:induction false} CappedOk(members: seq<Member>, fold: char -> string)
    requires NodeOk(members, fold)
    ensures NodeOk(Capped(members), fold)
    ensures Get(Capped(members), "type") == Some(JStr("array")) ==> Has(Capped(members), "maxItems")
    ensures UniqueKeys(members) ==> UniqueKeys(Capped(members))
  {
    if Get(members, "type") == Some(JStr("array")) {
      CappedSame(members);
      CappedArrayOk(members);
      assert TypeOk(Capped(members), fold);
    }
  }

  /** Whatever lowering returns is in normal form. */
  lemma {:induction false} LowerIsNormal(value: Json, ctx: Context, stack: seq<string>, depth: nat)
    requires depth <= MAX_SCHEMA_DEPTH + 1 && Lower(value, ctx, stack, depth).Some?
    ensures NormalForm(Lower(value, ctx, stack, depth).value, ctx.fold)
    decreases Remaining(depth), 2, 0
  {
    match value
    case JArr(items) =>
      forall i | 0 <= i < |items|
        ensures NormalForm(Lower(value, ctx, stack, depth).value.items[i], ctx.fold)
      {
        ItemsShape(items, |items|, ctx, stack, depth + 1, i);
        LowerIsNormal(items[i], ctx, stack, depth + 1);
      }
    case JObj(members) =>
      if Has(members, "$ref") {
        var name := RefName(At(members, "$ref"), ctx.defs).value;
        LowerIsNormal(At(ctx.defs, name), ctx, stack + [name], depth + 1);
      } else {
        NodeIsNormal(members, ctx, stack, depth);
      }
    case _ =>
  }

  lemma {:induction false} NodeIsNormal(members: seq<Member>, ctx: Context, stack: seq<string>, depth: nat)
    requires depth <= MAX_SCHEMA_DEPTH && !Has(members, "$ref") && Lower(JObj(members), ctx, stack, depth).Some?
    ensures NormalForm(JObj(LoweredMembers(members, ctx, stack, depth)), ctx.fold)
    decreases Remaining(depth), 1, |members| + 1
  {
    var lowered := LowerFields(members, |members|, ctx, stack, depth).value;
    var capped := Capped(lowered);
    FieldsAreNormal(members, |members|, ctx, stack, depth);
    CappedOk(lowered, ctx.fold);
    forall i | 0 <= i < |capped|
      ensures capped[i].key in ALLOWED_KEYWORDS && NormalField(capped[i], ctx.fold)
    {
      if i < |lowered| {
        assert capped[i] == lowered[i];
        if capped[i].key == "enum" {
          IndexUnique(lowered, i);
          EnumIsNormal(lowered, ctx.fold);
        }
      }
    }
  }

  lemma {:induction false} EnumIsNormal(members: seq<Member>, fold: char -> string)
    requires EnumOk(members) && Has(members, "enum")
    ensures NormalForm(At(members, "enum"), fold)
  {
    var values := At(members, "enum");
    assert forall i | 0 <= i < |values.items| :: NormalForm(values.items[i], fold);
  }

  /** Every keyword a lowering writes is allowed, and all but the still unchecked choice are normal. */
  lemma {:induction false} FieldsAreNormal(members: seq<Member>, n: nat, ctx: Context, stack: seq<string>, depth: nat)
    requires n <= |members| && depth <= MAX_SCHEMA_DEPTH && LowerFields(members, n, ctx, stack, depth).Some?
    ensures var lowered := LowerFields(members, n, ctx, stack, depth).value;
            UniqueKeys(lowered)
            && forall m | m in lowered :: m.key in ALLOWED_KEYWORDS && (m.key != "enum" ==> NormalField(m, ctx.fold))
    decreases Remaining(depth), 1, n
  {
    if n > 0 {
      FieldsAreNormal(members, n - 1, ctx, stack, depth);
      var lowered := LowerFields(members, n - 1, ctx, stack, depth).value;
      match LowerField(members[n - 1], ctx, stack, depth)
      case Skip =>
      case Put(key, value) =>
        GetSet(lowered, key, value, key);
        FieldIsNormal(members[n - 1], ctx, stack, depth);
    }
  }

  lemma {:induction false} FieldIsNormal(m: Member, ctx: Context, stack: seq<string>, depth: nat)
    requires depth <= MAX_SCHEMA_DEPTH && LowerField(m, ctx, stack, depth).Put?
    ensures var put := LowerField(m, ctx, stack, depth);
            put.key in ALLOWED_KEYWORDS && (put.key != "enum" ==> NormalField(Member(put.key, put.value), ctx.fold))
    decreases Remaining(depth), 0, 0
  {
    if m.key == "properties" {
      var properties := m.value.members;
      var lowered := LowerProperties(properties, |properties|, ctx, stack, depth + 1).value;
      forall i | 0 <= i < |lowered|
        ensures NormalForm(lowered[i].value, ctx.fold)
      {
        PropertiesShape(properties, |properties|, ctx, stack, depth + 1, i);
        LowerIsNormal(properties[i].value, ctx, stack, depth + 1);
      }
    } else if m.key != "const" {
      LowerIsNormal(m.value, ctx, stack, depth + 1);
    }
  }

  /** Property names survive in order, whatever they are called. */
  lemma {:induction false} PropertyNamesSurvive(members: seq<Member>, ctx: Context, stack: seq<string>, depth: nat)
    requires depth <= MAX_SCHEMA_DEPTH && UniqueKeys(members) && !Has(members, "$ref") && Has(members, "properties")
    requires Lower(JObj(members), ctx, stack, depth).Some?
    ensures At(members, "properties").JObj?
    ensures var lowered := LoweredMembers(members, ctx, stack, depth);
            && Has(lowered, "properties") && At(lowered, "properties").JObj?
            && Map((m: Member) => m.key, At(lowered, "properties").members)
               == Map((m: Member) => m.key, At(members, "properties").members)
  {
    KeywordProperties(members, ctx, stack, depth);
    var properties := At(members, "properties").members;
    forall i | 0 <= i < |properties| {
      PropertiesShape(properties, |properties|, ctx, stack, depth + 1, i);
    }
  }

  /** What the normal form says of one object or array schema. */
  lemma {:induction false} NormalNode(members: seq<Member>, fold: char -> string)
    requires NormalForm(JObj(members), fold)
    ensures forall key | key in {"$ref", "$defs", "const", "additionalProperties"} + STRIPPED_ANNOTATIONS :: !Has(members, key)
    ensures Get(members, "type") == Some(JStr("object")) && Has(members, "required") ==>
              var required, properties := At(members, "required").items, At(members, "properties").members;
              Distinct(required) && forall i | 0 <= i < |required| :: required[i].JStr? && Has(properties, required[i].s)
    ensures Get(members, "type") == Some(JStr("array")) ==>
              && Has(members, "items") && Has(members, "maxItems") && At(members, "maxItems").JInt?
              && (if Has(members, "minItems")
                  then At(members, "minItems").JInt? && 0 <= At(members, "minItems").n <= At(members, "maxItems").n
                  else 0 <= At(members, "maxItems").n)
              && At(members, "maxItems").n <= MAX_ARRAY_ITEMS
  {
    OtherKeysAbsent(members, fold);
    RequiredIsProper(members, fold);
    SizesAreProper(members, fold);
  }

  lemma {:induction false} OtherKeysAbsent(members: seq<Member>, fold: char -> string)
    requires NormalForm(JObj(members), fold)
    ensures forall key | key in {"$ref", "$defs", "const", "additionalProperties"} + STRIPPED_ANNOTATIONS :: !Has(members, key)
  {
    KeywordsDisjoint();
    forall key | key in {"$ref", "$defs", "const", "additionalProperties"} + STRIPPED_ANNOTATIONS
      ensures !Has(members, key)
    {
      assert forall i | 0 <= i < |members| :: members[i].key != key;
    }
  }

  lemma {:induction false} RequiredIsProper(members: seq<Member>, fold: char -> string)
    requires NormalForm(JObj(members), fold)
    ensures Get(members, "type") == Some(JStr("object")) && Has(members, "required") ==>
              var required, properties := At(members, "required").items, At(members, "properties").members;
              Distinct(required) && forall i | 0 <= i < |required| :: required[i].JStr? && Has(properties, required[i].s)
  {
  }

  lemma {:induction false} SizesAreProper(members: seq<Member>, fold: char -> string)
    requires NormalForm(JObj(members), fold)
    ensures Get(members, "type") == Some(JStr("array")) ==>
              && Has(members, "items") && Has(members, "maxItems") && At(members, "maxItems").JInt?
              && (if Has(members, "minItems")
                  then At(members, "minItems").JInt? && 0 <= At(members, "minItems").n <= At(members, "maxItems").n
                  else 0 <= At(members, "maxItems").n)
              && At(members, "maxItems").n <= MAX_ARRAY_ITEMS
  {
  }

  /* ---- Lowering twice ---- */

  /** Lowering a normal form returns it unchanged exactly when the depth guard does not fire, and
      fails otherwise. */
  lemma {:induction false} RelowerExactly(j: Json, ctx: Context, stack: seq<string>, depth: nat)
    requires depth <= MAX_SCHEMA_DEPTH + 1 && NormalForm(j, ctx.fold)
    ensures Lower(j, ctx, stack, depth) == if Fits(j, depth) then Some(j) else None
    decreases Remaining(depth), 2, 0
  {
    if depth <= MAX_SCHEMA_DEPTH {
      match j
      case JArr(items) =>
        RelowerItems(items, |items|, ctx, stack, depth + 1);
        assert items[..|items|] == items;
      case JObj(members) =>
        NormalNode(members, ctx.fold);
        RelowerFields(members, |members|, ctx, stack, depth);
        assert members[..|members|] == members;
      case _ =>
    }
  }

  lemma {:induction false} RelowerItems(items: seq<Json>, n: nat, ctx: Context, stack: seq<string>, depth: nat)
    requires n <= |items| && depth <= MAX_SCHEMA_DEPTH + 1
    requires forall i | 0 <= i < n :: NormalForm(items[i], ctx.fold)
    ensures LowerItems(items, n, ctx, stack, depth)
         == if ItemsFit(items, n, depth) then Some(items[..n]) else None
    decreases Remaining(depth), 3, n
  {
    if n > 0 {
      RelowerItems(items, n - 1, ctx, stack, depth);
      RelowerExactly(items[n - 1], ctx, stack, depth);
      assert items[..n] == items[..n - 1] + [items[n - 1]];
    }
  }

  lemma {:induction false} RelowerProperties(properties: seq<Member>, n: nat, ctx: Context, stack: seq<string>, depth: nat)
    requires n <= |properties| && depth <= MAX_SCHEMA_DEPTH + 1
    requires forall i | 0 <= i < n :: NormalForm(properties[i].value, ctx.fold)
    ensures LowerProperties(properties, n, ctx, stack, depth)
         == if PropertiesFit(properties, n, depth) then Some(properties[..n]) else None
    decreases Remaining(depth), 3, n
  {
    if n > 0 {
      RelowerProperties(properties, n - 1, ctx, stack, depth);
      RelowerExactly(properties[n - 1].value, ctx, stack, depth);
      assert properties[..n] == properties[..n - 1] + [properties[n - 1]];
    }
  }

  /** An allowed keyword is lowered as a property table or as a node. */
  lemma {:induction false} AllowedField(m: Member, ctx: Context, stack: seq<string>, depth: nat)
    requires depth <= MAX_SCHEMA_DEPTH && m.key in ALLOWED_KEYWORDS
    ensures m.key != "properties" ==>
              LowerField(m, ctx, stack, depth) == match Lower(m.value, ctx, stack, depth + 1)
                                                  case None => Fail
                                                  case Some(item) => Put(m.key, item)
    ensures m.key == "properties" && m.value.JObj? ==>
              LowerField(m, ctx, stack, depth)
              == match LowerProperties(m.value.members, |m.value.members|, ctx, stack, depth + 1)
                 case None => Fail
                 case Some(properties) => Put(m.key, JObj(properties))
  {
    KeywordsDisjoint();
  }

  lemma {:induction false} RelowerField(m: Member, ctx: Context, stack: seq<string>, depth: nat)
    requires depth <= MAX_SCHEMA_DEPTH && m.key in ALLOWED_KEYWORDS && NormalField(m, ctx.fold)
    ensures LowerField(m, ctx, stack, depth) == if FieldFits(m, depth) then Put(m.key, m.value) else Fail
    decreases Remaining(depth), 0, 0
  {
    AllowedField(m, ctx, stack, depth);
    if m.key == "properties" {
      var properties := m.value.members;
      RelowerProperties(properties, |properties|, ctx, stack, depth + 1);
      assert properties[..|properties|] == properties;
    } else {
      RelowerExactly(m.value, ctx, stack, depth + 1);
    }
  }

  lemma {:induction false} SetNew(members: seq<Member>, n: nat)
    requires UniqueKeys(members) && n < |members|
    ensures Set(members[..n], members[n].key, members[n].value) == members[..n + 1]
  {
    assert IndexOf(members[..n], members[n].key) == n;
  }

  lemma {:induction false} RelowerFields(members: seq<Member>, n: nat, ctx: Context, stack: seq<string>, depth: nat)
    requires n <= |members| && depth <= MAX_SCHEMA_DEPTH && UniqueKeys(members)
    requires forall i | 0 <= i < n :: members[i].key in ALLOWED_KEYWORDS && NormalField(members[i], ctx.fold)
    ensures LowerFields(members, n, ctx, stack, depth)
         == if FieldsFit(members, n, depth) then Some(members[..n]) else None
    decreases Remaining(depth), 1, n
  {
    if n > 0 {
      RelowerFields(members, n - 1, ctx, stack, depth);
      RelowerField(members[n - 1], ctx, stack, depth);
      SetNew(members, n - 1);
    }
  }

  /** Re-lowering a lowered schema gives it back exactly when the guard stays silent. */
  lemma {:induction false} LoweringTwice(value: Json, ctx: Context, stack: seq<string>, depth: nat)
    requires depth <= MAX_SCHEMA_DEPTH + 1 && Lower(value, ctx, stack, depth).Some?
    ensures var once := Lower(value, ctx, stack, depth).value;
            Lower(once, ctx, [], 0) == if Fits(once, 0) then Some(once) else None
  {
    LowerIsNormal(value, ctx, stack, depth);
    RelowerExactly(Lower(value, ctx, stack, depth).value, ctx, [], 0);
  }

  /* ---- The guard can fire only on the second pass ---- */

  /** `leaf` under `n` nested `items` keywords. */
  function Nested(n: nat, leaf: Json): Json {
    if n == 0 then leaf else JObj([Member("items", Nested(n - 1, leaf))])
  }

  lemma {:induction false} ItemsLowers(inner: Json, lowered: Json, ctx: Context, depth: nat)
    requires depth < MAX_SCHEMA_DEPTH && Lower(inner, ctx, [], depth + 1) == Some(lowered)
    ensures Lower(JObj([Member("items", inner)]), ctx, [], depth) == Some(JObj([Member("items", lowered)]))
  {
    var m := Member("items", inner);
    AllowedField(m, ctx, [], depth);
    OneFieldLowers(m, ctx, [], depth);
    OneMember(m);
    ItemsNodeOk(lowered, ctx.fold);
  }

  lemma {:induction false} NestedLowers(n: nat, leaf: Json, lowered: Json, ctx: Context, depth: nat)
    requires depth + n <= MAX_SCHEMA_DEPTH
    requires Lower(leaf, ctx, [], depth + n) == Some(lowered)
    ensures Lower(Nested(n, leaf), ctx, [], depth) == Some(Nested(n, lowered))
  {
    if n > 0 {
      NestedLowers(n - 1, leaf, lowered, ctx, depth + 1);
      ItemsLowers(Nested(n - 1, leaf), Nested(n - 1, lowered), ctx, depth);
    }
  }

  lemma {:induction false} LowersAgain(source: Json, once: Json, ctx: Context)
    requires Lower(source, ctx, [], 0) == Some(once)
    ensures Lower(once, ctx, [], 0).Some? <==> Fits(once, 0)
  {
    LoweringTwice(source, ctx, [], 0);
  }

  lemma {:induction false} NestedFitsLeaf(once: Json, n: nat, leaf: Json)
    requires n <= MAX_SCHEMA_DEPTH && once == Nested(n, leaf)
    ensures Fits(once, 0) <==> Fits(leaf, n)
  {
    NestedFits(n, leaf, 0);
  }

  lemma {:induction false} ItemsNodeOk(value: Json, fold: char -> string)
    ensures var node := [Member("items", value)];
            NodeOk(node, fold) && Capped(node) == node
  {
    OneMember(Member("items", value));
  }

  lemma {:induction false} NestedFits(n: nat, leaf: Json, depth: nat)
    ensures Fits(Nested(n, leaf), depth) <==> Fits(leaf, depth + n) && depth + n <= MAX_SCHEMA_DEPTH
  {
    if n > 0 {
      NestedFits(n - 1, leaf, depth + 1);
      OneMemberFits(Member("items", Nested(n - 1, leaf)), depth);
    }
  }

  lemma {:induction false} OneMemberFits(m: Member, depth: nat)
    ensures Fits(JObj([m]), depth) <==> depth <= MAX_SCHEMA_DEPTH && FieldFits(m, depth)
  {
    assert [m][0] == m && FieldsFit([m], 0, depth);
    assert FieldsFit([m], 1, depth) <==> FieldFits(m, depth);
  }

  lemma {:induction false} OneItemFits(item: Json, depth: nat)
    ensures Fits(JArr([item]), depth) <==> depth <= MAX_SCHEMA_DEPTH && Fits(item, depth + 1)
  {
    assert [item][0] == item && ItemsFit([item], 0, depth + 1);
    assert ItemsFit([item], 1, depth + 1) <==> Fits(item, depth + 1);
  }

  /** A `const` in one of the two deepest places lowers once but not twice: the `enum` list it becomes
      needs two more levels. */
  lemma {:induction false} ConstNearTheLimit(n: nat, ctx: Context)
    requires n <= MAX_SCHEMA_DEPTH
    ensures var source, once := Nested(n, JObj([Member("const", JInt(1))])), Nested(n, EnumOf(JInt(1)));
            && Lower(source, ctx, [], 0) == Some(once)
            && (Lower(once, ctx, [], 0).Some? <==> n + 2 <= MAX_SCHEMA_DEPTH)
  {
    var leaf, lowered := JObj([Member("const", JInt(1))]), EnumOf(JInt(1));
    ConstLowers(ctx, n);
    NestedLowers(n, leaf, lowered, ctx, 0);
    LowersAgain(Nested(n, leaf), Nested(n, lowered), ctx);
    NestedFitsLeaf(Nested(n, lowered), n, lowered);
    EnumOfFits(n);
  }

  lemma {:induction false} EnumOfFits(depth: nat)
    ensures Fits(EnumOf(JInt(1)), depth) <==> depth + 2 <= MAX_SCHEMA_DEPTH
  {
    OneMemberFits(Member("enum", JArr([JInt(1)])), depth);
    OneItemFits(JInt(1), depth + 1);
  }

  lemma {:induction false} ConstLowers(ctx: Context, depth: nat)
    requires depth <= MAX_SCHEMA_DEPTH
    ensures Lower(JObj([Member("const", JInt(1))]), ctx, [], depth) == Some(EnumOf(JInt(1)))
  {
    var m := Member("const", JInt(1));
    OneFieldLowers(m, ctx, [], depth);
    OneMember(m);
    EnumNodeOk(JInt(1), ctx.fold);
  }
}
