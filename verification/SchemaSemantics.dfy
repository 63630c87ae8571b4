/** Which JSON values a schema accepts: JSON Schema Core 2020-12 section 8.2.3.1 for `$ref` and
    JSON Schema Validation 2020-12 sections 6.1 to 6.5 for the assertion keywords that a lowered or
    lowerable schema can carry. `format` and `description` are annotations. */
module SchemaSemantics {
  import opened Wrappers
  import opened Json
  import opened SchemaLowering
  import opened SchemaPointers

  /** Equality of JSON values: numbers by value, objects regardless of member order. */
  ghost predicate JsonEqual(a: Json, b: Json) {
    match a
    case JInt(_) => Number(b) == Number(a)
    case JFloat(_) => Number(b) == Number(a)
    case JArr(items) =>
      && b.JArr? && |b.items| == |items|
      && forall i | 0 <= i < |items| :: JsonEqual(items[i], b.items[i])
    case JObj(members) =>
      && b.JObj? && |b.members| == |members|
      && forall i | 0 <= i < |members| ::
           Has(b.members, members[i].key) && JsonEqual(members[i].value, At(b.members, members[i].key))
    case _ => a == b
  }

  predicate HasType(v: Json, name: string) {
    match v
    case JNull => name == "null"
    case JBool(_) => name == "boolean"
    case JInt(_) => name == "integer" || name == "number"
    case JFloat(x) => name == "number" || (name == "integer" && x.Floor as real == x)
    case JStr(_) => name == "string"
    case JArr(_) => name == "array"
    case JObj(_) => name == "object"
  }

  /** `Strict` is the standard's reading. `Relaxed` is the reading the compiler keeps: it forgets
      `additionalProperties` and string lengths, lets the last of `enum` and `const` win, caps arrays
      whose schema sets no `maxItems`, and takes the name in a reference literally. */
  datatype Mode = Strict | Relaxed

  /** The schema that a reference leads to, if any. */
  type Leads = Json -> Option<Json>

  /** By the standards. References of any form but a local definition never lower; they count as dangling. */
  function ByPointer(defs: seq<Member>): Leads {
    (ref: Json) => if ref.JStr? && REF_PREFIX <= ref.s then Named(ref.s[|REF_PREFIX|..], defs) else None
  }

  /** As the compiler looks definitions up. */
  function ByName(defs: seq<Member>): Leads {
    (ref: Json) => match RefName(ref, defs)
                   case None => None
                   case Some(name) => Get(defs, name)
  }

  const Nowhere: Leads := (ref: Json) => None

  ghost predicate TypeAccepts(members: seq<Member>, v: Json) {
    match Get(members, "type")
    case Some(JStr(name)) => HasType(v, name)
    case Some(JArr(names)) => exists i | 0 <= i < |names| :: names[i].JStr? && HasType(v, names[i].s)
    case _ => true
  }

  ghost predicate OneOf(choice: Option<Json>, v: Json) {
    choice.Some? && choice.value.JArr? ==>
      exists i | 0 <= i < |choice.value.items| :: JsonEqual(choice.value.items[i], v)
  }

  /** The values listed by whichever of `enum` and `const` comes last among the first `n` members. */
  function LastChoice(members: seq<Member>, n: nat): Option<Json>
    requires n <= |members|
  {
    if n == 0 then None
    else if members[n - 1].key == "enum" then Some(members[n - 1].value)
    else if members[n - 1].key == "const" then Some(JArr([members[n - 1].value]))
    else LastChoice(members, n - 1)
  }

  ghost predicate ChoiceAccepts(mode: Mode, members: seq<Member>, v: Json) {
    match mode
    case Strict => OneOf(Get(members, "enum"), v) && (Has(members, "const") ==> JsonEqual(At(members, "const"), v))
    case Relaxed => OneOf(LastChoice(members, |members|), v)
  }

  /** A limit binds only when it is a number. */
  predicate AtLeast(limit: Option<Json>, x: real) {
    limit.Some? && Number(limit.value).Some? ==> Number(limit.value).value <= x
  }

  predicate AtMost(limit: Option<Json>, x: real) {
    limit.Some? && Number(limit.value).Some? ==> x <= Number(limit.value).value
  }

  predicate NumberAccepts(members: seq<Member>, v: Json) {
    Number(v).Some? ==>
      && AtLeast(Get(members, "minimum"), Number(v).value)
      && AtMost(Get(members, "maximum"), Number(v).value)
  }

  predicate LengthAccepts(mode: Mode, members: seq<Member>, v: Json) {
    && (v.JStr? && mode == Strict ==>
          && AtLeast(Get(members, "minLength"), |v.s| as real)
          && AtMost(Get(members, "maxLength"), |v.s| as real))
    && (v.JArr? ==>
          && AtLeast(Get(members, "minItems"), |v.items| as real)
          && AtMost(Get(members, "maxItems"), |v.items| as real)
          && (mode == Relaxed && Get(members, "type") == Some(JStr("array")) && !Has(members, "maxItems") ==>
                |v.items| <= MAX_ARRAY_ITEMS))
  }

  predicate RequiredAccepts(required: Option<Json>, v: Json) {
    v.JObj? && required.Some? && required.value.JArr? ==>
      forall i | 0 <= i < |required.value.items| ::
        required.value.items[i].JStr? ==> Has(v.members, required.value.items[i].s)
  }

  ghost predicate ScalarKeywordsAccept(mode: Mode, members: seq<Member>, v: Json) {
    && TypeAccepts(members, v) && ChoiceAccepts(mode, members, v) && NumberAccepts(members, v)
    && LengthAccepts(mode, members, v) && RequiredAccepts(Get(members, "required"), v)
  }

  /** `schema` accepts `v` with at most `fuel` references unfolded on any path. A value that is
      neither an object nor a boolean is no schema and constrains nothing. */
  ghost predicate Accepts(mode: Mode, leads: Leads, schema: Json, v: Json, fuel: nat)
    decreases fuel, schema, 1
  {
    match schema
    case JBool(b) => b
    case JObj(members) =>
      && RefAccepts(mode, leads, schema, v, fuel)
      && ScalarKeywordsAccept(mode, members, v)
      && ItemsAccept(mode, leads, schema, v, fuel)
      && PropertiesAccept(mode, leads, schema, v, fuel)
      && AdditionalAccept(mode, leads, schema, v, fuel)
      && AnyOfAccepts(mode, leads, schema, v, fuel)
    case _ => true
  }

  /** A reference accepts what its target accepts. A dangling one accepts nothing by the standard; the
      compiler refuses it, so the relaxed reading leaves it open. */
  ghost predicate RefAccepts(mode: Mode, leads: Leads, schema: Json, v: Json, fuel: nat)
    requires schema.JObj?
    decreases fuel, schema, 0
  {
    Has(schema.members, "$ref") ==>
      match leads(At(schema.members, "$ref"))
      case None => mode == Relaxed
      case Some(target) => fuel > 0 && Accepts(mode, leads, target, v, fuel - 1)
  }

  ghost predicate ItemsAccept(mode: Mode, leads: Leads, schema: Json, v: Json, fuel: nat)
    requires schema.JObj?
    decreases fuel, schema, 0
  {
    v.JArr? && Has(schema.members, "items") ==>
      forall i | 0 <= i < |v.items| :: Accepts(mode, leads, At(schema.members, "items"), v.items[i], fuel)
  }

  ghost predicate PropertiesAccept(mode: Mode, leads: Leads, schema: Json, v: Json, fuel: nat)
    requires schema.JObj?
    decreases fuel, schema, 0
  {
    v.JObj? && Has(schema.members, "properties") && At(schema.members, "properties").JObj? ==>
      var properties := At(schema.members, "properties").members;
      forall i | 0 <= i < |properties| && Has(v.members, properties[i].key) ::
        Accepts(mode, leads, properties[i].value, At(v.members, properties[i].key), fuel)
  }

  predicate IsProperty(members: seq<Member>, key: string) {
    Has(members, "properties") && At(members, "properties").JObj? && Has(At(members, "properties").members, key)
  }

  ghost predicate AdditionalAccept(mode: Mode, leads: Leads, schema: Json, v: Json, fuel: nat)
    requires schema.JObj?
    decreases fuel, schema, 0
  {
    mode == Strict && v.JObj? && Has(schema.members, "additionalProperties") ==>
      forall i | 0 <= i < |v.members| && !IsProperty(schema.members, v.members[i].key) ::
        Accepts(mode, leads, At(schema.members, "additionalProperties"), v.members[i].value, fuel)
  }

  ghost predicate AnyOfAccepts(mode: Mode, leads: Leads, schema: Json, v: Json, fuel: nat)
    requires schema.JObj?
    decreases fuel, schema, 0
  {
    Has(schema.members, "anyOf") && At(schema.members, "anyOf").JArr? ==>
      var branches := At(schema.members, "anyOf").items;
      exists i | 0 <= i < |branches| :: Accepts(mode, leads, branches[i], v, fuel)
  }

  /** Every array anywhere inside has at most the provider's number of items. */
  predicate SmallArrays(v: Json) {
    match v
    case JArr(items) => |items| <= MAX_ARRAY_ITEMS && forall i | 0 <= i < |items| :: SmallArrays(items[i])
    case JObj(members) => forall i | 0 <= i < |members| :: SmallArrays(members[i].value)
    case _ => true
  }
}
