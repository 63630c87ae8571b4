/** Lowering a JSON Schema to the provider's closed keyword subset. */
module SchemaLowering {
  import opened Wrappers
  import opened Json

  const MAX_SCHEMA_DEPTH: nat := 12
  const MAX_ARRAY_ITEMS: int := 50

  const ALLOWED_KEYWORDS: set<string> := {
    "type", "description", "format", "minimum", "maximum", "minItems", "maxItems",
    "items", "properties", "required", "enum", "anyOf"}

  const STRIPPED_ANNOTATIONS: set<string> := {
    "title", "default", "examples", "deprecated", "readOnly", "writeOnly", "minLength", "maxLength"}

  const FORBIDDEN_PROPERTY_KEYS: set<string> := {
    "corpcode", "sourcefileid", "evidenceid", "eventkey", "accountpath", "planid", "stepid", "taskid",
    "outputid", "revision", "sql", "toolname", "filepath", "indexname", "citation", "citations"}

  const ALLOWED_STRING_FORMATS: set<string> := {
    "date-time", "date", "time", "duration", "email", "hostname", "ipv4", "ipv6", "uuid"}

  const JSON_TYPES: set<string> := {"string", "integer", "number", "boolean", "object", "array"}

  const REF_PREFIX: string := "#/$defs/"

  /** The root `$defs` table and the case folding applied to property names. */
  datatype Context = Context(defs: seq<Member>, fold: char -> string)

  /* ---- References ---- */

  /** The definition name a reference names, when it is a local one. */
  function RefName(ref: Json, defs: seq<Member>): Option<string> {
    if !ref.JStr? || !(REF_PREFIX <= ref.s) then None else
    var name := ref.s[|REF_PREFIX|..];
    if name == "" || '/' in name || !Has(defs, name) then None else Some(name)
  }

  /* ---- Checks on a lowered object ---- */

  predicate IsSchemaNumber(j: Json) {
    j.JInt? || j.JFloat?
  }

  predicate AnyOfOk(members: seq<Member>) {
    Has(members, "anyOf") ==>
      var branches := At(members, "anyOf");
      && branches.JArr? && branches.items != []
      && forall i | 0 <= i < |branches.items| ::
           branches.items[i].JObj? ==> Get(branches.items[i].members, "type") != Some(JStr("null"))
  }

  predicate EnumOk(members: seq<Member>) {
    Has(members, "enum") ==>
      var values := At(members, "enum");
      && values.JArr? && values.items != []
      && (forall i | 0 <= i < |values.items| :: IsScalar(values.items[i]) && values.items[i] != JNull)
      && Distinct(values.items)
  }

  predicate AnnotationsOk(members: seq<Member>) {
    && (Has(members, "description") ==> At(members, "description").JStr?)
    && (Has(members, "format") ==>
          At(members, "format").JStr? && At(members, "format").s in ALLOWED_STRING_FORMATS)
  }

  predicate BoundsOk(members: seq<Member>) {
    && (Has(members, "minimum") ==> IsSchemaNumber(At(members, "minimum")))
    && (Has(members, "maximum") ==> IsSchemaNumber(At(members, "maximum")))
    && (Has(members, "minimum") && Has(members, "maximum") ==>
          Number(At(members, "minimum")).value <= Number(At(members, "maximum")).value)
  }

  /** Case-folded letters and digits of a property name. */
  function PropertyKey(name: string, fold: char -> string): string {
    if name == [] then []
    else Filter((c: char) => 'a' <= c <= 'z' || '0' <= c <= '9', fold(name[0])) + PropertyKey(name[1..], fold)
  }

  predicate ObjectOk(members: seq<Member>, fold: char -> string) {
    && Has(members, "properties") && At(members, "properties").JObj? && At(members, "properties").members != []
    && var properties := At(members, "properties").members;
    && (Has(members, "required") ==>
          var required := At(members, "required");
          && required.JArr?
          && (forall i | 0 <= i < |required.items| :: required.items[i].JStr? && Has(properties, required.items[i].s))
          && Distinct(required.items))
    && forall i | 0 <= i < |properties| ::
         properties[i].key != "" && PropertyKey(properties[i].key, fold) !in FORBIDDEN_PROPERTY_KEYS
  }

  predicate ArrayOk(members: seq<Member>) {
    && Has(members, "items")
    && var maximum := if Has(members, "maxItems") then At(members, "maxItems") else JInt(MAX_ARRAY_ITEMS);
       var minimum := if Has(members, "minItems") then At(members, "minItems") else JInt(0);
    && minimum.JInt? && maximum.JInt?
    && 0 <= minimum.n <= maximum.n <= MAX_ARRAY_ITEMS
  }

  predicate TypeOk(members: seq<Member>, fold: char -> string) {
    match Get(members, "type")
    case None => true
    case Some(JNull) => true
    case Some(JStr(name)) =>
      && name in JSON_TYPES
      && (name == "object" ==> ObjectOk(members, fold))
      && (name == "array" ==> ArrayOk(members))
    case Some(_) => false
  }

  predicate NodeOk(members: seq<Member>, fold: char -> string) {
    && AnyOfOk(members) && EnumOk(members) && AnnotationsOk(members) && BoundsOk(members)
    && TypeOk(members, fold)
  }

  /** Array schemas without a cap receive the provider's. */
  function Capped(members: seq<Member>): seq<Member> {
    if Get(members, "type") == Some(JStr("array")) && !Has(members, "maxItems")
    then members + [Member("maxItems", JInt(MAX_ARRAY_ITEMS))] else members
  }

  /* ---- Lowering as a function ---- */

  datatype FieldResult = Skip | Put(key: string, value: Json) | Fail

  function Remaining(depth: nat): nat
    requires depth <= MAX_SCHEMA_DEPTH + 1
  {
    MAX_SCHEMA_DEPTH + 1 - depth
  }

  /** The lowered schema, or None where the compiler raises. */
  function Lower(value: Json, ctx: Context, stack: seq<string>, depth: nat): Option<Json>
    requires depth <= MAX_SCHEMA_DEPTH + 1
    decreases Remaining(depth), 1, 0
  {
    if depth > MAX_SCHEMA_DEPTH then None else
    match value
    case JArr(items) =>
      (match LowerItems(items, |items|, ctx, stack, depth + 1)
       case None => None
       case Some(lowered) => Some(JArr(lowered)))
    case JObj(members) =>
      if Has(members, "$ref") then LowerRef(members, ctx, stack, depth) else
      (match LowerFields(members, |members|, ctx, stack, depth)
       case None => None
       case Some(lowered) => if NodeOk(lowered, ctx.fold) then Some(JObj(Capped(lowered))) else None)
    case _ => Some(value)
  }

  function LowerRef(members: seq<Member>, ctx: Context, stack: seq<string>, depth: nat): Option<Json>
    requires depth <= MAX_SCHEMA_DEPTH && Has(members, "$ref")
    decreases Remaining(depth), 0, 0
  {
    if |members| != 1 then None else
    match RefName(At(members, "$ref"), ctx.defs)
    case None => None
    case Some(name) =>
      if name in stack then None else Lower(At(ctx.defs, name), ctx, stack + [name], depth + 1)
  }

  /** The first `n` list items lowered at `depth`. */
  function LowerItems(items: seq<Json>, n: nat, ctx: Context, stack: seq<string>, depth: nat): (r: Option<seq<Json>>)
    requires n <= |items| && depth <= MAX_SCHEMA_DEPTH + 1
    ensures r.Some? ==> |r.value| == n
    decreases Remaining(depth), 2, n
  {
    if n == 0 then Some([]) else
    match LowerItems(items, n - 1, ctx, stack, depth)
    case None => None
    case Some(earlier) =>
      match Lower(items[n - 1], ctx, stack, depth)
      case None => None
      case Some(item) => Some(earlier + [item])
  }

  /** The first `n` property schemas lowered at `depth`, under their own names. */
  function LowerProperties(properties: seq<Member>, n: nat, ctx: Context, stack: seq<string>, depth: nat): (r: Option<seq<Member>>)
    requires n <= |properties| && depth <= MAX_SCHEMA_DEPTH + 1
    ensures r.Some? ==> |r.value| == n
    decreases Remaining(depth), 2, n
  {
    if n == 0 then Some([]) else
    match LowerProperties(properties, n - 1, ctx, stack, depth)
    case None => None
    case Some(earlier) =>
      match Lower(properties[n - 1].value, ctx, stack, depth)
      case None => None
      case Some(schema) => Some(earlier + [Member(properties[n - 1].key, schema)])
  }

  /** What one keyword of a schema object at `depth` contributes. */
  function LowerField(m: Member, ctx: Context, stack: seq<string>, depth: nat): FieldResult
    requires depth <= MAX_SCHEMA_DEPTH
    decreases Remaining(depth), 0, 0
  {
    if m.key == "$defs" || m.key in STRIPPED_ANNOTATIONS then Skip
    else if m.key == "additionalProperties" then (if m.value == JBool(false) then Skip else Fail)
    else if m.key == "const" then Put("enum", JArr([m.value]))
    else if m.key !in ALLOWED_KEYWORDS then Fail
    else if m.key == "properties" then
      if !m.value.JObj? then Fail else
      match LowerProperties(m.value.members, |m.value.members|, ctx, stack, depth + 1)
      case None => Fail
      case Some(properties) => Put(m.key, JObj(properties))
    else
      match Lower(m.value, ctx, stack, depth + 1)
      case None => Fail
      case Some(item) => Put(m.key, item)
  }

  /** The dictionary built from the first `n` keywords. */
  function LowerFields(members: seq<Member>, n: nat, ctx: Context, stack: seq<string>, depth: nat): Option<seq<Member>>
    requires n <= |members| && depth <= MAX_SCHEMA_DEPTH
    decreases Remaining(depth), 0, n + 1
  {
    if n == 0 then Some([]) else
    match LowerFields(members, n - 1, ctx, stack, depth)
    case None => None
    case Some(lowered) =>
      match LowerField(members[n - 1], ctx, stack, depth)
      case Skip => Some(lowered)
      case Fail => None
      case Put(key, value) => Some(Set(lowered, key, value))
  }

  /* ---- Lowering as the compiler runs it ---- */

  method LowerNode(value: Json, ctx: Context, stack: seq<string>, depth: nat) returns (r: Option<Json>)
    requires depth <= MAX_SCHEMA_DEPTH + 1
    ensures r == Lower(value, ctx, stack, depth)
    decreases Remaining(depth), 1
  {
    if depth > MAX_SCHEMA_DEPTH {
      return None;
    }
    match value {
      case JArr(items) =>
        var lowered := [];
        for i := 0 to |items|
          invariant LowerItems(items, i, ctx, stack, depth + 1) == Some(lowered)
        {
          var item := LowerNode(items[i], ctx, stack, depth + 1);
          if item.None? {
            ItemsFailureStays(items, i + 1, |items|, ctx, stack, depth + 1);
            return None;
          }
          lowered := lowered + [item.value];
        }
        return Some(JArr(lowered));
      case JObj(members) =>
        if Has(members, "$ref") {
          if |members| != 1 {
            return None;
          }
          var name := RefName(At(members, "$ref"), ctx.defs);
          if name.None? || name.value in stack {
            return None;
          }
          r := LowerNode(At(ctx.defs, name.value), ctx, stack + [name.value], depth + 1);
        } else {
          var lowered := [];
          for i := 0 to |members|
            invariant LowerFields(members, i, ctx, stack, depth) == Some(lowered)
          {
            var field := LowerKeyword(members[i], ctx, stack, depth);
            if field.Fail? {
              FieldsFailureStays(members, i + 1, |members|, ctx, stack, depth);
              return None;
            }
            if field.Put? {
              lowered := Set(lowered, field.key, field.value);
            }
          }
          return if NodeOk(lowered, ctx.fold) then Some(JObj(Capped(lowered))) else None;
        }
      case _ =>
        return Some(value);
    }
  }

  method LowerKeyword(m: Member, ctx: Context, stack: seq<string>, depth: nat) returns (r: FieldResult)
    requires depth <= MAX_SCHEMA_DEPTH
    ensures r == LowerField(m, ctx, stack, depth)
    decreases Remaining(depth), 0
  {
    if m.key == "$defs" || m.key in STRIPPED_ANNOTATIONS {
      return Skip;
    }
    if m.key == "additionalProperties" {
      return if m.value == JBool(false) then Skip else Fail;
    }
    if m.key == "const" {
      return Put("enum", JArr([m.value]));
    }
    if m.key !in ALLOWED_KEYWORDS {
      return Fail;
    }
    if m.key == "properties" {
      if !m.value.JObj? {
        return Fail;
      }
      var properties, lowered := m.value.members, [];
      for i := 0 to |properties|
        invariant LowerProperties(properties, i, ctx, stack, depth + 1) == Some(lowered)
      {
        var schema := LowerNode(properties[i].value, ctx, stack, depth + 1);
        if schema.None? {
          PropertiesFailureStays(properties, i + 1, |properties|, ctx, stack, depth + 1);
          return Fail;
        }
        lowered := lowered + [Member(properties[i].key, schema.value)];
      }
      return Put(m.key, JObj(lowered));
    }
    var item := LowerNode(m.value, ctx, stack, depth + 1);
    return if item.None? then Fail else Put(m.key, item.value);
  }

  lemma {:induction false} ItemsFailureStays(items: seq<Json>, k: nat, n: nat, ctx: Context, stack: seq<string>, depth: nat)
    requires k <= n <= |items| && depth <= MAX_SCHEMA_DEPTH + 1 && LowerItems(items, k, ctx, stack, depth).None?
    ensures LowerItems(items, n, ctx, stack, depth).None?
  {
    if k < n {
      ItemsFailureStays(items, k, n - 1, ctx, stack, depth);
    }
  }

  lemma {:induction false} PropertiesFailureStays(properties: seq<Member>, k: nat, n: nat, ctx: Context, stack: seq<string>, depth: nat)
    requires k <= n <= |properties| && depth <= MAX_SCHEMA_DEPTH + 1 && LowerProperties(properties, k, ctx, stack, depth).None?
    ensures LowerProperties(properties, n, ctx, stack, depth).None?
  {
    if k < n {
      PropertiesFailureStays(properties, k, n - 1, ctx, stack, depth);
    }
  }

  lemma {:induction false} FieldsFailureStays(members: seq<Member>, k: nat, n: nat, ctx: Context, stack: seq<string>, depth: nat)
    requires k <= n <= |members| && depth <= MAX_SCHEMA_DEPTH && LowerFields(members, k, ctx, stack, depth).None?
    ensures LowerFields(members, n, ctx, stack, depth).None?
  {
    if k < n {
      FieldsFailureStays(members, k, n - 1, ctx, stack, depth);
    }
  }
}
