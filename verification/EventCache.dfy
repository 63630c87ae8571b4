/** The persisted copy of the event role index: what is written, what a reader accepts, and why reading back what was
    written is as good as building the index again. */
module EventCache {
  import opened Wrappers
  import opened Ordering
  import opened Json
  import opened EventIndex

  const MAX_CACHE_BYTES: nat := 64 * 1024 * 1024

  /** The digest of a document's canonical bytes, and how many bytes there are. */
  datatype Codec = Codec(digest: Json -> string, size: Json -> nat)

  /** What a cache file is bound to. */
  datatype Contract = Contract(buildId: string, canonicalSchema: string, cutoff: string, fieldsHash: string,
                               policyVersion: string, indexSchema: string, indexBuildId: string)

  datatype File = Missing | Unreadable | Stored(document: Json)

  datatype LoadResult = Absent | Loaded(index: Index) | Rejected

  /* ---- Writing ---- */

  function Texts(values: seq<string>): Json {
    JArr(Map((s: string) => JStr(s), values))
  }

  const ROW_KEYS: seq<string> := ["contract_names", "counterparties", "event_types", "rcept_dt", "rcept_no"]

  function RowMembers(r: ReceiptRoles): seq<Member> {
    [Member("contract_names", Texts(r.contractNames)), Member("counterparties", Texts(r.counterparties)),
     Member("event_types", Texts(r.eventTypes)), Member("rcept_dt", JStr(r.date)), Member("rcept_no", JStr(r.receipt))]
  }

  function RowsJson(rows: seq<ReceiptRoles>): Json {
    JArr(Map((r: ReceiptRoles) => JObj(RowMembers(r)), rows))
  }

  function CompanyMembers(index: Index): seq<Member> {
    var corps := Sorted(index.Keys);
    seq(|corps|, i requires 0 <= i < |corps| => assert corps[i] in Elements(corps); Member(corps[i], RowsJson(index[corps[i]])))
  }

  function ValuesJson(index: Index): Json {
    JObj(CompanyMembers(index))
  }

  /** All rows, company by company. */
  function AllRows(index: Index): seq<ReceiptRoles> {
    Gather(Sorted(index.Keys), (corp: string) => if corp in index then index[corp] else [], |index.Keys|)
  }

  function Total(rows: seq<ReceiptRoles>, size: ReceiptRoles -> nat): nat {
    if rows == [] then 0 else size(rows[0]) + Total(rows[1..], size)
  }

  function CountMembers(index: Index): seq<Member> {
    var rows := AllRows(index);
    [Member("contract_names", JInt(Total(rows, (r: ReceiptRoles) => |r.contractNames|))),
     Member("corp_codes", JInt(|index.Keys|)),
     Member("counterparties", JInt(Total(rows, (r: ReceiptRoles) => |r.counterparties|))),
     Member("event_types", JInt(Total(rows, (r: ReceiptRoles) => |r.eventTypes|))),
     Member("receipts", JInt(|rows|))]
  }

  function Envelope(c: Contract): seq<Member> {
    [Member("canonical_build_id", JStr(c.buildId)), Member("canonical_schema_version", JStr(c.canonicalSchema)),
     Member("corpus_cutoff", JStr(c.cutoff)), Member("fields_artifact_hash", JStr(c.fieldsHash)),
     Member("index_build_id", JStr(c.indexBuildId)), Member("role_policy_version", JStr(c.policyVersion)),
     Member("schema_version", JStr(c.indexSchema))]
  }

  function Payload(codec: Codec, index: Index): seq<Member> {
    [Member("counts", JObj(CountMembers(index))), Member("values", ValuesJson(index)),
     Member("values_sha256", JStr(codec.digest(ValuesJson(index))))]
  }

  function Document(codec: Codec, c: Contract, index: Index): Json {
    JObj(Envelope(c) + Payload(codec, index))
  }

  /* ---- Reading back ---- */

  function ParseTexts(items: seq<Json>, n: nat): Option<seq<string>>
    requires n <= |items|
  {
    if n == 0 then Some([]) else
    match ParseTexts(items, n - 1)
    case None => None
    case Some(before) =>
      if items[n - 1].JStr? && items[n - 1].s != "" then Some(before + [items[n - 1].s]) else None
  }

  function ParseRoleValues(value: Option<Json>): Option<seq<string>> {
    if value.None? || !value.value.JArr? then None else
    match ParseTexts(value.value.items, |value.value.items|)
    case None => None
    case Some(texts) => if texts == Sorted(Elements(texts)) then Some(texts) else None
  }

  function ParseDigits(value: Option<Json>, n: nat): Option<string> {
    if value.Some? && value.value.JStr? && IsDigits(value.value.s, n) then Some(value.value.s) else None
  }

  predicate HasRowKeys(members: seq<Member>) {
    && (forall i | 0 <= i < |ROW_KEYS| :: Has(members, ROW_KEYS[i]))
    && (forall i | 0 <= i < |members| :: members[i].key in ROW_KEYS)
  }

  function ParseRow(j: Json): Option<ReceiptRoles> {
    if !j.JObj? || !HasRowKeys(j.members) then None else
    var receipt, date := ParseDigits(Get(j.members, "rcept_no"), 14), ParseDigits(Get(j.members, "rcept_dt"), 8);
    var types, parties := ParseRoleValues(Get(j.members, "event_types")), ParseRoleValues(Get(j.members, "counterparties"));
    var names := ParseRoleValues(Get(j.members, "contract_names"));
    if receipt.None? || date.None? || types.None? || parties.None? || names.None? then None
    else Some(ReceiptRoles(receipt.value, date.value, types.value, parties.value, names.value))
  }

  type RowParser = Json -> Option<ReceiptRoles>

  type RowsParser = Json -> Option<seq<ReceiptRoles>>

  function ParseRowsUpTo(parse: RowParser, items: seq<Json>, n: nat): Option<seq<ReceiptRoles>>
    requires n <= |items|
  {
    if n == 0 then Some([]) else
    match ParseRowsUpTo(parse, items, n - 1)
    case None => None
    case Some(before) =>
      match parse(items[n - 1])
      case None => None
      case Some(row) => if row.receipt in Receipts(before) then None else Some(before + [row])
  }

  function ParseRows(j: Json): Option<seq<ReceiptRoles>> {
    if !j.JArr? || |j.items| > MAX_ROLE_ROWS then None else
    match ParseRowsUpTo(ParseRow, j.items, |j.items|)
    case None => None
    case Some(rows) => if Receipts(rows) == Sorted(Elements(Receipts(rows))) then Some(rows) else None
  }

  function ParseCompanies(parse: RowsParser, members: seq<Member>, n: nat): Option<Index>
    requires n <= |members|
  {
    if n == 0 then Some(map[]) else
    match ParseCompanies(parse, members, n - 1)
    case None => None
    case Some(before) =>
      if members[n - 1].key == "" then None else
      match parse(members[n - 1].value)
      case None => None
      case Some(rows) => Some(before[members[n - 1].key := rows])
  }

  function ParseValues(value: Option<Json>): Option<Index> {
    if value.None? || !value.value.JObj? then None
    else ParseCompanies(ParseRows, value.value.members, |value.value.members|)
  }

  predicate EnvelopeMatches(c: Contract, members: seq<Member>) {
    forall i | 0 <= i < |Envelope(c)| :: Get(members, Envelope(c)[i].key) == Some(Envelope(c)[i].value)
  }

  /** Equality of numbers as the program compares them: a whole float or a truth value equals its integer. */
  predicate SameNumber(a: Json, b: Json) {
    Numeral(a).Some? && Numeral(a) == Numeral(b)
  }

  function Numeral(j: Json): Option<real> {
    if j.JBool? then Some(if j.b then 1.0 else 0.0) else Number(j)
  }

  /** The same dictionary of numbers, in any order. */
  predicate CountsMatch(value: Option<Json>, counts: seq<Member>) {
    && value.Some? && value.value.JObj? && |value.value.members| == |counts|
    && forall i | 0 <= i < |counts| ::
         Has(value.value.members, counts[i].key) && SameNumber(At(value.value.members, counts[i].key), counts[i].value)
  }

  /** What reading a cache file under a contract gives. */
  function Load(codec: Codec, contract: Option<Contract>, file: File): LoadResult {
    if contract.None? || file.Missing? then Absent
    else if file.Unreadable? || codec.size(file.document) > MAX_CACHE_BYTES || !file.document.JObj? then Rejected
    else
      var members := file.document.members;
      if !EnvelopeMatches(contract.value, members) then Rejected else
      match ParseValues(Get(members, "values"))
      case None => Rejected
      case Some(index) =>
        if LateRow(index, contract.value.cutoff) then Rejected
        else if Get(members, "values_sha256") != Some(JStr(codec.digest(ValuesJson(index)))) then Rejected
        else if !CountsMatch(Get(members, "counts"), CountMembers(index)) then Rejected
        else Loaded(index)
  }

  predicate LateRow(index: Index, cutoff: string) {
    exists corp | corp in index :: exists i | 0 <= i < |index[corp]| :: Less(cutoff, index[corp][i].date)
  }

  method ReadEachRow(parse: RowParser, items: seq<Json>) returns (rows: Option<seq<ReceiptRoles>>)
    ensures rows == ParseRowsUpTo(parse, items, |items|)
  {
    var parsed: seq<ReceiptRoles> := [];
    var seen: set<string> := {};
    for n := 0 to |items|
      invariant ParseRowsUpTo(parse, items, n) == Some(parsed)
      invariant seen == Elements(Receipts(parsed))
    {
      var row := parse(items[n]);
      if row.None? || row.value.receipt in seen {
        BadRowStays(parse, items, n + 1, |items|);
        return None;
      }
      assert Receipts(parsed + [row.value]) == Receipts(parsed) + [row.value.receipt];
      seen := seen + {row.value.receipt};
      parsed := parsed + [row.value];
    }
    rows := Some(parsed);
  }

  method ReadRows(j: Json) returns (rows: Option<seq<ReceiptRoles>>)
    ensures rows == ParseRows(j)
  {
    if !j.JArr? || |j.items| > MAX_ROLE_ROWS {
      return None;
    }
    rows := ReadEachRow(ParseRow, j.items);
    if rows.Some? && Receipts(rows.value) != Sorted(Elements(Receipts(rows.value))) {
      rows := None;
    }
  }

  lemma {:induction false} BadRowStays(parse: RowParser, items: seq<Json>, k: nat, n: nat)
    requires k <= n <= |items| && ParseRowsUpTo(parse, items, k).None?
    ensures ParseRowsUpTo(parse, items, n).None?
  {
    if k < n {
      BadRowStays(parse, items, k, n - 1);
    }
  }

  method ReadValues(value: Option<Json>) returns (index: Option<Index>)
    ensures index == ParseValues(value)
  {
    if value.None? || !value.value.JObj? {
      return None;
    }
    var members := value.value.members;
    ghost var parse: RowsParser := ParseRows;
    var result: Index := map[];
    for n := 0 to |members|
      invariant ParseCompanies(parse, members, n) == Some(result)
    {
      var rows := ReadRows(members[n].value);
      assert rows == parse(members[n].value);
      if members[n].key == "" || rows.None? {
        BadCompanyStays(parse, members, n + 1, |members|);
        return None;
      }
      result := result[members[n].key := rows.value];
    }
    index := Some(result);
  }

  lemma {:induction false} BadCompanyStays(parse: RowsParser, members: seq<Member>, k: nat, n: nat)
    requires k <= n <= |members| && ParseCompanies(parse, members, k).None?
    ensures ParseCompanies(parse, members, n).None?
  {
    if k < n {
      BadCompanyStays(parse, members, k, n - 1);
    }
  }

  /* ---- Reading undoes writing ---- */

  lemma {:induction false} TextsParse(values: seq<string>, n: nat)
    requires n <= |values| && forall i | 0 <= i < |values| :: values[i] != ""
    ensures ParseTexts(Texts(values).items, n) == Some(values[..n])
  {
    if n > 0 {
      TextsParse(values, n - 1);
      assert values[..n] == values[..n - 1] + [values[n - 1]];
    }
  }

  lemma {:induction false} RoleValuesParse(values: seq<string>)
    requires RolesOk(values)
    ensures ParseRoleValues(Some(Texts(values))) == Some(values)
  {
    TextsParse(values, |values|);
    assert values[..|values|] == values;
    SortedIsUnique(values);
  }

  lemma {:induction false} RowKeysDiffer(r: ReceiptRoles)
    ensures UniqueKeys(RowMembers(r)) && HasRowKeys(RowMembers(r))
    ensures forall i | 0 <= i < |ROW_KEYS| :: RowMembers(r)[i].key == ROW_KEYS[i]
  {
    var m := RowMembers(r);
    assert m[0].key[2] == 'n' && m[1].key[2] == 'u' && m[3].key[6] == 'd' && m[4].key[6] == 'n';
    assert UniqueKeys(m);
    forall i | 0 <= i < |ROW_KEYS|
      ensures Has(m, ROW_KEYS[i])
    {
      assert m[i].key == ROW_KEYS[i];
      IndexUnique(m, i);
    }
  }

  lemma {:induction false} RowGets(r: ReceiptRoles)
    ensures var m := RowMembers(r);
            && Get(m, "contract_names") == Some(Texts(r.contractNames))
            && Get(m, "counterparties") == Some(Texts(r.counterparties))
            && Get(m, "event_types") == Some(Texts(r.eventTypes))
            && Get(m, "rcept_dt") == Some(JStr(r.date)) && Get(m, "rcept_no") == Some(JStr(r.receipt))
  {
    var m := RowMembers(r);
    RowKeysDiffer(r);
    forall i | 0 <= i < |m|
      ensures Get(m, m[i].key) == Some(m[i].value)
    {
      IndexUnique(m, i);
    }
    assert Get(m, m[0].key) == Some(m[0].value) && Get(m, m[1].key) == Some(m[1].value);
    assert Get(m, m[2].key) == Some(m[2].value) && Get(m, m[3].key) == Some(m[3].value);
    assert Get(m, m[4].key) == Some(m[4].value);
  }

  lemma {:induction false} RowParses(r: ReceiptRoles)
    requires ReceiptOk(r)
    ensures ParseRow(JObj(RowMembers(r))) == Some(r)
  {
    RowKeysDiffer(r);
    RowFieldsParse(r);
  }

  lemma {:induction false} RowFieldsParse(r: ReceiptRoles)
    requires ReceiptOk(r)
    ensures var m := RowMembers(r);
            && ParseDigits(Get(m, "rcept_no"), 14) == Some(r.receipt) && ParseDigits(Get(m, "rcept_dt"), 8) == Some(r.date)
            && ParseRoleValues(Get(m, "event_types")) == Some(r.eventTypes)
            && ParseRoleValues(Get(m, "counterparties")) == Some(r.counterparties)
            && ParseRoleValues(Get(m, "contract_names")) == Some(r.contractNames)
  {
    RowGets(r);
    RoleValuesParse(r.contractNames);
    RoleValuesParse(r.counterparties);
    RoleValuesParse(r.eventTypes);
  }

  lemma {:induction false} RowsParseUpTo(parse: RowParser, items: seq<Json>, rows: seq<ReceiptRoles>, n: nat)
    requires n <= |rows| == |items| && Distinct(Receipts(rows))
    requires forall i | 0 <= i < |rows| :: parse(items[i]) == Some(rows[i])
    ensures ParseRowsUpTo(parse, items, n) == Some(rows[..n])
  {
    if n > 0 {
      RowsParseUpTo(parse, items, rows, n - 1);
      assert parse(items[n - 1]) == Some(rows[n - 1]);
      assert rows[..n] == rows[..n - 1] + [rows[n - 1]];
      assert forall i | 0 <= i < n - 1 :: Receipts(rows[..n - 1])[i] == Receipts(rows)[i] != Receipts(rows)[n - 1];
    }
  }

  lemma {:induction false} RowsParse(rows: seq<ReceiptRoles>)
    requires RowsOk(rows)
    ensures ParseRows(RowsJson(rows)) == Some(rows)
  {
    var items, parse: RowParser := RowsJson(rows).items, ParseRow;
    forall i | 0 <= i < |rows|
      ensures parse(items[i]) == Some(rows[i])
    {
      RowParses(rows[i]);
    }
    SortedIsDistinct(Receipts(rows));
    SortedIsUnique(Receipts(rows));
    RowsParseUpTo(parse, items, rows, |rows|);
    assert rows[..|rows|] == rows;
  }

  lemma {:induction false} CompaniesParse(parse: RowsParser, members: seq<Member>, index: Index, n: nat)
    requires n <= |members| && forall i | 0 <= i < |members| ::
               var m := members[i]; m.key != "" && m.key in index && parse(m.value) == Some(index[m.key])
    ensures ParseCompanies(parse, members, n).Some?
    ensures forall corp | corp in ParseCompanies(parse, members, n).value ::
              corp in index && ParseCompanies(parse, members, n).value[corp] == index[corp]
    ensures forall i | 0 <= i < n :: members[i].key in ParseCompanies(parse, members, n).value
  {
    if n > 0 {
      CompaniesParse(parse, members, index, n - 1);
    }
  }

  lemma {:induction false} CompanyParses(index: Index, i: nat)
    requires IndexOk(index) && i < |CompanyMembers(index)|
    ensures var m := CompanyMembers(index)[i];
            m.key != "" && m.key in index && ParseRows(m.value) == Some(index[m.key])
  {
    var corps := Sorted(index.Keys);
    assert corps[i] in Elements(corps);
    RowsParse(index[corps[i]]);
  }

  lemma {:induction false} EveryCompanyIsWritten(index: Index, corp: string)
    requires corp in index
    ensures exists i | 0 <= i < |CompanyMembers(index)| :: CompanyMembers(index)[i].key == corp
  {
    var corps := Sorted(index.Keys);
    assert corp in Elements(corps);
    var i :| 0 <= i < |corps| && corps[i] == corp;
    assert CompanyMembers(index)[i].key == corp;
  }

  lemma {:induction false} MembersParse(members: seq<Member>, parse: RowsParser, index: Index)
    requires forall i | 0 <= i < |members| ::
               var m := members[i]; m.key != "" && m.key in index && parse(m.value) == Some(index[m.key])
    requires forall corp | corp in index :: exists i | 0 <= i < |members| :: members[i].key == corp
    ensures ParseCompanies(parse, members, |members|) == Some(index)
  {
    CompaniesParse(parse, members, index, |members|);
    assert ParseCompanies(parse, members, |members|).value == index;
  }

  /** Reading the values back gives the same index. */
  lemma {:induction false} ValuesParse(index: Index)
    requires IndexOk(index)
    ensures ParseValues(Some(ValuesJson(index))) == Some(index)
  {
    var members, parse: RowsParser := CompanyMembers(index), ParseRows;
    forall i | 0 <= i < |members|
      ensures var m := members[i]; m.key != "" && m.key in index && parse(m.value) == Some(index[m.key])
    {
      CompanyParses(index, i);
    }
    forall corp | corp in index
      ensures exists i | 0 <= i < |members| :: members[i].key == corp
    {
      EveryCompanyIsWritten(index, corp);
    }
    MembersParse(members, parse, index);
  }

  lemma {:induction false} DocumentGets(codec: Codec, c: Contract, index: Index)
    ensures var m := Envelope(c) + Payload(codec, index);
            && EnvelopeMatches(c, m)
            && Get(m, "values") == Some(ValuesJson(index)) && Get(m, "counts") == Some(JObj(CountMembers(index)))
            && Get(m, "values_sha256") == Some(JStr(codec.digest(ValuesJson(index))))
  {
    var m := Envelope(c) + Payload(codec, index);
    forall i | 0 <= i < |m|
      ensures Get(m, m[i].key) == Some(m[i].value)
    {
      IndexUnique(m, i);
    }
    assert forall i | 0 <= i < |Envelope(c)| :: m[i] == Envelope(c)[i];
    assert m[7] == Payload(codec, index)[0] && m[8] == Payload(codec, index)[1] && m[9] == Payload(codec, index)[2];
  }

  lemma {:induction false} CountKeysDiffer(index: Index)
    ensures UniqueKeys(CountMembers(index))
  {
    var m := CountMembers(index);
    assert m[0].key[4] == 'r' && m[1].key[4] == '_' && m[2].key[5] == 'e' && m[3].key[0] == 'e' && m[4].key[0] == 'r' && m[0].key[5] == 'a';
  }

  lemma {:induction false} CountsMatchThemselves(index: Index)
    ensures CountsMatch(Some(JObj(CountMembers(index))), CountMembers(index))
  {
    CountKeysDiffer(index);
    NumbersMatchThemselves(CountMembers(index));
  }

  lemma {:induction false} NumbersMatchThemselves(counts: seq<Member>)
    requires UniqueKeys(counts) && forall i | 0 <= i < |counts| :: counts[i].value.JInt?
    ensures CountsMatch(Some(JObj(counts)), counts)
  {
    forall i | 0 <= i < |counts|
      ensures Has(counts, counts[i].key) && SameNumber(At(counts, counts[i].key), counts[i].value)
    {
      IndexUnique(counts, i);
    }
  }

  /** A written document of bearable size reads back as the index it was written from. */
  lemma {:induction false} WrittenReadsBack(codec: Codec, c: Contract, index: Index)
    requires IndexOk(index) && WithinCutoff(index, c.cutoff)
    requires codec.size(Document(codec, c, index)) <= MAX_CACHE_BYTES
    ensures Load(codec, Some(c), Stored(Document(codec, c, index))) == Loaded(index)
  {
    DocumentGets(codec, c, index);
    ValuesParse(index);
    CountsMatchThemselves(index);
    assert !LateRow(index, c.cutoff);
  }

  /** A cache hit answers every company query as a rebuild from the same fields would. */
  lemma {:induction false} HitEqualsRebuild(key: string -> string, fields: seq<Field>, codec: Codec, c: Contract)
    requires key("") == "" && Built(key, fields).Some?
    requires forall i | 0 <= i < |fields| && Used(key, fields[i]) :: !Less(c.cutoff, fields[i].date)
    requires codec.size(Document(codec, c, Built(key, fields).value)) <= MAX_CACHE_BYTES
    ensures Load(codec, Some(c), Stored(Document(codec, c, Built(key, fields).value))) == Loaded(Built(key, fields).value)
  {
    BuiltIsOk(key, fields);
    BuiltWithinCutoff(key, fields, c.cutoff);
    WrittenReadsBack(codec, c, Built(key, fields).value);
  }

  /* ---- What a loaded index is ---- */

  lemma {:induction false} ParsedTextsAreFull(items: seq<Json>, n: nat)
    requires n <= |items| && ParseTexts(items, n).Some?
    ensures forall i | 0 <= i < |ParseTexts(items, n).value| :: ParseTexts(items, n).value[i] != ""
  {
    if n > 0 {
      ParsedTextsAreFull(items, n - 1);
    }
  }

  lemma {:induction false} ParsedRolesAreOk(value: Option<Json>)
    requires ParseRoleValues(value).Some?
    ensures RolesOk(ParseRoleValues(value).value)
  {
    ParsedTextsAreFull(value.value.items, |value.value.items|);
  }

  lemma {:induction false} ParsedRowIsOk(j: Json)
    requires ParseRow(j).Some?
    ensures ReceiptOk(ParseRow(j).value)
  {
    ParsedRolesAreOk(Get(j.members, "event_types"));
    ParsedRolesAreOk(Get(j.members, "counterparties"));
    ParsedRolesAreOk(Get(j.members, "contract_names"));
  }

  lemma {:induction false} ParsedRowsAreOk(parse: RowParser, items: seq<Json>, n: nat)
    requires n <= |items| && ParseRowsUpTo(parse, items, n).Some?
    ensures var rows := ParseRowsUpTo(parse, items, n).value;
            |rows| == n && Distinct(Receipts(rows)) && forall i | 0 <= i < n :: parse(items[i]) == Some(rows[i])
  {
    if n > 0 {
      ParsedRowsAreOk(parse, items, n - 1);
      var before, row := ParseRowsUpTo(parse, items, n - 1).value, parse(items[n - 1]).value;
      assert Receipts(before + [row]) == Receipts(before) + [row.receipt];
    }
  }

  lemma {:induction false} ParsedCompanyIsOk(j: Json)
    requires ParseRows(j).Some?
    ensures RowsOk(ParseRows(j).value)
  {
    var parse: RowParser, rows := ParseRow, ParseRows(j).value;
    ParsedRowsAreOk(parse, j.items, |j.items|);
    forall i | 0 <= i < |rows|
      ensures ReceiptOk(rows[i])
    {
      assert parse(j.items[i]) == Some(rows[i]);
      ParsedRowIsOk(j.items[i]);
    }
  }

  lemma {:induction false} ParsedIndexIsOk(parse: RowsParser, members: seq<Member>, n: nat, ok: seq<ReceiptRoles> -> bool)
    requires n <= |members| && ParseCompanies(parse, members, n).Some?
    requires forall j | parse(j).Some? :: ok(parse(j).value)
    ensures forall corp | corp in ParseCompanies(parse, members, n).value ::
              corp != "" && ok(ParseCompanies(parse, members, n).value[corp])
  {
    if n > 0 {
      ParsedIndexIsOk(parse, members, n - 1, ok);
      assert parse(members[n - 1].value).Some?;
    }
  }

  lemma {:induction false} ParsedValuesAreOk(value: Option<Json>)
    requires ParseValues(value).Some?
    ensures IndexOk(ParseValues(value).value)
  {
    var parse: RowsParser, ok := ParseRows, (rows: seq<ReceiptRoles>) => RowsOk(rows);
    forall j | parse(j).Some?
      ensures ok(parse(j).value)
    {
      ParsedCompanyIsOk(j);
    }
    ParsedIndexIsOk(parse, value.value.members, |value.value.members|, ok);
    var index := ParseValues(value).value;
    forall corp | corp in index
      ensures corp != "" && RowsOk(index[corp])
    {
      assert ok(index[corp]);
    }
  }

  /** Whatever loads meets every rule a built index meets, and its recorded digest is its own. */
  lemma {:induction false} LoadedIsOk(codec: Codec, c: Contract, file: File)
    requires Load(codec, Some(c), file).Loaded?
    ensures var index := Load(codec, Some(c), file).index;
            && IndexOk(index) && WithinCutoff(index, c.cutoff)
            && file.document.JObj? && EnvelopeMatches(c, file.document.members)
            && Get(file.document.members, "values_sha256") == Some(JStr(codec.digest(ValuesJson(index))))
  {
    var values := Get(file.document.members, "values").value;
    ParsedValuesAreOk(Some(values));
    var index := Load(codec, Some(c), file).index;
    assert !LateRow(index, c.cutoff);
  }

  ghost predicate Injective(digest: Json -> string) {
    forall a, b | digest(a) == digest(b) :: a == b
  }

  /** A file that records the digest of one index never loads as another. */
  lemma {:induction false} AlteredValuesAreRejected(codec: Codec, c: Contract, original: Index, file: File)
    requires Injective(codec.digest) && IndexOk(original)
    requires file.Stored? && file.document.JObj?
    requires Get(file.document.members, "values_sha256") == Some(JStr(codec.digest(ValuesJson(original))))
    ensures Load(codec, Some(c), file) == Rejected || Load(codec, Some(c), file) == Loaded(original)
  {
    if Load(codec, Some(c), file).Loaded? {
      var index := Load(codec, Some(c), file).index;
      LoadedIsOk(codec, c, file);
      assert codec.digest(ValuesJson(index)) == codec.digest(ValuesJson(original));
      ValuesParse(index);
      ValuesParse(original);
    }
  }

  /** A file written for other fields, another cutoff or another policy version is never taken over. */
  lemma {:induction false} StaleFilesAreRejected(codec: Codec, c: Contract, other: Contract, index: Index)
    requires Envelope(c) != Envelope(other)
    ensures Load(codec, Some(c), Stored(Document(codec, other, index))) == Rejected
  {
    DocumentGets(codec, other, index);
    EnvelopeTells(c, other, Envelope(other) + Payload(codec, index));
  }

  /** Members that match one envelope match no other. */
  lemma {:induction false} EnvelopeTells(c: Contract, other: Contract, members: seq<Member>)
    requires Envelope(c) != Envelope(other) && EnvelopeMatches(other, members)
    ensures !EnvelopeMatches(c, members)
  {
    var a, b := Envelope(c), Envelope(other);
    var i :| 0 <= i < 7 && a[i] != b[i];
    assert a[i].key == b[i].key;
    assert Get(members, b[i].key) == Some(b[i].value);
  }

  /* ---- The index as it is used ---- */

  datatype CacheStatus = Disabled | NotLoaded | CacheHit | ColdPersisted | MemoryOnly

  class Disk {
    var file: File

    constructor ()
      ensures file == Missing
    {
      file := Missing;
    }
  }

  function RowsFor(index: Index, corp: string): seq<ReceiptRoles> {
    if corp in index then index[corp] else []
  }

  class EventRoleIndex {
    const key: string -> string
    const codec: Codec
    const contract: Option<Contract>
    const disk: Disk
    var rows: Index
    var loaded: bool
    var status: CacheStatus

    constructor (key: string -> string, codec: Codec, contract: Option<Contract>, disk: Disk)
      ensures this.key == key && this.codec == codec && this.contract == contract && this.disk == disk
      ensures !loaded && rows == map[] && status == if contract.None? then Disabled else NotLoaded
    {
      this.key, this.codec, this.contract, this.disk := key, codec, contract, disk;
      rows, loaded := map[], false;
      status := if contract.None? then Disabled else NotLoaded;
    }

    method LoadCache() returns (result: LoadResult)
      ensures result == Load(codec, contract, disk.file)
    {
      if contract.None? || disk.file.Missing? {
        return Absent;
      }
      if disk.file.Unreadable? || codec.size(disk.file.document) > MAX_CACHE_BYTES || !disk.file.document.JObj? {
        return Rejected;
      }
      var members := disk.file.document.members;
      if !EnvelopeMatches(contract.value, members) {
        return Rejected;
      }
      var index := ReadValues(Get(members, "values"));
      if index.None? || LateRow(index.value, contract.value.cutoff)
         || Get(members, "values_sha256") != Some(JStr(codec.digest(ValuesJson(index.value))))
         || !CountsMatch(Get(members, "counts"), CountMembers(index.value)) {
        return Rejected;
      }
      result := Loaded(index.value);
    }

    /** Whether the index was persisted; None when the document is too large. An unwritable disk is no error. */
    method WriteCache(index: Index, writable: bool) returns (persisted: Option<bool>)
      modifies disk
      ensures persisted == if contract.None? then Some(false)
                           else if codec.size(Document(codec, contract.value, index)) > MAX_CACHE_BYTES then None
                           else Some(writable)
      ensures disk.file == if persisted == Some(true) then Stored(Document(codec, contract.value, index)) else old(disk.file)
    {
      if contract.None? {
        return Some(false);
      }
      var document := Document(codec, contract.value, index);
      if codec.size(document) > MAX_CACHE_BYTES {
        return None;
      }
      if writable {
        disk.file := Stored(document);
      }
      persisted := Some(writable);
    }

    /** The rows of one company, from memory, from the cache, or from a scan; None where an error is raised. */
    method CompanyRows(corp: string, fields: seq<Field>, writable: bool) returns (result: Option<seq<ReceiptRoles>>)
      modifies this, disk
      ensures result.Some? ==> result.value == if corp in rows then rows[corp] else []
      ensures old(loaded) ==> result.Some? && rows == old(rows) && loaded && disk.file == old(disk.file)
      ensures !old(loaded) && Load(codec, contract, old(disk.file)).Rejected? ==>
                result.None? && !loaded && disk.file == old(disk.file)
      ensures !old(loaded) && Load(codec, contract, old(disk.file)).Loaded? ==>
                && result.Some? && loaded && status == CacheHit && disk.file == old(disk.file)
                && rows == Load(codec, contract, old(disk.file)).index
      ensures !old(loaded) && Load(codec, contract, old(disk.file)).Absent? ==>
                && (loaded <==> result.Some?)
                && (result.Some? <==>
                      Built(key, fields).Some?
                      && (contract.Some? ==> codec.size(Document(codec, contract.value, Built(key, fields).value)) <= MAX_CACHE_BYTES))
                && (result.Some? ==> Some(rows) == Built(key, fields))
                && (var saved := result.Some? && contract.Some? && writable;
                    && disk.file == (if saved then Stored(Document(codec, contract.value, rows)) else old(disk.file))
                    && (result.Some? ==> status == if saved then ColdPersisted else MemoryOnly))
    {
      if loaded {
        return Some(RowsFor(rows, corp));
      }
      var cached := LoadCache();
      if cached.Rejected? {
        return None;
      }
      if cached.Loaded? {
        rows, status := cached.index, CacheHit;
      } else {
        var index := BuildIndex(key, fields);
        if index.None? {
          return None;
        }
        rows := index.value;
        var persisted := WriteCache(rows, writable);
        if persisted.None? {
          return None;
        }
        status := if persisted.value then ColdPersisted else MemoryOnly;
      }
      loaded := true;
      result := Some(RowsFor(rows, corp));
    }
  }
}
