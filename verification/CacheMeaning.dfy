/** Exactly which cache files load, and as what. */
module CacheMeaning {
  import opened Wrappers
  import opened Ordering
  import opened Json
  import opened EventIndex
  import opened EventCache
  import EventMeaning

  /* ---- Rows ---- */

  /** The value lists these texts: in increasing order, none of them empty. */
  ghost predicate Lists(j: Json, texts: seq<string>) {
    && j.JArr? && |j.items| == |texts| && StrictlySorted(texts)
    && forall i | 0 <= i < |texts| :: j.items[i] == JStr(texts[i]) && texts[i] != ""
  }

  lemma {:induction false} TextsExactly(items: seq<Json>, n: nat, texts: seq<string>)
    requires n <= |items|
    ensures ParseTexts(items, n) == Some(texts) <==>
            |texts| == n && forall i | 0 <= i < n :: items[i] == JStr(texts[i]) && texts[i] != ""
  {
    if n > 0 {
      if ParseTexts(items, n) == Some(texts) {
        TextsExactly(items, n - 1, ParseTexts(items, n - 1).value);
      }
      if |texts| == n && forall i | 0 <= i < n :: items[i] == JStr(texts[i]) && texts[i] != "" {
        TextsExactly(items, n - 1, texts[..n - 1]);
        assert texts == texts[..n - 1] + [texts[n - 1]];
      }
    }
  }

  lemma {:induction false} InOrderIsSorted(texts: seq<string>)
    ensures texts == Sorted(Elements(texts)) <==> StrictlySorted(texts)
  {
    if StrictlySorted(texts) {
      SortedIsUnique(texts);
    }
  }

  lemma {:induction false} RolesExactly(value: Option<Json>, texts: seq<string>)
    ensures ParseRoleValues(value) == Some(texts) <==> value.Some? && Lists(value.value, texts)
  {
    if value.Some? && value.value.JArr? {
      TextsExactly(value.value.items, |value.value.items|, texts);
      InOrderIsSorted(texts);
    }
  }

  ghost predicate ShowsDigits(value: Option<Json>, s: string, n: nat) {
    value == Some(JStr(s)) && EventMeaning.Digits(s, n)
  }

  ghost predicate ShowsTexts(value: Option<Json>, texts: seq<string>) {
    value.Some? && Lists(value.value, texts)
  }

  lemma {:induction false} DigitsExactly(value: Option<Json>, s: string, n: nat)
    ensures ParseDigits(value, n) == Some(s) <==> ShowsDigits(value, s, n)
  {
    EventMeaning.DigitsAre(s, n);
  }

  /** An object with these five members and no other. */
  ghost predicate ShowsRow(j: Json, r: ReceiptRoles) {
    && j.JObj?
    && (forall k | 0 <= k < |j.members| ::
          var key := j.members[k].key;
          key == "rcept_no" || key == "rcept_dt" || key == "event_types" || key == "counterparties" || key == "contract_names")
    && ShowsDigits(Get(j.members, "rcept_no"), r.receipt, 14) && ShowsDigits(Get(j.members, "rcept_dt"), r.date, 8)
    && ShowsTexts(Get(j.members, "event_types"), r.eventTypes) && ShowsTexts(Get(j.members, "counterparties"), r.counterparties)
    && ShowsTexts(Get(j.members, "contract_names"), r.contractNames)
  }

  lemma {:induction false} RowKeysExactly(members: seq<Member>)
    ensures HasRowKeys(members) <==>
            && Has(members, "rcept_no") && Has(members, "rcept_dt") && Has(members, "event_types") && Has(members, "counterparties")
            && Has(members, "contract_names")
            && forall k | 0 <= k < |members| ::
                 var key := members[k].key;
                 key == "rcept_no" || key == "rcept_dt" || key == "event_types" || key == "counterparties" || key == "contract_names"
  {
    assert ROW_KEYS[0] == "contract_names" && ROW_KEYS[1] == "counterparties" && ROW_KEYS[2] == "event_types";
    assert ROW_KEYS[3] == "rcept_dt" && ROW_KEYS[4] == "rcept_no" && |ROW_KEYS| == 5;
  }

  lemma {:induction false} RowExactly(j: Json, r: ReceiptRoles)
    ensures ParseRow(j) == Some(r) <==> ShowsRow(j, r)
  {
    if j.JObj? {
      var m := j.members;
      RowKeysExactly(m);
      DigitsExactly(Get(m, "rcept_no"), r.receipt, 14);
      DigitsExactly(Get(m, "rcept_dt"), r.date, 8);
      RolesExactly(Get(m, "event_types"), r.eventTypes);
      RolesExactly(Get(m, "counterparties"), r.counterparties);
      RolesExactly(Get(m, "contract_names"), r.contractNames);
    }
  }

  /** At most 100,000 rows, by increasing receipt number. */
  ghost predicate ShowsRows(j: Json, rows: seq<ReceiptRoles>) {
    && j.JArr? && |j.items| == |rows| <= 100_000
    && (forall i {:trigger rows[i]} | 0 <= i < |rows| :: ShowsRow(j.items[i], rows[i]))
    && forall i, k | 0 <= i < k < |rows| :: Less(rows[i].receipt, rows[k].receipt)
  }

  lemma {:induction false} ReceiptsNext(before: seq<ReceiptRoles>, row: ReceiptRoles)
    ensures Distinct(Receipts(before + [row])) <==> Distinct(Receipts(before)) && row.receipt !in Receipts(before)
  {
    assert Receipts(before + [row]) == Receipts(before) + [row.receipt];
    DistinctParts(Receipts(before), [row.receipt]);
  }

  ghost predicate ListParsed(parse: RowParser, items: seq<Json>, n: nat, rows: seq<ReceiptRoles>)
    requires n <= |items|
  {
    |rows| == n && (forall i | 0 <= i < n :: parse(items[i]) == Some(rows[i])) && Distinct(Receipts(rows))
  }

  lemma {:induction false} RowListExactly(parse: RowParser, items: seq<Json>, n: nat, rows: seq<ReceiptRoles>)
    requires n <= |items|
    ensures ParseRowsUpTo(parse, items, n) == Some(rows) <==> ListParsed(parse, items, n, rows)
  {
    if n > 0 {
      if ParseRowsUpTo(parse, items, n) == Some(rows) {
        var before := ParseRowsUpTo(parse, items, n - 1).value;
        RowListExactly(parse, items, n - 1, before);
        ReceiptsNext(before, parse(items[n - 1]).value);
      }
      if ListParsed(parse, items, n, rows) {
        var before := rows[..n - 1];
        assert rows == before + [rows[n - 1]];
        ReceiptsNext(before, rows[n - 1]);
        RowListExactly(parse, items, n - 1, before);
      }
    }
  }

  lemma {:induction false} RowsExactly(j: Json, rows: seq<ReceiptRoles>)
    ensures ParseRows(j) == Some(rows) <==> ShowsRows(j, rows)
  {
    if j.JArr? {
      RowListExactly(ParseRow, j.items, |j.items|, rows);
      InOrderIsSorted(Receipts(rows));
      if |rows| == |j.items| {
        forall i | 0 <= i < |rows|
          ensures ParseRow(j.items[i]) == Some(rows[i]) <==> ShowsRow(j.items[i], rows[i])
        {
          RowExactly(j.items[i], rows[i]);
        }
      }
      if StrictlySorted(Receipts(rows)) {
        SortedIsDistinct(Receipts(rows));
      }
      assert StrictlySorted(Receipts(rows)) <==> forall i, k | 0 <= i < k < |rows| :: Less(rows[i].receipt, rows[k].receipt) by {
        assert forall i | 0 <= i < |rows| :: Receipts(rows)[i] == rows[i].receipt;
      }
    }
  }

  /* ---- Companies ---- */

  ghost predicate Named(members: seq<Member>, n: nat, corp: string) {
    exists k :: 0 <= k < n && k < |members| && members[k].key == corp
  }

  /** One member per company, with its rows. */
  ghost predicate ShowsIndex(members: seq<Member>, index: Index) {
    && (forall corp :: corp in index <==> Named(members, |members|, corp))
    && forall k {:trigger members[k]} | 0 <= k < |members| ::
         members[k].key != "" && members[k].key in index && ShowsRows(members[k].value, index[members[k].key])
  }

  ghost predicate Parsed(parse: RowsParser, members: seq<Member>, n: nat, index: Index)
    requires n <= |members|
  {
    && (forall corp :: corp in index <==> Named(members, n, corp))
    && forall k {:trigger members[k]} | 0 <= k < n ::
         members[k].key != "" && members[k].key in index && parse(members[k].value) == Some(index[members[k].key])
  }

  lemma {:induction false} ParsedNext(parse: RowsParser, members: seq<Member>, n: nat, before: Index, rows: seq<ReceiptRoles>)
    requires UniqueKeys(members) && 0 < n <= |members|
    requires Parsed(parse, members, n - 1, before)
    requires members[n - 1].key != "" && parse(members[n - 1].value) == Some(rows)
    ensures Parsed(parse, members, n, before[members[n - 1].key := rows])
  {
    var index := before[members[n - 1].key := rows];
    forall corp
      ensures corp in index <==> Named(members, n, corp)
    {
      assert Named(members, n, corp) <==> Named(members, n - 1, corp) || corp == members[n - 1].key;
    }
  }

  lemma {:induction false} ParsedBefore(parse: RowsParser, members: seq<Member>, n: nat, index: Index)
    requires UniqueKeys(members) && 0 < n <= |members| && Parsed(parse, members, n, index)
    ensures Parsed(parse, members, n - 1, index - {members[n - 1].key})
    ensures members[n - 1].key != "" && parse(members[n - 1].value).Some?
    ensures (index - {members[n - 1].key})[members[n - 1].key := parse(members[n - 1].value).value] == index
  {
    assert members[n - 1].key != "";
    var before := index - {members[n - 1].key};
    forall corp
      ensures corp in before <==> Named(members, n - 1, corp)
    {
      assert Named(members, n, corp) <==> Named(members, n - 1, corp) || corp == members[n - 1].key;
    }
  }

  lemma {:induction false} CompaniesExactly(parse: RowsParser, members: seq<Member>, n: nat, index: Index)
    requires UniqueKeys(members) && n <= |members|
    ensures ParseCompanies(parse, members, n) == Some(index) <==> Parsed(parse, members, n, index)
  {
    if n == 0 {
      if Parsed(parse, members, 0, index) {
        assert index == map[];
      }
    } else {
      var key := members[n - 1].key;
      if ParseCompanies(parse, members, n) == Some(index) {
        var before := ParseCompanies(parse, members, n - 1).value;
        CompaniesExactly(parse, members, n - 1, before);
        ParsedNext(parse, members, n, before, parse(members[n - 1].value).value);
      }
      if Parsed(parse, members, n, index) {
        ParsedBefore(parse, members, n, index);
        CompaniesExactly(parse, members, n - 1, index - {key});
      }
    }
  }

  lemma {:induction false} ValuesExactly(members: seq<Member>, index: Index)
    requires UniqueKeys(members)
    ensures ParseValues(Some(JObj(members))) == Some(index) <==> ShowsIndex(members, index)
  {
    CompaniesExactly(ParseRows, members, |members|, index);
    forall k | 0 <= k < |members| && members[k].key in index
      ensures ParseRows(members[k].value) == Some(index[members[k].key]) <==> ShowsRows(members[k].value, index[members[k].key])
    {
      RowsExactly(members[k].value, index[members[k].key]);
    }
  }

  ghost predicate ShowsValues(value: Option<Json>, index: Index) {
    value.Some? && value.value.JObj? && ShowsIndex(value.value.members, index)
  }

  /* ---- Counts ---- */

  type Size = ReceiptRoles -> nat

  /** The places of single values: company, row and position. */
  ghost function Spots(index: Index, size: Size): set<(string, nat, nat)> {
    set corp, k: nat, l: nat | corp in index && k < |index[corp]| && l < size(index[corp][k]) :: (corp, k, l)
  }

  ghost function RowSpots(corp: string, k: nat, n: nat): set<(string, nat, nat)> {
    set l: nat | l < n :: (corp, k, l)
  }

  ghost function CompanySpots(corp: string, rows: seq<ReceiptRoles>, size: Size): set<(string, nat, nat)> {
    set k: nat, l: nat | k < |rows| && l < size(rows[k]) :: (corp, k, l)
  }

  lemma {:induction false} RowSpotsCount(corp: string, k: nat, n: nat)
    ensures |RowSpots(corp, k, n)| == n
  {
    if n == 0 {
      assert RowSpots(corp, k, 0) == {};
    } else {
      RowSpotsCount(corp, k, n - 1);
      assert RowSpots(corp, k, n) == RowSpots(corp, k, n - 1) + {(corp, k, n - 1)};
    }
  }

  lemma {:induction false} TotalOfMore(a: seq<ReceiptRoles>, b: seq<ReceiptRoles>, size: Size)
    ensures Total(a + b, size) == Total(a, size) + Total(b, size)
  {
    if a == [] {
      assert a + b == b;
    } else {
      TotalOfMore(a[1..], b, size);
      assert (a + b)[1..] == a[1..] + b;
    }
  }

  lemma {:induction false} CompanySpotsCount(corp: string, rows: seq<ReceiptRoles>, size: Size)
    ensures |CompanySpots(corp, rows, size)| == Total(rows, size)
  {
    if rows == [] {
      assert CompanySpots(corp, rows, size) == {};
    } else {
      var n := |rows| - 1;
      CompanySpotsCount(corp, rows[..n], size);
      RowSpotsCount(corp, n, size(rows[n]));
      TotalOfMore(rows[..n], [rows[n]], size);
      assert rows == rows[..n] + [rows[n]];
      CompanySpotsNext(corp, rows, size);
    }
  }

  lemma {:induction false} CompanySpotsNext(corp: string, rows: seq<ReceiptRoles>, size: Size)
    requires rows != []
    ensures var n := |rows| - 1;
            && CompanySpots(corp, rows, size) == CompanySpots(corp, rows[..n], size) + RowSpots(corp, n, size(rows[n]))
            && CompanySpots(corp, rows[..n], size) !! RowSpots(corp, n, size(rows[n]))
  {
  }

  ghost function SomeOf(index: Index, corps: seq<string>): Index {
    map corp | corp in index && corp in corps :: index[corp]
  }

  lemma {:induction false} SpotsNext(index: Index, corps: seq<string>, n: nat, size: Size)
    requires Distinct(corps) && n < |corps| && corps[n] in index
    ensures var before, own := Spots(SomeOf(index, corps[..n]), size), CompanySpots(corps[n], index[corps[n]], size);
            Spots(SomeOf(index, corps[..n + 1]), size) == before + own && before !! own
  {
    assert forall corp :: corp in corps[..n + 1] <==> corp in corps[..n] || corp == corps[n];
    assert corps[n] !in corps[..n];
  }

  lemma {:induction false} SpotsCount(index: Index, corps: seq<string>, rowsOf: string -> seq<ReceiptRoles>, n: nat, size: Size)
    requires Distinct(corps) && n <= |corps| && forall i | 0 <= i < |corps| :: corps[i] in index && rowsOf(corps[i]) == index[corps[i]]
    ensures |Spots(SomeOf(index, corps[..n]), size)| == Total(Gather(corps, rowsOf, n), size)
  {
    if n == 0 {
      assert Spots(SomeOf(index, corps[..0]), size) == {};
    } else {
      SpotsCount(index, corps, rowsOf, n - 1, size);
      SpotsNext(index, corps, n - 1, size);
      CompanySpotsCount(corps[n - 1], index[corps[n - 1]], size);
      TotalOfMore(Gather(corps, rowsOf, n - 1), rowsOf(corps[n - 1]), size);
    }
  }

  lemma {:induction false} AllOfThem(index: Index, corps: seq<string>)
    requires Elements(corps) == index.Keys
    ensures SomeOf(index, corps[..|corps|]) == index
    ensures forall i | 0 <= i < |corps| :: corps[i] in index
  {
    assert corps[..|corps|] == corps;
    assert forall corp :: corp in index <==> corp in Elements(corps);
    assert forall i | 0 <= i < |corps| :: corps[i] in Elements(corps);
  }

  /** Adding up over all rows counts the places. */
  lemma {:induction false} TotalExactly(index: Index, size: Size)
    ensures Total(AllRows(index), size) == |Spots(index, size)|
  {
    var corps := Sorted(index.Keys);
    SortedIsDistinct(corps);
    AllOfThem(index, corps);
    SpotsCount(index, corps, (corp: string) => if corp in index then index[corp] else [], |corps|, size);
  }

  lemma {:induction false} OnesCount(rows: seq<ReceiptRoles>)
    ensures Total(rows, (r: ReceiptRoles) => 1) == |rows|
  {
    if rows != [] {
      OnesCount(rows[1..]);
    }
  }

  /** A number, in any of the forms that compare equal to it. */
  ghost predicate IsNumber(value: Option<Json>, n: nat) {
    && value.Some?
    && match value.value
       case JInt(i) => i == n
       case JFloat(x) => x == n as real
       case JBool(b) => n == if b then 1 else 0
       case _ => false
  }

  lemma {:induction false} NumberExactly(j: Json, n: nat)
    ensures SameNumber(j, JInt(n)) <==> IsNumber(Some(j), n)
  {
  }

  ghost predicate ShowsNumbers(value: Option<Json>, companies: nat, receipts: nat, types: nat, parties: nat, names: nat) {
    && value.Some? && value.value.JObj? && |value.value.members| == 5
    && var m := value.value.members;
       && IsNumber(Get(m, "corp_codes"), companies) && IsNumber(Get(m, "receipts"), receipts)
       && IsNumber(Get(m, "event_types"), types) && IsNumber(Get(m, "counterparties"), parties)
       && IsNumber(Get(m, "contract_names"), names)
  }

  /** Five counts and nothing else: companies, receipts, and the values of each role. */
  ghost predicate ShowsCounts(value: Option<Json>, index: Index) {
    ShowsNumbers(value, |index.Keys|, |Spots(index, (r: ReceiptRoles) => 1)|, |Spots(index, (r: ReceiptRoles) => |r.eventTypes|)|,
                 |Spots(index, (r: ReceiptRoles) => |r.counterparties|)|, |Spots(index, (r: ReceiptRoles) => |r.contractNames|)|)
  }

  ghost predicate CountIs(members: seq<Member>, count: Member) {
    Has(members, count.key) && SameNumber(At(members, count.key), count.value)
  }

  lemma {:induction false} CountIsNumber(members: seq<Member>, key: string, n: nat)
    ensures CountIs(members, Member(key, JInt(n))) <==> IsNumber(Get(members, key), n)
  {
    if Has(members, key) {
      NumberExactly(At(members, key), n);
    }
  }

  lemma {:induction false} FiveMatch(value: Option<Json>, counts: seq<Member>)
    requires |counts| == 5
    ensures CountsMatch(value, counts) <==>
            && value.Some? && value.value.JObj? && |value.value.members| == 5
            && CountIs(value.value.members, counts[0]) && CountIs(value.value.members, counts[1]) && CountIs(value.value.members, counts[2])
            && CountIs(value.value.members, counts[3]) && CountIs(value.value.members, counts[4])
  {
  }

  function FiveCounts(companies: nat, receipts: nat, types: nat, parties: nat, names: nat): (r: seq<Member>)
    ensures |r| == 5
  {
    [Member("contract_names", JInt(names)), Member("corp_codes", JInt(companies)), Member("counterparties", JInt(parties)),
     Member("event_types", JInt(types)), Member("receipts", JInt(receipts))]
  }

  lemma {:induction false} ReceiptsAre(index: Index)
    ensures CountMembers(index)[4].value == JInt(|Spots(index, (r: ReceiptRoles) => 1)|)
  {
    OnesCount(AllRows(index));
    TotalExactly(index, (r: ReceiptRoles) => 1);
  }

  lemma {:induction false} TypesAre(index: Index)
    ensures CountMembers(index)[3].value == JInt(|Spots(index, (r: ReceiptRoles) => |r.eventTypes|)|)
  {
    TotalExactly(index, (r: ReceiptRoles) => |r.eventTypes|);
  }

  lemma {:induction false} PartiesAre(index: Index)
    ensures CountMembers(index)[2].value == JInt(|Spots(index, (r: ReceiptRoles) => |r.counterparties|)|)
  {
    TotalExactly(index, (r: ReceiptRoles) => |r.counterparties|);
  }

  lemma {:induction false} NamesAre(index: Index)
    ensures CountMembers(index)[0].value == JInt(|Spots(index, (r: ReceiptRoles) => |r.contractNames|)|)
  {
    TotalExactly(index, (r: ReceiptRoles) => |r.contractNames|);
  }

  lemma {:induction false} TotalsAre(index: Index, receipts: nat, types: nat, parties: nat, names: nat)
    requires CountMembers(index)[4].value == JInt(receipts) && CountMembers(index)[3].value == JInt(types)
    requires CountMembers(index)[2].value == JInt(parties) && CountMembers(index)[0].value == JInt(names)
    ensures CountMembers(index) == FiveCounts(|index.Keys|, receipts, types, parties, names)
  {
  }

  lemma {:induction false} FiveAre(value: Option<Json>, counts: seq<Member>, companies: nat, receipts: nat, types: nat, parties: nat, names: nat)
    requires counts == FiveCounts(companies, receipts, types, parties, names)
    ensures CountsMatch(value, counts) <==> ShowsNumbers(value, companies, receipts, types, parties, names)
  {
    FiveMatch(value, counts);
    if value.Some? && value.value.JObj? {
      var m := value.value.members;
      CountIsNumber(m, "contract_names", names);
      CountIsNumber(m, "corp_codes", companies);
      CountIsNumber(m, "counterparties", parties);
      CountIsNumber(m, "event_types", types);
      CountIsNumber(m, "receipts", receipts);
    }
  }

  lemma {:induction false} CountsExactly(value: Option<Json>, index: Index)
    ensures CountsMatch(value, CountMembers(index)) <==> ShowsCounts(value, index)
  {
    var receipts: nat, types: nat := |Spots(index, (r: ReceiptRoles) => 1)|, |Spots(index, (r: ReceiptRoles) => |r.eventTypes|)|;
    var parties: nat := |Spots(index, (r: ReceiptRoles) => |r.counterparties|)|;
    var names: nat := |Spots(index, (r: ReceiptRoles) => |r.contractNames|)|;
    ReceiptsAre(index);
    TypesAre(index);
    PartiesAre(index);
    NamesAre(index);
    TotalsAre(index, receipts, types, parties, names);
    FiveAre(value, CountMembers(index), |index.Keys|, receipts, types, parties, names);
  }

  /* ---- Files ---- */

  /** The members that bind a file to a build. */
  ghost predicate BoundTo(members: seq<Member>, c: Contract) {
    && Get(members, "canonical_build_id") == Some(JStr(c.buildId))
    && Get(members, "canonical_schema_version") == Some(JStr(c.canonicalSchema))
    && Get(members, "corpus_cutoff") == Some(JStr(c.cutoff))
    && Get(members, "fields_artifact_hash") == Some(JStr(c.fieldsHash))
    && Get(members, "role_policy_version") == Some(JStr(c.policyVersion))
    && Get(members, "schema_version") == Some(JStr(c.indexSchema))
    && Get(members, "index_build_id") == Some(JStr(c.indexBuildId))
  }

  lemma {:induction false} BoundExactly(members: seq<Member>, c: Contract)
    ensures EnvelopeMatches(c, members) <==> BoundTo(members, c)
  {
    var e := Envelope(c);
    assert |e| == 7 && e[0] == Member("canonical_build_id", JStr(c.buildId)) && e[1] == Member("canonical_schema_version", JStr(c.canonicalSchema));
    assert e[2] == Member("corpus_cutoff", JStr(c.cutoff)) && e[3] == Member("fields_artifact_hash", JStr(c.fieldsHash));
    assert e[4] == Member("index_build_id", JStr(c.indexBuildId)) && e[5] == Member("role_policy_version", JStr(c.policyVersion));
    assert e[6] == Member("schema_version", JStr(c.indexSchema));
  }

  ghost predicate InTime(index: Index, cutoff: string) {
    forall corp, k | corp in index && 0 <= k < |index[corp]| :: !Less(cutoff, index[corp][k].date)
  }

  /** The file holds the index: bound to this build, at most 64 MiB, its rows within the cutoff, with its digest and counts. */
  ghost predicate Holds(codec: Codec, c: Contract, file: File, index: Index) {
    && file.Stored? && codec.size(file.document) <= 67_108_864 && file.document.JObj?
    && var m := file.document.members;
       && BoundTo(m, c)
       && ShowsValues(Get(m, "values"), index)
       && InTime(index, c.cutoff)
       && Get(m, "values_sha256") == Some(JStr(codec.digest(ValuesJson(index))))
       && ShowsCounts(Get(m, "counts"), index)
  }

  lemma {:induction false} ValuesUnique(members: seq<Member>)
    requires WellFormed(JObj(members)) && Get(members, "values").Some? && Get(members, "values").value.JObj?
    ensures UniqueKeys(Get(members, "values").value.members)
  {
    var k := IndexOf(members, "values");
    assert WellFormed(members[k].value);
  }

  lemma {:induction false} FileValuesExactly(members: seq<Member>, index: Index)
    requires WellFormed(JObj(members))
    ensures ParseValues(Get(members, "values")) == Some(index) <==> ShowsValues(Get(members, "values"), index)
  {
    if Get(members, "values").Some? && Get(members, "values").value.JObj? {
      ValuesUnique(members);
      ValuesExactly(Get(members, "values").value.members, index);
    }
  }

  lemma {:induction false} LateExactly(index: Index, cutoff: string)
    ensures LateRow(index, cutoff) <==> !InTime(index, cutoff)
  {
  }

  /** A file loads as an index exactly when it holds that index; without a build to bind to or without a file there is none, and
      any other file is rejected. */
  lemma {:induction false} LoadedExactly(codec: Codec, contract: Option<Contract>, file: File, index: Index)
    requires file.Stored? ==> WellFormed(file.document)
    ensures Load(codec, contract, file).Absent? <==> contract.None? || file.Missing?
    ensures Load(codec, contract, file) == Loaded(index) <==> contract.Some? && Holds(codec, contract.value, file, index)
  {
    if contract.Some? && file.Stored? && file.document.JObj? {
      var m := file.document.members;
      LateExactly(index, contract.value.cutoff);
      BoundExactly(m, contract.value);
      CountsExactly(Get(m, "counts"), index);
      FileValuesExactly(m, index);
    }
  }
}
