/** Building the event role index. */
module EventIndex {
  import opened Wrappers
  import opened Ordering
  import opened Json

  const MAX_ROLE_ROWS: nat := 100_000

  datatype Role = EventName | Counterparty | OtherRole

  /** One canonical field; `role` is what the canonical policy makes of its path, status and privacy flag. */
  datatype Field = Field(corpCode: string, receipt: string, date: string, role: Role,
                         eventType: Option<string>, value: Option<string>)

  /** The roles of one receipt while the index is built. */
  datatype Row = Row(date: string, eventTypes: set<string>, counterparties: set<string>, contractNames: set<string>)

  /** The roles of one receipt as kept and persisted. */
  datatype ReceiptRoles = ReceiptRoles(receipt: string, date: string, eventTypes: seq<string>,
                                       counterparties: seq<string>, contractNames: seq<string>)

  type Index = map<string, seq<ReceiptRoles>>

  predicate IsDigits(s: string, n: nat) {
    |s| == n && forall i | 0 <= i < n :: '0' <= s[i] <= '9'
  }

  predicate IsReceipt(s: string) {
    IsDigits(s, 14)
  }

  predicate IsDate(s: string) {
    IsDigits(s, 8)
  }

  /* ---- Building ---- */

  datatype Grouping = Grouping(companies: map<string, map<string, Row>>, receipts: nat)

  function RowsOf(g: Grouping, corp: string): map<string, Row> {
    if corp in g.companies then g.companies[corp] else map[]
  }

  function RowAt(g: Grouping, corp: string, receipt: string): Option<Row> {
    if receipt in RowsOf(g, corp) then Some(RowsOf(g, corp)[receipt]) else None
  }

  predicate MetadataOk(f: Field) {
    f.corpCode != "" && IsReceipt(f.receipt) && IsDate(f.date)
  }

  /** A field that names an event or a counterparty with a value that survives normalisation. */
  predicate Used(key: string -> string, f: Field) {
    f.role != OtherRole && f.value.Some? && key(f.value.value) != ""
  }

  function AddRoles(row: Row, f: Field): Row
    requires f.value.Some?
  {
    var typed := if f.eventType.Some? && f.eventType.value != "" then {f.eventType.value} else {};
    row.(eventTypes := row.eventTypes + typed,
         counterparties := row.counterparties + if f.role == Counterparty then {f.value.value} else {},
         contractNames := row.contractNames + if f.role == Counterparty then {} else {f.value.value})
  }

  function PutRow(g: Grouping, f: Field, row: Row): Grouping {
    var known := RowAt(g, f.corpCode, f.receipt).Some?;
    Grouping(g.companies[f.corpCode := RowsOf(g, f.corpCode)[f.receipt := row]], if known then g.receipts else g.receipts + 1)
  }

  /** One field, or None where the builder raises. */
  function AddField(key: string -> string, g: Grouping, f: Field): Option<Grouping> {
    if f.role == OtherRole then Some(g)
    else if !MetadataOk(f) then None
    else if !Used(key, f) then Some(g)
    else
      var known := RowAt(g, f.corpCode, f.receipt);
      if known.None? && g.receipts + 1 > MAX_ROLE_ROWS then None
      else if known.Some? && known.value.date != f.date then None
      else Some(PutRow(g, f, AddRoles(if known.Some? then known.value else Row(f.date, {}, {}, {}), f)))
  }

  function GroupedAfter(key: string -> string, fields: seq<Field>, n: nat): Option<Grouping>
    requires n <= |fields|
  {
    if n == 0 then Some(Grouping(map[], 0)) else
    match GroupedAfter(key, fields, n - 1)
    case None => None
    case Some(g) => AddField(key, g, fields[n - 1])
  }

  function Kept(receipt: string, row: Row): ReceiptRoles {
    ReceiptRoles(receipt, row.date, Sorted(row.eventTypes), Sorted(row.counterparties), Sorted(row.contractNames))
  }

  function KeptRows(rows: map<string, Row>): seq<ReceiptRoles> {
    var receipts := Sorted(rows.Keys);
    seq(|receipts|, i requires 0 <= i < |receipts| => assert receipts[i] in Elements(receipts); Kept(receipts[i], rows[receipts[i]]))
  }

  function SerializeRows(g: Grouping): Index {
    map corp | corp in g.companies :: KeptRows(g.companies[corp])
  }

  function Built(key: string -> string, fields: seq<Field>): Option<Index> {
    match GroupedAfter(key, fields, |fields|)
    case None => None
    case Some(g) => Some(SerializeRows(g))
  }

  method BuildIndex(key: string -> string, fields: seq<Field>) returns (index: Option<Index>)
    ensures index == Built(key, fields)
  {
    var g := Grouping(map[], 0);
    for n := 0 to |fields|
      invariant GroupedAfter(key, fields, n) == Some(g)
    {
      var next := AddField(key, g, fields[n]);
      if next.None? {
        RaisedStays(key, fields, n + 1, |fields|);
        return None;
      }
      g := next.value;
    }
    index := Some(SerializeRows(g));
  }

  lemma {:induction false} RaisedStays(key: string -> string, fields: seq<Field>, k: nat, n: nat)
    requires k <= n <= |fields| && GroupedAfter(key, fields, k).None?
    ensures GroupedAfter(key, fields, n).None?
  {
    if k < n {
      RaisedStays(key, fields, k, n - 1);
    }
  }

  /* ---- What the index holds ---- */

  predicate About(key: string -> string, f: Field, corp: string, receipt: string) {
    Used(key, f) && f.corpCode == corp && f.receipt == receipt
  }

  /** The fields about one receipt. */
  ghost function Evidence(key: string -> string, fields: seq<Field>, n: nat, corp: string, receipt: string): set<Field>
    requires n <= |fields|
  {
    set i | 0 <= i < n && About(key, fields[i], corp, receipt) :: fields[i]
  }

  ghost predicate RowExact(row: Row, evidence: set<Field>) {
    && (forall f | f in evidence :: f.date == row.date)
    && row.eventTypes == (set f | f in evidence && f.eventType.Some? && f.eventType.value != "" :: f.eventType.value)
    && row.counterparties == (set f | f in evidence && f.role == Counterparty && f.value.Some? :: f.value.value)
    && row.contractNames == (set f | f in evidence && f.role == EventName && f.value.Some? :: f.value.value)
  }

  /** A receipt has a row exactly when some field is about it, and the row holds exactly those roles. */
  ghost predicate SlotExact(key: string -> string, fields: seq<Field>, n: nat, g: Grouping, corp: string, receipt: string)
    requires n <= |fields|
  {
    var evidence := Evidence(key, fields, n, corp, receipt);
    match RowAt(g, corp, receipt)
    case None => evidence == {}
    case Some(row) => evidence != {} && RowExact(row, evidence)
  }

  lemma {:induction false} EvidenceNext(key: string -> string, fields: seq<Field>, n: nat, corp: string, receipt: string)
    requires n < |fields|
    ensures Evidence(key, fields, n + 1, corp, receipt)
         == Evidence(key, fields, n, corp, receipt) + if About(key, fields[n], corp, receipt) then {fields[n]} else {}
  {
  }

  lemma {:induction false} SlotNext(key: string -> string, fields: seq<Field>, n: nat, g: Grouping, corp: string, receipt: string)
    requires n < |fields| && SlotExact(key, fields, n, g, corp, receipt) && AddField(key, g, fields[n]).Some?
    ensures SlotExact(key, fields, n + 1, AddField(key, g, fields[n]).value, corp, receipt)
  {
    var f, evidence := fields[n], Evidence(key, fields, n, corp, receipt);
    EvidenceNext(key, fields, n, corp, receipt);
    if Used(key, f) {
      var known := RowAt(g, f.corpCode, f.receipt);
      var row := if known.Some? then known.value else Row(f.date, {}, {}, {});
      if About(key, f, corp, receipt) {
      }
    }
  }

  /** The index built from a stream holds exactly the roles its fields give, whatever their order. */
  lemma {:induction false} IndexIsExact(key: string -> string, fields: seq<Field>, n: nat, corp: string, receipt: string)
    requires n <= |fields| && GroupedAfter(key, fields, n).Some?
    ensures SlotExact(key, fields, n, GroupedAfter(key, fields, n).value, corp, receipt)
  {
    if n > 0 {
      IndexIsExact(key, fields, n - 1, corp, receipt);
      SlotNext(key, fields, n - 1, GroupedAfter(key, fields, n - 1).value, corp, receipt);
    }
  }

  /* ---- What is worth persisting ---- */

  predicate RolesOk(values: seq<string>) {
    (forall i | 0 <= i < |values| :: values[i] != "") && StrictlySorted(values)
  }

  predicate ReceiptOk(r: ReceiptRoles) {
    && IsReceipt(r.receipt) && IsDate(r.date)
    && RolesOk(r.eventTypes) && RolesOk(r.counterparties) && RolesOk(r.contractNames)
  }

  function Receipts(rows: seq<ReceiptRoles>): (r: seq<string>)
    ensures |r| == |rows| && forall i | 0 <= i < |rows| :: r[i] == rows[i].receipt
  {
    seq(|rows|, i requires 0 <= i < |rows| => rows[i].receipt)
  }

  predicate RowsOk(rows: seq<ReceiptRoles>) {
    && |rows| <= MAX_ROLE_ROWS
    && (forall i | 0 <= i < |rows| :: ReceiptOk(rows[i]))
    && StrictlySorted(Receipts(rows))
  }

  predicate IndexOk(index: Index) {
    forall corp | corp in index :: corp != "" && RowsOk(index[corp])
  }

  ghost predicate RowWorthy(receipt: string, row: Row) {
    && IsReceipt(receipt) && IsDate(row.date)
    && "" !in row.eventTypes && "" !in row.counterparties && "" !in row.contractNames
  }

  ghost predicate CompanyWorthy(g: Grouping, corp: string) {
    && corp != "" && RowsOf(g, corp) != map[] && |RowsOf(g, corp)| <= g.receipts
    && forall receipt | receipt in RowsOf(g, corp) :: RowWorthy(receipt, RowsOf(g, corp)[receipt])
  }

  ghost predicate Worthy(g: Grouping) {
    && g.receipts <= MAX_ROLE_ROWS
    && forall corp | corp in g.companies :: CompanyWorthy(g, corp)
  }

  lemma {:induction false} PutKeepsWorthy(g: Grouping, f: Field, row: Row)
    requires Worthy(g) && MetadataOk(f) && RowWorthy(f.receipt, row)
    requires RowAt(g, f.corpCode, f.receipt).None? ==> g.receipts < MAX_ROLE_ROWS
    ensures Worthy(PutRow(g, f, row))
  {
    var after, rows := PutRow(g, f, row), RowsOf(g, f.corpCode);
    assert |rows| <= g.receipts by {
      assert f.corpCode in g.companies ==> CompanyWorthy(g, f.corpCode);
    }
    assert rows[f.receipt := row].Keys == rows.Keys + {f.receipt};
    assert |rows[f.receipt := row]| == |rows[f.receipt := row].Keys|;
    forall corp | corp in after.companies
      ensures CompanyWorthy(after, corp)
    {
      assert corp in g.companies ==> CompanyWorthy(g, corp);
    }
  }

  /** Empty texts never get in: the empty string normalises to itself. */
  lemma {:induction false} GroupedIsWorthy(key: string -> string, fields: seq<Field>, n: nat)
    requires key("") == "" && n <= |fields| && GroupedAfter(key, fields, n).Some?
    ensures Worthy(GroupedAfter(key, fields, n).value)
  {
    if n > 0 {
      GroupedIsWorthy(key, fields, n - 1);
      var g, f := GroupedAfter(key, fields, n - 1).value, fields[n - 1];
      if Used(key, f) {
        var known := RowAt(g, f.corpCode, f.receipt);
        assert known.Some? ==> CompanyWorthy(g, f.corpCode);
        PutKeepsWorthy(g, f, AddRoles(if known.Some? then known.value else Row(f.date, {}, {}, {}), f));
      }
    }
  }

  lemma {:induction false} KeptRowsOk(rows: map<string, Row>)
    requires |rows| <= MAX_ROLE_ROWS && forall receipt | receipt in rows :: RowWorthy(receipt, rows[receipt])
    ensures RowsOk(KeptRows(rows))
  {
    var receipts := Sorted(rows.Keys);
    assert |rows| == |rows.Keys|;
    assert Receipts(KeptRows(rows)) == receipts;
    forall i | 0 <= i < |receipts|
      ensures ReceiptOk(KeptRows(rows)[i])
    {
      assert receipts[i] in Elements(receipts);
    }
  }

  /** Whatever is built satisfies every shape, order, uniqueness and size rule a reader checks. */
  lemma {:induction false} BuiltIsOk(key: string -> string, fields: seq<Field>)
    requires key("") == "" && Built(key, fields).Some?
    ensures IndexOk(Built(key, fields).value)
  {
    GroupedIsWorthy(key, fields, |fields|);
    var g := GroupedAfter(key, fields, |fields|).value;
    forall corp | corp in g.companies
      ensures corp != "" && RowsOk(KeptRows(g.companies[corp]))
    {
      assert CompanyWorthy(g, corp);
      KeptRowsOk(g.companies[corp]);
    }
  }

  /** Nothing is dated after the cutoff when no field is. */
  lemma {:induction false} BuiltWithinCutoff(key: string -> string, fields: seq<Field>, cutoff: string)
    requires Built(key, fields).Some? && forall i | 0 <= i < |fields| && Used(key, fields[i]) :: !Less(cutoff, fields[i].date)
    ensures WithinCutoff(Built(key, fields).value, cutoff)
  {
    var g := GroupedAfter(key, fields, |fields|).value;
    forall corp, i | corp in g.companies && 0 <= i < |KeptRows(g.companies[corp])|
      ensures !Less(cutoff, KeptRows(g.companies[corp])[i].date)
    {
      var receipts := Sorted(g.companies[corp].Keys);
      assert receipts[i] in Elements(receipts);
      IndexIsExact(key, fields, |fields|, corp, receipts[i]);
      var f :| f in Evidence(key, fields, |fields|, corp, receipts[i]);
      assert f.date == g.companies[corp][receipts[i]].date;
    }
  }

  predicate WithinCutoff(index: Index, cutoff: string) {
    forall corp, i | corp in index && 0 <= i < |index[corp]| :: !Less(cutoff, index[corp][i].date)
  }

  /* ---- The order of the stream does not matter ---- */

  lemma {:induction false} SlotsAgree(key: string -> string, a: seq<Field>, b: seq<Field>, corp: string, receipt: string)
    requires GroupedAfter(key, a, |a|).Some? && GroupedAfter(key, b, |b|).Some?
    requires forall f | Used(key, f) :: f in a <==> f in b
    ensures RowAt(GroupedAfter(key, a, |a|).value, corp, receipt) == RowAt(GroupedAfter(key, b, |b|).value, corp, receipt)
  {
    IndexIsExact(key, a, |a|, corp, receipt);
    IndexIsExact(key, b, |b|, corp, receipt);
    assert Evidence(key, a, |a|, corp, receipt) == Evidence(key, b, |b|, corp, receipt);
    var row, other := RowAt(GroupedAfter(key, a, |a|).value, corp, receipt), RowAt(GroupedAfter(key, b, |b|).value, corp, receipt);
    if row.Some? && other.Some? {
    }
  }

  lemma {:induction false} CompanyAgrees(g: Grouping, h: Grouping, corp: string)
    requires Worthy(g) && Worthy(h) && forall receipt :: RowAt(g, corp, receipt) == RowAt(h, corp, receipt)
    ensures RowsOf(g, corp) == RowsOf(h, corp) && (corp in g.companies <==> corp in h.companies)
  {
    forall receipt
      ensures receipt in RowsOf(g, corp) <==> receipt in RowsOf(h, corp)
      ensures receipt in RowsOf(g, corp) ==> RowsOf(g, corp)[receipt] == RowsOf(h, corp)[receipt]
    {
      assert RowAt(g, corp, receipt) == RowAt(h, corp, receipt);
    }
    assert corp in g.companies ==> CompanyWorthy(g, corp);
    assert corp in h.companies ==> CompanyWorthy(h, corp);
  }

  /** Two streams of the same usable fields, in any order and with any repetition, build one index. */
  lemma {:induction false} OrderDoesNotMatter(key: string -> string, a: seq<Field>, b: seq<Field>)
    requires key("") == "" && Built(key, a).Some? && Built(key, b).Some?
    requires forall f | Used(key, f) :: f in a <==> f in b
    ensures Built(key, a) == Built(key, b)
  {
    var g, h := GroupedAfter(key, a, |a|).value, GroupedAfter(key, b, |b|).value;
    GroupedIsWorthy(key, a, |a|);
    GroupedIsWorthy(key, b, |b|);
    forall corp
      ensures RowsOf(g, corp) == RowsOf(h, corp) && (corp in g.companies <==> corp in h.companies)
    {
      forall receipt
        ensures RowAt(g, corp, receipt) == RowAt(h, corp, receipt)
      {
        SlotsAgree(key, a, b, corp, receipt);
      }
      CompanyAgrees(g, h, corp);
    }
    SameCompanies(g, h);
  }

  lemma {:induction false} SameCompanies(g: Grouping, h: Grouping)
    requires forall corp :: RowsOf(g, corp) == RowsOf(h, corp) && (corp in g.companies <==> corp in h.companies)
    ensures SerializeRows(g) == SerializeRows(h)
  {
    forall corp | corp in g.companies
      ensures g.companies[corp] == h.companies[corp]
    {
      assert RowsOf(g, corp) == RowsOf(h, corp);
    }
  }
}
