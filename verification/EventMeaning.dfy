/** Exactly when the event index is built, and exactly what a built index holds. */
module EventMeaning {
  import opened Wrappers
  import opened Ordering
  import opened EventIndex

  /* ---- Fields ---- */

  predicate Digits(s: string, n: nat) {
    |s| == n && forall c | c in s :: c in "0123456789"
  }

  /** A field that names an event or a counterparty. */
  predicate Names(f: Field) {
    f.role == EventName || f.role == Counterparty
  }

  /** Its value says something once normalised. */
  predicate Speaks(key: string -> string, f: Field) {
    Names(f) && f.value.Some? && key(f.value.value) != ""
  }

  /** Company and receipt number with their date: fourteen and eight digits. */
  predicate Placed(f: Field) {
    f.corpCode != "" && Digits(f.receipt, 14) && Digits(f.date, 8)
  }

  lemma {:induction false} DigitsAre(s: string, n: nat)
    ensures IsDigits(s, n) <==> Digits(s, n)
  {
    assert "0123456789" == ['0', '1', '2', '3', '4', '5', '6', '7', '8', '9'];
    forall c: char
      ensures c in "0123456789" <==> '0' <= c <= '9'
    {
    }
    if Digits(s, n) {
      forall i | 0 <= i < n
        ensures '0' <= s[i] <= '9'
      {
        assert s[i] in s;
      }
    }
  }

  lemma {:induction false} SameReading(key: string -> string, f: Field)
    ensures Used(key, f) <==> Speaks(key, f)
    ensures MetadataOk(f) <==> Placed(f)
    ensures f.role != OtherRole <==> Names(f)
  {
    DigitsAre(f.receipt, 14);
    DigitsAre(f.date, 8);
  }

  /* ---- When the index is built ---- */

  /** The receipts that some of the first `n` fields speak of. */
  ghost function SpokenOf(key: string -> string, fields: seq<Field>, n: nat): set<(string, string)>
    requires n <= |fields|
  {
    set i | 0 <= i < n && Speaks(key, fields[i]) :: (fields[i].corpCode, fields[i].receipt)
  }

  ghost predicate SameReceipt(key: string -> string, f: Field, g: Field) {
    Speaks(key, f) && Speaks(key, g) && f.corpCode == g.corpCode && f.receipt == g.receipt
  }

  /** Every naming field has its place, one receipt has one date, and there are at most 100,000 receipts. */
  ghost predicate Buildable(key: string -> string, fields: seq<Field>, n: nat)
    requires n <= |fields|
  {
    && (forall i | 0 <= i < n && Names(fields[i]) :: Placed(fields[i]))
    && (forall i, j | 0 <= i < n && 0 <= j < n && SameReceipt(key, fields[i], fields[j]) :: fields[i].date == fields[j].date)
    && |SpokenOf(key, fields, n)| <= 100_000
  }

  lemma {:induction false} SpokenNext(key: string -> string, fields: seq<Field>, n: nat)
    requires n < |fields|
    ensures SpokenOf(key, fields, n + 1) ==
            SpokenOf(key, fields, n) + if Speaks(key, fields[n]) then {(fields[n].corpCode, fields[n].receipt)} else {}
  {
  }

  /** A receipt has a row exactly when it was spoken of. */
  lemma {:induction false} RowIffSpoken(key: string -> string, fields: seq<Field>, n: nat, corp: string, receipt: string)
    requires n <= |fields| && GroupedAfter(key, fields, n).Some?
    ensures RowAt(GroupedAfter(key, fields, n).value, corp, receipt).Some? <==> (corp, receipt) in SpokenOf(key, fields, n)
  {
    IndexIsExact(key, fields, n, corp, receipt);
    var evidence := Evidence(key, fields, n, corp, receipt);
    if f :| f in evidence {
      var i :| 0 <= i < n && About(key, fields[i], corp, receipt) && fields[i] == f;
      SameReading(key, fields[i]);
    }
    if (corp, receipt) in SpokenOf(key, fields, n) {
      var i :| 0 <= i < n && Speaks(key, fields[i]) && (fields[i].corpCode, fields[i].receipt) == (corp, receipt);
      SameReading(key, fields[i]);
      assert fields[i] in evidence;
    }
  }

  ghost predicate BuiltSoFar(key: string -> string, fields: seq<Field>, n: nat, g: Option<Grouping>)
    requires n <= |fields|
  {
    && (g.Some? <==> Buildable(key, fields, n))
    && (g.Some? ==> g.value.receipts == |SpokenOf(key, fields, n)|)
  }

  lemma {:induction false} FewerBuildable(key: string -> string, fields: seq<Field>, n: nat)
    requires n < |fields| && Buildable(key, fields, n + 1)
    ensures Buildable(key, fields, n)
  {
    SpokenNext(key, fields, n);
    assert |SpokenOf(key, fields, n)| <= |SpokenOf(key, fields, n + 1)| by {
      assert SpokenOf(key, fields, n + 1) == SpokenOf(key, fields, n) + (SpokenOf(key, fields, n + 1) - SpokenOf(key, fields, n));
    }
  }

  /** The date of a row is that of every field that speaks of its receipt. */
  lemma {:induction false} RowHasDate(key: string -> string, fields: seq<Field>, n: nat, i: nat)
    requires n <= |fields| && GroupedAfter(key, fields, n).Some? && i < n && Speaks(key, fields[i])
    ensures var row := RowAt(GroupedAfter(key, fields, n).value, fields[i].corpCode, fields[i].receipt);
            row.Some? && row.value.date == fields[i].date
  {
    SameReading(key, fields[i]);
    IndexIsExact(key, fields, n, fields[i].corpCode, fields[i].receipt);
    assert fields[i] in Evidence(key, fields, n, fields[i].corpCode, fields[i].receipt);
  }

  /** Field `f` gives every one of the first `n` fields that speaks of its receipt the same date. */
  ghost predicate AgreesWith(key: string -> string, fields: seq<Field>, n: nat, f: Field)
    requires n <= |fields|
  {
    forall i | 0 <= i < n && SameReceipt(key, fields[i], f) :: fields[i].date == f.date
  }

  lemma {:induction false} BuildableNext(key: string -> string, fields: seq<Field>, n: nat)
    requires n < |fields|
    ensures var f := fields[n];
            Buildable(key, fields, n + 1) <==>
            && Buildable(key, fields, n) && (Names(f) ==> Placed(f)) && (Speaks(key, f) ==> AgreesWith(key, fields, n, f))
            && |SpokenOf(key, fields, n + 1)| <= 100_000
  {
    if Buildable(key, fields, n + 1) {
      FewerBuildable(key, fields, n);
      forall i | 0 <= i < n && SameReceipt(key, fields[i], fields[n])
        ensures fields[i].date == fields[n].date
      {
      }
    }
  }

  lemma {:induction false} SpokenCount(key: string -> string, fields: seq<Field>, n: nat)
    requires n < |fields|
    ensures var f := fields[n];
            |SpokenOf(key, fields, n + 1)| ==
            |SpokenOf(key, fields, n)| + if Speaks(key, f) && (f.corpCode, f.receipt) !in SpokenOf(key, fields, n) then 1 else 0
  {
    SpokenNext(key, fields, n);
    var f := fields[n];
    if Speaks(key, f) && (f.corpCode, f.receipt) in SpokenOf(key, fields, n) {
      assert SpokenOf(key, fields, n + 1) == SpokenOf(key, fields, n);
    }
  }

  /** The known row conflicts with a field exactly when an earlier field does. */
  lemma {:induction false} ConflictExactly(key: string -> string, fields: seq<Field>, n: nat)
    requires n < |fields| && GroupedAfter(key, fields, n).Some? && Speaks(key, fields[n])
    ensures var f, known := fields[n], RowAt(GroupedAfter(key, fields, n).value, fields[n].corpCode, fields[n].receipt);
            && (known.Some? <==> (f.corpCode, f.receipt) in SpokenOf(key, fields, n))
            && (known.None? || known.value.date == f.date <==> AgreesWith(key, fields, n, f))
  {
    var f := fields[n];
    var known := RowAt(GroupedAfter(key, fields, n).value, f.corpCode, f.receipt);
    RowIffSpoken(key, fields, n, f.corpCode, f.receipt);
    forall i | 0 <= i < n && SameReceipt(key, fields[i], f)
      ensures known.Some? && known.value.date == fields[i].date
    {
      RowHasDate(key, fields, n, i);
    }
    if known.Some? {
      var i :| 0 <= i < n && Speaks(key, fields[i]) && (fields[i].corpCode, fields[i].receipt) == (f.corpCode, f.receipt);
      assert SameReceipt(key, fields[i], f);
    }
  }

  lemma {:induction false} FieldAdds(key: string -> string, fields: seq<Field>, n: nat)
    requires n < |fields| && GroupedAfter(key, fields, n).Some?
    requires Buildable(key, fields, n) && GroupedAfter(key, fields, n).value.receipts == |SpokenOf(key, fields, n)|
    ensures BuiltSoFar(key, fields, n + 1, AddField(key, GroupedAfter(key, fields, n).value, fields[n]))
  {
    SameReading(key, fields[n]);
    BuildableNext(key, fields, n);
    SpokenCount(key, fields, n);
    if Speaks(key, fields[n]) {
      ConflictExactly(key, fields, n);
    }
  }

  /** The index is built exactly when every naming field has its place, no receipt has two dates and there are not too many. */
  lemma {:induction false} BuiltExactly(key: string -> string, fields: seq<Field>, n: nat)
    requires n <= |fields|
    ensures BuiltSoFar(key, fields, n, GroupedAfter(key, fields, n))
  {
    if n > 0 {
      BuiltExactly(key, fields, n - 1);
      if GroupedAfter(key, fields, n - 1).Some? {
        FieldAdds(key, fields, n - 1);
      } else if Buildable(key, fields, n) {
        FewerBuildable(key, fields, n - 1);
      }
    } else {
      assert SpokenOf(key, fields, 0) == {};
    }
  }

  /* ---- What a built index holds ---- */

  /** Field `f` speaks of the receipt and gives it this event type, or this value in this role. */
  ghost predicate Tells(key: string -> string, f: Field, corp: string, receipt: string) {
    Speaks(key, f) && f.corpCode == corp && f.receipt == receipt
  }

  /** `values` lists, once each and in increasing order, exactly the texts that are given. */
  ghost predicate ListsGiven(values: seq<string>, given: string -> bool) {
    StrictlySorted(values) && forall x :: x in values <==> given(x)
  }

  /** The persisted row of a receipt: its date, and the event types, counterparties and contract names its fields give. */
  ghost predicate RowHolds(key: string -> string, fields: seq<Field>, corp: string, row: ReceiptRoles) {
    && (forall f | f in fields && Tells(key, f, corp, row.receipt) :: f.date == row.date)
    && ListsGiven(row.eventTypes,
         (x: string) => x != "" && exists f :: f in fields && Tells(key, f, corp, row.receipt) && f.eventType == Some(x))
    && ListsGiven(row.counterparties,
         (x: string) => exists f :: f in fields && Tells(key, f, corp, row.receipt) && f.role == Counterparty && f.value == Some(x))
    && ListsGiven(row.contractNames,
         (x: string) => exists f :: f in fields && Tells(key, f, corp, row.receipt) && f.role == EventName && f.value == Some(x))
  }

  /** A company is in the index when a field speaks of one of its receipts; its rows are those receipts, in increasing order. */
  ghost predicate CompanyHolds(key: string -> string, fields: seq<Field>, index: Index, corp: string) {
    && (corp in index <==> exists f, receipt :: f in fields && Tells(key, f, corp, receipt))
    && (corp in index ==>
          && ListsGiven(Receipts(index[corp]), (receipt: string) => exists f :: f in fields && Tells(key, f, corp, receipt))
          && forall k | 0 <= k < |index[corp]| :: RowHolds(key, fields, corp, index[corp][k]))
  }

  lemma {:induction false} EvidenceIs(key: string -> string, fields: seq<Field>, corp: string, receipt: string)
    ensures forall f :: f in Evidence(key, fields, |fields|, corp, receipt) <==> f in fields && Tells(key, f, corp, receipt)
  {
    forall f
      ensures f in Evidence(key, fields, |fields|, corp, receipt) <==> f in fields && Tells(key, f, corp, receipt)
    {
      SameReading(key, f);
      if f in fields {
        var i :| 0 <= i < |fields| && fields[i] == f;
      }
    }
  }

  lemma {:induction false} CompaniesHaveRows(key: string -> string, fields: seq<Field>, n: nat)
    requires n <= |fields| && GroupedAfter(key, fields, n).Some?
    ensures forall corp | corp in GroupedAfter(key, fields, n).value.companies :: GroupedAfter(key, fields, n).value.companies[corp] != map[]
  {
    if n > 0 {
      CompaniesHaveRows(key, fields, n - 1);
    }
  }

  lemma {:induction false} SortedLists(s: set<string>, given: string -> bool)
    requires forall x :: x in s <==> given(x)
    ensures ListsGiven(Sorted(s), given)
  {
    forall x
      ensures x in Sorted(s) <==> x in s
    {
      assert x in Sorted(s) <==> x in Elements(Sorted(s));
    }
  }

  lemma {:induction false} KeptHolds(key: string -> string, fields: seq<Field>, corp: string, receipt: string, row: Row)
    requires RowExact(row, Evidence(key, fields, |fields|, corp, receipt))
    ensures RowHolds(key, fields, corp, Kept(receipt, row))
  {
    var evidence := Evidence(key, fields, |fields|, corp, receipt);
    EvidenceIs(key, fields, corp, receipt);
    SortedLists(row.eventTypes,
      (x: string) => x != "" && exists f :: f in fields && Tells(key, f, corp, receipt) && f.eventType == Some(x));
    SortedLists(row.counterparties,
      (x: string) => exists f :: f in fields && Tells(key, f, corp, receipt) && f.role == Counterparty && f.value == Some(x));
    SortedLists(row.contractNames,
      (x: string) => exists f :: f in fields && Tells(key, f, corp, receipt) && f.role == EventName && f.value == Some(x));
  }

  lemma {:induction false} RowsAreReceipts(rows: map<string, Row>, k: nat)
    requires k < |KeptRows(rows)|
    ensures Receipts(KeptRows(rows)) == Sorted(rows.Keys)
    ensures var receipt := Sorted(rows.Keys)[k]; receipt in rows && KeptRows(rows)[k] == Kept(receipt, rows[receipt])
  {
    var receipts := Sorted(rows.Keys);
    assert receipts[k] in Elements(receipts);
    assert Receipts(KeptRows(rows)) == receipts;
  }

  lemma {:induction false} ReceiptsHold(key: string -> string, fields: seq<Field>, g: Grouping, corp: string, receipt: string)
    requires GroupedAfter(key, fields, |fields|) == Some(g)
    ensures RowAt(g, corp, receipt).Some? <==> exists f :: f in fields && Tells(key, f, corp, receipt)
    ensures RowAt(g, corp, receipt).Some? ==> RowExact(RowAt(g, corp, receipt).value, Evidence(key, fields, |fields|, corp, receipt))
  {
    IndexIsExact(key, fields, |fields|, corp, receipt);
    EvidenceIs(key, fields, corp, receipt);
    var evidence := Evidence(key, fields, |fields|, corp, receipt);
    if f :| f in fields && Tells(key, f, corp, receipt) {
      assert f in evidence;
    }
    if RowAt(g, corp, receipt).Some? {
      var f :| f in evidence;
      assert Tells(key, f, corp, receipt);
    }
  }

  lemma {:induction false} PresentCompanyHolds(key: string -> string, fields: seq<Field>, g: Grouping, corp: string)
    requires GroupedAfter(key, fields, |fields|) == Some(g) && corp in g.companies
    ensures ListsGiven(Receipts(KeptRows(g.companies[corp])), (receipt: string) => exists f :: f in fields && Tells(key, f, corp, receipt))
    ensures forall k | 0 <= k < |KeptRows(g.companies[corp])| :: RowHolds(key, fields, corp, KeptRows(g.companies[corp])[k])
  {
    var rows := g.companies[corp];
    assert Receipts(KeptRows(rows)) == Sorted(rows.Keys);
    forall receipt
      ensures receipt in rows.Keys <==> exists f :: f in fields && Tells(key, f, corp, receipt)
    {
      ReceiptsHold(key, fields, g, corp, receipt);
      assert RowAt(g, corp, receipt).Some? <==> receipt in rows;
    }
    SortedLists(rows.Keys, (receipt: string) => exists f :: f in fields && Tells(key, f, corp, receipt));
    forall k | 0 <= k < |KeptRows(rows)|
      ensures RowHolds(key, fields, corp, KeptRows(rows)[k])
    {
      RowsAreReceipts(rows, k);
      var receipt := Sorted(rows.Keys)[k];
      ReceiptsHold(key, fields, g, corp, receipt);
      assert RowAt(g, corp, receipt) == Some(rows[receipt]);
      KeptHolds(key, fields, corp, receipt, rows[receipt]);
    }
  }

  /** What is built: exactly the companies and receipts some field speaks of, each with exactly what its fields give, all in
      increasing order. */
  lemma {:induction false} BuiltHolds(key: string -> string, fields: seq<Field>, corp: string)
    requires Built(key, fields).Some?
    ensures CompanyHolds(key, fields, Built(key, fields).value, corp)
  {
    var g := GroupedAfter(key, fields, |fields|).value;
    if corp in g.companies {
      PresentCompanyHolds(key, fields, g, corp);
      CompaniesHaveRows(key, fields, |fields|);
      var receipt :| receipt in g.companies[corp];
      ReceiptsHold(key, fields, g, corp, receipt);
      assert RowAt(g, corp, receipt).Some?;
    }
    if f, receipt :| f in fields && Tells(key, f, corp, receipt) {
      ReceiptsHold(key, fields, g, corp, receipt);
    }
  }

  /** Building succeeds exactly for buildable streams. */
  lemma {:induction false} BuiltWhen(key: string -> string, fields: seq<Field>)
    ensures Built(key, fields).Some? <==> Buildable(key, fields, |fields|)
  {
    BuiltExactly(key, fields, |fields|);
  }
}
