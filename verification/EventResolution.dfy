/** Event queries over indexed receipts. */
module EventResolution {
  import opened Wrappers
  import opened Ordering
  import opened EventIndex

  const MAX_OPTIONS: nat := 20

  datatype Timeline = Timeline(eventKey: string, corpCode: string, root: string, fingerprint: Option<string>,
                               identityStatus: Option<string>, observations: nat)

  datatype Candidate = Candidate(eventKey: string, seed: string, caption: string, fingerprint: Option<string>,
                                 identityStatus: Option<string>, observations: nat)

  /** `Raised` is a candidate whose coordinates are malformed. */
  datatype Resolution = NotFound | Resolved(candidate: Candidate) | Ambiguous(candidates: seq<Candidate>) | TooMany | Raised

  /** The selectors of a query; `text` normalises names and `aliases` lists the Latin spellings of a needle. */
  datatype Query = Query(corpCode: string, asOf: string, eventType: Option<string>, counterparty: Option<string>,
                         contractName: Option<string>, from: Option<string>, to: Option<string>)

  datatype Names = Names(text: string -> string, aliases: string -> seq<string>)

  /* ---- Matching ---- */

  predicate Contains(hay: string, needle: string) {
    needle <= hay || (hay != "" && Contains(hay[1..], needle))
  }

  predicate InSome(names: Names, needle: string, values: seq<string>) {
    exists i | 0 <= i < |values| :: Contains(names.text(values[i]), needle)
  }

  /** One way only: the query's spelling, or a Latin alias of it, inside a corpus value. */
  predicate ContainsAny(names: Names, query: string, values: seq<string>) {
    var needle := names.text(query);
    && needle != ""
    && (InSome(names, needle, values)
        || exists k | 0 <= k < |names.aliases(needle)| ::
             names.text(names.aliases(needle)[k]) != "" && InSome(names, names.text(names.aliases(needle)[k]), values))
  }

  predicate Matches(names: Names, q: Query, row: ReceiptRoles) {
    && !Less(q.asOf, row.date)
    && (q.from.Some? ==> !Less(row.date, q.from.value))
    && (q.to.Some? ==> !Less(q.to.value, row.date))
    && (q.eventType.Some? ==>
          exists i | 0 <= i < |row.eventTypes| :: names.text(row.eventTypes[i]) == names.text(q.eventType.value))
    && (q.counterparty.Some? ==> ContainsAny(names, q.counterparty.value, row.counterparties))
    && (q.contractName.Some? ==> ContainsAny(names, q.contractName.value, row.contractNames))
  }

  /* ---- Candidates ---- */

  /** The timeline of a receipt as seen at the query's date, when it belongs to the company. */
  type Timelines = string -> Option<Timeline>

  predicate IsHex(s: string) {
    |s| == 32 && forall i | 0 <= i < 32 :: '0' <= s[i] <= '9' || 'a' <= s[i] <= 'f'
  }

  predicate CandidateOk(c: Candidate) {
    IsHex(c.eventKey) && IsReceipt(c.seed) && (c.fingerprint.Some? ==> IsHex(c.fingerprint.value))
  }

  function Deduplicated(values: seq<string>): seq<string> {
    if values == [] then [] else
    var earlier, last := Deduplicated(values[..|values| - 1]), values[|values| - 1];
    if last in earlier then earlier else earlier + [last]
  }

  function Label(t: Timeline, row: ReceiptRoles): string {
    var details := Deduplicated(row.contractNames + row.counterparties);
    t.root + (if details == [] then "" else " · " + details[0] + if |details| == 1 then "" else " / " + details[1])
  }

  function CandidateOf(t: Timeline, caption: string): Candidate {
    Candidate(t.eventKey, t.root, caption, t.fingerprint, t.identityStatus, t.observations)
  }

  function TimelineFor(q: Query, timelines: Timelines, receipt: string): Option<Timeline> {
    var t := timelines(receipt);
    if t.Some? && t.value.corpCode == q.corpCode then t else None
  }

  /** What one receipt puts on offer. */
  type Offer = ReceiptRoles -> Option<Candidate>

  function OfferOf(q: Query, timelines: Timelines): Offer {
    (row: ReceiptRoles) =>
      match TimelineFor(q, timelines, row.receipt)
      case None => None
      case Some(t) => Some(CandidateOf(t, Label(t, row)))
  }

  /** The candidates of the rows, in row order. */
  function Offered(offer: Offer, rows: seq<ReceiptRoles>): seq<Candidate> {
    if rows == [] then [] else
    var last := offer(rows[|rows| - 1]);
    Offered(offer, rows[..|rows| - 1]) + if last.None? then [] else [last.value]
  }

  type ByKey = map<string, Candidate>

  function Keep(byKey: ByKey, c: Candidate): ByKey {
    if c.eventKey !in byKey || Less(c.seed, byKey[c.eventKey].seed) then byKey[c.eventKey := c] else byKey
  }

  function Collected(cs: seq<Candidate>): ByKey {
    if cs == [] then map[] else Keep(Collected(cs[..|cs| - 1]), cs[|cs| - 1])
  }

  function Listed(byKey: ByKey): (r: seq<Candidate>)
    ensures |r| == |byKey.Keys|
  {
    var keys := Sorted(byKey.Keys);
    seq(|keys|, i requires 0 <= i < |keys| => assert keys[i] in Elements(keys); byKey[keys[i]])
  }

  function Verdict(byKey: ByKey): Resolution {
    if |byKey.Keys| > MAX_OPTIONS then TooMany
    else
      var listed := Listed(byKey);
      if |listed| == 0 then NotFound else if |listed| == 1 then Resolved(listed[0]) else Ambiguous(listed)
  }

  /** Among the first `n` rows one offers a malformed candidate before more than twenty events have been seen. */
  predicate RaisesWithin(offer: Offer, ok: Candidate -> bool, rows: seq<ReceiptRoles>, n: nat)
    requires n <= |rows|
  {
    n > 0
    && (RaisesWithin(offer, ok, rows, n - 1)
        || (offer(rows[n - 1]).Some? && !ok(offer(rows[n - 1]).value)
            && |Collected(Offered(offer, rows[..n - 1])).Keys| <= MAX_OPTIONS))
  }

  function Matched(names: Names, q: Query, rows: seq<ReceiptRoles>): seq<ReceiptRoles> {
    Filter((row: ReceiptRoles) => Matches(names, q, row), rows)
  }

  /* ---- The resolver as it runs, leaving early ---- */

  /** The resolver's outcome over the matching rows: an exception, or what the collected candidates amount to. */
  function Outcome(offer: Offer, ok: Candidate -> bool, matched: seq<ReceiptRoles>): Resolution {
    if RaisesWithin(offer, ok, matched, |matched|) then Raised else Verdict(Collected(Offered(offer, matched)))
  }

  /** What a query without a seed resolves to. */
  function Resolve(names: Names, q: Query, timelines: Timelines, rows: seq<ReceiptRoles>): Resolution {
    Outcome(OfferOf(q, timelines), CandidateOk, Matched(names, q, rows))
  }

  method ResolveMatched(offer: Offer, ok: Candidate -> bool, matched: seq<ReceiptRoles>) returns (r: Resolution)
    ensures r == Outcome(offer, ok, matched)
  {
    var byKey: ByKey := map[];
    for n := 0 to |matched|
      invariant byKey == Collected(Offered(offer, matched[..n]))
      invariant |byKey.Keys| <= MAX_OPTIONS
      invariant !RaisesWithin(offer, ok, matched, n)
    {
      OfferedNext(offer, matched, n);
      var c := offer(matched[n]);
      if c.Some? {
        if !ok(c.value) {
          RaisedStays(offer, ok, matched, n + 1, |matched|);
          return Raised;
        }
        CollectedNext(Offered(offer, matched[..n]), c.value);
        byKey := Keep(byKey, c.value);
        if |byKey.Keys| > MAX_OPTIONS {
          EnoughStays(offer, matched, n + 1, |matched|);
          EnoughRaisesNothing(offer, ok, matched, n + 1, |matched|);
          assert matched[..|matched|] == matched;
          return TooMany;
        }
      }
    }
    assert matched[..|matched|] == matched;
    r := Verdict(byKey);
  }

  lemma {:induction false} RaisedStays(offer: Offer, ok: Candidate -> bool, rows: seq<ReceiptRoles>, n: nat, m: nat)
    requires n <= m <= |rows| && RaisesWithin(offer, ok, rows, n)
    ensures RaisesWithin(offer, ok, rows, m)
  {
    if n < m {
      RaisedStays(offer, ok, rows, n, m - 1);
    }
  }

  /** Once too many events have been seen, there stay too many. */
  lemma {:induction false} EnoughStays(offer: Offer, rows: seq<ReceiptRoles>, n: nat, m: nat)
    requires n <= m <= |rows| && |Collected(Offered(offer, rows[..n])).Keys| > MAX_OPTIONS
    ensures |Collected(Offered(offer, rows[..m])).Keys| > MAX_OPTIONS
  {
    OfferedGrows(offer, rows[..m], n);
    assert rows[..m][..n] == rows[..n];
    CollectedGrows(Offered(offer, rows[..n]), Offered(offer, rows[..m]));
  }

  lemma {:induction false} EnoughRaisesNothing(offer: Offer, ok: Candidate -> bool, rows: seq<ReceiptRoles>, n: nat, m: nat)
    requires n <= m <= |rows| && |Collected(Offered(offer, rows[..n])).Keys| > MAX_OPTIONS
    requires !RaisesWithin(offer, ok, rows, n)
    ensures !RaisesWithin(offer, ok, rows, m)
  {
    if n < m {
      EnoughRaisesNothing(offer, ok, rows, n, m - 1);
      EnoughStays(offer, rows, n, m - 1);
    }
  }

  method ResolveWithoutSeed(names: Names, q: Query, timelines: Timelines, rows: seq<ReceiptRoles>)
    returns (r: Resolution)
    ensures r == Resolve(names, q, timelines, rows)
  {
    r := ResolveMatched(OfferOf(q, timelines), CandidateOk, Matched(names, q, rows));
  }

  lemma {:induction false} OfferedNext(offer: Offer, rows: seq<ReceiptRoles>, n: nat)
    requires n < |rows|
    ensures offer(rows[n]).None? ==> Offered(offer, rows[..n + 1]) == Offered(offer, rows[..n])
    ensures offer(rows[n]).Some? ==> Offered(offer, rows[..n + 1]) == Offered(offer, rows[..n]) + [offer(rows[n]).value]
  {
    assert rows[..n + 1][..n] == rows[..n];
  }

  lemma {:induction false} CollectedNext(cs: seq<Candidate>, c: Candidate)
    ensures Collected(cs + [c]) == Keep(Collected(cs), c)
  {
    assert (cs + [c])[..|cs|] == cs;
  }

  lemma {:induction false} OfferedGrows(offer: Offer, rows: seq<ReceiptRoles>, n: nat)
    requires n <= |rows|
    ensures Offered(offer, rows[..n]) <= Offered(offer, rows)
    decreases |rows|
  {
    if n < |rows| {
      OfferedGrows(offer, rows[..|rows| - 1], n);
      assert rows[..|rows| - 1][..n] == rows[..n];
    } else {
      assert rows[..n] == rows;
    }
  }

  /** Collecting more candidates loses no event, so leaving early agrees with the full count. */
  lemma {:induction false} CollectedGrows(some: seq<Candidate>, all: seq<Candidate>)
    requires some <= all
    ensures Collected(some).Keys <= Collected(all).Keys
    ensures |Collected(some).Keys| <= |Collected(all).Keys|
    decreases |all|
  {
    if |some| < |all| {
      CollectedGrows(some, all[..|all| - 1]);
      KeysOnlyGrow(Collected(some).Keys, Collected(all[..|all| - 1]).Keys, Collected(all).Keys);
    } else {
      assert some == all;
    }
  }

  lemma {:induction false} KeysOnlyGrow(a: set<string>, b: set<string>, c: set<string>)
    requires a <= b <= c
    ensures |a| <= |c|
  {
    assert c == a + (c - a);
  }

  /* ---- The set specification ---- */

  ghost function EventKeys(cs: seq<Candidate>): set<string> {
    set c | c in cs :: c.eventKey
  }

  /** Candidate `i` has the least root receipt of its event, and no earlier one has the same. */
  ghost predicate IsBest(cs: seq<Candidate>, i: nat) {
    && i < |cs|
    && (forall k | 0 <= k < |cs| && cs[k].eventKey == cs[i].eventKey :: !Less(cs[k].seed, cs[i].seed))
    && (forall k | 0 <= k < i && cs[k].eventKey == cs[i].eventKey :: cs[k].seed != cs[i].seed)
  }

  ghost predicate BestAt(cs: seq<Candidate>, key: string, c: Candidate, i: nat) {
    IsBest(cs, i) && cs[i] == c && c.eventKey == key
  }

  ghost predicate HasBest(cs: seq<Candidate>, key: string, c: Candidate) {
    exists i: nat :: BestAt(cs, key, c, i)
  }

  /** One candidate per event, its best. */
  ghost predicate KeepsBest(cs: seq<Candidate>, byKey: ByKey) {
    byKey.Keys == EventKeys(cs) && forall key | key in byKey :: HasBest(cs, key, byKey[key])
  }

  lemma {:induction false} LateComer(cs: seq<Candidate>, key: string, best: Candidate, c: Candidate)
    requires HasBest(cs, key, best) && (c.eventKey == key ==> !Less(c.seed, best.seed))
    ensures HasBest(cs + [c], key, best)
  {
    var i: nat :| BestAt(cs, key, best, i);
    assert BestAt(cs + [c], key, best, i);
  }

  lemma {:induction false} FirstComer(cs: seq<Candidate>, c: Candidate)
    requires c.eventKey !in EventKeys(cs)
    ensures HasBest(cs + [c], c.eventKey, c)
  {
    LessIsTotal(c.seed, c.seed);
    forall k | 0 <= k < |cs|
      ensures cs[k].eventKey != c.eventKey
    {
      assert cs[k].eventKey in EventKeys(cs);
    }
    assert BestAt(cs + [c], c.eventKey, c, |cs|);
  }

  lemma {:induction false} BetterComer(cs: seq<Candidate>, best: Candidate, c: Candidate)
    requires HasBest(cs, c.eventKey, best) && Less(c.seed, best.seed)
    ensures HasBest(cs + [c], c.eventKey, c)
  {
    var i: nat :| BestAt(cs, c.eventKey, best, i);
    LessIsTotal(c.seed, c.seed);
    forall k | 0 <= k < |cs| && cs[k].eventKey == c.eventKey
      ensures Less(c.seed, cs[k].seed) && !Less(cs[k].seed, c.seed) && cs[k].seed != c.seed
    {
      LessIsTotal(cs[k].seed, best.seed);
      if cs[k].seed != best.seed {
        LessIsTransitive(c.seed, best.seed, cs[k].seed);
      }
      LessIsTotal(cs[k].seed, c.seed);
    }
    assert BestAt(cs + [c], c.eventKey, c, |cs|);
  }

  lemma {:induction false} KeepsBestNext(cs: seq<Candidate>, byKey: ByKey, c: Candidate)
    requires KeepsBest(cs, byKey)
    ensures KeepsBest(cs + [c], Keep(byKey, c))
  {
    assert EventKeys(cs + [c]) == EventKeys(cs) + {c.eventKey};
    forall key | key in Keep(byKey, c)
      ensures HasBest(cs + [c], key, Keep(byKey, c)[key])
    {
      if key in byKey && Keep(byKey, c)[key] == byKey[key] && !(key == c.eventKey && Less(c.seed, byKey[key].seed)) {
        LateComer(cs, key, byKey[key], c);
      } else if c.eventKey in byKey {
        BetterComer(cs, byKey[key], c);
      } else {
        FirstComer(cs, c);
      }
    }
  }

  lemma {:induction false} CollectedIsExact(cs: seq<Candidate>)
    ensures KeepsBest(cs, Collected(cs))
  {
    if cs != [] {
      var init, c := cs[..|cs| - 1], cs[|cs| - 1];
      CollectedIsExact(init);
      KeepsBestNext(init, Collected(init), c);
      assert cs == init + [c];
    }
  }

  /** The listed candidates: one per event, its best, in strictly increasing key order. */
  ghost predicate ListsBest(listed: seq<Candidate>, cs: seq<Candidate>) {
    && StrictlySorted(Map((c: Candidate) => c.eventKey, listed))
    && EventKeys(listed) == EventKeys(cs)
    && forall k | 0 <= k < |listed| :: HasBest(cs, listed[k].eventKey, listed[k])
  }

  lemma {:induction false} ListedIsBest(cs: seq<Candidate>, byKey: ByKey)
    requires KeepsBest(cs, byKey)
    ensures ListsBest(Listed(byKey), cs)
  {
    var keys, listed := Sorted(byKey.Keys), Listed(byKey);
    forall k | 0 <= k < |listed|
      ensures listed[k].eventKey == keys[k] && HasBest(cs, listed[k].eventKey, listed[k])
    {
      assert keys[k] in Elements(keys);
      assert HasBest(cs, keys[k], byKey[keys[k]]);
    }
    assert Map((c: Candidate) => c.eventKey, listed) == keys;
    SameKeys(listed, keys);
  }

  lemma {:induction false} SameKeys(listed: seq<Candidate>, keys: seq<string>)
    requires |listed| == |keys| && forall k | 0 <= k < |keys| :: listed[k].eventKey == keys[k]
    ensures EventKeys(listed) == Elements(keys)
  {
    forall key
      ensures key in EventKeys(listed) <==> key in Elements(keys)
    {
      if c :| c in listed && c.eventKey == key {
        var k :| 0 <= k < |listed| && listed[k] == c;
      }
      if key in keys {
        var k :| 0 <= k < |keys| && keys[k] == key;
        assert listed[k] in listed;
      }
    }
  }

  /** What the number of different events makes of a verdict. */
  ghost predicate CountsEvents(r: Resolution, cs: seq<Candidate>) {
    var count := |EventKeys(cs)|;
    && (r.NotFound? <==> count == 0)
    && (r.Resolved? <==> count == 1) && (r.Resolved? ==> ListsBest([r.candidate], cs))
    && (r.Ambiguous? <==> 2 <= count <= 20) && (r.Ambiguous? ==> ListsBest(r.candidates, cs))
    && (r.TooMany? <==> count > 20)
  }

  /** Unless it raises, the outcome depends only on how many different events match: none, one, up to twenty,
      or more; the candidates offered are the best of each event. */
  lemma {:induction false} AnswerRefinesSets(names: Names, q: Query, timelines: Timelines, rows: seq<ReceiptRoles>)
    ensures var answer := Resolve(names, q, timelines, rows);
            answer.Raised? || CountsEvents(answer, Offered(OfferOf(q, timelines), Matched(names, q, rows)))
  {
    VerdictRefinesSets(Offered(OfferOf(q, timelines), Matched(names, q, rows)));
  }

  lemma {:induction false} VerdictRefinesSets(cs: seq<Candidate>)
    ensures CountsEvents(Verdict(Collected(cs)), cs)
  {
    CollectedIsExact(cs);
    ListedIsBest(cs, Collected(cs));
    VerdictCounts(cs, Collected(cs));
  }

  lemma {:induction false} VerdictCounts(cs: seq<Candidate>, byKey: ByKey)
    requires byKey.Keys == EventKeys(cs) && ListsBest(Listed(byKey), cs)
    ensures CountsEvents(Verdict(byKey), cs)
  {
    var listed := Listed(byKey);
    assert |listed| == 1 ==> listed == [listed[0]];
  }

  /** Which candidates are on offer: those of the rows that offer one. */
  lemma {:induction false} OfferedHas(offer: Offer, rows: seq<ReceiptRoles>, c: Candidate)
    ensures c in Offered(offer, rows) <==> exists row | row in rows :: offer(row) == Some(c)
  {
    if rows != [] {
      var init, last := rows[..|rows| - 1], rows[|rows| - 1];
      OfferedHas(offer, init, c);
      assert rows == init + [last];
      assert forall row :: row in rows <==> row in init || row == last;
    }
  }

  /* ---- Nothing later than the question's date matters ---- */

  lemma {:induction false} FilterTwice(names: Names, q: Query, rows: seq<ReceiptRoles>)
    ensures Matched(names, q, Filter((row: ReceiptRoles) => !Less(q.asOf, row.date), rows)) == Matched(names, q, rows)
  {
    if rows != [] {
      FilterTwice(names, q, rows[1..]);
      var keep := (row: ReceiptRoles) => !Less(q.asOf, row.date);
      if keep(rows[0]) {
        assert Filter(keep, rows) == [rows[0]] + Filter(keep, rows[1..]);
        assert ([rows[0]] + Filter(keep, rows[1..]))[1..] == Filter(keep, rows[1..]);
      }
    }
  }

  /** Rows filed after the question's date change nothing, not even whether an exception is raised. */
  lemma {:induction false} FutureRowsDoNotMatter(names: Names, q: Query, timelines: Timelines, rows: seq<ReceiptRoles>)
    ensures Resolve(names, q, timelines, Filter((row: ReceiptRoles) => !Less(q.asOf, row.date), rows))
         == Resolve(names, q, timelines, rows)
  {
    FilterTwice(names, q, rows);
  }

  /* ---- With a seed receipt ---- */

  /** A seed names its event directly; the selectors play no part. */
  function ResolveSeed(q: Query, timelines: Timelines, seed: string): Resolution {
    match TimelineFor(q, timelines, seed)
    case None => NotFound
    case Some(t) => var c := CandidateOf(t, t.root + " 기준 사건"); if CandidateOk(c) then Resolved(c) else Raised
  }
}
