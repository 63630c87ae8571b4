/** Event queries. */
module EventAnswers {
  import opened Wrappers
  import opened Ordering
  import opened EventIndex
  import opened EventMeaning
  import opened EventResolution

  /* ---- Text ---- */

  ghost predicate OccursAt(hay: string, needle: string, i: nat) {
    i + |needle| <= |hay| && hay[i..i + |needle|] == needle
  }

  /** The needle occurs somewhere in the text. */
  ghost predicate Occurs(hay: string, needle: string) {
    exists i: nat :: OccursAt(hay, needle, i)
  }

  lemma {:induction false} ContainsExactly(hay: string, needle: string)
    ensures Contains(hay, needle) <==> Occurs(hay, needle)
  {
    if needle <= hay {
      assert OccursAt(hay, needle, 0);
    } else if hay != "" {
      ContainsExactly(hay[1..], needle);
      if i: nat :| OccursAt(hay[1..], needle, i) {
        assert hay[1..][i..i + |needle|] == hay[i + 1..i + 1 + |needle|];
        assert OccursAt(hay, needle, i + 1);
      }
      if i: nat :| OccursAt(hay, needle, i) {
        assert i != 0;
        assert hay[1..][i - 1..i - 1 + |needle|] == hay[i..i + |needle|];
        assert OccursAt(hay[1..], needle, i - 1);
      }
    }
  }

  /** Some value, normalised, contains the wanted text or one of its Latin spellings. An empty text is wanted nowhere. */
  ghost predicate Mentions(names: Names, wanted: string, values: seq<string>) {
    var needle := names.text(wanted);
    && needle != ""
    && exists value, spelling ::
         && value in values && spelling != "" && Occurs(names.text(value), spelling)
         && (spelling == needle || exists alias :: alias in names.aliases(needle) && spelling == names.text(alias))
  }

  lemma {:induction false} InSomeExactly(names: Names, needle: string, values: seq<string>)
    ensures InSome(names, needle, values) <==> exists value :: value in values && Occurs(names.text(value), needle)
  {
    forall i | 0 <= i < |values| {
      ContainsExactly(names.text(values[i]), needle);
    }
    if value :| value in values && Occurs(names.text(value), needle) {
      var i :| 0 <= i < |values| && values[i] == value;
    }
  }

  lemma {:induction false} MentionsExactly(names: Names, wanted: string, values: seq<string>)
    ensures ContainsAny(names, wanted, values) <==> Mentions(names, wanted, values)
  {
    var needle := names.text(wanted);
    var aliases := names.aliases(needle);
    InSomeExactly(names, needle, values);
    forall k | 0 <= k < |aliases| {
      InSomeExactly(names, names.text(aliases[k]), values);
    }
    if ContainsAny(names, wanted, values) {
      if InSome(names, needle, values) {
        var value :| value in values && Occurs(names.text(value), needle);
      } else {
        var k :| 0 <= k < |aliases| && names.text(aliases[k]) != "" && InSome(names, names.text(aliases[k]), values);
        var value :| value in values && Occurs(names.text(value), names.text(aliases[k]));
        assert aliases[k] in aliases;
      }
    }
    if Mentions(names, wanted, values) {
      var value, spelling :| && value in values && spelling != "" && Occurs(names.text(value), spelling)
        && (spelling == needle || exists alias :: alias in aliases && spelling == names.text(alias));
      if spelling != needle {
        var alias :| alias in aliases && spelling == names.text(alias);
        var k :| 0 <= k < |aliases| && aliases[k] == alias;
        assert InSome(names, names.text(aliases[k]), values);
      }
    }
  }

  /* ---- Rows ---- */

  ghost predicate NotAfter(a: string, b: string) {
    a == b || Less(a, b)
  }

  /** A receipt answers the query: filed by the question's date and within the wanted period, of the wanted type after
      normalisation, and mentioning the wanted counterparty and contract. What is not wanted is not asked. */
  ghost predicate Answers(names: Names, q: Query, row: ReceiptRoles) {
    && NotAfter(row.date, q.asOf)
    && (q.from.Some? ==> NotAfter(q.from.value, row.date))
    && (q.to.Some? ==> NotAfter(row.date, q.to.value))
    && (q.eventType.Some? ==> exists t :: t in row.eventTypes && names.text(t) == names.text(q.eventType.value))
    && (q.counterparty.Some? ==> Mentions(names, q.counterparty.value, row.counterparties))
    && (q.contractName.Some? ==> Mentions(names, q.contractName.value, row.contractNames))
  }

  lemma {:induction false} MatchesExactly(names: Names, q: Query, row: ReceiptRoles)
    ensures Matches(names, q, row) <==> Answers(names, q, row)
  {
    LessIsTotal(q.asOf, row.date);
    if q.from.Some? {
      LessIsTotal(row.date, q.from.value);
    }
    if q.to.Some? {
      LessIsTotal(q.to.value, row.date);
    }
    if q.counterparty.Some? {
      MentionsExactly(names, q.counterparty.value, row.counterparties);
    }
    if q.contractName.Some? {
      MentionsExactly(names, q.contractName.value, row.contractNames);
    }
    if q.eventType.Some? {
      var wanted := names.text(q.eventType.value);
      if t :| t in row.eventTypes && names.text(t) == wanted {
        var i :| 0 <= i < |row.eventTypes| && row.eventTypes[i] == t;
      }
    }
  }

  /* ---- Captions ---- */

  /** `first` is the list without repetitions, each text where it first stood. */
  ghost predicate FirstOnes(values: seq<string>, first: seq<string>) {
    && Distinct(first) && Elements(first) == Elements(values)
    && forall i, j | 0 <= i < j < |first| :: exists k :: 0 <= k < |values| && values[k] == first[i] && first[j] !in values[..k]
  }

  lemma {:induction false} DeduplicatedExactly(values: seq<string>)
    ensures FirstOnes(values, Deduplicated(values))
  {
    if values != [] {
      var init, last := values[..|values| - 1], values[|values| - 1];
      var before, first := Deduplicated(init), Deduplicated(values);
      DeduplicatedExactly(init);
      assert values == init + [last];
      assert Elements(values) == Elements(init) + {last};
      assert last in before <==> last in Elements(before);
      forall i, j | 0 <= i < j < |first|
        ensures exists k :: 0 <= k < |values| && values[k] == first[i] && first[j] !in values[..k]
      {
        if j < |before| {
          var k :| 0 <= k < |init| && init[k] == before[i] && before[j] !in init[..k];
          assert values[..k] == init[..k] && values[k] == first[i];
        } else {
          assert first[i] == before[i] && first[i] in Elements(before) && first[i] in Elements(init);
          var k :| 0 <= k < |init| && init[k] == first[i];
          assert values[..k] == init[..k] && last !in init;
          assert values[k] == first[i];
        }
      }
    }
  }

  /** The caption: the root receipt, then up to two different texts, contract names before counterparties. */
  ghost predicate Captions(caption: string, root: string, row: ReceiptRoles) {
    exists details :: FirstOnes(row.contractNames + row.counterparties, details)
      && caption == if |details| == 0 then root
                    else if |details| == 1 then root + " · " + details[0]
                    else root + " · " + details[0] + " / " + details[1]
  }

  lemma {:induction false} LabelCaptions(t: Timeline, row: ReceiptRoles)
    ensures Captions(Label(t, row), t.root, row)
  {
    var details := Deduplicated(row.contractNames + row.counterparties);
    DeduplicatedExactly(row.contractNames + row.counterparties);
    if |details| == 1 {
      assert Label(t, row) == t.root + (" · " + details[0] + "");
      assert t.root + " · " + details[0] == t.root + (" · " + details[0] + "");
    } else if |details| > 1 {
      var tail := " / " + details[1];
      assert Label(t, row) == t.root + (" · " + details[0] + tail);
      assert t.root + " · " + details[0] + " / " + details[1] == t.root + (" · " + details[0] + tail);
    }
  }

  /* ---- Candidates ---- */

  /** What a row puts on offer: its timeline's event, seeded by the timeline's root, when that is of the asked company. */
  ghost predicate Offers(q: Query, timelines: Timelines, row: ReceiptRoles, c: Candidate) {
    var t := timelines(row.receipt);
    && t.Some? && t.value.corpCode == q.corpCode
    && c.eventKey == t.value.eventKey && c.seed == t.value.root && Captions(c.caption, t.value.root, row)
    && c.fingerprint == t.value.fingerprint && c.identityStatus == t.value.identityStatus && c.observations == t.value.observations
  }

  lemma {:induction false} OfferExactly(q: Query, timelines: Timelines, row: ReceiptRoles)
    ensures OfferOf(q, timelines)(row).Some? <==> timelines(row.receipt).Some? && timelines(row.receipt).value.corpCode == q.corpCode
    ensures OfferOf(q, timelines)(row).Some? ==> Offers(q, timelines, row, OfferOf(q, timelines)(row).value)
  {
    var t := timelines(row.receipt);
    if t.Some? {
      LabelCaptions(t.value, row);
    }
  }

  /** The rows that answer, in order. */
  lemma {:induction false} MatchedAnswers(names: Names, q: Query, rows: seq<ReceiptRoles>, row: ReceiptRoles)
    ensures row in Matched(names, q, rows) <==> row in rows && Answers(names, q, row)
  {
    FilterMember((r: ReceiptRoles) => Matches(names, q, r), rows, row);
    MatchesExactly(names, q, row);
  }

  /** Which events a query is about: those of the answering rows that have a timeline in the asked company. */
  ghost predicate IsAbout(names: Names, q: Query, timelines: Timelines, rows: seq<ReceiptRoles>, eventKey: string) {
    exists row :: row in rows && Answers(names, q, row)
      && timelines(row.receipt).Some? && timelines(row.receipt).value.corpCode == q.corpCode
      && timelines(row.receipt).value.eventKey == eventKey
  }

  /** The events collected are exactly those the query is about, and each candidate is one some answering row offers. */
  lemma {:induction false} CandidatesAreAbout(names: Names, q: Query, timelines: Timelines, rows: seq<ReceiptRoles>, c: Candidate, eventKey: string)
    ensures var cs := Offered(OfferOf(q, timelines), Matched(names, q, rows));
            && (eventKey in EventKeys(cs) <==> IsAbout(names, q, timelines, rows, eventKey))
            && (c in cs ==> exists row :: row in rows && Answers(names, q, row) && Offers(q, timelines, row, c))
  {
    var offer, matched := OfferOf(q, timelines), Matched(names, q, rows);
    var cs := Offered(offer, matched);
    forall d
      ensures d in cs <==> exists row :: row in rows && Answers(names, q, row) && offer(row) == Some(d)
    {
      OfferedHas(offer, matched, d);
      if row :| row in matched && offer(row) == Some(d) {
        MatchedAnswers(names, q, rows, row);
      }
      if row :| row in rows && Answers(names, q, row) && offer(row) == Some(d) {
        MatchedAnswers(names, q, rows, row);
      }
    }
    forall row {
      OfferExactly(q, timelines, row);
    }
    if IsAbout(names, q, timelines, rows, eventKey) {
      var row :| row in rows && Answers(names, q, row)
                 && timelines(row.receipt).Some? && timelines(row.receipt).value.corpCode == q.corpCode
                 && timelines(row.receipt).value.eventKey == eventKey;
      assert offer(row).value in cs && offer(row).value.eventKey == eventKey;
    }
  }

  /** The answer counts events: none, one, up to twenty, or too many; unless a malformed candidate raises first. */
  lemma {:induction false} AnswersCount(names: Names, q: Query, timelines: Timelines, rows: seq<ReceiptRoles>, events: set<string>)
    requires forall key :: key in events <==> IsAbout(names, q, timelines, rows, key)
    ensures var r := Resolve(names, q, timelines, rows);
            || r.Raised?
            || (&& (r.NotFound? <==> |events| == 0) && (r.Resolved? <==> |events| == 1)
                && (r.Ambiguous? <==> 2 <= |events| <= 20) && (r.TooMany? <==> |events| > 20)
                && (r.Resolved? ==> r.candidate.eventKey in events)
                && (r.Ambiguous? ==> |r.candidates| == |events| && forall k | 0 <= k < |r.candidates| :: r.candidates[k].eventKey in events))
  {
    var cs := Offered(OfferOf(q, timelines), Matched(names, q, rows));
    var any := Candidate("", "", "", None, None, 0);
    forall key
      ensures key in EventKeys(cs) <==> key in events
    {
      CandidatesAreAbout(names, q, timelines, rows, any, key);
    }
    assert EventKeys(cs) == events;
    AnswerRefinesSets(names, q, timelines, rows);
    var r := Resolve(names, q, timelines, rows);
    if r.Resolved? {
      assert ListsBest([r.candidate], cs) && HasBest(cs, [r.candidate][0].eventKey, [r.candidate][0]);
      InKeys(cs, r.candidate);
    } else if r.Ambiguous? {
      ListedCount(cs, r.candidates);
    }
  }

  lemma {:induction false} InKeys(cs: seq<Candidate>, c: Candidate)
    requires HasBest(cs, c.eventKey, c)
    ensures c.eventKey in EventKeys(cs)
  {
    var i: nat :| BestAt(cs, c.eventKey, c, i);
    assert cs[i] in cs;
  }

  lemma {:induction false} ListedCount(cs: seq<Candidate>, listed: seq<Candidate>)
    requires ListsBest(listed, cs)
    ensures |listed| == |EventKeys(cs)| && forall k | 0 <= k < |listed| :: listed[k].eventKey in EventKeys(cs)
  {
    var keys := Map((c: Candidate) => c.eventKey, listed);
    SameKeys(listed, keys);
    SortedIsDistinct(keys);
    DistinctCardinality(keys);
    forall k | 0 <= k < |listed| {
      InKeys(cs, listed[k]);
    }
  }

  /* ---- Malformed candidates ---- */

  ghost predicate Hex(s: string) {
    |s| == 32 && forall c | c in s :: c in "0123456789abcdef"
  }

  ghost predicate WellShaped(c: Candidate) {
    Hex(c.eventKey) && Digits(c.seed, 14) && (c.fingerprint.Some? ==> Hex(c.fingerprint.value))
  }

  lemma {:induction false} HexAre(s: string)
    ensures IsHex(s) <==> Hex(s)
  {
    assert "0123456789abcdef" == ['0', '1', '2', '3', '4', '5', '6', '7', '8', '9', 'a', 'b', 'c', 'd', 'e', 'f'];
    forall c: char
      ensures c in "0123456789abcdef" <==> '0' <= c <= '9' || 'a' <= c <= 'f'
    {
    }
    if Hex(s) {
      forall i | 0 <= i < 32
        ensures '0' <= s[i] <= '9' || 'a' <= s[i] <= 'f'
      {
        assert s[i] in s;
      }
    }
  }

  lemma {:induction false} ShapedExactly(c: Candidate)
    ensures CandidateOk(c) <==> WellShaped(c)
  {
    HexAre(c.eventKey);
    DigitsAre(c.seed, 14);
    if c.fingerprint.Some? {
      HexAre(c.fingerprint.value);
    }
  }

  /** Row `k` offers a malformed candidate while the rows before it are about at most twenty events. */
  ghost predicate TripsAt(offer: Offer, matched: seq<ReceiptRoles>, k: nat) {
    && k < |matched| && offer(matched[k]).Some? && !WellShaped(offer(matched[k]).value)
    && |EventKeys(Offered(offer, matched[..k]))| <= 20
  }

  lemma {:induction false} TripNext(offer: Offer, ok: Candidate -> bool, matched: seq<ReceiptRoles>, n: nat)
    requires 0 < n <= |matched| && forall c :: ok(c) <==> WellShaped(c)
    ensures RaisesWithin(offer, ok, matched, n) <==> RaisesWithin(offer, ok, matched, n - 1) || TripsAt(offer, matched, n - 1)
  {
    CollectedIsExact(Offered(offer, matched[..n - 1]));
  }

  lemma {:induction false} TripsExactly(offer: Offer, ok: Candidate -> bool, matched: seq<ReceiptRoles>, n: nat)
    requires n <= |matched| && forall c :: ok(c) <==> WellShaped(c)
    ensures RaisesWithin(offer, ok, matched, n) <==> exists k: nat :: k < n && TripsAt(offer, matched, k)
  {
    if n > 0 {
      TripsExactly(offer, ok, matched, n - 1);
      TripNext(offer, ok, matched, n);
    }
  }

  /** The resolver raises exactly when an answering row offers a malformed candidate before a twenty-first event is seen. */
  lemma {:induction false} RaisesExactly(names: Names, q: Query, timelines: Timelines, rows: seq<ReceiptRoles>)
    ensures Resolve(names, q, timelines, rows).Raised? <==>
            exists k: nat :: TripsAt(OfferOf(q, timelines), Matched(names, q, rows), k)
  {
    var offer, ok, matched := OfferOf(q, timelines), CandidateOk, Matched(names, q, rows);
    forall c
      ensures ok(c) <==> WellShaped(c)
    {
      ShapedExactly(c);
    }
    TripsExactly(offer, ok, matched, |matched|);
    NeverRaises(Collected(Offered(offer, matched)));
  }

  lemma {:induction false} NeverRaises(byKey: ByKey)
    ensures !Verdict(byKey).Raised?
  {
  }

  /* ---- With a seed receipt ---- */

  /** A seed receipt names its event by itself, for receipts of the asked company only; its root alone is the caption. */
  lemma {:induction false} SeedExactly(q: Query, timelines: Timelines, seed: string)
    ensures var t := timelines(seed);
            match ResolveSeed(q, timelines, seed)
            case NotFound => t.None? || t.value.corpCode != q.corpCode
            case Resolved(c) =>
              && t.Some? && t.value.corpCode == q.corpCode && WellShaped(c)
              && c.eventKey == t.value.eventKey && c.seed == t.value.root && c.caption == t.value.root + " 기준 사건"
              && c.fingerprint == t.value.fingerprint && c.identityStatus == t.value.identityStatus && c.observations == t.value.observations
            case Raised =>
              && t.Some? && t.value.corpCode == q.corpCode
              && !(Hex(t.value.eventKey) && Digits(t.value.root, 14) && (t.value.fingerprint.Some? ==> Hex(t.value.fingerprint.value)))
            case _ => false
  {
    var t := timelines(seed);
    if t.Some? {
      ShapedExactly(CandidateOf(t.value, t.value.root + " 기준 사건"));
    }
  }
}
