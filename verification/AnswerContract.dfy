/** The items of an answer contract. */
module AnswerContract {
  import opened Wrappers
  import opened Decimals
  import opened Contracts
  import opened PlanValidity

  datatype BindingStatus = Executable | Qualified | Limited

  datatype Gate = Gate(rootRef: string, expected: bool)

  /** A named projection field, or the whole target (whose `key` is empty). */
  datatype Field = Field(id: string, key: string, required: bool, status: BindingStatus,
                         roots: seq<string>, limits: seq<string>, gate: Option<Gate>)

  datatype Mode = NamedFields | WholeTarget

  datatype Projection = Projection(mode: Mode, shape: string, fields: seq<Field>, target: Option<Field>,
                                   presentation: string, sort: Option<seq<string>>)

  datatype Coverage = Coverage(required: seq<string>, executable: seq<string>, limited: seq<string>)

  datatype Support = Support(id: string, kind: string, required: bool, detail: Option<string>, fieldRefs: seq<string>,
                             targetRefs: seq<string>, roots: seq<string>, planRoots: seq<string>)

  datatype Limitation = Limitation(id: string, code: string, family: string, fieldRefs: seq<string>,
                                   targetRefs: seq<string>, detail: string, followup: Option<string>)

  datatype ItemStatus = Ready | Partial | Unavailable

  datatype Item = Item(id: string, status: ItemStatus, projection: Projection, coverage: Coverage,
                       supports: seq<Support>, limitations: seq<Limitation>)

  /* ---- Validators of single records ---- */

  const WHOLE_TARGET: string := "whole-target-"

  predicate IsWholeTargetId(id: string) {
    && WHOLE_TARGET <= id && |id| > |WHOLE_TARGET|
    && '1' <= id[|WHOLE_TARGET|] <= '9'
    && AllDigits(id[|WHOLE_TARGET|..])
  }

  predicate BindingOk(f: Field) {
    && f.required && Distinct(f.roots) && Distinct(f.limits)
    && match f.status
       case Executable => f.roots != [] && f.limits == []
       case Qualified => f.roots != [] && f.limits != []
       case Limited => f.roots == [] && f.limits != []
  }

  predicate ProjectionOk(p: Projection) {
    && Distinct(BindingIds(p.fields))
    && (match p.mode
        case NamedFields => p.fields != [] && p.target.None?
        case WholeTarget => p.fields == [] && p.target.Some? && p.sort.None?)
    && (p.sort.Some? ==> Distinct(p.sort.value) && forall id | id in p.sort.value :: id in BindingIds(p.fields))
    && (forall i | 0 <= i < |p.fields| :: BindingOk(p.fields[i]) && !(WHOLE_TARGET <= p.fields[i].id))
    && (p.target.Some? ==> BindingOk(p.target.value) && IsWholeTargetId(p.target.value.id))
  }

  predicate CoverageOk(c: Coverage) {
    && c.required != [] && Distinct(c.required) && Distinct(c.executable) && Distinct(c.limited)
    && Elements(c.required) == Elements(c.executable) + Elements(c.limited)
  }

  predicate RefsOk(fieldRefs: seq<string>, targetRefs: seq<string>) {
    && Distinct(fieldRefs) && Distinct(targetRefs) && Elements(fieldRefs) !! Elements(targetRefs)
    && (fieldRefs != [] || targetRefs != [])
    && forall i | 0 <= i < |targetRefs| :: IsWholeTargetId(targetRefs[i])
  }

  predicate SupportOk(s: Support) {
    RefsOk(s.fieldRefs, s.targetRefs) && Distinct(s.roots) && Distinct(s.planRoots)
  }

  const FAMILIES: map<string, string> := map[
    "source_cross_check_partial" := "source_scope",
    "counterparty_not_reported_may_hide_match" := "identity_lineage",
    "ambiguous_event_origin" := "identity_lineage",
    "intraday_order_unavailable" := "ordering",
    "source_scope_prevents_complete_lineage" := "source_scope",
    "source_scope_raw_absent" := "source_scope",
    "holding_lineage_root_missing" := "source_scope",
    "personal_data_omitted" := "capability"]

  /** `families` is the closed registry of limitation codes. */
  predicate LimitationOk(families: map<string, string>, l: Limitation) {
    && RefsOk(l.fieldRefs, l.targetRefs) && l.detail != ""
    && l.code in families && families[l.code] == l.family
  }

  predicate RecordsOk(families: map<string, string>, item: Item) {
    && ProjectionOk(item.projection) && CoverageOk(item.coverage)
    && (forall i | 0 <= i < |item.supports| :: SupportOk(item.supports[i]))
    && (forall i | 0 <= i < |item.limitations| :: LimitationOk(families, item.limitations[i]))
  }

  /* ---- Views of an item ---- */

  function BindingIds(fields: seq<Field>): (r: seq<string>)
    ensures |r| == |fields| && forall i | 0 <= i < |fields| :: r[i] == fields[i].id
  {
    seq(|fields|, i requires 0 <= i < |fields| => fields[i].id)
  }

  /** The fields, or the whole target. */
  function Bindings(p: Projection): seq<Field> {
    if p.mode == NamedFields then p.fields else Present(p.target)
  }

  function RootCovered(bs: seq<Field>): set<string> {
    set b | b in bs && b.status != Limited :: b.id
  }

  function LimitCovered(bs: seq<Field>): set<string> {
    set b | b in bs && b.status != Executable :: b.id
  }

  function QualifiedIds(bs: seq<Field>): set<string> {
    set b | b in bs && b.status == Qualified :: b.id
  }

  function LimitationRefs(l: Limitation): seq<string> {
    l.fieldRefs + l.targetRefs
  }

  function SupportRefs(s: Support): seq<string> {
    s.fieldRefs + s.targetRefs
  }

  function LimitationIds(ls: seq<Limitation>): (r: seq<string>)
    ensures |r| == |ls| && forall i | 0 <= i < |ls| :: r[i] == ls[i].id
  {
    seq(|ls|, i requires 0 <= i < |ls| => ls[i].id)
  }

  function SupportIds(supports: seq<Support>): (r: seq<string>)
    ensures |r| == |supports| && forall i | 0 <= i < |supports| :: r[i] == supports[i].id
  {
    seq(|supports|, i requires 0 <= i < |supports| => supports[i].id)
  }

  /** A record's references stay in the namespace of the projection mode. */
  predicate ModeFits(mode: Mode, fieldRefs: seq<string>, targetRefs: seq<string>) {
    if mode == NamedFields then targetRefs == [] else fieldRefs == []
  }

  function StatusOf(bs: seq<Field>): ItemStatus {
    if RootCovered(bs) != {} && LimitCovered(bs) != {} then Partial
    else if RootCovered(bs) != {} then Ready else Unavailable
  }

  /* ---- What an accepted item is ---- */

  /** Field lists limitation exactly when limitation lists field, and every name on either side is live. */
  ghost predicate SameRelation(bs: seq<Field>, ls: seq<Limitation>) {
    && (forall i, k | 0 <= i < |bs| && 0 <= k < |ls| :: ls[k].id in bs[i].limits <==> bs[i].id in LimitationRefs(ls[k]))
    && (forall i | 0 <= i < |bs| :: forall ref | ref in bs[i].limits :: ref in LimitationIds(ls))
    && (forall k | 0 <= k < |ls| :: forall ref | ref in LimitationRefs(ls[k]) :: ref in BindingIds(bs))
  }

  ghost predicate ItemDeclared(item: Item) {
    var bs := Bindings(item.projection);
    && Elements(item.coverage.required) == Elements(BindingIds(bs))
    && Elements(item.coverage.executable) == RootCovered(bs)
    && Elements(item.coverage.limited) == LimitCovered(bs)
    && Distinct(SupportIds(item.supports)) && Distinct(LimitationIds(item.limitations))
    && SameRelation(bs, item.limitations)
    && (forall i | 0 <= i < |item.supports| :: SupportFits(bs, item.projection.mode, item.supports[i]))
    && (forall k | 0 <= k < |item.limitations| ::
          ModeFits(item.projection.mode, item.limitations[k].fieldRefs, item.limitations[k].targetRefs))
    && item.status == StatusOf(bs)
  }

  predicate SupportFits(bs: seq<Field>, mode: Mode, s: Support) {
    && (forall i | 0 <= i < |SupportRefs(s)| :: SupportRefs(s)[i] in BindingIds(bs))
    && ModeFits(mode, s.fieldRefs, s.targetRefs)
  }

  /* ---- The item validator ---- */

  /** Which check rejected an item. */
  datatype Check =
    | RequiredCoverage | ExecutableCoverage | LimitedCoverage | Overlap | SupportIdTwice | LimitationIdTwice
    | SupportReference | ExecutableWithLimits | LimitedWithoutLimits | LimitReference | LimitationReference
    | Status | LimitationMissing | LimitationStray

  /** The last limitation called `id`, as a dictionary by id holds it. */
  function LimitationAt(ls: seq<Limitation>, id: string): Option<Limitation> {
    if ls == [] then None
    else if ls[|ls| - 1].id == id then Some(ls[|ls| - 1])
    else LimitationAt(ls[..|ls| - 1], id)
  }

  function FieldAt(bs: seq<Field>, id: string): Option<Field> {
    if bs == [] then None
    else if bs[|bs| - 1].id == id then Some(bs[|bs| - 1])
    else FieldAt(bs[..|bs| - 1], id)
  }

  predicate Answered(ls: seq<Limitation>, id: string, ref: string) {
    var l := LimitationAt(ls, ref);
    l.Some? && id in LimitationRefs(l.value)
  }

  predicate BindingFits(ls: seq<Limitation>, b: Field) {
    b.status == Executable || forall i | 0 <= i < |b.limits| :: Answered(ls, b.id, b.limits[i])
  }

  predicate ListedBack(bs: seq<Field>, l: Limitation, ref: string) {
    var b := FieldAt(bs, ref);
    b.Some? && ref in LimitCovered(bs) && l.id in b.value.limits
  }

  predicate LimitationFits(bs: seq<Field>, mode: Mode, l: Limitation) {
    && (forall i | 0 <= i < |LimitationRefs(l)| :: ListedBack(bs, l, LimitationRefs(l)[i]))
    && ModeFits(mode, l.fieldRefs, l.targetRefs)
  }

  method CheckSupports(bs: seq<Field>, mode: Mode, supports: seq<Support>) returns (ok: bool)
    ensures ok <==> forall i | 0 <= i < |supports| :: SupportFits(bs, mode, supports[i])
  {
    for n := 0 to |supports|
      invariant forall i | 0 <= i < n :: SupportFits(bs, mode, supports[i])
    {
      if !SupportFits(bs, mode, supports[n]) {
        return false;
      }
    }
    return true;
  }

  method CheckBindings(bs: seq<Field>, ls: seq<Limitation>) returns (failed: Option<Check>)
    requires forall i | 0 <= i < |bs| :: BindingOk(bs[i])
    ensures failed.None? <==> forall i | 0 <= i < |bs| :: BindingFits(ls, bs[i])
    ensures failed.Some? ==> failed.value == LimitReference
  {
    for n := 0 to |bs|
      invariant forall i | 0 <= i < n :: BindingFits(ls, bs[i])
    {
      if bs[n].status == Executable {
        if bs[n].limits != [] {
          return Some(ExecutableWithLimits);
        }
      } else if bs[n].limits == [] {
        return Some(LimitedWithoutLimits);
      } else if !BindingFits(ls, bs[n]) {
        return Some(LimitReference);
      }
    }
    return None;
  }

  method CheckLimitations(bs: seq<Field>, mode: Mode, ls: seq<Limitation>) returns (ok: bool)
    ensures ok <==> forall k | 0 <= k < |ls| :: LimitationFits(bs, mode, ls[k])
  {
    for n := 0 to |ls|
      invariant forall k | 0 <= k < n :: LimitationFits(bs, mode, ls[k])
    {
      if !LimitationFits(bs, mode, ls[n]) {
        return false;
      }
    }
    return true;
  }

  /** The checks `validate_item` makes before it compares the status. */
  ghost predicate LinksOk(bs: seq<Field>, mode: Mode, item: Item) {
    && Distinct(SupportIds(item.supports)) && Distinct(LimitationIds(item.limitations))
    && (forall i | 0 <= i < |item.supports| :: SupportFits(bs, mode, item.supports[i]))
    && (forall i | 0 <= i < |bs| :: BindingFits(item.limitations, bs[i]))
    && (forall k | 0 <= k < |item.limitations| :: LimitationFits(bs, mode, item.limitations[k]))
  }

  method CheckLinks(bs: seq<Field>, mode: Mode, item: Item) returns (failed: Option<Check>)
    requires forall i | 0 <= i < |bs| :: BindingOk(bs[i])
    ensures failed.None? <==> LinksOk(bs, mode, item)
    ensures failed.Some? ==> failed.value in {SupportIdTwice, LimitationIdTwice, SupportReference, LimitReference, LimitationReference}
  {
    if !Distinct(SupportIds(item.supports)) {
      return Some(SupportIdTwice);
    }
    if !Distinct(LimitationIds(item.limitations)) {
      return Some(LimitationIdTwice);
    }
    var supported := CheckSupports(bs, mode, item.supports);
    if !supported {
      return Some(SupportReference);
    }
    failed := CheckBindings(bs, item.limitations);
    if failed.None? {
      var limited := CheckLimitations(bs, mode, item.limitations);
      failed := if limited then None else Some(LimitationReference);
    }
  }

  method CheckCoverage(bs: seq<Field>, c: Coverage) returns (failed: Option<Check>)
    requires Distinct(BindingIds(bs))
    ensures failed.None? <==> Elements(c.required) == Elements(BindingIds(bs)) && Elements(c.executable) == RootCovered(bs)
                              && Elements(c.limited) == LimitCovered(bs)
    ensures failed.Some? ==> failed.value in {RequiredCoverage, ExecutableCoverage, LimitedCoverage}
  {
    if Elements(c.required) != Elements(BindingIds(bs)) {
      return Some(RequiredCoverage);
    }
    if Elements(c.executable) != RootCovered(bs) {
      return Some(ExecutableCoverage);
    }
    if Elements(c.limited) != LimitCovered(bs) {
      return Some(LimitedCoverage);
    }
    OverlapIsQualified(bs);
    if Elements(c.executable) * Elements(c.limited) != QualifiedIds(bs) {
      return Some(Overlap);
    }
    return None;
  }

  /** With distinct ids the fields covered both ways are exactly the qualified ones. */
  lemma {:induction false} OverlapIsQualified(bs: seq<Field>)
    requires Distinct(BindingIds(bs))
    ensures RootCovered(bs) * LimitCovered(bs) == QualifiedIds(bs)
  {
    forall b, c | b in bs && c in bs && b.id == c.id
      ensures b == c
    {
    }
  }

  /** `validate_item` on an item whose records are valid. It accepts exactly the declared items, and the
      checks on the overlap, on each binding's shape and on missing or stray limitations never fire. */
  method ValidateItem(families: map<string, string>, item: Item) returns (failed: Option<Check>)
    requires RecordsOk(families, item)
    ensures failed.None? <==> ItemDeclared(item)
    ensures failed.Some? ==> failed.value !in {Overlap, ExecutableWithLimits, LimitedWithoutLimits, LimitationMissing, LimitationStray}
  {
    var bs, mode := Bindings(item.projection), item.projection.mode;
    failed := CheckCoverage(bs, item.coverage);
    if failed.Some? {
      return;
    }
    failed := CheckLinks(bs, mode, item);
    LinksMeanRelation(bs, mode, item);
    if failed.Some? {
      return;
    }
    if item.status != StatusOf(bs) {
      return Some(Status);
    }
    LimitationsWhereNeeded(families, bs, item.limitations);
    if LimitCovered(bs) != {} && item.limitations == [] {
      return Some(LimitationMissing);
    }
    if LimitCovered(bs) == {} && item.limitations != [] {
      return Some(LimitationStray);
    }
    return None;
  }

  lemma {:induction false} FieldAtUnique(bs: seq<Field>, i: nat)
    requires Distinct(BindingIds(bs)) && i < |bs|
    ensures FieldAt(bs, bs[i].id) == Some(bs[i])
  {
    var ids := BindingIds(bs);
    if i < |bs| - 1 {
      assert ids[i] != ids[|bs| - 1];
      assert BindingIds(bs[..|bs| - 1]) == ids[..|bs| - 1];
      FieldAtUnique(bs[..|bs| - 1], i);
    }
  }

  lemma {:induction false} FieldAtFound(bs: seq<Field>, id: string)
    ensures FieldAt(bs, id).Some? <==> id in BindingIds(bs)
    ensures FieldAt(bs, id).Some? ==> FieldAt(bs, id).value in bs && FieldAt(bs, id).value.id == id
  {
    if bs != [] {
      FieldAtFound(bs[..|bs| - 1], id);
      assert BindingIds(bs) == BindingIds(bs[..|bs| - 1]) + [bs[|bs| - 1].id];
    }
  }

  lemma {:induction false} LimitationAtUnique(ls: seq<Limitation>, k: nat)
    requires Distinct(LimitationIds(ls)) && k < |ls|
    ensures LimitationAt(ls, ls[k].id) == Some(ls[k])
  {
    var ids := LimitationIds(ls);
    if k < |ls| - 1 {
      assert ids[k] != ids[|ls| - 1];
      assert LimitationIds(ls[..|ls| - 1]) == ids[..|ls| - 1];
      LimitationAtUnique(ls[..|ls| - 1], k);
    }
  }

  lemma {:induction false} LimitationAtFound(ls: seq<Limitation>, id: string)
    ensures LimitationAt(ls, id).Some? <==> id in LimitationIds(ls)
    ensures LimitationAt(ls, id).Some? ==> LimitationAt(ls, id).value in ls && LimitationAt(ls, id).value.id == id
  {
    if ls != [] {
      LimitationAtFound(ls[..|ls| - 1], id);
      assert LimitationIds(ls) == LimitationIds(ls[..|ls| - 1]) + [ls[|ls| - 1].id];
    }
  }

  /** The two one-sided walks over references amount to one symmetric relation. */
  lemma {:induction false} WalksAgree(bs: seq<Field>, ls: seq<Limitation>)
    requires Distinct(BindingIds(bs)) && Distinct(LimitationIds(ls)) && forall i | 0 <= i < |bs| :: BindingOk(bs[i])
    ensures SameRelation(bs, ls)
       <==> && (forall i | 0 <= i < |bs| :: BindingFits(ls, bs[i]))
            && (forall k | 0 <= k < |ls| :: AllListedBack(bs, ls[k]))
  {
    if SameRelation(bs, ls) {
      forall i | 0 <= i < |bs| ensures BindingFits(ls, bs[i]) { RelationFitsBinding(bs, ls, i); }
      forall k | 0 <= k < |ls| ensures AllListedBack(bs, ls[k]) { RelationListsBack(bs, ls, k); }
    }
    if (forall i | 0 <= i < |bs| :: BindingFits(ls, bs[i])) && (forall k | 0 <= k < |ls| :: AllListedBack(bs, ls[k])) {
      WalksGiveRelation(bs, ls);
    }
  }

  predicate AllListedBack(bs: seq<Field>, l: Limitation) {
    forall i | 0 <= i < |LimitationRefs(l)| :: ListedBack(bs, l, LimitationRefs(l)[i])
  }

  lemma {:induction false} RelationFitsBinding(bs: seq<Field>, ls: seq<Limitation>, i: nat)
    requires SameRelation(bs, ls) && i < |bs| && Distinct(LimitationIds(ls))
    ensures BindingFits(ls, bs[i])
  {
    forall r | 0 <= r < |bs[i].limits|
      ensures Answered(ls, bs[i].id, bs[i].limits[r])
    {
      var ref := bs[i].limits[r];
      LimitationAtFound(ls, ref);
      assert ref in bs[i].limits;
      var k :| 0 <= k < |ls| && LimitationIds(ls)[k] == ref;
      LimitationAtUnique(ls, k);
    }
  }

  lemma {:induction false} RelationListsBack(bs: seq<Field>, ls: seq<Limitation>, k: nat)
    requires SameRelation(bs, ls) && k < |ls| && Distinct(BindingIds(bs)) && forall i | 0 <= i < |bs| :: BindingOk(bs[i])
    ensures AllListedBack(bs, ls[k])
  {
    forall r | 0 <= r < |LimitationRefs(ls[k])|
      ensures ListedBack(bs, ls[k], LimitationRefs(ls[k])[r])
    {
      var ref := LimitationRefs(ls[k])[r];
      assert ref in LimitationRefs(ls[k]);
      var i :| 0 <= i < |bs| && BindingIds(bs)[i] == ref;
      FieldAtUnique(bs, i);
      assert bs[i] in bs && BindingOk(bs[i]);
      assert ls[k].id in bs[i].limits;
    }
  }

  lemma {:induction false} WalksGiveRelation(bs: seq<Field>, ls: seq<Limitation>)
    requires Distinct(BindingIds(bs)) && Distinct(LimitationIds(ls)) && forall i | 0 <= i < |bs| :: BindingOk(bs[i])
    requires forall i | 0 <= i < |bs| :: BindingFits(ls, bs[i])
    requires forall k | 0 <= k < |ls| :: AllListedBack(bs, ls[k])
    ensures SameRelation(bs, ls)
  {
    forall i | 0 <= i < |bs|
      ensures forall ref | ref in bs[i].limits :: ref in LimitationIds(ls)
      ensures forall k | 0 <= k < |ls| :: ls[k].id in bs[i].limits ==> bs[i].id in LimitationRefs(ls[k])
    {
      FittingBinding(bs, ls, i);
    }
    forall k | 0 <= k < |ls|
      ensures forall ref | ref in LimitationRefs(ls[k]) :: ref in BindingIds(bs)
      ensures forall i | 0 <= i < |bs| :: bs[i].id in LimitationRefs(ls[k]) ==> ls[k].id in bs[i].limits
    {
      ListedLimitation(bs, ls, k);
    }
  }

  lemma {:induction false} FittingBinding(bs: seq<Field>, ls: seq<Limitation>, i: nat)
    requires Distinct(LimitationIds(ls)) && i < |bs| && BindingOk(bs[i]) && BindingFits(ls, bs[i])
    ensures forall ref | ref in bs[i].limits :: ref in LimitationIds(ls)
    ensures forall k | 0 <= k < |ls| :: ls[k].id in bs[i].limits ==> bs[i].id in LimitationRefs(ls[k])
  {
    forall r | 0 <= r < |bs[i].limits|
      ensures bs[i].limits[r] in LimitationIds(ls)
    {
      LimitationAtFound(ls, bs[i].limits[r]);
      assert Answered(ls, bs[i].id, bs[i].limits[r]);
    }
    forall k | 0 <= k < |ls| && ls[k].id in bs[i].limits
      ensures bs[i].id in LimitationRefs(ls[k])
    {
      var r :| 0 <= r < |bs[i].limits| && bs[i].limits[r] == ls[k].id;
      assert Answered(ls, bs[i].id, bs[i].limits[r]);
      LimitationAtUnique(ls, k);
    }
  }

  lemma {:induction false} ListedLimitation(bs: seq<Field>, ls: seq<Limitation>, k: nat)
    requires Distinct(BindingIds(bs)) && k < |ls| && AllListedBack(bs, ls[k])
    ensures forall ref | ref in LimitationRefs(ls[k]) :: ref in BindingIds(bs)
    ensures forall i | 0 <= i < |bs| :: bs[i].id in LimitationRefs(ls[k]) ==> ls[k].id in bs[i].limits
  {
    var refs := LimitationRefs(ls[k]);
    forall r | 0 <= r < |refs|
      ensures refs[r] in BindingIds(bs)
    {
      assert ListedBack(bs, ls[k], refs[r]);
      FieldAtFound(bs, refs[r]);
    }
    forall i | 0 <= i < |bs| && bs[i].id in refs
      ensures ls[k].id in bs[i].limits
    {
      var r :| 0 <= r < |refs| && refs[r] == bs[i].id;
      assert ListedBack(bs, ls[k], refs[r]);
      FieldAtUnique(bs, i);
    }
  }

  lemma {:induction false} LinksMeanRelation(bs: seq<Field>, mode: Mode, item: Item)
    requires Distinct(BindingIds(bs)) && forall i | 0 <= i < |bs| :: BindingOk(bs[i])
    ensures LinksOk(bs, mode, item)
       <==> && Distinct(SupportIds(item.supports)) && Distinct(LimitationIds(item.limitations))
            && (forall i | 0 <= i < |item.supports| :: SupportFits(bs, mode, item.supports[i]))
            && SameRelation(bs, item.limitations)
            && (forall k | 0 <= k < |item.limitations| ::
                  ModeFits(mode, item.limitations[k].fieldRefs, item.limitations[k].targetRefs))
  {
    var ls := item.limitations;
    assert (forall k | 0 <= k < |ls| :: LimitationFits(bs, mode, ls[k]))
      <==> (forall k | 0 <= k < |ls| :: AllListedBack(bs, ls[k]))
           && (forall k | 0 <= k < |ls| :: ModeFits(mode, ls[k].fieldRefs, ls[k].targetRefs)) by {
      forall k | 0 <= k < |ls|
        ensures LimitationFits(bs, mode, ls[k]) <==> AllListedBack(bs, ls[k]) && ModeFits(mode, ls[k].fieldRefs, ls[k].targetRefs)
      {
      }
    }
    if Distinct(LimitationIds(ls)) {
      WalksAgree(bs, ls);
    }
  }

  /** Limitations are present exactly when some field needs one. */
  lemma {:induction false} LimitationsWhereNeeded(families: map<string, string>, bs: seq<Field>, ls: seq<Limitation>)
    requires forall i | 0 <= i < |bs| :: BindingOk(bs[i])
    requires forall k | 0 <= k < |ls| :: LimitationOk(families, ls[k])
    requires SameRelation(bs, ls)
    ensures LimitCovered(bs) != {} <==> ls != []
  {
    if b :| b in bs && b.status != Executable {
      var i :| 0 <= i < |bs| && bs[i] == b;
      assert BindingOk(bs[i]) && bs[i].limits[0] in bs[i].limits;
      assert bs[i].limits[0] in LimitationIds(ls);
      assert b.id in LimitCovered(bs);
    }
    if ls != [] {
      var refs := LimitationRefs(ls[0]);
      assert LimitationOk(families, ls[0]) && refs[0] in refs;
      var i :| 0 <= i < |bs| && BindingIds(bs)[i] == refs[0];
      assert ls[0].id in bs[i].limits && BindingOk(bs[i]) && bs[i] in bs;
      assert bs[i].id in LimitCovered(bs);
    }
  }

  /** Every field of an accepted item has a root or a limitation, and is in the matching coverage lists. */
  lemma {:induction false} NothingIsDropped(families: map<string, string>, item: Item, i: nat)
    requires RecordsOk(families, item) && ItemDeclared(item) && i < |Bindings(item.projection)|
    ensures var b := Bindings(item.projection)[i];
            && (b.roots != [] <==> b.id in item.coverage.executable)
            && (b.limits != [] <==> b.id in item.coverage.limited)
            && (b.roots != [] || b.limits != [])
            && b.id in item.coverage.required
  {
    var bs := Bindings(item.projection);
    var b := bs[i];
    assert b in bs && BindingIds(bs)[i] == b.id;
    assert b.id in Elements(BindingIds(bs));
    CoveredExactly(bs, i);
  }

  /** With distinct ids a field is covered exactly as its own status says. */
  lemma {:induction false} CoveredExactly(bs: seq<Field>, i: nat)
    requires i < |bs| && Distinct(BindingIds(bs))
    ensures bs[i].id in RootCovered(bs) <==> bs[i].status != Limited
    ensures bs[i].id in LimitCovered(bs) <==> bs[i].status != Executable
  {
    forall c | c in bs && c.id == bs[i].id
      ensures c == bs[i]
    {
      var k :| 0 <= k < |bs| && bs[k] == c;
      assert BindingIds(bs)[k] == BindingIds(bs)[i];
    }
    assert bs[i] in bs;
  }
}
