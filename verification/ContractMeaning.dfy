/** Contracts, field by field. */
module ContractMeaning {
  import opened Wrappers
  import opened Decimals
  import opened AnswerContract
  import opened ContractBuild

  /* ---- The fields of an item, written out ---- */

  /** `f` is a field of the item: one of its named fields, or its whole target. */
  ghost predicate IsField(item: Item, f: Field) {
    match item.projection.mode
    case NamedFields => exists k :: 0 <= k < |item.projection.fields| && item.projection.fields[k] == f
    case WholeTarget => item.projection.target == Some(f)
  }

  lemma {:induction false} FieldsAreBindings(item: Item, f: Field)
    ensures IsField(item, f) <==> f in Bindings(item.projection)
  {
  }

  ghost predicate AllFields(item: Item, status: BindingStatus) {
    forall f | IsField(item, f) :: f.status == status
  }

  ghost predicate SomeField(item: Item, status: BindingStatus) {
    exists f :: IsField(item, f) && f.status == status
  }

  /* ---- Coverage and status ---- */

  lemma {:induction false} RootCoveredHas(item: Item, id: string)
    ensures id in RootCovered(Bindings(item.projection)) <==> exists f :: IsField(item, f) && f.id == id && f.status != Limited
    ensures id in LimitCovered(Bindings(item.projection)) <==> exists f :: IsField(item, f) && f.id == id && f.status != Executable
  {
    var bs := Bindings(item.projection);
    forall f
      ensures IsField(item, f) <==> f in bs
    {
      FieldsAreBindings(item, f);
    }
  }

  lemma {:induction false} CoveredSets(item: Item)
    ensures RootCovered(Bindings(item.projection)) != {} <==> SomeField(item, Executable) || SomeField(item, Qualified)
    ensures LimitCovered(Bindings(item.projection)) != {} <==> SomeField(item, Limited) || SomeField(item, Qualified)
  {
    var roots, limits := RootCovered(Bindings(item.projection)), LimitCovered(Bindings(item.projection));
    if id :| id in roots {
      RootCoveredHas(item, id);
    }
    if id :| id in limits {
      RootCoveredHas(item, id);
    }
    if f :| IsField(item, f) && f.status != Limited {
      RootCoveredHas(item, f.id);
    }
    if f :| IsField(item, f) && f.status != Executable {
      RootCoveredHas(item, f.id);
    }
  }

  lemma {:induction false} StatusSaysTheFields(item: Item)
    requires ProjectionOk(item.projection)
    ensures var status := StatusOf(Bindings(item.projection));
            && (status == Ready <==> AllFields(item, Executable))
            && (status == Unavailable <==> AllFields(item, Limited))
  {
    CoveredSets(item);
    SomeFieldThere(item);
  }

  lemma {:induction false} IdsAreTheFields(item: Item, id: string)
    ensures id in BindingIds(Bindings(item.projection)) <==> exists f :: IsField(item, f) && f.id == id
  {
    var bs, ids := Bindings(item.projection), BindingIds(Bindings(item.projection));
    if id in ids {
      var k :| 0 <= k < |ids| && ids[k] == id;
      FieldsAreBindings(item, bs[k]);
    }
    if f :| IsField(item, f) && f.id == id {
      FieldsAreBindings(item, f);
      var k :| 0 <= k < |bs| && bs[k] == f;
      assert ids[k] == id;
    }
  }

  lemma {:induction false} InElements(s: seq<string>, t: set<string>, id: string)
    requires Elements(s) == t
    ensures id in s <==> id in t
  {
  }

  /** An accepted item is ready when all its fields are executable, unavailable when all are limited, and partial otherwise;
      its coverage lists name exactly the fields they should. */
  lemma {:induction false} ItemSaysItsFields(families: map<string, string>, item: Item, id: string)
    requires ItemValid(families, item)
    ensures item.status == Ready <==> AllFields(item, Executable)
    ensures item.status == Unavailable <==> AllFields(item, Limited)
    ensures id in item.coverage.required <==> exists f :: IsField(item, f) && f.id == id
    ensures id in item.coverage.executable <==> exists f :: IsField(item, f) && f.id == id && f.status != Limited
    ensures id in item.coverage.limited <==> exists f :: IsField(item, f) && f.id == id && f.status != Executable
  {
    var bs := Bindings(item.projection);
    StatusSaysTheFields(item);
    IdsAreTheFields(item, id);
    RootCoveredHas(item, id);
    InElements(item.coverage.required, Elements(BindingIds(bs)), id);
    InElements(item.coverage.executable, RootCovered(bs), id);
    InElements(item.coverage.limited, LimitCovered(bs), id);
  }

  lemma {:induction false} SomeFieldThere(item: Item)
    requires ProjectionOk(item.projection)
    ensures exists f :: IsField(item, f)
  {
    match item.projection.mode
    case NamedFields => assert IsField(item, item.projection.fields[0]);
    case WholeTarget => assert IsField(item, item.projection.target.value);
  }

  /* ---- Completion ---- */

  lemma {:induction false} LimitedSomewhere(items: seq<Item>)
    ensures AnyLimited(items) <==> exists i :: 0 <= i < |items| && (SomeField(items[i], Qualified) || SomeField(items[i], Limited))
    ensures AnyExecutable(items) <==> exists i :: 0 <= i < |items| && (SomeField(items[i], Executable) || SomeField(items[i], Qualified))
  {
    forall i | 0 <= i < |items| {
      CoveredSets(items[i]);
    }
  }

  /** What a body that the validator accepts says of its fields: complete exactly when every field of every item is
      executable, partly complete exactly when some field is qualified or limited, and never without a field that has roots. */
  lemma {:induction false} CompletionSaysTheFields(body: Body)
    requires BodyDeclared(body)
    ensures body.completion == Complete <==> forall i | 0 <= i < |body.items| :: AllFields(body.items[i], Executable)
    ensures body.completion == PartlyComplete <==>
            exists i :: 0 <= i < |body.items| && (SomeField(body.items[i], Qualified) || SomeField(body.items[i], Limited))
    ensures exists i :: 0 <= i < |body.items| && (SomeField(body.items[i], Executable) || SomeField(body.items[i], Qualified))
  {
    LimitedSomewhere(body.items);
    forall i | 0 <= i < |body.items|
      ensures AllFields(body.items[i], Executable) <==> !(SomeField(body.items[i], Qualified) || SomeField(body.items[i], Limited))
    {
    }
  }

  /* ---- Records, written out ---- */

  /** The id of a whole target: the prefix and a position counted from one. */
  ghost predicate NamesTarget(id: string) {
    exists n: nat :: n > 0 && id == "whole-target-" + Dec(n)
  }

  lemma {:induction false} NamesTargetExactly(id: string)
    ensures IsWholeTargetId(id) <==> NamesTarget(id)
  {
    var prefix := "whole-target-";
    if IsWholeTargetId(id) {
      var digits := id[|prefix|..];
      NumeralIsPrinted(digits);
      NotZero(digits);
      assert id == prefix + digits;
    }
    if n: nat :| n > 0 && id == prefix + Dec(n) {
      DecStartsNonzero(n);
      assert id[|prefix|..] == Dec(n);
    }
  }

  /** A field is required, names no root or limit twice, and has roots and limits as its status says. */
  ghost predicate FieldFine(f: Field) {
    && f.required && Distinct(f.roots) && Distinct(f.limits)
    && (f.status == Executable <==> f.roots != [] && f.limits == [])
    && (f.status == Qualified <==> f.roots != [] && f.limits != [])
    && (f.status == Limited <==> f.roots == [] && f.limits != [])
  }

  /** Named fields with different ids outside the target namespace, or one whole target and no order. */
  ghost predicate ProjectionFine(p: Projection) {
    && (p.mode == NamedFields <==> p.fields != []) && (p.mode == NamedFields <==> p.target.None?)
    && (forall i, j | 0 <= i < j < |p.fields| :: p.fields[i].id != p.fields[j].id)
    && (forall i | 0 <= i < |p.fields| :: FieldFine(p.fields[i]) && !("whole-target-" <= p.fields[i].id))
    && (p.target.Some? ==> FieldFine(p.target.value) && NamesTarget(p.target.value.id))
    && (p.sort.Some? ==>
          && p.mode == NamedFields && Distinct(p.sort.value)
          && forall id | id in p.sort.value :: exists i :: 0 <= i < |p.fields| && p.fields[i].id == id)
  }

  /** A record refers to at least one name, no name twice, and to targets by proper target ids. */
  ghost predicate RefersFine(fieldRefs: seq<string>, targetRefs: seq<string>) {
    && Distinct(fieldRefs + targetRefs) && fieldRefs + targetRefs != []
    && forall id | id in targetRefs :: NamesTarget(id)
  }

  lemma {:induction false} RefersExactly(fieldRefs: seq<string>, targetRefs: seq<string>)
    ensures RefsOk(fieldRefs, targetRefs) <==> RefersFine(fieldRefs, targetRefs)
  {
    forall i | 0 <= i < |targetRefs|
      ensures IsWholeTargetId(targetRefs[i]) <==> NamesTarget(targetRefs[i])
    {
      NamesTargetExactly(targetRefs[i]);
    }
    assert (forall i | 0 <= i < |targetRefs| :: IsWholeTargetId(targetRefs[i])) <==> forall id | id in targetRefs :: NamesTarget(id) by {
      forall id | id in targetRefs
        ensures IsWholeTargetId(id) <==> NamesTarget(id)
      {
        NamesTargetExactly(id);
      }
    }
    assert Elements(fieldRefs) !! Elements(targetRefs) <==> forall x | x in fieldRefs :: x !in targetRefs by {
      assert forall x :: x in fieldRefs <==> x in Elements(fieldRefs);
      assert forall x :: x in targetRefs <==> x in Elements(targetRefs);
    }
    assert fieldRefs + targetRefs != [] <==> fieldRefs != [] || targetRefs != [];
    DistinctParts(fieldRefs, targetRefs);
  }

  lemma {:induction false} ProjectionExactly(p: Projection)
    ensures ProjectionOk(p) <==> ProjectionFine(p)
  {
    var ids := BindingIds(p.fields);
    assert Distinct(ids) <==> forall i, j | 0 <= i < j < |p.fields| :: p.fields[i].id != p.fields[j].id;
    forall id
      ensures id in ids <==> exists i :: 0 <= i < |p.fields| && p.fields[i].id == id
    {
      if i :| 0 <= i < |p.fields| && p.fields[i].id == id {
        assert ids[i] == id;
      }
    }
    if p.target.Some? {
      NamesTargetExactly(p.target.value.id);
    }
    assert forall f: Field :: BindingOk(f) <==> FieldFine(f);
  }

  ghost predicate SupportFine(item: Item, s: Support) {
    && RefersFine(s.fieldRefs, s.targetRefs) && Distinct(s.roots) && Distinct(s.planRoots)
    && (if item.projection.mode == NamedFields then s.targetRefs == [] else s.fieldRefs == [])
    && forall id | id in s.fieldRefs + s.targetRefs :: exists f :: IsField(item, f) && f.id == id
  }

  ghost predicate LimitationFine(families: map<string, string>, item: Item, l: Limitation) {
    && RefersFine(l.fieldRefs, l.targetRefs) && l.detail != "" && l.code in families && families[l.code] == l.family
    && (if item.projection.mode == NamedFields then l.targetRefs == [] else l.fieldRefs == [])
    && forall id | id in l.fieldRefs + l.targetRefs :: exists f :: IsField(item, f) && f.id == id
  }

  /** The coverage lists, once each, exactly the ids that are so. */
  ghost predicate Lists(ids: seq<string>, isSo: string -> bool) {
    Distinct(ids) && forall id :: id in ids <==> isSo(id)
  }

  /** An item of an answer contract, written out: fine records, coverage and status as its fields say, and fields and limitations
      that name each other. */
  ghost predicate ItemFine(families: map<string, string>, item: Item) {
    && ProjectionFine(item.projection)
    && Lists(item.coverage.required, (id: string) => exists f :: IsField(item, f) && f.id == id)
    && Lists(item.coverage.executable, (id: string) => exists f :: IsField(item, f) && f.id == id && f.status != Limited)
    && Lists(item.coverage.limited, (id: string) => exists f :: IsField(item, f) && f.id == id && f.status != Executable)
    && (item.status == Ready <==> AllFields(item, Executable)) && (item.status == Unavailable <==> AllFields(item, Limited))
    && (forall i, j | 0 <= i < j < |item.supports| :: item.supports[i].id != item.supports[j].id)
    && (forall i, j | 0 <= i < j < |item.limitations| :: item.limitations[i].id != item.limitations[j].id)
    && (forall i | 0 <= i < |item.supports| :: SupportFine(item, item.supports[i]))
    && (forall i | 0 <= i < |item.limitations| :: LimitationFine(families, item, item.limitations[i]))
    && (forall f, l | IsField(item, f) && l in item.limitations ::
          l.id in f.limits <==> f.id in l.fieldRefs + l.targetRefs)
    && forall f, id | IsField(item, f) && id in f.limits :: exists l :: l in item.limitations && l.id == id
  }

  lemma {:induction false} CoverageExactly(item: Item, c: Coverage)
    requires c == item.coverage && ProjectionOk(item.projection)
    ensures var bs := Bindings(item.projection);
            (&& CoverageOk(c) && Elements(c.required) == Elements(BindingIds(bs)) && Elements(c.executable) == RootCovered(bs)
             && Elements(c.limited) == LimitCovered(bs))
            <==> (&& Lists(c.required, (id: string) => exists f :: IsField(item, f) && f.id == id)
                  && Lists(c.executable, (id: string) => exists f :: IsField(item, f) && f.id == id && f.status != Limited)
                  && Lists(c.limited, (id: string) => exists f :: IsField(item, f) && f.id == id && f.status != Executable))
  {
    var bs := Bindings(item.projection);
    forall id
      ensures id in Elements(BindingIds(bs)) <==> exists f :: IsField(item, f) && f.id == id
      ensures id in RootCovered(bs) <==> exists f :: IsField(item, f) && f.id == id && f.status != Limited
      ensures id in LimitCovered(bs) <==> exists f :: IsField(item, f) && f.id == id && f.status != Executable
    {
      IdsAreTheFields(item, id);
      RootCoveredHas(item, id);
    }
    ListsExactly(c.required, Elements(BindingIds(bs)), (id: string) => exists f :: IsField(item, f) && f.id == id);
    ListsExactly(c.executable, RootCovered(bs), (id: string) => exists f :: IsField(item, f) && f.id == id && f.status != Limited);
    ListsExactly(c.limited, LimitCovered(bs), (id: string) => exists f :: IsField(item, f) && f.id == id && f.status != Executable);
    EveryFieldCovered(item);
  }

  lemma {:induction false} EveryFieldCovered(item: Item)
    requires ProjectionOk(item.projection)
    ensures var bs := Bindings(item.projection);
            Elements(BindingIds(bs)) == RootCovered(bs) + LimitCovered(bs) && Elements(BindingIds(bs)) != {}
  {
    var bs := Bindings(item.projection);
    forall id
      ensures id in Elements(BindingIds(bs)) <==> id in RootCovered(bs) + LimitCovered(bs)
    {
      IdsAreTheFields(item, id);
      RootCoveredHas(item, id);
    }
    SomeFieldThere(item);
    var f :| IsField(item, f);
    IdsAreTheFields(item, f.id);
    assert f.id in Elements(BindingIds(bs));
  }

  lemma {:induction false} ListsExactly(ids: seq<string>, all: set<string>, isSo: string -> bool)
    requires forall id :: id in all <==> isSo(id)
    ensures Distinct(ids) && Elements(ids) == all <==> Lists(ids, isSo)
  {
    assert forall id :: id in ids <==> id in Elements(ids);
  }

  lemma {:induction false} RefsAreFields(item: Item, refs: seq<string>)
    ensures (forall i | 0 <= i < |refs| :: refs[i] in BindingIds(Bindings(item.projection))) <==>
            forall id | id in refs :: exists f :: IsField(item, f) && f.id == id
  {
    var ids := BindingIds(Bindings(item.projection));
    forall i | 0 <= i < |refs|
      ensures refs[i] in ids <==> exists f :: IsField(item, f) && f.id == refs[i]
    {
      IdsAreTheFields(item, refs[i]);
    }
    assert forall i | 0 <= i < |refs| :: refs[i] in refs;
    assert forall id | id in refs :: exists i :: 0 <= i < |refs| && refs[i] == id;
  }

  lemma {:induction false} SupportExactly(item: Item, s: Support)
    ensures SupportOk(s) && SupportFits(Bindings(item.projection), item.projection.mode, s) <==> SupportFine(item, s)
  {
    RefersExactly(s.fieldRefs, s.targetRefs);
    RefsAreFields(item, s.fieldRefs + s.targetRefs);
    assert SupportRefs(s) == s.fieldRefs + s.targetRefs;
  }

  ghost predicate RefsLive(bs: seq<Field>, l: Limitation) {
    forall ref | ref in LimitationRefs(l) :: ref in BindingIds(bs)
  }

  lemma {:induction false} LimitationExactly(families: map<string, string>, item: Item, l: Limitation)
    ensures LimitationOk(families, l) && ModeFits(item.projection.mode, l.fieldRefs, l.targetRefs) && RefsLive(Bindings(item.projection), l)
            <==> LimitationFine(families, item, l)
  {
    RefersExactly(l.fieldRefs, l.targetRefs);
    RefsAreFields(item, l.fieldRefs + l.targetRefs);
  }

  /** Field and limitation name each other, and no field names a limitation that is not there. */
  ghost predicate Mutual(item: Item) {
    && (forall f, l | IsField(item, f) && l in item.limitations :: l.id in f.limits <==> f.id in l.fieldRefs + l.targetRefs)
    && forall f, id | IsField(item, f) && id in f.limits :: exists l :: l in item.limitations && l.id == id
  }

  ghost predicate NamedBothWays(bs: seq<Field>, ls: seq<Limitation>) {
    && (forall i, k | 0 <= i < |bs| && 0 <= k < |ls| :: ls[k].id in bs[i].limits <==> bs[i].id in LimitationRefs(ls[k]))
    && (forall i | 0 <= i < |bs| :: forall ref | ref in bs[i].limits :: ref in LimitationIds(ls))
  }

  lemma {:induction false} LimitationIdIn(ls: seq<Limitation>, id: string)
    ensures id in LimitationIds(ls) <==> exists l :: l in ls && l.id == id
  {
    if l :| l in ls && l.id == id {
      var k :| 0 <= k < |ls| && ls[k] == l;
      assert LimitationIds(ls)[k] == id;
    }
  }

  lemma {:induction false} MutualExactly(item: Item)
    ensures NamedBothWays(Bindings(item.projection), item.limitations) <==> Mutual(item)
  {
    var bs, ls := Bindings(item.projection), item.limitations;
    forall f
      ensures IsField(item, f) <==> f in bs
    {
      FieldsAreBindings(item, f);
    }
    forall id
      ensures id in LimitationIds(ls) <==> exists l :: l in ls && l.id == id
    {
      LimitationIdIn(ls, id);
    }
    assert forall f | f in bs :: exists i :: 0 <= i < |bs| && bs[i] == f;
    assert forall l | l in ls :: exists k :: 0 <= k < |ls| && ls[k] == l;
  }

  lemma {:induction false} StatusExactly(item: Item)
    requires ProjectionOk(item.projection)
    ensures item.status == StatusOf(Bindings(item.projection)) <==>
            (item.status == Ready <==> AllFields(item, Executable)) && (item.status == Unavailable <==> AllFields(item, Limited))
  {
    StatusSaysTheFields(item);
    SomeFieldThere(item);
    var f :| IsField(item, f);
    assert !(AllFields(item, Executable) && AllFields(item, Limited));
  }

  lemma {:induction false} IdsDiffer(supports: seq<Support>, limitations: seq<Limitation>)
    ensures Distinct(SupportIds(supports)) <==> forall i, j | 0 <= i < j < |supports| :: supports[i].id != supports[j].id
    ensures Distinct(LimitationIds(limitations)) <==> forall i, j | 0 <= i < j < |limitations| :: limitations[i].id != limitations[j].id
  {
  }

  /** The two validators of an item together accept exactly the fine items. */
  lemma {:induction false} ItemExactly(families: map<string, string>, item: Item)
    ensures ItemValid(families, item) <==> ItemFine(families, item)
  {
    ProjectionExactly(item.projection);
    if ProjectionOk(item.projection) {
      CoverageExactly(item, item.coverage);
      StatusExactly(item);
      MutualExactly(item);
      IdsDiffer(item.supports, item.limitations);
      SupportsExactly(item);
      LimitationsExactly(families, item);
      ItemParts(families, item);
    }
  }

  lemma {:induction false} SupportsExactly(item: Item)
    ensures (forall i | 0 <= i < |item.supports| :: SupportOk(item.supports[i]))
            && (forall i | 0 <= i < |item.supports| :: SupportFits(Bindings(item.projection), item.projection.mode, item.supports[i]))
            <==> forall i | 0 <= i < |item.supports| :: SupportFine(item, item.supports[i])
  {
    forall i | 0 <= i < |item.supports| {
      SupportExactly(item, item.supports[i]);
    }
  }

  lemma {:induction false} LimitationsExactly(families: map<string, string>, item: Item)
    ensures (forall k | 0 <= k < |item.limitations| :: LimitationOk(families, item.limitations[k]))
            && (forall k | 0 <= k < |item.limitations| ::
                  ModeFits(item.projection.mode, item.limitations[k].fieldRefs, item.limitations[k].targetRefs))
            && (forall k | 0 <= k < |item.limitations| :: RefsLive(Bindings(item.projection), item.limitations[k]))
            <==> forall k | 0 <= k < |item.limitations| :: LimitationFine(families, item, item.limitations[k])
  {
    forall k | 0 <= k < |item.limitations| {
      LimitationExactly(families, item, item.limitations[k]);
    }
  }

  /** The parts of validity, side by side. */
  lemma {:induction false} ItemParts(families: map<string, string>, item: Item)
    ensures var bs, c, ls := Bindings(item.projection), item.coverage, item.limitations;
            ItemValid(families, item) <==>
            && ProjectionOk(item.projection)
            && (CoverageOk(c) && Elements(c.required) == Elements(BindingIds(bs)) && Elements(c.executable) == RootCovered(bs)
                && Elements(c.limited) == LimitCovered(bs))
            && item.status == StatusOf(bs) && Distinct(SupportIds(item.supports)) && Distinct(LimitationIds(ls))
            && (forall i | 0 <= i < |item.supports| :: SupportOk(item.supports[i]))
            && (forall i | 0 <= i < |item.supports| :: SupportFits(bs, item.projection.mode, item.supports[i]))
            && (forall k | 0 <= k < |ls| :: LimitationOk(families, ls[k]))
            && (forall k | 0 <= k < |ls| :: ModeFits(item.projection.mode, ls[k].fieldRefs, ls[k].targetRefs))
            && (forall k | 0 <= k < |ls| :: RefsLive(bs, ls[k]))
            && NamedBothWays(bs, ls)
  {
  }

  /* ---- Whole contracts ---- */

  /** A group picks different items, in their order. */
  ghost predicate Picks(ids: seq<string>, members: seq<string>, positions: seq<nat>) {
    && |positions| == |members| && (forall a, b | 0 <= a < b < |positions| :: positions[a] < positions[b])
    && forall a | 0 <= a < |members| :: positions[a] < |ids| && ids[positions[a]] == members[a]
  }

  ghost predicate PicksInOrder(ids: seq<string>, members: seq<string>) {
    exists positions :: Picks(ids, members, positions)
  }

  lemma {:induction false} PositionIs(ids: seq<string>, i: nat)
    requires Distinct(ids) && i < |ids|
    ensures PositionOf(ids, ids[i]) == i
  {
    PositionUnique(ids, i);
  }

  lemma {:induction false} PicksExactly(ids: seq<string>, g: Group)
    requires Distinct(ids) && GroupOk(g)
    ensures SelectsInOrder(ids, g) <==> PicksInOrder(ids, g.itemIds)
  {
    var members := g.itemIds;
    SelectionByPosition(ids, g);
    if Known(ids, members) && InOrder(ids, members) {
      var positions := seq(|members|, a requires 0 <= a < |members| => PositionOf(ids, members[a]));
      forall a, b | 0 <= a < b < |members|
        ensures positions[a] < positions[b]
      {
        assert members[a] in ids && members[b] in ids;
        assert ids[positions[a]] == members[a] && ids[positions[b]] == members[b];
      }
      assert Picks(ids, members, positions);
    }
    if positions :| Picks(ids, members, positions) {
      forall a | 0 <= a < |members|
        ensures members[a] in ids && PositionOf(ids, members[a]) == positions[a]
      {
        PositionIs(ids, positions[a]);
      }
    }
  }

  ghost predicate PremiseFine(items: seq<Item>, p: Premise) {
    && p.rawText != "" && p.itemIds != [] && Distinct(p.itemIds)
    && Distinct(p.roots + p.planRoots + p.tasks) && p.roots + p.planRoots + p.tasks != []
    && forall id | id in p.itemIds :: exists i :: 0 <= i < |items| && items[i].id == id
  }

  lemma {:induction false} ItemIdIn(items: seq<Item>, id: string)
    ensures id in ItemIds(items) <==> exists i :: 0 <= i < |items| && items[i].id == id
  {
    if i :| 0 <= i < |items| && items[i].id == id {
      assert ItemIds(items)[i] == id;
    }
  }

  lemma {:induction false} ThreeParts(a: seq<string>, b: seq<string>, c: seq<string>)
    ensures Distinct(a + b + c) <==> && Distinct(a) && Distinct(b) && Distinct(c) && Elements(a) !! Elements(b)
                                     && Elements(a) !! Elements(c) && Elements(b) !! Elements(c)
  {
    DistinctParts(a + b, c);
    DistinctParts(a, b);
    assert forall x :: x in a + b <==> x in a || x in b;
    Apart(a, b);
    Apart(a, c);
    Apart(b, c);
  }

  lemma {:induction false} Apart(a: seq<string>, b: seq<string>)
    ensures Elements(a) !! Elements(b) <==> forall x | x in a :: x !in b
  {
    assert forall x :: x in a <==> x in Elements(a);
    assert forall x :: x in b <==> x in Elements(b);
  }

  lemma {:induction false} PremiseExactly(items: seq<Item>, p: Premise)
    ensures PremiseOk(p) && Known(ItemIds(items), p.itemIds) <==> PremiseFine(items, p)
  {
    ThreeParts(p.roots, p.planRoots, p.tasks);
    assert p.roots + p.planRoots + p.tasks != [] <==> p.roots != [] || p.tasks != [] || p.planRoots != [];
    KnownItems(items, p.itemIds);
  }

  lemma {:induction false} KnownItems(items: seq<Item>, ids: seq<string>)
    ensures Known(ItemIds(items), ids) <==> forall id | id in ids :: exists i :: 0 <= i < |items| && items[i].id == id
  {
    forall a | 0 <= a < |ids|
      ensures ids[a] in ItemIds(items) <==> exists i :: 0 <= i < |items| && items[i].id == ids[a]
    {
      ItemIdIn(items, ids[a]);
    }
    assert forall a | 0 <= a < |ids| :: ids[a] in ids;
    assert forall id | id in ids :: exists a :: 0 <= a < |ids| && ids[a] == id;
  }

  /** The groups pick items in order, none twice, and no item is in two groups. */
  ghost predicate GroupsFine(ids: seq<string>, groups: seq<Group>) {
    && (forall g | 0 <= g < |groups| :: groups[g].itemIds != [] && PicksInOrder(ids, groups[g].itemIds))
    && (forall g, h | 0 <= g < h < |groups| :: groups[g].id != groups[h].id)
    && forall g, h, id | 0 <= g < h < |groups| && id in groups[g].itemIds :: id !in groups[h].itemIds
  }

  lemma {:induction false} PickedOnce(ids: seq<string>, members: seq<string>)
    requires Distinct(ids) && PicksInOrder(ids, members)
    ensures Distinct(members)
  {
    var positions :| Picks(ids, members, positions);
  }

  lemma {:induction false} GroupsExactly(ids: seq<string>, groups: seq<Group>)
    requires Distinct(ids)
    ensures GroupsValid(ids, groups) <==> GroupsFine(ids, groups)
  {
    forall g | 0 <= g < |groups|
      ensures GroupOk(groups[g]) && SelectsInOrder(ids, groups[g]) <==> groups[g].itemIds != [] && PicksInOrder(ids, groups[g].itemIds)
    {
      GroupExactly(ids, groups[g]);
    }
    forall g, h | 0 <= g < h < |groups|
      ensures Elements(groups[g].itemIds) !! Elements(groups[h].itemIds) <==> forall x | x in groups[g].itemIds :: x !in groups[h].itemIds
    {
      Apart(groups[g].itemIds, groups[h].itemIds);
    }
    assert Distinct(GroupIds(groups)) <==> forall g, h | 0 <= g < h < |groups| :: groups[g].id != groups[h].id by {
      assert forall g | 0 <= g < |groups| :: GroupIds(groups)[g] == groups[g].id;
    }
  }

  lemma {:induction false} GroupExactly(ids: seq<string>, g: Group)
    requires Distinct(ids)
    ensures GroupOk(g) && SelectsInOrder(ids, g) <==> g.itemIds != [] && PicksInOrder(ids, g.itemIds)
  {
    if GroupOk(g) {
      PicksExactly(ids, g);
    } else if PicksInOrder(ids, g.itemIds) {
      PickedOnce(ids, g.itemIds);
    }
  }

  ghost predicate ItemsFine(families: map<string, string>, items: seq<Item>) {
    forall i {:trigger ItemFine(families, items[i])} | 0 <= i < |items| :: ItemFine(families, items[i])
  }

  ghost predicate ItemsValid(families: map<string, string>, items: seq<Item>) {
    forall i {:trigger ItemValid(families, items[i])} | 0 <= i < |items| :: ItemValid(families, items[i])
  }

  ghost predicate PremisesFine(items: seq<Item>, premises: seq<Premise>) {
    forall k {:trigger PremiseFine(items, premises[k])} | 0 <= k < |premises| :: PremiseFine(items, premises[k])
  }

  ghost predicate PremisesValid(items: seq<Item>, premises: seq<Premise>) {
    && (forall k {:trigger PremiseOk(premises[k])} | 0 <= k < |premises| :: PremiseOk(premises[k]))
    && forall k {:trigger Known(ItemIds(items), premises[k].itemIds)} | 0 <= k < |premises| :: Known(ItemIds(items), premises[k].itemIds)
  }

  ghost predicate GroupsValid(ids: seq<string>, groups: seq<Group>) {
    && (forall g {:trigger GroupOk(groups[g])} | 0 <= g < |groups| :: GroupOk(groups[g]))
    && Distinct(GroupIds(groups)) && GroupsDeclared(ids, groups)
  }

  /** A body, written out: fine items, groups and premises with different ids, no id of a field, support or limitation used
      twice anywhere, some field with roots, and complete exactly when every field is executable. */
  ghost predicate BodyFine(families: map<string, string>, body: Body) {
    && body.items != [] && ItemsFine(families, body.items)
    && (forall i, j | 0 <= i < j < |body.items| :: body.items[i].id != body.items[j].id)
    && GroupsFine(ItemIds(body.items), body.groups)
    && (forall i, j | 0 <= i < j < |body.premises| :: body.premises[i].id != body.premises[j].id)
    && PremisesFine(body.items, body.premises)
    && Distinct(AllOf(body.items, ProjectionIdsOf) + AllOf(body.items, SupportIdsOf) + AllOf(body.items, LimitationIdsOf))
    && (exists i :: 0 <= i < |body.items| && (SomeField(body.items[i], Executable) || SomeField(body.items[i], Qualified)))
    && (body.completion == Complete <==> forall i | 0 <= i < |body.items| :: AllFields(body.items[i], Executable))
  }

  lemma {:induction false} BodyIdsDiffer(body: Body)
    ensures Distinct(ItemIds(body.items)) <==> forall i, j | 0 <= i < j < |body.items| :: body.items[i].id != body.items[j].id
    ensures Distinct(PremiseIds(body.premises)) <==>
            forall i, j | 0 <= i < j < |body.premises| :: body.premises[i].id != body.premises[j].id
  {
    assert forall i | 0 <= i < |body.items| :: ItemIds(body.items)[i] == body.items[i].id;
    assert forall i | 0 <= i < |body.premises| :: PremiseIds(body.premises)[i] == body.premises[i].id;
  }

  lemma {:induction false} NamespacesExactly(items: seq<Item>)
    ensures NamespacesDeclared(items) <==>
            Distinct(AllOf(items, ProjectionIdsOf) + AllOf(items, SupportIdsOf) + AllOf(items, LimitationIdsOf))
  {
    ThreeParts(AllOf(items, ProjectionIdsOf), AllOf(items, SupportIdsOf), AllOf(items, LimitationIdsOf));
  }

  lemma {:induction false} CompletionExactly(items: seq<Item>, completion: Completion)
    ensures completion == CompletionOf(items) <==> (completion == Complete <==> forall i | 0 <= i < |items| :: AllFields(items[i], Executable))
    ensures AnyExecutable(items) <==> exists i :: 0 <= i < |items| && (SomeField(items[i], Executable) || SomeField(items[i], Qualified))
  {
    LimitedSomewhere(items);
    forall i | 0 <= i < |items|
      ensures AllFields(items[i], Executable) <==> !(SomeField(items[i], Qualified) || SomeField(items[i], Limited))
    {
    }
  }

  lemma {:induction false} ItemsExactly(families: map<string, string>, items: seq<Item>)
    ensures ItemsValid(families, items) <==> ItemsFine(families, items)
  {
    forall i | 0 <= i < |items|
      ensures ItemValid(families, items[i]) <==> ItemFine(families, items[i])
    {
      ItemExactly(families, items[i]);
    }
  }

  lemma {:induction false} PremisesExactly(items: seq<Item>, premises: seq<Premise>)
    ensures PremisesValid(items, premises) <==> PremisesFine(items, premises)
  {
    forall k | 0 <= k < |premises|
      ensures PremiseOk(premises[k]) && Known(ItemIds(items), premises[k].itemIds) <==> PremiseFine(items, premises[k])
    {
      PremiseExactly(items, premises[k]);
    }
  }

  lemma {:induction false} BodyExactly(families: map<string, string>, body: Body)
    ensures RecordsValid(families, body) && BodyDeclared(body) <==> BodyFine(families, body)
  {
    BodyIdsDiffer(body);
    NamespacesExactly(body.items);
    CompletionExactly(body.items, body.completion);
    ItemsExactly(families, body.items);
    PremisesExactly(body.items, body.premises);
    if Distinct(ItemIds(body.items)) {
      GroupsExactly(ItemIds(body.items), body.groups);
    }
    BodyParts(families, body);
  }

  lemma {:induction false} BodyParts(families: map<string, string>, body: Body)
    ensures RecordsValid(families, body) && BodyDeclared(body) <==>
            && body.items != [] && ItemsValid(families, body.items)
            && Distinct(ItemIds(body.items)) && Distinct(PremiseIds(body.premises)) && NamespacesDeclared(body.items)
            && GroupsValid(ItemIds(body.items), body.groups) && PremisesValid(body.items, body.premises)
            && AnyExecutable(body.items) && body.completion == CompletionOf(body.items)
  {
  }

  /** The contracts that may be handed over are those with a fine body under its own digest. */
  lemma {:induction false} ContractExactly(families: map<string, string>, digest: Digest, c: Contract)
    ensures ContractValid(families, digest, c) <==> BodyFine(families, c.body) && c.digest == digest(c.body)
  {
    BodyExactly(families, c.body);
  }

  /* ---- Building ---- */

  /** Item `i` is what the question's item `i` asked for, and its proof pairs surface and field one by one. */
  ghost predicate AnswersAt(order: Order, i: nat)
    requires i < |order.items| && i < |order.intent.items|
  {
    var item, source := order.items[i], order.intent.items[i];
    && item.id == source.id && item.projection.shape == source.shape
    && item.projection.presentation == source.presentation && item.projection.mode == source.mode
    && item.id in order.proofs
    && var fields, proof := item.projection.fields, order.proofs[item.id];
       && |source.surfaces| == |fields| == |proof|
       && (forall k | 0 <= k < |proof| :: proof[k] == SurfaceBinding(source.surfaces[k], fields[k].id))
       && (forall j, k | 0 <= j < k < |proof| :: source.surfaces[j] != source.surfaces[k] && fields[j].id != fields[k].id)
       && (source.mode == WholeTarget ==>
             fields == [] && item.projection.target.Some? && item.projection.target.value.id == "whole-target-" + Dec(i + 1))
  }

  /** Premise `k` is the question's premise `k`. */
  ghost predicate PremiseAsked(p: Premise, source: SourcePremise) {
    p.id == source.id && p.kind == source.kind && p.rawText == source.rawText && p.itemIds == source.itemIds
  }

  ghost predicate AllIn(refs: seq<string>, live: seq<string>) {
    forall ref | ref in refs :: ref in live
  }

  /** Every root and task that is referred to is one the plan has. */
  ghost predicate ReferencesLive(live: Live, items: seq<Item>, premises: seq<Premise>) {
    && Distinct(live.roots + live.planRoots + live.tasks) && "" !in live.roots + live.planRoots + live.tasks
    && (forall i, f | 0 <= i < |items| && IsField(items[i], f) ::
          AllIn(f.roots, live.roots) && (f.gate.Some? ==> f.gate.value.rootRef in live.roots))
    && (forall i, s | 0 <= i < |items| && s in items[i].supports :: AllIn(s.roots, live.roots) && AllIn(s.planRoots, live.planRoots))
    && forall p | p in premises :: AllIn(p.roots, live.roots) && AllIn(p.planRoots, live.planRoots) && AllIn(p.tasks, live.tasks)
  }

  /** `body` is what this order is built to: its own parts, fine, from live references, answering its question part by part. */
  ghost predicate BuiltTo(families: map<string, string>, intentDigest: IntentDigest, order: Order, body: Body) {
    var intent := order.intent;
    && body.sourceDigest == order.sourceDigest == intentDigest(intent) && body.planDigest == order.planDigest
    && body.items == order.items && body.groups == order.groups == intent.groups && body.premises == order.premises
    && body.presentation == order.presentation == intent.presentation
    && BodyFine(families, body)
    && ReferencesLive(order.live, order.items, order.premises)
    && |order.items| == |intent.items| && (forall i | 0 <= i < |order.items| :: AnswersAt(order, i))
    && (forall id :: id in order.proofs <==> exists i :: 0 <= i < |order.items| && order.items[i].id == id)
    && |order.premises| == |intent.premises|
    && forall k | 0 <= k < |order.premises| :: PremiseAsked(order.premises[k], intent.premises[k])
  }

  lemma {:induction false} KnownMeans(live: seq<string>, refs: seq<string>)
    ensures Known(live, refs) <==> AllIn(refs, live)
  {
    assert forall a | 0 <= a < |refs| :: refs[a] in refs;
    assert forall ref | ref in refs :: exists a :: 0 <= a < |refs| && refs[a] == ref;
  }

  lemma {:induction false} FieldLiveExactly(live: Live, f: Field)
    ensures FieldLive(live, f) <==> AllIn(f.roots, live.roots) && (f.gate.Some? ==> f.gate.value.rootRef in live.roots)
  {
    KnownMeans(live.roots, f.roots);
  }

  lemma {:induction false} ItemLiveExactly(live: Live, item: Item)
    ensures ItemLive(live, item) <==>
            && (forall f | IsField(item, f) :: AllIn(f.roots, live.roots) && (f.gate.Some? ==> f.gate.value.rootRef in live.roots))
            && (forall s | s in item.supports :: AllIn(s.roots, live.roots) && AllIn(s.planRoots, live.planRoots))
  {
    var bs := Bindings(item.projection);
    forall f
      ensures IsField(item, f) <==> f in bs
      ensures FieldLive(live, f) <==> AllIn(f.roots, live.roots) && (f.gate.Some? ==> f.gate.value.rootRef in live.roots)
    {
      FieldsAreBindings(item, f);
      FieldLiveExactly(live, f);
    }
    forall s: Support
      ensures SupportLive(live, s) <==> AllIn(s.roots, live.roots) && AllIn(s.planRoots, live.planRoots)
    {
      KnownMeans(live.roots, s.roots);
      KnownMeans(live.planRoots, s.planRoots);
    }
    assert forall f | f in bs :: exists k :: 0 <= k < |bs| && bs[k] == f;
    assert forall s | s in item.supports :: exists k :: 0 <= k < |item.supports| && item.supports[k] == s;
  }

  lemma {:induction false} PremiseLiveExactly(live: Live, p: Premise)
    ensures PremiseLive(live, p) <==> AllIn(p.roots, live.roots) && AllIn(p.planRoots, live.planRoots) && AllIn(p.tasks, live.tasks)
  {
    KnownMeans(live.roots, p.roots);
    KnownMeans(live.planRoots, p.planRoots);
    KnownMeans(live.tasks, p.tasks);
  }

  lemma {:induction false} LiveExactly(live: Live, body: Body)
    ensures BindingsLive(live, body) <==> ReferencesLive(live, body.items, body.premises)
  {
    ThreeParts(live.roots, live.planRoots, live.tasks);
    forall i | 0 <= i < |body.items| {
      ItemLiveExactly(live, body.items[i]);
    }
    forall k | 0 <= k < |body.premises| {
      PremiseLiveExactly(live, body.premises[k]);
    }
    assert forall p | p in body.premises :: exists k :: 0 <= k < |body.premises| && body.premises[k] == p;
  }

  lemma {:induction false} ProofExactly(item: Item, source: SourceItem, proof: seq<SurfaceBinding>)
    ensures ProofFits(item, source, proof) <==>
            var fields := item.projection.fields;
            && |source.surfaces| == |fields| == |proof|
            && (forall k | 0 <= k < |proof| :: proof[k] == SurfaceBinding(source.surfaces[k], fields[k].id))
            && (forall j, k | 0 <= j < k < |proof| :: source.surfaces[j] != source.surfaces[k] && fields[j].id != fields[k].id)
  {
    var fields, surfaces, ids := item.projection.fields, Surfaces(proof), ProofIds(proof);
    if ProofFits(item, source, proof) {
      assert |surfaces| == |source.surfaces| && |ids| == |BindingIds(fields)|;
      forall k | 0 <= k < |proof|
        ensures proof[k] == SurfaceBinding(source.surfaces[k], fields[k].id)
      {
        assert surfaces[k] == source.surfaces[k] && ids[k] == BindingIds(fields)[k];
      }
      forall j, k | 0 <= j < k < |proof|
        ensures source.surfaces[j] != source.surfaces[k] && fields[j].id != fields[k].id
      {
        assert surfaces[j] != surfaces[k] && ids[j] != ids[k];
      }
    }
    if |source.surfaces| == |fields| == |proof| && forall k | 0 <= k < |proof| :: proof[k] == SurfaceBinding(source.surfaces[k], fields[k].id) {
      assert surfaces == source.surfaces && ids == BindingIds(fields);
    }
  }

  /** One item of a valid contract answers its question and is proved exactly when `AnswersAt` says so. */
  lemma {:induction false} AnswerExactly(order: Order, i: nat)
    requires i < |order.items| && i < |order.intent.items| && ProjectionOk(order.items[i].projection)
    ensures var item, source := order.items[i], order.intent.items[i];
            (&& item.id == source.id && ItemAnswers(item, source, i + 1) && item.id in order.proofs
             && ProofFits(item, source, order.proofs[item.id])) <==> AnswersAt(order, i)
  {
    var item, source := order.items[i], order.intent.items[i];
    if item.id in order.proofs {
      ProofExactly(item, source, order.proofs[item.id]);
    }
    assert TargetId(i + 1) == "whole-target-" + Dec(i + 1);
  }

  ghost predicate AllAnswerAt(order: Order) {
    |order.items| == |order.intent.items| && forall i {:trigger AnswersAt(order, i)} | 0 <= i < |order.items| :: AnswersAt(order, i)
  }

  ghost predicate ProofKeys(order: Order) {
    forall id :: id in order.proofs <==> exists i :: 0 <= i < |order.items| && order.items[i].id == id
  }

  lemma {:induction false} ProofKeysExactly(order: Order)
    ensures order.proofs.Keys == Elements(ItemIds(order.items)) <==> ProofKeys(order)
  {
    forall id
      ensures id in Elements(ItemIds(order.items)) <==> exists i :: 0 <= i < |order.items| && order.items[i].id == id
    {
      ItemIdIn(order.items, id);
    }
    assert forall id :: id in order.proofs <==> id in order.proofs.Keys;
  }

  lemma {:induction false} SameIds(items: seq<Item>, sources: seq<SourceItem>)
    ensures ItemIds(items) == SourceIds(sources) <==> |items| == |sources| && forall i | 0 <= i < |items| :: items[i].id == sources[i].id
  {
    assert forall i | 0 <= i < |items| :: ItemIds(items)[i] == items[i].id;
    assert forall i | 0 <= i < |sources| :: SourceIds(sources)[i] == sources[i].id;
    assert ItemIds(items) == SourceIds(sources) ==> |ItemIds(items)| == |SourceIds(sources)|;
  }

  ghost predicate PremisesAsked(premises: seq<Premise>, sources: seq<SourcePremise>) {
    |premises| == |sources| && forall k | 0 <= k < |premises| :: PremiseAsked(premises[k], sources[k])
  }

  lemma {:induction false} SamePremises(premises: seq<Premise>, sources: seq<SourcePremise>)
    ensures AsSource(premises) == sources <==> PremisesAsked(premises, sources)
  {
    var all := AsSource(premises);
    assert |all| == |premises|;
    assert forall k | 0 <= k < |premises| ::
      all[k] == SourcePremise(premises[k].id, premises[k].kind, premises[k].rawText, premises[k].itemIds);
    if |premises| == |sources| {
      forall k | 0 <= k < |premises|
        ensures all[k] == sources[k] <==> PremiseAsked(premises[k], sources[k])
      {
      }
    }
  }

  /** Items of a body with fine projections answer the intent and are proved exactly when all answer at their places. */
  lemma {:induction false} AnswersExactly(order: Order)
    requires forall i | 0 <= i < |order.items| :: ProjectionOk(order.items[i].projection)
    ensures && ItemIds(order.items) == SourceIds(order.intent.items)
            && (|order.items| == |order.intent.items| ==>
                  forall i | 0 <= i < |order.items| :: ItemAnswers(order.items[i], order.intent.items[i], i + 1))
            && Proved(order)
            <==> AllAnswerAt(order) && ProofKeys(order)
  {
    SameIds(order.items, order.intent.items);
    ProofKeysExactly(order);
    if |order.items| == |order.intent.items| {
      forall i | 0 <= i < |order.items| {
        AnswerExactly(order, i);
      }
    }
  }

  lemma {:induction false} ValidProjections(families: map<string, string>, items: seq<Item>)
    requires ItemsValid(families, items)
    ensures forall i | 0 <= i < |items| :: ProjectionOk(items[i].projection)
  {
    assert forall i | 0 <= i < |items| :: ItemValid(families, items[i]);
  }

  lemma {:induction false} IntentExactly(intentDigest: IntentDigest, order: Order)
    ensures AnswersIntent(intentDigest, BodyOf(order), order.intent) <==>
            && order.sourceDigest == intentDigest(order.intent) && order.presentation == order.intent.presentation
            && ItemIds(order.items) == SourceIds(order.intent.items)
            && (|order.items| == |order.intent.items| ==>
                  forall i | 0 <= i < |order.items| :: ItemAnswers(order.items[i], order.intent.items[i], i + 1))
            && order.groups == order.intent.groups && PremisesAsked(order.premises, order.intent.premises)
  {
    SameIds(order.items, order.intent.items);
    SamePremises(order.premises, order.intent.premises);
  }

  /** The builder hands over a contract exactly for orders that some body is built to, and that body is the contract's. */
  lemma {:induction false} BuildExactly(families: map<string, string>, intentDigest: IntentDigest, order: Order, body: Body)
    ensures BuiltTo(families, intentDigest, order, body) <==> Buildable(families, intentDigest, order) && body == BodyOf(order)
  {
    var own := BodyOf(order);
    BodyExactly(families, own);
    BodyExactly(families, body);
    LiveExactly(order.live, own);
    IntentExactly(intentDigest, order);
    ItemsExactly(families, order.items);
    if ItemsValid(families, order.items) {
      ValidProjections(families, order.items);
      AnswersExactly(order);
    }
    CompletionExactly(order.items, body.completion);
    CompletionExactly(order.items, own.completion);
    BuildParts(families, intentDigest, order, body);
  }

  lemma {:induction false} BuildParts(families: map<string, string>, intentDigest: IntentDigest, order: Order, body: Body)
    ensures BuiltTo(families, intentDigest, order, body) <==>
            && body.sourceDigest == order.sourceDigest == intentDigest(order.intent) && body.planDigest == order.planDigest
            && body.items == order.items && body.groups == order.groups == order.intent.groups && body.premises == order.premises
            && body.presentation == order.presentation == order.intent.presentation
            && BodyFine(families, body) && ReferencesLive(order.live, order.items, order.premises)
            && AllAnswerAt(order) && ProofKeys(order) && PremisesAsked(order.premises, order.intent.premises)
  {
  }
}
