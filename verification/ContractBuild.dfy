/** The answer contract and its builder. */
module ContractBuild {
  import opened Wrappers
  import opened Decimals
  import opened PlanValidity
  import opened AnswerContract

  datatype Group = Group(id: string, itemIds: seq<string>)

  datatype Premise = Premise(id: string, kind: string, rawText: string, itemIds: seq<string>,
                             roots: seq<string>, tasks: seq<string>, planRoots: seq<string>)

  datatype Completion = Complete | PartlyComplete

  /** Everything the digest covers. */
  datatype Body = Body(sourceDigest: string, completion: Completion, items: seq<Item>, groups: seq<Group>,
                       premises: seq<Premise>, presentation: string, planDigest: string)

  datatype Contract = Contract(body: Body, digest: string)

  type Digest = Body -> string

  /* ---- Views ---- */

  function ItemIds(items: seq<Item>): (r: seq<string>)
    ensures |r| == |items| && forall i | 0 <= i < |items| :: r[i] == items[i].id
  {
    seq(|items|, i requires 0 <= i < |items| => items[i].id)
  }

  function GroupIds(groups: seq<Group>): seq<string> {
    seq(|groups|, i requires 0 <= i < |groups| => groups[i].id)
  }

  function PremiseIds(premises: seq<Premise>): seq<string> {
    seq(|premises|, i requires 0 <= i < |premises| => premises[i].id)
  }

  function ProjectionIdsOf(item: Item): seq<string> {
    BindingIds(Bindings(item.projection))
  }

  function SupportIdsOf(item: Item): seq<string> {
    SupportIds(item.supports)
  }

  function LimitationIdsOf(item: Item): seq<string> {
    LimitationIds(item.limitations)
  }

  function AllOf(items: seq<Item>, ids: Item -> seq<string>): seq<string> {
    Gather(items, ids, |items|)
  }

  predicate AnyExecutable(items: seq<Item>) {
    exists i | 0 <= i < |items| :: RootCovered(Bindings(items[i].projection)) != {}
  }

  predicate AnyLimited(items: seq<Item>) {
    exists i | 0 <= i < |items| :: LimitCovered(Bindings(items[i].projection)) != {}
  }

  function CompletionOf(items: seq<Item>): Completion {
    if AnyLimited(items) then PartlyComplete else Complete
  }

  /* ---- Records of the contract ---- */

  predicate GroupOk(g: Group) {
    g.itemIds != [] && Distinct(g.itemIds)
  }

  ghost predicate PremiseOk(p: Premise) {
    && p.rawText != "" && p.itemIds != [] && Distinct(p.itemIds)
    && Distinct(p.roots) && Distinct(p.tasks) && Distinct(p.planRoots)
    && (p.roots != [] || p.tasks != [] || p.planRoots != [])
    && Elements(p.roots) !! Elements(p.planRoots) && Elements(p.roots) !! Elements(p.tasks)
    && Elements(p.planRoots) !! Elements(p.tasks)
  }

  method CheckPremise(p: Premise) returns (ok: bool)
    ensures ok <==> PremiseOk(p)
  {
    var disjoint := NamespacesDisjoint(Elements(p.roots), Elements(p.planRoots), Elements(p.tasks));
    ok := disjoint && p.rawText != "" && p.itemIds != [] && Distinct(p.itemIds)
          && Distinct(p.roots) && Distinct(p.tasks) && Distinct(p.planRoots)
          && (p.roots != [] || p.tasks != [] || p.planRoots != []);
  }

  /* ---- Groups ---- */

  /** A group is a selection of the items that keeps their order. */
  predicate SelectsInOrder(ids: seq<string>, g: Group) {
    g.itemIds == Filter((id: string) => id in g.itemIds, ids)
  }

  ghost predicate GroupsDeclared(ids: seq<string>, groups: seq<Group>) {
    && (forall g | 0 <= g < |groups| :: SelectsInOrder(ids, groups[g]))
    && (forall g, h | 0 <= g < h < |groups| :: Elements(groups[g].itemIds) !! Elements(groups[h].itemIds))
  }

  function PositionOf(ids: seq<string>, id: string): (p: nat)
    ensures p <= |ids| && (id in ids <==> p < |ids|)
    ensures p < |ids| ==> ids[p] == id
  {
    if ids == [] || ids[0] == id then 0 else 1 + PositionOf(ids[1..], id)
  }

  predicate InOrder(ids: seq<string>, members: seq<string>) {
    forall a, b | 0 <= a < b < |members| :: PositionOf(ids, members[a]) <= PositionOf(ids, members[b])
  }

  predicate Known(ids: seq<string>, members: seq<string>) {
    forall a | 0 <= a < |members| :: members[a] in ids
  }

  method CheckGroups(ids: seq<string>, groups: seq<Group>) returns (ok: bool)
    requires Distinct(ids) && forall g | 0 <= g < |groups| :: GroupOk(groups[g])
    ensures ok <==> GroupsDeclared(ids, groups)
  {
    var grouped: set<string> := {};
    for n := 0 to |groups|
      invariant grouped == GroupedBefore(groups, n)
      invariant forall g | 0 <= g < n :: SelectsInOrder(ids, groups[g])
      invariant forall g, h | 0 <= g < h < n :: Elements(groups[g].itemIds) !! Elements(groups[h].itemIds)
    {
      var members := groups[n].itemIds;
      SelectionByPosition(ids, groups[n]);
      if !Known(ids, members) || !InOrder(ids, members) {
        return false;
      }
      GroupedMeans(groups, n, Elements(members));
      if grouped * Elements(members) != {} {
        return false;
      }
      grouped := grouped + Elements(members);
    }
    return true;
  }

  function GroupedBefore(groups: seq<Group>, n: nat): set<string>
    requires n <= |groups|
  {
    if n == 0 then {} else GroupedBefore(groups, n - 1) + Elements(groups[n - 1].itemIds)
  }

  lemma {:induction false} GroupedMeans(groups: seq<Group>, n: nat, s: set<string>)
    requires n <= |groups|
    ensures GroupedBefore(groups, n) * s == {} <==> forall g | 0 <= g < n :: Elements(groups[g].itemIds) !! s
  {
    if n > 0 {
      GroupedMeans(groups, n - 1, s);
      var last := Elements(groups[n - 1].itemIds);
      assert GroupedBefore(groups, n) * s == GroupedBefore(groups, n - 1) * s + last * s;
      DisjointMeans(last, s);
    }
  }

  lemma {:induction false} DisjointMeans(a: set<string>, b: set<string>)
    ensures a * b == {} <==> a !! b
  {
    assert forall x :: x in a * b <==> x in a && x in b;
  }

  /** A filtered list of distinct ids has only its own ids, in order. */
  lemma {:induction false} FilteredInOrder(keep: string -> bool, ids: seq<string>)
    requires Distinct(ids)
    ensures Known(ids, Filter(keep, ids)) && InOrder(ids, Filter(keep, ids))
  {
    if ids != [] {
      FilteredInOrder(keep, ids[1..]);
      OneEarlier(ids, Filter(keep, ids[1..]));
    }
  }

  lemma {:induction false} OneEarlier(ids: seq<string>, kept: seq<string>)
    requires ids != [] && Distinct(ids) && Known(ids[1..], kept) && InOrder(ids[1..], kept)
    ensures Known(ids, kept) && InOrder(ids, kept)
    ensures Known(ids, [ids[0]] + kept) && InOrder(ids, [ids[0]] + kept)
  {
    forall a | 0 <= a < |kept|
      ensures kept[a] in ids && PositionOf(ids, kept[a]) == 1 + PositionOf(ids[1..], kept[a])
    {
      assert kept[a] in ids[1..];
    }
  }

  /** Distinct ids in increasing position are exactly what filtering by membership selects. */
  lemma {:induction false} InOrderIsFiltered(ids: seq<string>, members: seq<string>)
    requires Distinct(ids) && Distinct(members) && Known(ids, members) && InOrder(ids, members)
    ensures members == Filter((id: string) => id in members, ids)
    decreases ids
  {
    if ids != [] {
      var first, rest := ids[0], ids[1..];
      if first in members {
        var a :| 0 <= a < |members| && members[a] == first;
        assert PositionOf(ids, members[0]) <= PositionOf(ids, members[a]) == 0;
        var others := members[1..];
        assert members == [first] + others;
        LaterStay(ids, others);
        InOrderIsFiltered(rest, others);
        FilterSame((id: string) => id in members, (id: string) => id in others, rest);
      } else {
        LaterStay(ids, members);
        InOrderIsFiltered(rest, members);
      }
    }
  }

  lemma {:induction false} LaterStay(ids: seq<string>, members: seq<string>)
    requires ids != [] && Known(ids, members) && InOrder(ids, members) && ids[0] !in members
    ensures Known(ids[1..], members) && InOrder(ids[1..], members)
  {
    forall a | 0 <= a < |members|
      ensures members[a] in ids[1..] && PositionOf(ids, members[a]) == 1 + PositionOf(ids[1..], members[a])
    {
      assert members[a] in members;
    }
  }

  lemma {:induction false} SelectionByPosition(ids: seq<string>, g: Group)
    requires Distinct(ids) && GroupOk(g)
    ensures SelectsInOrder(ids, g) <==> Known(ids, g.itemIds) && InOrder(ids, g.itemIds)
  {
    if Known(ids, g.itemIds) && InOrder(ids, g.itemIds) {
      InOrderIsFiltered(ids, g.itemIds);
    }
    FilteredInOrder((id: string) => id in g.itemIds, ids);
  }

  /* ---- The contract validator ---- */

  ghost predicate NamespacesDeclared(items: seq<Item>) {
    var projections, supports, limitations := AllOf(items, ProjectionIdsOf), AllOf(items, SupportIdsOf), AllOf(items, LimitationIdsOf);
    && Distinct(projections) && Distinct(supports) && Distinct(limitations)
    && Elements(projections) !! Elements(supports) && Elements(projections) !! Elements(limitations)
    && Elements(supports) !! Elements(limitations)
  }

  ghost predicate BodyDeclared(body: Body) {
    && Distinct(ItemIds(body.items)) && Distinct(GroupIds(body.groups)) && Distinct(PremiseIds(body.premises))
    && NamespacesDeclared(body.items)
    && GroupsDeclared(ItemIds(body.items), body.groups)
    && (forall k | 0 <= k < |body.premises| :: Known(ItemIds(body.items), body.premises[k].itemIds))
    && AnyExecutable(body.items) && body.completion == CompletionOf(body.items)
  }

  ghost predicate RecordsValid(families: map<string, string>, body: Body) {
    && body.items != []
    && (forall i | 0 <= i < |body.items| :: ItemValid(families, body.items[i]))
    && (forall g | 0 <= g < |body.groups| :: GroupOk(body.groups[g]))
    && (forall k | 0 <= k < |body.premises| :: PremiseOk(body.premises[k]))
  }

  ghost predicate ItemValid(families: map<string, string>, item: Item) {
    RecordsOk(families, item) && ItemDeclared(item)
  }

  /** The contracts that may be handed over. */
  ghost predicate ContractValid(families: map<string, string>, digest: Digest, c: Contract) {
    RecordsValid(families, c.body) && BodyDeclared(c.body) && c.digest == digest(c.body)
  }

  method CheckNamespaces(items: seq<Item>) returns (ok: bool)
    ensures ok <==> NamespacesDeclared(items)
  {
    var projections, supports, limitations := AllOf(items, ProjectionIdsOf), AllOf(items, SupportIdsOf), AllOf(items, LimitationIdsOf);
    if !Distinct(projections) || !Distinct(supports) || !Distinct(limitations) {
      return false;
    }
    ok := NamespacesDisjoint(Elements(projections), Elements(supports), Elements(limitations));
  }

  method CheckBody(body: Body) returns (ok: bool)
    requires forall g | 0 <= g < |body.groups| :: GroupOk(body.groups[g])
    ensures ok <==> BodyDeclared(body)
  {
    var ids := ItemIds(body.items);
    if !Distinct(ids) || !Distinct(GroupIds(body.groups)) || !Distinct(PremiseIds(body.premises)) {
      return false;
    }
    var separate := CheckNamespaces(body.items);
    if !separate {
      return false;
    }
    var grouped := CheckGroups(ids, body.groups);
    if !grouped {
      return false;
    }
    for n := 0 to |body.premises|
      invariant forall k | 0 <= k < n :: Known(ids, body.premises[k].itemIds)
    {
      if !Known(ids, body.premises[n].itemIds) {
        return false;
      }
    }
    ok := AnyExecutable(body.items) && body.completion == CompletionOf(body.items);
  }

  method CheckRecords(families: map<string, string>, body: Body) returns (ok: bool)
    ensures ok <==> RecordsValid(families, body)
  {
    for i := 0 to |body.items|
      invariant forall k | 0 <= k < i :: ItemValid(families, body.items[k])
    {
      if !RecordsOk(families, body.items[i]) {
        return false;
      }
      var failed := ValidateItem(families, body.items[i]);
      if failed.Some? {
        return false;
      }
    }
    if !(forall g | 0 <= g < |body.groups| :: GroupOk(body.groups[g])) {
      return false;
    }
    for k := 0 to |body.premises|
      invariant forall j | 0 <= j < k :: PremiseOk(body.premises[j])
    {
      var fine := CheckPremise(body.premises[k]);
      if !fine {
        return false;
      }
    }
    ok := body.items != [];
  }

  /** Strict validation of a whole contract, digest included. */
  method ValidateContract(families: map<string, string>, digest: Digest, c: Contract) returns (ok: bool)
    ensures ok <==> ContractValid(families, digest, c)
  {
    ok := CheckRecords(families, c.body);
    if ok {
      ok := CheckBody(c.body);
    }
    ok := ok && c.digest == digest(c.body);
  }

  ghost predicate Injective(digest: Digest) {
    forall a, b | digest(a) == digest(b) :: a == b
  }

  /** Changing anything but the digest of a valid contract makes it invalid. */
  lemma {:induction false} ChangesAreDetected(families: map<string, string>, digest: Digest, c: Contract, other: Contract)
    requires Injective(digest) && ContractValid(families, digest, c)
    requires other.digest == c.digest && other.body != c.body
    ensures !ContractValid(families, digest, other)
  {
  }

  /* ---- Live references ---- */

  /** The references of one kind a contract makes, and those the plan offers. */
  datatype Live = Live(roots: seq<string>, planRoots: seq<string>, tasks: seq<string>)

  ghost predicate AuthorityOk(live: Live) {
    && "" !in live.roots && "" !in live.planRoots && "" !in live.tasks
    && Distinct(live.roots) && Distinct(live.planRoots) && Distinct(live.tasks)
    && Elements(live.roots) !! Elements(live.planRoots) && Elements(live.roots) !! Elements(live.tasks)
    && Elements(live.planRoots) !! Elements(live.tasks)
  }

  predicate FieldLive(live: Live, f: Field) {
    Known(live.roots, f.roots) && (f.gate.Some? ==> f.gate.value.rootRef in live.roots)
  }

  predicate SupportLive(live: Live, s: Support) {
    Known(live.roots, s.roots) && Known(live.planRoots, s.planRoots)
  }

  predicate PremiseLive(live: Live, p: Premise) {
    Known(live.roots, p.roots) && Known(live.planRoots, p.planRoots) && Known(live.tasks, p.tasks)
  }

  ghost predicate ItemLive(live: Live, item: Item) {
    && (forall k | 0 <= k < |Bindings(item.projection)| :: FieldLive(live, Bindings(item.projection)[k]))
    && (forall k | 0 <= k < |item.supports| :: SupportLive(live, item.supports[k]))
  }

  /** Nothing in the contract refers to a root or task the plan does not have. */
  ghost predicate BindingsLive(live: Live, body: Body) {
    && AuthorityOk(live)
    && (forall i | 0 <= i < |body.items| :: ItemLive(live, body.items[i]))
    && (forall k | 0 <= k < |body.premises| :: PremiseLive(live, body.premises[k]))
  }

  datatype References = References(roots: set<string>, planRoots: set<string>, tasks: set<string>)

  ghost predicate Within(live: Live, refs: References) {
    refs.roots <= Elements(live.roots) && refs.planRoots <= Elements(live.planRoots) && refs.tasks <= Elements(live.tasks)
  }

  lemma {:induction false} KnownIsSubset(ids: seq<string>, members: seq<string>)
    ensures Known(ids, members) <==> Elements(members) <= Elements(ids)
  {
    if Known(ids, members) {
      forall x | x in Elements(members)
        ensures x in Elements(ids)
      {
        var a :| 0 <= a < |members| && members[a] == x;
      }
    } else {
      var a :| 0 <= a < |members| && members[a] !in ids;
      assert members[a] in Elements(members) && members[a] !in Elements(ids);
    }
  }

  method CollectFields(live: Live, bs: seq<Field>, refs: References) returns (all: References)
    ensures Within(live, all) <==> Within(live, refs) && forall k | 0 <= k < |bs| :: FieldLive(live, bs[k])
  {
    all := refs;
    for n := 0 to |bs|
      invariant Within(live, all) <==> Within(live, refs) && forall k | 0 <= k < n :: FieldLive(live, bs[k])
    {
      KnownIsSubset(live.roots, bs[n].roots);
      var gate := if bs[n].gate.Some? then {bs[n].gate.value.rootRef} else {};
      all := all.(roots := all.roots + Elements(bs[n].roots) + gate);
    }
  }

  method CollectSupports(live: Live, supports: seq<Support>, refs: References) returns (all: References)
    ensures Within(live, all) <==> Within(live, refs) && forall k | 0 <= k < |supports| :: SupportLive(live, supports[k])
  {
    all := refs;
    for n := 0 to |supports|
      invariant Within(live, all) <==> Within(live, refs) && forall k | 0 <= k < n :: SupportLive(live, supports[k])
    {
      KnownIsSubset(live.roots, supports[n].roots);
      KnownIsSubset(live.planRoots, supports[n].planRoots);
      all := References(all.roots + Elements(supports[n].roots), all.planRoots + Elements(supports[n].planRoots), all.tasks);
    }
  }

  method CollectPremises(live: Live, premises: seq<Premise>, refs: References) returns (all: References)
    ensures Within(live, all) <==> Within(live, refs) && forall k | 0 <= k < |premises| :: PremiseLive(live, premises[k])
  {
    all := refs;
    for n := 0 to |premises|
      invariant Within(live, all) <==> Within(live, refs) && forall k | 0 <= k < n :: PremiseLive(live, premises[k])
    {
      KnownIsSubset(live.roots, premises[n].roots);
      KnownIsSubset(live.planRoots, premises[n].planRoots);
      KnownIsSubset(live.tasks, premises[n].tasks);
      all := References(all.roots + Elements(premises[n].roots), all.planRoots + Elements(premises[n].planRoots),
                        all.tasks + Elements(premises[n].tasks));
    }
  }

  /** Gathers every reference first and compares at the end; only the live sets and the total matter. */
  method ValidateBindings(live: Live, body: Body) returns (ok: bool)
    ensures ok <==> BindingsLive(live, body)
  {
    if "" in live.roots || "" in live.planRoots || "" in live.tasks
       || !Distinct(live.roots) || !Distinct(live.planRoots) || !Distinct(live.tasks) {
      return false;
    }
    var disjoint := NamespacesDisjoint(Elements(live.roots), Elements(live.planRoots), Elements(live.tasks));
    if !disjoint {
      return false;
    }
    var refs := References({}, {}, {});
    for i := 0 to |body.items|
      invariant Within(live, refs) <==> forall k | 0 <= k < i :: ItemLive(live, body.items[k])
    {
      refs := CollectFields(live, Bindings(body.items[i].projection), refs);
      refs := CollectSupports(live, body.items[i].supports, refs);
    }
    refs := CollectPremises(live, body.premises, refs);
    ok := refs.roots <= Elements(live.roots) && refs.planRoots <= Elements(live.planRoots) && refs.tasks <= Elements(live.tasks);
  }

  /* ---- The source intent ---- */

  datatype SourceItem = SourceItem(id: string, shape: string, presentation: string, mode: Mode, surfaces: seq<string>)

  datatype SourcePremise = SourcePremise(id: string, kind: string, rawText: string, itemIds: seq<string>)

  /** The normalised question: what the user asked for, in order. */
  datatype Intent = Intent(presentation: string, items: seq<SourceItem>, groups: seq<Group>, premises: seq<SourcePremise>)

  type IntentDigest = Intent -> string

  function SourceIds(items: seq<SourceItem>): (r: seq<string>)
    ensures |r| == |items| && forall i | 0 <= i < |items| :: r[i] == items[i].id
  {
    seq(|items|, i requires 0 <= i < |items| => items[i].id)
  }

  function AsSource(premises: seq<Premise>): seq<SourcePremise> {
    seq(|premises|, k requires 0 <= k < |premises| =>
      SourcePremise(premises[k].id, premises[k].kind, premises[k].rawText, premises[k].itemIds))
  }

  function TargetId(position: nat): string {
    WHOLE_TARGET + Dec(position)
  }

  predicate TargetFits(item: Item, source: SourceItem, position: nat) {
    && source.surfaces == [] && item.projection.fields == []
    && item.projection.target.Some? && item.projection.target.value.id == TargetId(position)
  }

  predicate ItemAnswers(item: Item, source: SourceItem, position: nat) {
    && item.projection.shape == source.shape && item.projection.presentation == source.presentation
    && item.projection.mode == source.mode
    && if source.mode == NamedFields then |item.projection.fields| == |source.surfaces|
       else TargetFits(item, source, position)
  }

  /** The contract answers this question: same items in order, same groups, same premises. */
  ghost predicate AnswersIntent(intentDigest: IntentDigest, body: Body, intent: Intent) {
    && body.sourceDigest == intentDigest(intent)
    && body.presentation == intent.presentation
    && ItemIds(body.items) == SourceIds(intent.items)
    && (forall i | 0 <= i < |body.items| :: ItemAnswers(body.items[i], intent.items[i], i + 1))
    && body.groups == intent.groups
    && AsSource(body.premises) == intent.premises
  }

  method ValidateSourceIntent(intentDigest: IntentDigest, body: Body, intent: Intent) returns (ok: bool)
    ensures ok <==> AnswersIntent(intentDigest, body, intent)
  {
    if body.sourceDigest != intentDigest(intent) || body.presentation != intent.presentation
       || ItemIds(body.items) != SourceIds(intent.items) {
      return false;
    }
    assert |ItemIds(body.items)| == |SourceIds(intent.items)|;
    for i := 0 to |body.items|
      invariant forall k | 0 <= k < i :: ItemAnswers(body.items[k], intent.items[k], k + 1)
    {
      if !ItemAnswers(body.items[i], intent.items[i], i + 1) {
        return false;
      }
    }
    ok := body.groups == intent.groups && AsSource(body.premises) == intent.premises;
  }

  /* ---- Building ---- */

  datatype SurfaceBinding = SurfaceBinding(surface: string, fieldId: string)

  datatype Order = Order(intent: Intent, sourceDigest: string, planDigest: string, items: seq<Item>, groups: seq<Group>,
                         proofs: map<string, seq<SurfaceBinding>>, live: Live, premises: seq<Premise>, presentation: string)

  function Surfaces(proof: seq<SurfaceBinding>): (r: seq<string>)
    ensures |r| == |proof| && forall i | 0 <= i < |proof| :: r[i] == proof[i].surface
  {
    seq(|proof|, i requires 0 <= i < |proof| => proof[i].surface)
  }

  function ProofIds(proof: seq<SurfaceBinding>): (r: seq<string>)
    ensures |r| == |proof| && forall i | 0 <= i < |proof| :: r[i] == proof[i].fieldId
  {
    seq(|proof|, i requires 0 <= i < |proof| => proof[i].fieldId)
  }

  /** The requested surfaces, in order and once each, are proved to be the item's fields, in order and once each. */
  predicate ProofFits(item: Item, source: SourceItem, proof: seq<SurfaceBinding>) {
    && Distinct(Surfaces(proof)) && Distinct(ProofIds(proof))
    && Surfaces(proof) == source.surfaces && ProofIds(proof) == BindingIds(item.projection.fields)
  }

  /** The last source item called `id`, as a dictionary by id holds it. */
  function SourceAt(items: seq<SourceItem>, id: string): Option<SourceItem> {
    if items == [] then None
    else if items[|items| - 1].id == id then Some(items[|items| - 1])
    else SourceAt(items[..|items| - 1], id)
  }

  /** What the builder checks of one item against the source; the position is looked up by id. */
  predicate ItemProved(order: Order, item: Item) {
    var source := SourceAt(order.intent.items, item.id);
    && source.Some? && item.id in order.proofs
    && ProofFits(item, source.value, order.proofs[item.id])
    && item.projection.mode == source.value.mode
    && (source.value.mode == WholeTarget ==>
          order.proofs[item.id] == [] &&
          TargetFits(item, source.value, PositionOf(SourceIds(order.intent.items), item.id) + 1))
  }

  function BodyOf(order: Order): Body {
    Body(order.sourceDigest, CompletionOf(order.items), order.items, order.groups, order.premises, order.presentation, order.planDigest)
  }

  ghost predicate Proved(order: Order) {
    && order.proofs.Keys == Elements(ItemIds(order.items))
    && |order.items| == |order.intent.items|
    && forall i | 0 <= i < |order.items| ::
         order.items[i].id in order.proofs
         && ProofFits(order.items[i], order.intent.items[i], order.proofs[order.items[i].id])
  }

  /** The orders that yield a contract: a valid body that answers the intent from live references, with
      every surface proved. */
  ghost predicate Buildable(families: map<string, string>, intentDigest: IntentDigest, order: Order) {
    && RecordsValid(families, BodyOf(order)) && BodyDeclared(BodyOf(order))
    && AnswersIntent(intentDigest, BodyOf(order), order.intent)
    && BindingsLive(order.live, BodyOf(order))
    && Proved(order)
  }

  lemma {:induction false} PositionUnique(ids: seq<string>, i: nat)
    requires Distinct(ids) && i < |ids|
    ensures PositionOf(ids, ids[i]) == i
  {
    if i > 0 {
      PositionUnique(ids[1..], i - 1);
    }
  }

  lemma {:induction false} SourceAtUnique(items: seq<SourceItem>, i: nat)
    requires Distinct(SourceIds(items)) && i < |items|
    ensures SourceAt(items, items[i].id) == Some(items[i])
  {
    var ids := SourceIds(items);
    if i < |items| - 1 {
      assert ids[i] != ids[|items| - 1];
      assert SourceIds(items[..|items| - 1]) == ids[..|items| - 1];
      SourceAtUnique(items[..|items| - 1], i);
    }
  }

  /** Looking an item up by id agrees with counting along, once ids are unique. */
  lemma {:induction false} LookupAgreesWithOrder(order: Order, i: nat)
    requires i < |order.items| && Distinct(ItemIds(order.items)) && ItemIds(order.items) == SourceIds(order.intent.items)
    ensures |order.items| == |order.intent.items|
    ensures SourceAt(order.intent.items, order.items[i].id) == Some(order.intent.items[i])
    ensures PositionOf(SourceIds(order.intent.items), order.items[i].id) == i
  {
    var ids := SourceIds(order.intent.items);
    assert |ids| == |order.intent.items| && ids[i] == order.items[i].id == order.intent.items[i].id;
    SourceAtUnique(order.intent.items, i);
    PositionUnique(ids, i);
  }

  method CheckProofs(order: Order) returns (ok: bool)
    ensures ok <==> order.proofs.Keys == Elements(ItemIds(order.items))
                    && forall i | 0 <= i < |order.items| :: ItemProved(order, order.items[i])
  {
    if order.proofs.Keys != Elements(ItemIds(order.items)) {
      return false;
    }
    for n := 0 to |order.items|
      invariant forall i | 0 <= i < n :: ItemProved(order, order.items[i])
    {
      if !ItemProved(order, order.items[n]) {
        return false;
      }
    }
    return true;
  }

  lemma {:induction false} ItemIsProved(order: Order, i: nat)
    requires i < |order.items| && Distinct(ItemIds(order.items)) && ItemIds(order.items) == SourceIds(order.intent.items)
    requires Proved(order) && ItemAnswers(order.items[i], order.intent.items[i], i + 1)
    ensures ItemProved(order, order.items[i])
  {
    LookupAgreesWithOrder(order, i);
    var proof := order.proofs[order.items[i].id];
    if order.intent.items[i].mode == WholeTarget {
      assert |proof| == |Surfaces(proof)| == 0;
    }
  }

  /** The builder's own checks are met by everything that passes the validators. */
  lemma {:induction false} BuildableIsProved(families: map<string, string>, intentDigest: IntentDigest, order: Order)
    requires Buildable(families, intentDigest, order)
    ensures forall i | 0 <= i < |order.items| :: ItemProved(order, order.items[i])
  {
    var body := BodyOf(order);
    assert body.items == order.items && BodyDeclared(body) && AnswersIntent(intentDigest, body, order.intent);
    forall i | 0 <= i < |order.items|
      ensures ItemProved(order, order.items[i])
    {
      assert ItemAnswers(body.items[i], order.intent.items[i], i + 1);
      ItemIsProved(order, i);
    }
  }

  lemma {:induction false} ProvedInOrder(order: Order)
    requires Distinct(ItemIds(order.items)) && ItemIds(order.items) == SourceIds(order.intent.items)
    requires order.proofs.Keys == Elements(ItemIds(order.items))
    requires forall i | 0 <= i < |order.items| :: ItemProved(order, order.items[i])
    ensures Proved(order)
  {
    assert |ItemIds(order.items)| == |SourceIds(order.intent.items)|;
    forall i | 0 <= i < |order.items|
      ensures order.items[i].id in order.proofs
              && ProofFits(order.items[i], order.intent.items[i], order.proofs[order.items[i].id])
    {
      assert ItemProved(order, order.items[i]);
      LookupAgreesWithOrder(order, i);
    }
  }

  /** `build`: the source order and proofs, then the contract with its digest, then every validator. */
  method Build(families: map<string, string>, digest: Digest, intentDigest: IntentDigest, order: Order)
    returns (c: Option<Contract>)
    ensures c.Some? <==> Buildable(families, intentDigest, order)
    ensures c.Some? ==> c.value == Contract(BodyOf(order), digest(BodyOf(order))) && ContractValid(families, digest, c.value)
  {
    var body := BodyOf(order);
    if Buildable(families, intentDigest, order) {
      BuildableIsProved(families, intentDigest, order);
    }
    if order.sourceDigest != intentDigest(order.intent) || ItemIds(order.items) != SourceIds(order.intent.items) {
      return None;
    }
    var proved := CheckProofs(order);
    if !proved || order.groups != order.intent.groups || AsSource(order.premises) != order.intent.premises {
      return None;
    }
    var contract := Contract(body, digest(body));
    var valid := ValidateContract(families, digest, contract);
    if !valid {
      return None;
    }
    var answers := ValidateSourceIntent(intentDigest, body, order.intent);
    if !answers {
      return None;
    }
    var live := ValidateBindings(order.live, body);
    if !live {
      return None;
    }
    ProvedInOrder(order);
    return Some(contract);
  }

  lemma {:induction false} ProofIsBijection(item: Item, source: SourceItem, proof: seq<SurfaceBinding>, k: nat)
    requires ProofFits(item, source, proof) && k < |source.surfaces|
    ensures |item.projection.fields| == |source.surfaces| == |proof|
    ensures proof[k] == SurfaceBinding(source.surfaces[k], item.projection.fields[k].id)
    ensures forall j | 0 <= j < |proof| && j != k ::
              source.surfaces[j] != source.surfaces[k] && item.projection.fields[j].id != item.projection.fields[k].id
  {
    var surfaces, ids := Surfaces(proof), ProofIds(proof);
    assert |ids| == |BindingIds(item.projection.fields)|;
    forall j | 0 <= j < |proof| && j != k
      ensures surfaces[j] != surfaces[k] && ids[j] != ids[k]
    {
      var a, b := if j < k then j else k, if j < k then k else j;
      assert surfaces[a] != surfaces[b] && ids[a] != ids[b];
    }
  }

  /** In a built contract surface `k` of an item is field `k`, no surface or field is left over, and
      neither repeats. */
  lemma {:induction false} SurfacesAreTheFields(families: map<string, string>, intentDigest: IntentDigest, order: Order, i: nat, k: nat)
    requires Buildable(families, intentDigest, order) && i < |order.items| && k < |order.intent.items[i].surfaces|
    ensures order.items[i].id in order.proofs
    ensures var fields, surfaces, proof := order.items[i].projection.fields, order.intent.items[i].surfaces, order.proofs[order.items[i].id];
            && |fields| == |surfaces| == |proof|
            && proof[k] == SurfaceBinding(surfaces[k], fields[k].id)
            && (forall j | 0 <= j < |surfaces| && j != k :: surfaces[j] != surfaces[k] && fields[j].id != fields[k].id)
  {
    assert Proved(order);
    ProofIsBijection(order.items[i], order.intent.items[i], order.proofs[order.items[i].id], k);
  }

  lemma {:induction false} DecStartsNonzero(n: nat)
    requires n > 0
    ensures '1' <= Dec(n)[0] <= '9'
  {
    if n >= 10 {
      DecStartsNonzero(n / 10);
    }
  }

  /** The ids the compiler derives from positions have the required form, differ, and are never field ids. */
  lemma {:induction false} TargetIdsAreProper(m: nat, n: nat, p: Projection)
    requires 0 < m && 0 < n && ProjectionOk(p)
    ensures IsWholeTargetId(TargetId(m)) && (TargetId(m) == TargetId(n) ==> m == n)
    ensures TargetId(m) !in BindingIds(p.fields)
  {
    DecStartsNonzero(m);
    assert TargetId(m)[|WHOLE_TARGET|..] == Dec(m) && TargetId(n)[|WHOLE_TARGET|..] == Dec(n);
    if TargetId(m) == TargetId(n) {
      DecInjective(m, n);
    }
    assert WHOLE_TARGET <= TargetId(m);
  }
}
