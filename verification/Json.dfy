/** JSON values with ordered objects, as Python dictionaries hold them. */
module Json {
  import opened Wrappers

  datatype Json =
    | JNull
    | JBool(b: bool)
    | JInt(n: int)
    | JFloat(x: real)
    | JStr(s: string)
    | JArr(items: seq<Json>)
    | JObj(members: seq<Member>)

  datatype Member = Member(key: string, value: Json)

  /** The position of the first member called `key`, or the number of members. */
  function IndexOf(members: seq<Member>, key: string): (i: nat)
    ensures i <= |members|
    ensures i < |members| ==> members[i].key == key
    ensures forall j | 0 <= j < i :: members[j].key != key
  {
    if members == [] || members[0].key == key then 0 else 1 + IndexOf(members[1..], key)
  }

  predicate Has(members: seq<Member>, key: string) {
    IndexOf(members, key) < |members|
  }

  function At(members: seq<Member>, key: string): (r: Json)
    requires Has(members, key)
  {
    members[IndexOf(members, key)].value
  }

  function Get(members: seq<Member>, key: string): Option<Json> {
    if Has(members, key) then Some(At(members, key)) else None
  }

  /** Dictionary assignment: replaces in place, or appends. */
  function Set(members: seq<Member>, key: string, value: Json): seq<Member> {
    var i := IndexOf(members, key);
    if i < |members| then members[i := Member(key, value)] else members + [Member(key, value)]
  }

  predicate UniqueKeys(members: seq<Member>) {
    forall i, j | 0 <= i < j < |members| :: members[i].key != members[j].key
  }

  /** No object anywhere inside has two members with one key. */
  predicate WellFormed(j: Json) {
    match j
    case JArr(items) => forall i | 0 <= i < |items| :: WellFormed(items[i])
    case JObj(members) =>
      UniqueKeys(members) && forall i | 0 <= i < |members| :: WellFormed(members[i].value)
    case _ => true
  }

  predicate IsScalar(j: Json) {
    !j.JArr? && !j.JObj?
  }

  /** The mathematical value of a number; booleans are not numbers here. */
  function Number(j: Json): Option<real> {
    match j
    case JInt(n) => Some(n as real)
    case JFloat(x) => Some(x)
    case _ => None
  }

  /* ---- Lookup facts ---- */

  lemma {:induction false} IndexUnique(members: seq<Member>, i: nat)
    requires UniqueKeys(members) && i < |members|
    ensures IndexOf(members, members[i].key) == i
  {
  }

  /** Lookup after appending a member whose key was absent or not. */
  lemma {:induction false} GetAppend(members: seq<Member>, m: Member, key: string)
    ensures Get(members + [m], key) == if Has(members, key) then Get(members, key)
                                       else if m.key == key then Some(m.value) else None
  {
    var all := members + [m];
    assert all[|members|] == m && forall i | 0 <= i < |members| :: all[i] == members[i];
  }

  lemma {:induction false} GetSet(members: seq<Member>, key: string, value: Json, other: string)
    ensures Get(Set(members, key, value), other) == if other == key then Some(value) else Get(members, other)
    ensures UniqueKeys(members) ==> UniqueKeys(Set(members, key, value))
    ensures forall m | m in Set(members, key, value) :: m == Member(key, value) || m in members
  {
    var i := IndexOf(members, key);
    if i < |members| {
      var updated := members[i := Member(key, value)];
      assert forall j | 0 <= j < |members| :: updated[j].key == members[j].key;
      SameKeysSameIndex(members, updated, other);
    } else {
      GetAppend(members, Member(key, value), other);
    }
  }

  lemma {:induction false} SameKeysSameIndex(a: seq<Member>, b: seq<Member>, key: string)
    requires |a| == |b| && forall i | 0 <= i < |a| :: a[i].key == b[i].key
    ensures IndexOf(a, key) == IndexOf(b, key)
  {
    if a != [] {
      SameKeysSameIndex(a[1..], b[1..], key);
    }
  }
}
