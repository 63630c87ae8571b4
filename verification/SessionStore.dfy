/** The TTL + LRU session store: one ordered map and a bounded tombstone set. */
module SessionStore {
  import opened Wrappers
  import opened SessionModel

  datatype Config = Config(ttl: real, maxSessions: nat) {
    ghost predicate Valid() { ttl > 0.0 && maxSessions > 0 }
  }

  /** One row of the ordered map; rows are kept least recently touched first. */
  datatype Entry<P> = Entry(id: string, lastSeen: real, state: SessionState<P>)

  datatype Snapshot<P> = Snapshot(rows: seq<Entry<P>>, expired: set<string>)

  datatype Op<P> =
    | PutOp(state: SessionState<P>)
    | GetOp(id: string)
    | CompareAndPutOp(state: SessionState<P>, expectedRevision: nat, expectedClarification: string)
  {
    function Id(): string {
      match this
      case PutOp(state) => state.origin.sessionId
      case GetOp(id) => id
      case CompareAndPutOp(state, _, _) => state.origin.sessionId
    }
  }

  /** One locked store operation with the two clock readings it makes. */
  datatype Call<P> = Call(now: real, wall: int, op: Op<P>)

  datatype Reply<P> = Stored | Found(state: SessionState<P>) | Failed(error: SessionError)

  /* ---- Ordered-map primitives ---- */

  function Without<P>(rows: seq<Entry<P>>, id: string): seq<Entry<P>> {
    Filter((e: Entry<P>) => e.id != id, rows)
  }

  function WithoutAll<P>(rows: seq<Entry<P>>, ids: seq<string>): seq<Entry<P>> {
    Filter((e: Entry<P>) => e.id !in ids, rows)
  }

  function Find<P>(rows: seq<Entry<P>>, id: string): (r: Option<Entry<P>>)
    ensures r.Some? <==> exists e | e in rows :: e.id == id
    ensures r.Some? ==> r.value in rows && r.value.id == id
  {
    if rows == [] then None
    else if rows[0].id == id then Some(rows[0])
    else Find(rows[1..], id)
  }

  predicate IsAlive<P>(e: Entry<P>, now: real, ttl: real) {
    now - e.lastSeen < ttl
  }

  function Alive<P>(rows: seq<Entry<P>>, now: real, ttl: real): seq<Entry<P>> {
    Filter((e: Entry<P>) => IsAlive(e, now, ttl), rows)
  }

  function DeadIds<P>(rows: seq<Entry<P>>, now: real, ttl: real): set<string> {
    set i | 0 <= i < |rows| && !IsAlive(rows[i], now, ttl) :: rows[i].id
  }

  function IdSet<P>(rows: seq<Entry<P>>): set<string> {
    set i | 0 <= i < |rows| :: rows[i].id
  }

  ghost predicate UniqueIds<P>(rows: seq<Entry<P>>) {
    forall i, j | 0 <= i < j < |rows| :: rows[i].id != rows[j].id
  }

  function Touched<P>(state: SessionState<P>, wall: int): SessionState<P> {
    state.(lastAccessed := wall)
  }

  /* ---- What each operation means ---- */

  /** Tombstones after a purge: all of them, or any `4 * max` of them when there are more. */
  ghost predicate Trimmed(config: Config, full: set<string>, kept: set<string>) {
    && kept <= full
    && (|full| <= 4 * config.maxSessions ==> kept == full)
    && (|full| > 4 * config.maxSessions ==> |kept| == 4 * config.maxSessions)
  }

  function MissError(expired: set<string>, id: string): SessionError {
    if id in expired then Expired else NotFound
  }

  function PutError<P>(existing: Option<Entry<P>>, state: SessionState<P>): Option<SessionError> {
    if existing.None? then None
    else if existing.value.state.origin != state.origin then Some(Rejected)
    else if state.revision < existing.value.state.revision then Some(Rejected)
    else None
  }

  function CompareError<P>(previous: SessionState<P>, state: SessionState<P>,
                           expectedRevision: nat, expectedClarification: string): Option<SessionError> {
    if || previous.revision != expectedRevision
       || previous.status != Waiting
       || previous.pending.None?
       || previous.pending.value.clarificationId != expectedClarification then Some(Stale)
    else if previous.origin != state.origin then Some(Rejected)
    else if state.revision != expectedRevision + 1 then Some(Rejected)
    else None
  }

  /** Drops the least recently touched rows until one more fits. */
  function Evicted<P>(rows: seq<Entry<P>>, maxSessions: nat): (r: seq<Entry<P>>)
    requires maxSessions > 0
  {
    if |rows| >= maxSessions then rows[|rows| - maxSessions + 1..] else rows
  }

  /** The effect of an operation on a purged store. */
  function After<P>(config: Config, mid: Snapshot<P>, call: Call<P>): (Snapshot<P>, Reply<P>)
    requires config.maxSessions > 0
  {
    var id := call.op.Id();
    var existing := Find(mid.rows, id);
    var others := Without(mid.rows, id);
    match call.op
    case PutOp(state) =>
      var error := PutError(existing, state);
      if error.Some? then (mid, Failed(error.value)) else
      var kept := Evicted(others, config.maxSessions);
      var gone := IdSet(others[..|others| - |kept|]);
      (Snapshot(kept + [Entry(id, call.now, Touched(state, call.wall))], mid.expired + gone - {id}), Stored)
    case GetOp(_) =>
      if existing.None? then (mid, Failed(MissError(mid.expired, id))) else
      var state := Touched(existing.value.state, call.wall);
      (Snapshot(others + [Entry(id, call.now, state)], mid.expired), Found(state))
    case CompareAndPutOp(state, revision, clarification) =>
      if existing.None? then (mid, Failed(MissError(mid.expired, id))) else
      var error := CompareError(existing.value.state, state, revision, clarification);
      if error.Some? then (mid, Failed(error.value)) else
      (Snapshot(others + [Entry(id, call.now, Touched(state, call.wall))], mid.expired), Stored)
  }

  /** `call` may take `s` to `s'` with this reply; only the choice of dropped tombstones is free. */
  ghost predicate Step<P>(config: Config, s: Snapshot<P>, call: Call<P>, s': Snapshot<P>, reply: Reply<P>)
    requires config.maxSessions > 0
  {
    exists kept: set<string> ::
      && Trimmed(config, s.expired + DeadIds(s.rows, call.now, config.ttl), kept)
      && (s', reply) == After(config, Snapshot(Alive(s.rows, call.now, config.ttl), kept), call)
  }

  /* ---- The store itself ---- */

  class Store<P> {
    const config: Config
    var rows: seq<Entry<P>>
    var expired: set<string>

    ghost predicate Valid()
      reads this
    {
      && config.Valid()
      && UniqueIds(rows)
      && |rows| <= config.maxSessions
    }

    ghost function View(): Snapshot<P>
      reads this
    {
      Snapshot(rows, expired)
    }

    constructor (ttl: real, maxSessions: nat)
      requires ttl > 0.0 && maxSessions > 0
      ensures Valid() && config == Config(ttl, maxSessions)
      ensures View() == Snapshot([], {})
    {
      config := Config(ttl, maxSessions);
      rows := [];
      expired := {};
    }

    /** The comprehension that opens a purge: ids of the rows to drop. */
    method CollectDead(now: real) returns (dead: seq<string>)
      ensures Elements(dead) == DeadIds(rows, now, config.ttl)
    {
      dead := [];
      for i := 0 to |rows|
        invariant Elements(dead) == DeadIds(rows[..i], now, config.ttl)
      {
        DeadIdsNext(rows, i, now, config.ttl);
        if !IsAlive(rows[i], now, config.ttl) {
          dead := dead + [rows[i].id];
        }
      }
      assert rows[..|rows|] == rows;
    }

    /** Drops arbitrary tombstones above the cap. */
    method TrimTombstones()
      requires config.Valid()
      modifies this`expired
      ensures Trimmed(config, old(expired), expired)
    {
      ghost var full := expired;
      while |expired| > config.maxSessions * 4
        invariant expired <= full
        invariant |full| <= 4 * config.maxSessions ==> expired == full
        invariant |full| > 4 * config.maxSessions ==> |expired| >= 4 * config.maxSessions
        decreases |expired|
      {
        var x :| x in expired;
        expired := expired - {x};
      }
    }

    /** Moves every dead row to the tombstones, then trims those. */
    method Purge(now: real)
      requires Valid()
      modifies this
      ensures Valid()
      ensures rows == Alive(old(rows), now, config.ttl)
      ensures Trimmed(config, old(expired) + DeadIds(old(rows), now, config.ttl), expired)
    {
      ghost var rows0, expired0 := rows, expired;
      var dead := CollectDead(now);
      WithoutNone(rows0);
      for i := 0 to |dead|
        invariant rows == WithoutAll(rows0, dead[..i])
        invariant expired == expired0 + Elements(dead[..i])
        invariant UniqueIds(rows) && |rows| <= |rows0|
      {
        assert dead[..i + 1] == dead[..i] + [dead[i]];
        WithoutOneMore(rows0, dead[..i], dead[i]);
        WithoutUnique(rows, dead[i]);
        rows := Without(rows, dead[i]);
        expired := expired + {dead[i]};
      }
      assert dead[..|dead|] == dead;
      DeadAreTheOthers(rows0, dead, now, config.ttl);
      TrimTombstones();
    }

    /** Pops least recently touched rows into the tombstones until one more row fits. */
    method EvictOldest()
      requires config.Valid() && |rows| <= config.maxSessions
      modifies this
      ensures rows == Evicted(old(rows), config.maxSessions)
      ensures expired == old(expired) + IdSet(old(rows)[..|old(rows)| - |rows|])
    {
      ghost var rows0, expired0 := rows, expired;
      var k := 0;
      while |rows| >= config.maxSessions
        invariant 0 <= k <= |rows0| && rows == rows0[k..]
        invariant k > 0 ==> |rows| >= config.maxSessions - 1
        invariant expired == expired0 + IdSet(rows0[..k])
      {
        IdSetNext(rows0, k);
        expired := expired + {rows[0].id};
        rows := rows[1..];
        k := k + 1;
      }
    }

    method Put(state: SessionState<P>, now: real, wall: int) returns (reply: Reply<P>)
      requires Valid()
      modifies this
      ensures Valid()
      ensures Step(config, old(View()), Call(now, wall, PutOp(state)), View(), reply)
    {
      Purge(now);
      ghost var mid := View();
      var id := state.origin.sessionId;
      var error := PutError(Find(rows, id), state);
      if error.Some? {
        return Failed(error.value);
      }
      Insert(Entry(id, now, Touched(state, wall)));
      reply := Stored;
      assert (View(), reply) == After(config, mid, Call(now, wall, PutOp(state)));
    }

    /** Re-inserts a row as the most recent one, evicting others until it fits. */
    method Insert(entry: Entry<P>)
      requires Valid()
      modifies this
      ensures Valid()
      ensures var others := Without(old(rows), entry.id);
              var kept := Evicted(others, config.maxSessions);
              rows == kept + [entry] && expired == old(expired) + IdSet(others[..|others| - |kept|]) - {entry.id}
    {
      ghost var before := rows;
      WithoutUnique(rows, entry.id);
      WithoutLacks(rows, entry.id);
      rows := Without(rows, entry.id);
      EvictOldest();
      rows := rows + [entry];
      expired := expired - {entry.id};
      EvictedUnique(Without(before, entry.id), config.maxSessions, entry.id);
    }

    method Get(id: string, now: real, wall: int) returns (reply: Reply<P>)
      requires Valid()
      modifies this
      ensures Valid()
      ensures Step(config, old(View()), Call(now, wall, GetOp(id)), View(), reply)
    {
      Purge(now);
      ghost var mid := View();
      var existing := Find(rows, id);
      if existing.None? {
        return Failed(MissError(expired, id));
      }
      var state := Touched(existing.value.state, wall);
      WithoutUnique(rows, id);
      WithoutLacks(rows, id);
      rows := Without(rows, id) + [Entry(id, now, state)];
      reply := Found(state);
      assert (View(), reply) == After(config, mid, Call(now, wall, GetOp(id)));
    }

    method CompareAndPut(state: SessionState<P>, expectedRevision: nat, expectedClarification: string,
                         now: real, wall: int) returns (reply: Reply<P>)
      requires Valid()
      modifies this
      ensures Valid()
      ensures Step(config, old(View()),
                   Call(now, wall, CompareAndPutOp(state, expectedRevision, expectedClarification)),
                   View(), reply)
    {
      Purge(now);
      ghost var mid := View();
      ghost var call := Call(now, wall, CompareAndPutOp(state, expectedRevision, expectedClarification));
      var id := state.origin.sessionId;
      var existing := Find(rows, id);
      if existing.None? {
        reply := Failed(MissError(expired, id));
        assert (View(), reply) == After(config, mid, call);
        return;
      }
      var error := CompareError(existing.value.state, state, expectedRevision, expectedClarification);
      if error.Some? {
        reply := Failed(error.value);
        assert (View(), reply) == After(config, mid, call);
        return;
      }
      WithoutUnique(rows, id);
      WithoutLacks(rows, id);
      rows := Without(rows, id) + [Entry(id, now, Touched(state, wall))];
      reply := Stored;
      assert (View(), reply) == After(config, mid, call);
    }
  }

  /* ---- Facts about the ordered map ---- */

  lemma {:induction false} FilterUnique<P>(keep: Entry<P> -> bool, rows: seq<Entry<P>>)
    requires UniqueIds(rows)
    ensures UniqueIds(Filter(keep, rows)) && |Filter(keep, rows)| <= |rows|
  {
    if rows != [] {
      FilterUnique(keep, rows[1..]);
      forall e | e in Filter(keep, rows[1..])
        ensures e.id != rows[0].id
      {
        FilterMember(keep, rows[1..], e);
      }
    }
  }

  lemma {:induction false} FindMember<P>(rows: seq<Entry<P>>, e: Entry<P>)
    requires UniqueIds(rows) && e in rows
    ensures Find(rows, e.id) == Some(e)
  {
    if rows[0] != e {
      assert e in rows[1..];
      FindMember(rows[1..], e);
    }
  }

  lemma {:induction false} WithoutLacks<P>(rows: seq<Entry<P>>, id: string)
    ensures forall e | e in Without(rows, id) :: e in rows && e.id != id
    ensures forall e | e in rows && e.id != id :: e in Without(rows, id)
  {
    if rows != [] {
      WithoutLacks(rows[1..], id);
    }
  }

  lemma {:induction false} WithoutUnique<P>(rows: seq<Entry<P>>, id: string)
    requires UniqueIds(rows)
    ensures UniqueIds(Without(rows, id))
    ensures |Without(rows, id)| == |rows| - if Find(rows, id).Some? then 1 else 0
  {
    var keep := (e: Entry<P>) => e.id != id;
    FilterUnique(keep, rows);
    if rows != [] {
      WithoutUnique(rows[1..], id);
      if rows[0].id == id {
        FilterAll(keep, rows[1..]);
      }
    }
  }

  lemma {:induction false} EvictedUnique<P>(rows: seq<Entry<P>>, maxSessions: nat, id: string)
    requires maxSessions > 0 && UniqueIds(rows) && forall e | e in rows :: e.id != id
    ensures UniqueIds(Evicted(rows, maxSessions)) && |Evicted(rows, maxSessions)| < maxSessions
    ensures forall e | e in Evicted(rows, maxSessions) :: e in rows && e.id != id
  {
  }

  lemma {:induction false} IdSetNext<P>(rows: seq<Entry<P>>, i: nat)
    requires i < |rows|
    ensures IdSet(rows[..i + 1]) == IdSet(rows[..i]) + {rows[i].id}
  {
    assert forall j | 0 <= j < i :: rows[..i + 1][j] == rows[..i][j];
  }

  lemma {:induction false} DeadIdsNext<P>(rows: seq<Entry<P>>, i: nat, now: real, ttl: real)
    requires i < |rows|
    ensures DeadIds(rows[..i + 1], now, ttl)
         == DeadIds(rows[..i], now, ttl) + if IsAlive(rows[i], now, ttl) then {} else {rows[i].id}
  {
    assert forall j | 0 <= j < i :: rows[..i + 1][j] == rows[..i][j];
  }

  lemma {:induction false} WithoutNone<P>(rows: seq<Entry<P>>)
    ensures WithoutAll(rows, []) == rows
  {
    FilterAll((e: Entry<P>) => e.id !in [], rows);
  }

  lemma {:induction false} WithoutOneMore<P>(rows: seq<Entry<P>>, ids: seq<string>, id: string)
    ensures Without(WithoutAll(rows, ids), id) == WithoutAll(rows, ids + [id])
  {
    if rows != [] {
      WithoutOneMore(rows[1..], ids, id);
    }
  }

  lemma {:induction false} DeadAreTheOthers<P>(rows: seq<Entry<P>>, dead: seq<string>, now: real, ttl: real)
    requires UniqueIds(rows)
    requires Elements(dead) == DeadIds(rows, now, ttl)
    ensures WithoutAll(rows, dead) == Alive(rows, now, ttl)
  {
    forall e | e in rows
      ensures e.id !in dead <==> IsAlive(e, now, ttl)
    {
      assert e.id in dead <==> e.id in Elements(dead);
    }
    FilterSame((e: Entry<P>) => e.id !in dead, (e: Entry<P>) => IsAlive(e, now, ttl), rows);
  }
}
