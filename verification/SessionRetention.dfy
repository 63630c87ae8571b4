/** Which sessions a store holds, exactly, after any run with a monotone clock. */
module SessionRetention {
  import opened Wrappers
  import opened SessionModel
  import opened SessionStore

  /** A successful put, get or compare-and-put of one session. */
  datatype Touch = Touch(id: string, at: real)

  datatype Run<P> = Run(calls: seq<Call<P>>, replies: seq<Reply<P>>, states: seq<Snapshot<P>>)

  ghost predicate IsRun<P>(config: Config, run: Run<P>) {
    && config.Valid()
    && |run.replies| == |run.calls|
    && |run.states| == |run.calls| + 1
    && run.states[0] == Snapshot([], {})
    && (forall i | 0 <= i < |run.calls| ::
          Step(config, run.states[i], run.calls[i], run.states[i + 1], run.replies[i]))
    && (forall i, j | 0 <= i < j < |run.calls| :: run.calls[i].now <= run.calls[j].now)
  }

  ghost function Touches<P>(calls: seq<Call<P>>, replies: seq<Reply<P>>): seq<Touch>
    requires |calls| == |replies|
  {
    if calls == [] then [] else
    var n := |calls| - 1;
    Touches(calls[..n], replies[..n])
    + if replies[n].Failed? then [] else [Touch(calls[n].op.Id(), calls[n].now)]
  }

  ghost function Drop(ts: seq<Touch>, id: string): seq<Touch> {
    Filter((u: Touch) => u.id != id, ts)
  }

  /** The last touch of every session, least recent first. */
  ghost function Recency(touches: seq<Touch>): seq<Touch> {
    if touches == [] then [] else
    var t := touches[|touches| - 1];
    Drop(Recency(touches[..|touches| - 1]), t.id) + [t]
  }

  ghost predicate Kept(config: Config, recent: seq<Touch>, i: nat, now: real)
    requires i < |recent|
  {
    now - recent[i].at < config.ttl && |recent| - i <= config.maxSessions
  }

  /** The rows show the recency list from position `c` on. */
  ghost predicate Aligned<P>(recent: seq<Touch>, rows: seq<Entry<P>>, c: nat) {
    && |rows| == |recent| - c
    && forall i | 0 <= i < |rows| :: rows[i].id == recent[c + i].id && rows[i].lastSeen == recent[c + i].at
  }

  /** Position `c` is where the kept part of the recency list begins. */
  ghost predicate Boundary(config: Config, recent: seq<Touch>, now: real, c: nat) {
    forall i | 0 <= i < |recent| :: Kept(config, recent, i, now) <==> i >= c
  }

  ghost predicate RetainsFrom<P>(config: Config, touches: seq<Touch>, now: real, rows: seq<Entry<P>>, c: nat) {
    && Aligned(Recency(touches), rows, c)
    && Boundary(config, Recency(touches), now, c)
  }

  ghost predicate Chronological(ts: seq<Touch>, now: real) {
    && (forall i, j | 0 <= i < j < |ts| :: ts[i].at <= ts[j].at)
    && (forall i | 0 <= i < |ts| :: ts[i].at <= now)
  }

  ghost predicate DistinctTouches(ts: seq<Touch>) {
    forall i, j | 0 <= i < j < |ts| :: ts[i].id != ts[j].id
  }

  /* ---- The declarative reading ---- */

  ghost predicate IsLastTouch(touches: seq<Touch>, k: nat, id: string) {
    k < |touches| && touches[k].id == id && forall j | k < j < |touches| :: touches[j].id != id
  }

  /** The distinct sessions touched after position `k`. */
  ghost function TouchedSince(touches: seq<Touch>, k: nat): set<string>
    requires k < |touches|
  {
    set j | k < j < |touches| :: touches[j].id
  }

  ghost predicate ShouldBeResident(config: Config, touches: seq<Touch>, now: real, id: string) {
    exists k: nat ::
      && IsLastTouch(touches, k, id)
      && now - touches[k].at < config.ttl
      && |TouchedSince(touches, k)| < config.maxSessions
  }

  /* ---- Recency lists ---- */

  lemma {:induction false} DropAbsent(ts: seq<Touch>, id: string)
    requires forall i | 0 <= i < |ts| :: ts[i].id != id
    ensures Drop(ts, id) == ts
  {
    FilterAll((u: Touch) => u.id != id, ts);
  }

  lemma {:induction false} DropAt(ts: seq<Touch>, p: nat)
    requires p < |ts| && DistinctTouches(ts)
    ensures Drop(ts, ts[p].id) == ts[..p] + ts[p + 1..]
  {
    if p == 0 {
      DropAbsent(ts[1..], ts[0].id);
    } else {
      DropAt(ts[1..], p - 1);
      assert ts[..p] + ts[p + 1..] == [ts[0]] + (ts[1..][..p - 1] + ts[1..][p..]);
    }
  }

  ghost function PositionOf(ts: seq<Touch>, id: string): (p: nat)
    ensures p <= |ts|
    ensures p < |ts| ==> ts[p].id == id
    ensures p == |ts| ==> forall i | 0 <= i < |ts| :: ts[i].id != id
  {
    if ts == [] then 0 else if ts[0].id == id then 0 else 1 + PositionOf(ts[1..], id)
  }

  /** Where position `i` of a list without position `p` comes from. */
  ghost function Source(p: nat, i: nat): nat {
    if i < p then i else i + 1
  }

  /** Dropping an id removes at most one position. */
  lemma {:induction false} DropShape(ts: seq<Touch>, id: string)
    requires DistinctTouches(ts)
    ensures var p := PositionOf(ts, id);
            && |Drop(ts, id)| == (if p < |ts| then |ts| - 1 else |ts|)
            && forall i | 0 <= i < |Drop(ts, id)| :: Drop(ts, id)[i] == ts[Source(p, i)]
    ensures forall i | 0 <= i < |Drop(ts, id)| :: Drop(ts, id)[i].id != id
  {
    var p := PositionOf(ts, id);
    if p < |ts| {
      DropAt(ts, p);
    } else {
      DropAbsent(ts, id);
    }
  }

  lemma {:induction false} RecencyStep(touches: seq<Touch>, t: Touch)
    ensures Recency(touches + [t]) == Drop(Recency(touches), t.id) + [t]
  {
    assert (touches + [t])[..|touches|] == touches;
  }

  lemma {:induction false} DropKeepsOrder(ts: seq<Touch>, t: Touch, now: real)
    requires DistinctTouches(ts) && Chronological(ts, t.at) && t.at <= now
    ensures DistinctTouches(Drop(ts, t.id) + [t]) && Chronological(Drop(ts, t.id) + [t], now)
  {
    DropShape(ts, t.id);
    var d, p := Drop(ts, t.id), PositionOf(ts, t.id);
    forall i, j | 0 <= i < j < |d| + 1
      ensures (d + [t])[i].id != (d + [t])[j].id && (d + [t])[i].at <= (d + [t])[j].at
    {
      assert d[i] == ts[Source(p, i)];
      if j < |d| {
        assert d[j] == ts[Source(p, j)];
      }
    }
    forall i | 0 <= i < |d| + 1
      ensures (d + [t])[i].at <= now
    {
      if i < |d| {
        assert d[i] == ts[Source(p, i)];
      }
    }
  }

  lemma {:induction false} RecencyOrdered(touches: seq<Touch>, now: real)
    requires Chronological(touches, now)
    ensures DistinctTouches(Recency(touches)) && Chronological(Recency(touches), now)
  {
    if touches != [] {
      var n := |touches| - 1;
      RecencyOrdered(touches[..n], touches[n].at);
      DropKeepsOrder(Recency(touches[..n]), touches[n], now);
    }
  }

  ghost function IdsAfter(ts: seq<Touch>, p: nat): set<string> {
    set i | p < i < |ts| :: ts[i].id
  }

  lemma {:induction false} IdsAfterDrop(ts: seq<Touch>, t: Touch, p: nat)
    requires DistinctTouches(ts) && p < |Drop(ts, t.id)|
    ensures IdsAfter(Drop(ts, t.id) + [t], p) == IdsAfter(ts, Source(PositionOf(ts, t.id), p)) + {t.id}
  {
    DropShape(ts, t.id);
    var d, gone := Drop(ts, t.id), PositionOf(ts, t.id);
    var from := Source(gone, p);
    forall id | id in IdsAfter(d + [t], p)
      ensures id in IdsAfter(ts, from) + {t.id}
    {
      var i :| p < i < |d + [t]| && (d + [t])[i].id == id;
      if i < |d| {
        assert ts[Source(gone, i)].id == id;
      }
    }
    forall id | id in IdsAfter(ts, from)
      ensures id in IdsAfter(d + [t], p)
    {
      var i :| from < i < |ts| && ts[i].id == id;
      var j := if i < gone then i else if i == gone then |d| else i - 1;
      assert (d + [t])[j].id == id;
    }
    assert (d + [t])[|d|].id == t.id;
  }

  lemma {:induction false} IdsAfterCount(ts: seq<Touch>, p: nat)
    requires DistinctTouches(ts) && p < |ts|
    ensures |IdsAfter(ts, p)| == |ts| - 1 - p
    decreases |ts| - p
  {
    if p == |ts| - 1 {
      assert IdsAfter(ts, p) == {};
    } else {
      IdsAfterCount(ts, p + 1);
      assert IdsAfter(ts, p) == IdsAfter(ts, p + 1) + {ts[p + 1].id};
    }
  }

  /** Position `p` of the recency list is a last touch, and the later positions are exactly
      the sessions touched since. */
  lemma {:induction false} RecencyMeaning(touches: seq<Touch>, now: real, p: nat) returns (k: nat)
    requires Chronological(touches, now) && p < |Recency(touches)|
    ensures IsLastTouch(touches, k, Recency(touches)[p].id) && touches[k] == Recency(touches)[p]
    ensures TouchedSince(touches, k) == IdsAfter(Recency(touches), p)
  {
    var n := |touches| - 1;
    var init, t := touches[..n], touches[n];
    var before, recent := Recency(init), Recency(touches);
    RecencyOrdered(init, t.at);
    DropShape(before, t.id);
    if p == |recent| - 1 {
      k := n;
    } else {
      k := RecencyMeaning(init, t.at, Source(PositionOf(before, t.id), p));
      IdsAfterDrop(before, t, p);
      assert TouchedSince(touches, k) == TouchedSince(init, k) + {t.id};
    }
  }

  lemma {:induction false} EveryTouchIsRecent(touches: seq<Touch>, k: nat)
    requires k < |touches|
    ensures PositionOf(Recency(touches), touches[k].id) < |Recency(touches)|
  {
    var n, id := |touches| - 1, touches[k].id;
    var before, t := Recency(touches[..n]), touches[n];
    assert Recency(touches) == Drop(before, t.id) + [t];
    if id == t.id {
      assert Recency(touches)[|Drop(before, t.id)|].id == id;
    } else {
      EveryTouchIsRecent(touches[..n], k);
      var row := before[PositionOf(before, id)];
      FilterMember((u: Touch) => u.id != t.id, before, row);
      assert row in Drop(before, t.id);
      assert row in Recency(touches);
    }
  }

  /* ---- Purging and touching keep the exact suffix ---- */

  ghost function RowOf<P>(rows: seq<Entry<P>>, id: string): (q: nat)
    ensures q <= |rows|
    ensures q < |rows| ==> rows[q].id == id
    ensures q == |rows| ==> forall i | 0 <= i < |rows| :: rows[i].id != id
  {
    if rows == [] then 0 else if rows[0].id == id then 0 else 1 + RowOf(rows[1..], id)
  }

  lemma {:induction false} WithoutShape<P>(rows: seq<Entry<P>>, id: string)
    requires UniqueIds(rows)
    ensures var q := RowOf(rows, id);
            && |Without(rows, id)| == (if q < |rows| then |rows| - 1 else |rows|)
            && forall i | 0 <= i < |Without(rows, id)| :: Without(rows, id)[i] == rows[Source(q, i)]
  {
    if rows != [] {
      WithoutShape(rows[1..], id);
      if rows[0].id == id {
        FilterAll((e: Entry<P>) => e.id != id, rows[1..]);
      }
    }
  }

  /** In chronological order the dead rows form a prefix. */
  lemma {:induction false} DeadPrefix<P>(rows: seq<Entry<P>>, now: real, ttl: real) returns (d: nat)
    requires forall i, j | 0 <= i < j < |rows| :: rows[i].lastSeen <= rows[j].lastSeen
    ensures d <= |rows| && Alive(rows, now, ttl) == rows[d..]
    ensures forall i | 0 <= i < |rows| :: IsAlive(rows[i], now, ttl) <==> i >= d
  {
    if rows == [] {
      d := 0;
    } else if IsAlive(rows[0], now, ttl) {
      d := 0;
      assert forall i | 0 <= i < |rows| :: rows[0].lastSeen <= rows[i].lastSeen;
      FilterAll((e: Entry<P>) => IsAlive(e, now, ttl), rows);
    } else {
      d := DeadPrefix(rows[1..], now, ttl);
      d := d + 1;
    }
  }

  lemma {:induction false} PurgeKeepsSuffix<P>(config: Config, touches: seq<Touch>, before: real, now: real,
                            rows: seq<Entry<P>>, c: nat) returns (c': nat)
    requires Chronological(touches, before) && before <= now
    requires RetainsFrom(config, touches, before, rows, c)
    ensures RetainsFrom(config, touches, now, Alive(rows, now, config.ttl), c')
  {
    var recent := Recency(touches);
    RecencyOrdered(touches, before);
    forall i, j | 0 <= i < j < |rows|
      ensures rows[i].lastSeen <= rows[j].lastSeen
    {
      assert recent[c + i].at <= recent[c + j].at;
    }
    var d := DeadPrefix(rows, now, config.ttl);
    c' := c + d;
    forall i | 0 <= i < |recent|
      ensures Kept(config, recent, i, now) <==> i >= c'
    {
      assert Kept(config, recent, i, before) <==> i >= c;
      if i >= c {
        assert rows[i - c].lastSeen == recent[i].at;
      }
    }
  }

  /** Where the kept part begins once `id` is dropped from it. */
  ghost function Cut(recent: seq<Touch>, c: nat, id: string): nat {
    if PositionOf(recent, id) < c then c - 1 else c
  }

  lemma {:induction false} DropAligned<P>(recent: seq<Touch>, rows: seq<Entry<P>>, c: nat, id: string)
    requires DistinctTouches(recent) && UniqueIds(rows) && Aligned(recent, rows, c)
    ensures Aligned(Drop(recent, id), Without(rows, id), Cut(recent, c, id))
  {
    DropShape(recent, id);
    WithoutShape(rows, id);
    SamePosition(recent, rows, c, id);
    var others, q := Without(rows, id), RowOf(rows, id);
    forall i | 0 <= i < |others|
      ensures others[i].id == Drop(recent, id)[Cut(recent, c, id) + i].id
      ensures others[i].lastSeen == Drop(recent, id)[Cut(recent, c, id) + i].at
    {
      assert rows[Source(q, i)].id == recent[c + Source(q, i)].id;
    }
  }

  lemma {:induction false} AppendAligned<P>(base: seq<Touch>, others: seq<Entry<P>>, cut: nat, max: nat, entry: Entry<P>)
    requires max > 0 && Aligned(base, others, cut)
    ensures var kept := Evicted(others, max);
            Aligned(base + [Touch(entry.id, entry.lastSeen)], kept + [entry], cut + |others| - |kept|)
  {
    var kept := Evicted(others, max);
    assert forall i | 0 <= i < |kept| :: kept[i] == others[|others| - |kept| + i];
  }

  lemma {:induction false} AppendBoundary(config: Config, recent: seq<Touch>, t: Touch, c: nat, c': nat)
    requires config.Valid() && DistinctTouches(recent) && Boundary(config, recent, t.at, c)
    requires var base, cut := Drop(recent, t.id), Cut(recent, c, t.id);
             cut <= |base| && c' == if |base| - cut >= config.maxSessions then |base| - config.maxSessions + 1 else cut
    requires |recent| - c <= config.maxSessions
    ensures Boundary(config, Drop(recent, t.id) + [t], t.at, c')
  {
    DropShape(recent, t.id);
    var base, p := Drop(recent, t.id), PositionOf(recent, t.id);
    forall i | 0 <= i < |base + [t]|
      ensures Kept(config, base + [t], i, t.at) <==> i >= c'
    {
      if i < |base| {
        assert base[i] == recent[Source(p, i)];
        assert Kept(config, recent, Source(p, i), t.at) <==> Source(p, i) >= c;
      }
    }
  }

  lemma {:induction false} TouchKeepsSuffix<P>(config: Config, touches: seq<Touch>, now: real, rows: seq<Entry<P>>, c: nat,
                            entry: Entry<P>) returns (c': nat)
    requires config.Valid() && Chronological(touches, now) && entry.lastSeen == now
    requires RetainsFrom(config, touches, now, rows, c)
    ensures RetainsFrom(config, touches + [Touch(entry.id, now)], now,
                        Evicted(Without(rows, entry.id), config.maxSessions) + [entry], c')
  {
    var recent, t := Recency(touches), Touch(entry.id, now);
    RecencyOrdered(touches, now);
    RecencyStep(touches, t);
    SuffixUnique(touches, now, rows, config, c);
    DropAligned(recent, rows, c, entry.id);
    var base, others := Drop(recent, entry.id), Without(rows, entry.id);
    var cut := Cut(recent, c, entry.id);
    var kept := Evicted(others, config.maxSessions);
    c' := cut + |others| - |kept|;
    AppendBoundary(config, recent, t, c, c');
    AppendAligned(base, others, cut, config.maxSessions, entry);
  }

  /** A resident id sits at the same place in the rows as in the kept part of the recency list. */
  lemma {:induction false} SamePosition<P>(recent: seq<Touch>, rows: seq<Entry<P>>, c: nat, id: string)
    requires DistinctTouches(recent) && |rows| == |recent| - c
    requires forall i | 0 <= i < |rows| :: rows[i].id == recent[c + i].id
    ensures var p, q := PositionOf(recent, id), RowOf(rows, id);
            if p < c then q == |rows| else p == c + q
  {
    var p, q := PositionOf(recent, id), RowOf(rows, id);
    if c <= p < |recent| {
      assert rows[p - c].id == id;
    }
    if q < |rows| {
      assert recent[c + q].id == id;
    }
  }

  /* ---- The run theorem ---- */

  /** What holds of the store after the first `k` operations of a run. */
  ghost predicate Exact<P>(config: Config, touches: seq<Touch>, now: real, s: Snapshot<P>) {
    && Chronological(touches, now)
    && (exists c: nat :: RetainsFrom(config, touches, now, s.rows, c))
    && IdSet(s.rows) !! s.expired
    && |s.expired| <= 4 * config.maxSessions + 1
  }

  ghost function TouchOf<P>(call: Call<P>, reply: Reply<P>): seq<Touch> {
    if reply.Failed? then [] else [Touch(call.op.Id(), call.now)]
  }

  lemma {:induction false} SubsetCardinality<T>(a: set<T>, b: set<T>)
    requires a <= b
    ensures |a| <= |b|
  {
    assert b == a + (b - a);
  }

  lemma {:induction false} AliveIds<P>(rows: seq<Entry<P>>, now: real, ttl: real)
    requires UniqueIds(rows)
    ensures UniqueIds(Alive(rows, now, ttl))
    ensures IdSet(Alive(rows, now, ttl)) == IdSet(rows) - DeadIds(rows, now, ttl)
  {
    var keep := (e: Entry<P>) => IsAlive(e, now, ttl);
    FilterUnique(keep, rows);
    var alive := Alive(rows, now, ttl);
    forall i | 0 <= i < |rows| && IsAlive(rows[i], now, ttl)
      ensures rows[i].id in IdSet(alive)
    {
      FilterMember(keep, rows, rows[i]);
      var j :| 0 <= j < |alive| && alive[j] == rows[i];
    }
    forall i | 0 <= i < |alive|
      ensures alive[i].id in IdSet(rows) - DeadIds(rows, now, ttl)
    {
      FilterMember(keep, rows, alive[i]);
      var j :| 0 <= j < |rows| && rows[j] == alive[i];
    }
  }

  lemma {:induction false} WithoutIds<P>(rows: seq<Entry<P>>, id: string)
    ensures IdSet(Without(rows, id)) == IdSet(rows) - {id}
  {
    var others := Without(rows, id);
    WithoutLacks(rows, id);
    forall i | 0 <= i < |rows| && rows[i].id != id
      ensures rows[i].id in IdSet(others)
    {
      var j :| 0 <= j < |others| && others[j] == rows[i];
    }
    forall i | 0 <= i < |others|
      ensures others[i].id in IdSet(rows) - {id}
    {
      var j :| 0 <= j < |rows| && rows[j] == others[i];
    }
  }

  lemma {:induction false} SuffixUnique<P>(touches: seq<Touch>, now: real, rows: seq<Entry<P>>, config: Config, c: nat)
    requires config.Valid() && Chronological(touches, now) && RetainsFrom(config, touches, now, rows, c)
    ensures UniqueIds(rows) && |rows| <= config.maxSessions
  {
    RecencyOrdered(touches, now);
    var recent := Recency(touches);
    if rows != [] {
      assert Kept(config, recent, c, now);
    }
  }

  /** Tombstones stay apart from rows and within their bound. */
  lemma {:induction false} AfterTombstones<P>(config: Config, mid: Snapshot<P>, call: Call<P>)
    requires config.Valid() && UniqueIds(mid.rows) && |mid.rows| <= config.maxSessions
    requires IdSet(mid.rows) !! mid.expired && |mid.expired| <= 4 * config.maxSessions
    ensures var s' := After(config, mid, call).0;
            IdSet(s'.rows) !! s'.expired && |s'.expired| <= 4 * config.maxSessions + 1
  {
    var id := call.op.Id();
    var others := Without(mid.rows, id);
    WithoutIds(mid.rows, id);
    WithoutUnique(mid.rows, id);
    var (s', reply) := After(config, mid, call);
    if !reply.Failed? {
      var entry := s'.rows[|s'.rows| - 1];
      if call.op.PutOp? {
        var kept := Evicted(others, config.maxSessions);
        var cut := |others| - |kept|;
        assert kept == others[cut..] && cut <= 1;
        assert forall i, j | 0 <= i < cut <= j < |others| :: others[i].id != others[j].id;
        var gone := IdSet(others[..cut]);
        assert gone <= (if cut == 0 then {} else {others[0].id});
        SubsetCardinality(gone, if cut == 0 then {} else {others[0].id});
        SubsetCardinality(s'.expired, mid.expired + gone);
        assert IdSet(kept) !! gone;
        assert IdSet(kept) <= IdSet(others) by {
          forall i | 0 <= i < |kept|
            ensures kept[i].id in IdSet(others)
          {
            assert others[cut + i].id in IdSet(others);
          }
        }
        assert IdSet(kept + [entry]) == IdSet(kept) + {id} by { IdSetAppend(kept, entry); }
      } else {
        IdSetAppend(others, entry);
      }
    }
  }

  lemma {:induction false} IdSetAppend<P>(rows: seq<Entry<P>>, e: Entry<P>)
    ensures IdSet(rows + [e]) == IdSet(rows) + {e.id}
  {
    assert (rows + [e])[|rows|] == e;
    assert forall i | 0 <= i < |rows| :: (rows + [e])[i] == rows[i];
  }

  /** A successful operation moves its row to the end of the map and evicts at most the oldest. */
  lemma {:induction false} AfterTouch<P>(config: Config, mid: Snapshot<P>, call: Call<P>)
    requires config.Valid() && UniqueIds(mid.rows) && |mid.rows| <= config.maxSessions
    requires !After(config, mid, call).1.Failed?
    ensures var rows' := After(config, mid, call).0.rows;
            rows' != [] && var entry := rows'[|rows'| - 1];
            && entry.id == call.op.Id() && entry.lastSeen == call.now
            && rows' == Evicted(Without(mid.rows, entry.id), config.maxSessions) + [entry]
  {
    WithoutUnique(mid.rows, call.op.Id());
  }

  lemma {:induction false} PurgedExact<P>(config: Config, touches: seq<Touch>, before: real, s: Snapshot<P>, now: real, kept: set<string>)
    requires config.Valid() && Exact(config, touches, before, s) && before <= now
    requires Trimmed(config, s.expired + DeadIds(s.rows, now, config.ttl), kept)
    ensures var mid := Snapshot(Alive(s.rows, now, config.ttl), kept);
            && UniqueIds(mid.rows) && |mid.rows| <= config.maxSessions
            && Exact(config, touches, now, mid) && |kept| <= 4 * config.maxSessions
  {
    var c: nat :| RetainsFrom(config, touches, before, s.rows, c);
    SuffixUnique(touches, before, s.rows, config, c);
    AliveIds(s.rows, now, config.ttl);
    var c1 := PurgeKeepsSuffix(config, touches, before, now, s.rows, c);
    SuffixUnique(touches, now, Alive(s.rows, now, config.ttl), config, c1);
  }

  lemma {:induction false} FailureChangesNothing<P>(config: Config, mid: Snapshot<P>, call: Call<P>)
    requires config.Valid() && After(config, mid, call).1.Failed?
    ensures After(config, mid, call).0 == mid
  {
  }

  lemma {:induction false} AfterKeepsExact<P>(config: Config, touches: seq<Touch>, mid: Snapshot<P>, call: Call<P>)
    requires config.Valid() && Exact(config, touches, call.now, mid)
    requires UniqueIds(mid.rows) && |mid.rows| <= config.maxSessions && |mid.expired| <= 4 * config.maxSessions
    ensures var (s', reply) := After(config, mid, call);
            Exact(config, touches + TouchOf(call, reply), call.now, s')
  {
    var (s', reply) := After(config, mid, call);
    if reply.Failed? {
      FailureChangesNothing(config, mid, call);
      assert touches + TouchOf(call, reply) == touches;
    } else {
      AfterTombstones(config, mid, call);
      AfterTouch(config, mid, call);
      var c: nat :| RetainsFrom(config, touches, call.now, mid.rows, c);
      var c' := TouchKeepsSuffix(config, touches, call.now, mid.rows, c, s'.rows[|s'.rows| - 1]);
    }
  }

  lemma {:induction false} StepKeepsExact<P>(config: Config, touches: seq<Touch>, before: real, s: Snapshot<P>,
                          call: Call<P>, s': Snapshot<P>, reply: Reply<P>)
    requires config.Valid() && Exact(config, touches, before, s) && before <= call.now
    requires Step(config, s, call, s', reply)
    ensures Exact(config, touches + TouchOf(call, reply), call.now, s')
  {
    var kept: set<string> :|
      && Trimmed(config, s.expired + DeadIds(s.rows, call.now, config.ttl), kept)
      && (s', reply) == After(config, Snapshot(Alive(s.rows, call.now, config.ttl), kept), call);
    PurgedExact(config, touches, before, s, call.now, kept);
    AfterKeepsExact(config, touches, Snapshot(Alive(s.rows, call.now, config.ttl), kept), call);
  }

  lemma {:induction false} TouchesNext<P>(calls: seq<Call<P>>, replies: seq<Reply<P>>, n: nat)
    requires |calls| == |replies| && n < |calls|
    ensures Touches(calls[..n + 1], replies[..n + 1])
         == Touches(calls[..n], replies[..n]) + TouchOf(calls[n], replies[n])
  {
    assert calls[..n + 1][..n] == calls[..n] && replies[..n + 1][..n] == replies[..n];
  }

  lemma {:induction false} EmptyExact<P>(config: Config, now: real)
    ensures Exact<P>(config, [], now, Snapshot([], {}))
  {
    assert RetainsFrom<P>(config, [], now, [], 0);
  }

  lemma {:induction false} RunExact<P>(config: Config, run: Run<P>, k: nat)
    requires IsRun(config, run) && 0 < k <= |run.calls|
    ensures Exact(config, Touches(run.calls[..k], run.replies[..k]), run.calls[k - 1].now, run.states[k])
  {
    var n := k - 1;
    var call := run.calls[n];
    TouchesNext(run.calls, run.replies, n);
    var before := if n == 0 then call.now else run.calls[n - 1].now;
    if n == 0 {
      EmptyExact<P>(config, before);
    } else {
      RunExact(config, run, n);
    }
    StepKeepsExact(config, Touches(run.calls[..n], run.replies[..n]), before,
                   run.states[n], call, run.states[k], run.replies[n]);
  }

  lemma {:induction false} ResidentIsRecent<P>(config: Config, touches: seq<Touch>, now: real, rows: seq<Entry<P>>, c: nat, id: string)
    requires Chronological(touches, now) && RetainsFrom(config, touches, now, rows, c)
    requires Find(rows, id).Some?
    ensures ShouldBeResident(config, touches, now, id)
  {
    var i :| 0 <= i < |rows| && rows[i].id == id;
    var recent, p := Recency(touches), c + i;
    assert recent[p].id == id && Kept(config, recent, p, now);
    RecencyOrdered(touches, now);
    var k := RecencyMeaning(touches, now, p);
    IdsAfterCount(recent, p);
  }

  lemma {:induction false} RecentIsResident<P>(config: Config, touches: seq<Touch>, now: real, rows: seq<Entry<P>>, c: nat, id: string)
    requires Chronological(touches, now) && RetainsFrom(config, touches, now, rows, c)
    requires ShouldBeResident(config, touches, now, id)
    ensures Find(rows, id).Some?
  {
    var k: nat :| IsLastTouch(touches, k, id) && now - touches[k].at < config.ttl
                  && |TouchedSince(touches, k)| < config.maxSessions;
    RecencyOrdered(touches, now);
    EveryTouchIsRecent(touches, k);
    var p := PositionOf(Recency(touches), id);
    var k' := RecencyMeaning(touches, now, p);
    IdsAfterCount(Recency(touches), p);
    assert k == k';
    assert Kept(config, Recency(touches), p, now);
    assert rows[p - c].id == id;
  }

  /** After any operation of any monotone run a session is resident exactly when its last
      successful touch is younger than the TTL and fewer than `maxSessions` distinct other
      sessions were touched since. */
  lemma {:induction false} ResidentExactly<P>(config: Config, run: Run<P>, k: nat, id: string)
    requires IsRun(config, run) && 0 < k <= |run.calls|
    ensures Find(run.states[k].rows, id).Some?
       <==> ShouldBeResident(config, Touches(run.calls[..k], run.replies[..k]), run.calls[k - 1].now, id)
  {
    RunExact(config, run, k);
    var touches, now, rows := Touches(run.calls[..k], run.replies[..k]), run.calls[k - 1].now, run.states[k].rows;
    var c: nat :| RetainsFrom(config, touches, now, rows, c);
    if Find(rows, id).Some? {
      ResidentIsRecent(config, touches, now, rows, c, id);
    }
    if ShouldBeResident(config, touches, now, id) {
      RecentIsResident(config, touches, now, rows, c, id);
    }
  }

  /** Along a run: rows are in last-seen order and unique, never more than `maxSessions`; the dead
      ones at any later time are a prefix; no id is both resident and a tombstone; tombstones
      number at most `4 * maxSessions + 1`. */
  lemma {:induction false} RunShape<P>(config: Config, run: Run<P>, k: nat, later: real) returns (d: nat)
    requires IsRun(config, run) && k <= |run.calls|
    ensures var s := run.states[k];
            && UniqueIds(s.rows) && |s.rows| <= config.maxSessions
            && (forall i, j | 0 <= i < j < |s.rows| :: s.rows[i].lastSeen <= s.rows[j].lastSeen)
            && (d <= |s.rows| && forall i | 0 <= i < |s.rows| :: IsAlive(s.rows[i], later, config.ttl) <==> i >= d)
            && IdSet(s.rows) !! s.expired
            && |s.expired| <= 4 * config.maxSessions + 1
  {
    var s := run.states[k];
    if k == 0 {
      d := 0;
    } else {
      RunExact(config, run, k);
      var touches, now := Touches(run.calls[..k], run.replies[..k]), run.calls[k - 1].now;
      var c: nat :| RetainsFrom(config, touches, now, s.rows, c);
      SuffixUnique(touches, now, s.rows, config, c);
      RecencyOrdered(touches, now);
      d := DeadPrefix(s.rows, later, config.ttl);
    }
  }
}
