/** What the store replies. */
module SessionReplies {
  import opened Wrappers
  import opened SessionModel
  import opened SessionStore
  import opened SessionRetention

  /* ---- What was stored last ---- */

  /** A session as its last successful put or replacement left it, seen at its last touch. */
  ghost function LastState<P>(calls: seq<Call<P>>, replies: seq<Reply<P>>, id: string): Option<SessionState<P>>
    requires |calls| == |replies|
  {
    if calls == [] then None else
    var n := |calls| - 1;
    var before := LastState(calls[..n], replies[..n], id);
    if replies[n].Failed? || calls[n].op.Id() != id then before
    else match calls[n].op
         case GetOp(_) => if before.Some? then Some(before.value.(lastAccessed := calls[n].wall)) else None
         case PutOp(state) => Some(state.(lastAccessed := calls[n].wall))
         case CompareAndPutOp(state, _, _) => Some(state.(lastAccessed := calls[n].wall))
  }

  ghost predicate HoldsLast<P>(calls: seq<Call<P>>, replies: seq<Reply<P>>, rows: seq<Entry<P>>)
    requires |calls| == |replies|
  {
    forall row | row in rows :: LastState(calls, replies, row.id) == Some(row.state)
  }

  /* ---- Which sessions are known ---- */

  ghost function TouchedIds(touches: seq<Touch>): set<string> {
    set t | t in touches :: t.id
  }

  /** Rows and tombstones are of sessions once touched; as long as these are not too many, none is forgotten. */
  ghost predicate Accounted<P>(config: Config, touches: seq<Touch>, s: Snapshot<P>) {
    var touched := TouchedIds(touches);
    && IdSet(s.rows) <= touched && s.expired <= touched
    && (|touched| <= 4 * config.maxSessions ==> touched <= IdSet(s.rows) + s.expired)
  }

  lemma {:induction false} PurgeAccounted<P>(config: Config, touches: seq<Touch>, s: Snapshot<P>, now: real, kept: set<string>)
    requires Accounted(config, touches, s) && UniqueIds(s.rows)
    requires Trimmed(config, s.expired + DeadIds(s.rows, now, config.ttl), kept)
    ensures Accounted(config, touches, Snapshot(Alive(s.rows, now, config.ttl), kept))
    ensures |TouchedIds(touches)| <= 4 * config.maxSessions ==> kept == s.expired + DeadIds(s.rows, now, config.ttl)
  {
    AliveIds(s.rows, now, config.ttl);
    var full := s.expired + DeadIds(s.rows, now, config.ttl);
    assert DeadIds(s.rows, now, config.ttl) <= IdSet(s.rows);
    SubsetCardinality(full, TouchedIds(touches));
  }

  lemma {:induction false} TouchedMore(touches: seq<Touch>, t: Touch)
    ensures TouchedIds(touches + [t]) == TouchedIds(touches) + {t.id}
  {
    assert forall u :: u in touches + [t] <==> u in touches || u == t;
  }

  /** What a successful operation does to the ids. */
  lemma {:induction false} TouchedRows<P>(config: Config, mid: Snapshot<P>, call: Call<P>)
    requires config.Valid() && UniqueIds(mid.rows) && |mid.rows| <= config.maxSessions && IdSet(mid.rows) !! mid.expired
    requires !After(config, mid, call).1.Failed?
    ensures var s', id := After(config, mid, call).0, call.op.Id();
            && IdSet(s'.rows) + s'.expired == IdSet(mid.rows) + mid.expired + {id}
            && id in IdSet(s'.rows)
  {
    var id := call.op.Id();
    var others := Without(mid.rows, id);
    WithoutIds(mid.rows, id);
    WithoutUnique(mid.rows, id);
    var s' := After(config, mid, call).0;
    var entry := s'.rows[|s'.rows| - 1];
    if call.op.PutOp? {
      var kept := Evicted(others, config.maxSessions);
      var cut := |others| - |kept|;
      assert kept == others[cut..];
      IdSetAppend(kept, entry);
      SplitIds(others, cut);
    } else {
      IdSetAppend(others, entry);
      FoundId(mid.rows, id);
    }
  }

  lemma {:induction false} FoundId<P>(rows: seq<Entry<P>>, id: string)
    ensures Find(rows, id).Some? <==> id in IdSet(rows)
  {
    if e :| e in rows && e.id == id {
      var i :| 0 <= i < |rows| && rows[i] == e;
    }
  }

  lemma {:induction false} SplitIds<P>(rows: seq<Entry<P>>, cut: nat)
    requires cut <= |rows|
    ensures IdSet(rows) == IdSet(rows[..cut]) + IdSet(rows[cut..])
  {
    forall i | 0 <= i < |rows|
      ensures rows[i].id in IdSet(rows[..cut]) + IdSet(rows[cut..])
    {
      if i < cut {
        assert rows[..cut][i] == rows[i];
      } else {
        assert rows[cut..][i - cut] == rows[i];
      }
    }
    assert forall i | 0 <= i < |rows[cut..]| :: rows[cut..][i] == rows[cut + i];
  }

  lemma {:induction false} AfterAccounted<P>(config: Config, touches: seq<Touch>, mid: Snapshot<P>, call: Call<P>)
    requires config.Valid() && UniqueIds(mid.rows) && |mid.rows| <= config.maxSessions && IdSet(mid.rows) !! mid.expired
    requires Accounted(config, touches, mid)
    ensures var (s', reply) := After(config, mid, call);
            Accounted(config, touches + TouchOf(call, reply), s')
  {
    var (s', reply) := After(config, mid, call);
    if reply.Failed? {
      FailureChangesNothing(config, mid, call);
      assert touches + TouchOf(call, reply) == touches;
    } else {
      TouchedRows(config, mid, call);
      TouchedMore(touches, Touch(call.op.Id(), call.now));
      SubsetCardinality(TouchedIds(touches), TouchedIds(touches) + {call.op.Id()});
    }
  }

  /* ---- States ---- */

  lemma {:induction false} LastStateNext<P>(calls: seq<Call<P>>, replies: seq<Reply<P>>, n: nat, id: string)
    requires |calls| == |replies| && n < |calls|
    ensures var before, after := LastState(calls[..n], replies[..n], id), LastState(calls[..n + 1], replies[..n + 1], id);
            after == if replies[n].Failed? || calls[n].op.Id() != id then before
                     else match calls[n].op
                          case GetOp(_) => (if before.Some? then Some(before.value.(lastAccessed := calls[n].wall)) else None)
                          case PutOp(state) => Some(state.(lastAccessed := calls[n].wall))
                          case CompareAndPutOp(state, _, _) => Some(state.(lastAccessed := calls[n].wall))
  {
    assert calls[..n + 1][..n] == calls[..n] && replies[..n + 1][..n] == replies[..n];
  }

  lemma {:induction false} AfterRow<P>(config: Config, mid: Snapshot<P>, call: Call<P>, row': Entry<P>)
    requires config.Valid() && UniqueIds(mid.rows) && row' in After(config, mid, call).0.rows
    ensures var (s', reply) := After(config, mid, call);
            || (row' in mid.rows && (reply.Failed? || row'.id != call.op.Id()))
            || (!reply.Failed? && row'.id == call.op.Id()
                && match call.op
                   case GetOp(_) => (exists row :: row in mid.rows && row.id == row'.id && row'.state == row.state.(lastAccessed := call.wall))
                   case PutOp(state) => row'.state == state.(lastAccessed := call.wall)
                   case CompareAndPutOp(state, _, _) => row'.state == state.(lastAccessed := call.wall))
  {
    var others := Without(mid.rows, call.op.Id());
    WithoutLacks(mid.rows, call.op.Id());
    var (s', reply) := After(config, mid, call);
    if reply.Failed? {
      FailureChangesNothing(config, mid, call);
    } else {
      var entry := s'.rows[|s'.rows| - 1];
      assert row' in others || row' == entry;
    }
  }

  lemma {:induction false} HoldsLastNext<P>(config: Config, calls: seq<Call<P>>, replies: seq<Reply<P>>, n: nat, mid: Snapshot<P>, s': Snapshot<P>)
    requires config.Valid() && |calls| == |replies| && n < |calls| && UniqueIds(mid.rows)
    requires HoldsLast(calls[..n], replies[..n], mid.rows) && (s', replies[n]) == After(config, mid, calls[n])
    ensures HoldsLast(calls[..n + 1], replies[..n + 1], s'.rows)
  {
    forall row' | row' in s'.rows
      ensures LastState(calls[..n + 1], replies[..n + 1], row'.id) == Some(row'.state)
    {
      AfterRow(config, mid, calls[n], row');
      LastStateNext(calls, replies, n, row'.id);
    }
  }

  /* ---- Runs ---- */

  ghost predicate Known<P>(config: Config, run: Run<P>, k: nat)
    requires |run.replies| == |run.calls| && |run.states| == |run.calls| + 1 && k <= |run.calls|
  {
    && Accounted(config, Touches(run.calls[..k], run.replies[..k]), run.states[k])
    && HoldsLast(run.calls[..k], run.replies[..k], run.states[k].rows)
  }

  /** The purged store that operation `k` finds. */
  ghost predicate Found<P>(config: Config, run: Run<P>, k: nat, mid: Snapshot<P>)
    requires IsRun(config, run) && k < |run.calls|
  {
    var touches, now := Touches(run.calls[..k], run.replies[..k]), run.calls[k].now;
    && UniqueIds(mid.rows) && |mid.rows| <= config.maxSessions && Exact(config, touches, now, mid)
    && Accounted(config, touches, mid) && HoldsLast(run.calls[..k], run.replies[..k], mid.rows)
    && (run.states[k + 1], run.replies[k]) == After(config, mid, run.calls[k])
  }

  lemma {:induction false} PurgedIsFound<P>(config: Config, run: Run<P>, k: nat) returns (mid: Snapshot<P>)
    requires IsRun(config, run) && k < |run.calls| && Known(config, run, k)
    ensures Found(config, run, k, mid)
  {
    var s, call, touches := run.states[k], run.calls[k], Touches(run.calls[..k], run.replies[..k]);
    var before := if k == 0 then call.now else run.calls[k - 1].now;
    if k == 0 {
      EmptyExact<P>(config, before);
    } else {
      RunExact(config, run, k);
    }
    var kept: set<string> :|
      && Trimmed(config, s.expired + DeadIds(s.rows, call.now, config.ttl), kept)
      && (run.states[k + 1], run.replies[k]) == After(config, Snapshot(Alive(s.rows, call.now, config.ttl), kept), call);
    mid := Snapshot(Alive(s.rows, call.now, config.ttl), kept);
    PurgedExact(config, touches, before, s, call.now, kept);
    var c: nat :| RetainsFrom(config, touches, before, s.rows, c);
    SuffixUnique(touches, before, s.rows, config, c);
    PurgeAccounted(config, touches, s, call.now, kept);
    forall row | row in mid.rows
      ensures row in s.rows
    {
      FilterMember((e: Entry<P>) => IsAlive(e, call.now, config.ttl), s.rows, row);
    }
  }

  lemma {:induction false} RunIsKnown<P>(config: Config, run: Run<P>, k: nat)
    requires IsRun(config, run) && k <= |run.calls|
    ensures Known(config, run, k)
  {
    if k > 0 {
      RunIsKnown(config, run, k - 1);
      var mid := PurgedIsFound(config, run, k - 1);
      TouchesNext(run.calls, run.replies, k - 1);
      AfterAccounted(config, Touches(run.calls[..k - 1], run.replies[..k - 1]), mid, run.calls[k - 1]);
      HoldsLastNext(config, run.calls, run.replies, k - 1, mid, run.states[k]);
    }
  }

  /* ---- Replies ---- */

  /** Why a session is not there: it was once, or never. The difference is only lost after too many sessions. */
  ghost predicate MissTold<P>(config: Config, touches: seq<Touch>, id: string, reply: Reply<P>) {
    && (reply == Failed(Expired) || reply == Failed(NotFound))
    && (id !in TouchedIds(touches) ==> reply == Failed(NotFound))
    && (id in TouchedIds(touches) && |TouchedIds(touches)| <= 4 * config.maxSessions ==> reply == Failed(Expired))
  }

  /** What operation `k` answers, given the last state `was` of its session if that is resident. */
  ghost predicate Replies<P>(config: Config, touches: seq<Touch>, call: Call<P>, was: Option<SessionState<P>>, reply: Reply<P>) {
    match call.op
    case GetOp(id) =>
      if was.Some? then reply == Reply.Found(was.value.(lastAccessed := call.wall)) else MissTold(config, touches, id, reply)
    case PutOp(state) =>
      if was.Some? && (was.value.origin != state.origin || state.revision < was.value.revision) then reply == Failed(Rejected)
      else reply == Stored
    case CompareAndPutOp(state, revision, clarification) =>
      if was.None? then MissTold(config, touches, state.origin.sessionId, reply)
      else if !(was.value.revision == revision && was.value.status == Waiting && was.value.pending.Some?
                && was.value.pending.value.clarificationId == clarification) then reply == Failed(Stale)
      else if was.value.origin != state.origin || state.revision != revision + 1 then reply == Failed(Rejected)
      else reply == Stored
  }

  lemma {:induction false} MissIsTold<P>(config: Config, touches: seq<Touch>, mid: Snapshot<P>, id: string)
    requires Accounted(config, touches, mid) && Find(mid.rows, id).None?
    ensures MissTold<P>(config, touches, id, Failed(MissError(mid.expired, id)))
  {
    FoundId(mid.rows, id);
  }

  /** Over any run with a monotone clock: an operation finds its session exactly when that was touched within the time to live
      and fewer than the capacity of others since, in its last stored state seen at its last touch, and answers accordingly. */
  lemma {:induction false} RepliesExactly<P>(config: Config, run: Run<P>, k: nat)
    requires IsRun(config, run) && k < |run.calls|
    ensures var calls, replies, call := run.calls[..k], run.replies[..k], run.calls[k];
            var touches, id := Touches(calls, replies), call.op.Id();
            && (ShouldBeResident(config, touches, call.now, id) ==> LastState(calls, replies, id).Some?)
            && Replies(config, touches, call,
                       if ShouldBeResident(config, touches, call.now, id) then LastState(calls, replies, id) else None, run.replies[k])
  {
    RunIsKnown(config, run, k);
    var mid := PurgedIsFound(config, run, k);
    var call, touches := run.calls[k], Touches(run.calls[..k], run.replies[..k]);
    var id := call.op.Id();
    var c: nat :| RetainsFrom(config, touches, call.now, mid.rows, c);
    if Find(mid.rows, id).Some? {
      ResidentIsRecent(config, touches, call.now, mid.rows, c, id);
      assert LastState(run.calls[..k], run.replies[..k], id) == Some(Find(mid.rows, id).value.state);
    } else {
      if ShouldBeResident(config, touches, call.now, id) {
        RecentIsResident(config, touches, call.now, mid.rows, c, id);
      }
      MissIsTold(config, touches, mid, id);
    }
  }
}
