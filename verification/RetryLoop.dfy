/** The transport retry loop. */
module RetryLoop {
  import opened Wrappers

  const BACKOFF_BUDGET: real := 12.0
  const MIN_REMAINING: real := 12.0
  const BACKOFF_BASE: real := 1.0
  const MAX_RETRIES: nat := 8

  /** A delay the failure itself asks for. Anything that is not a number, or is negative, is no hint. */
  datatype Hint = NoHint | Seconds(s: real) | Forever

  datatype Kind = RateLimited | Transient

  /** What one call does: an answer, a retryable transport failure, or an error of another sort. */
  datatype Outcome<R> = Answer(r: R) | Transport(kind: Kind, hint: Hint) | OtherError(code: string)

  /** Attempt `k` ends with `outcome(k)` at time `failedAt(k)`, against an optional deadline. */
  datatype Provider<!R> = Provider(outcome: nat -> Outcome<R>, failedAt: nat -> real, deadline: Option<real>)

  datatype Reply<R> =
    | Done(r: R)
    | GaveUp(kind: Kind, retryCount: nat, retryWait: real, status: Option<int>)
    | Failed(code: string)

  function Sum(sleeps: seq<real>): real {
    if sleeps == [] then 0.0 else Sum(sleeps[..|sleeps| - 1]) + sleeps[|sleeps| - 1]
  }

  function Power(n: nat): real {
    if n == 0 then 1.0 else 2.0 * Power(n - 1)
  }

  function Min(a: real, b: real): real {
    if a <= b then a else b
  }

  function Remaining<R>(p: Provider<R>, k: nat): Option<real> {
    if p.deadline.Some? then Some(p.deadline.value - p.failedAt(k)) else None
  }

  /** How long to sleep after failure `k` (counted from 0) when `used` seconds have been slept. */
  function Delay<R>(p: Provider<R>, k: nat, used: real): real
    requires p.outcome(k).Transport?
  {
    var left, hint := BACKOFF_BUDGET - used, p.outcome(k).hint;
    var wanted := match hint
                  case Forever => left
                  case Seconds(s) => Min(if s >= 0.0 then s else BACKOFF_BASE * Power(k), left)
                  case NoHint => Min(BACKOFF_BASE * Power(k), left);
    if Remaining(p, k).Some? then Min(wanted, Remaining(p, k).value - MIN_REMAINING) else wanted
  }

  /** No retry follows failure `k`: retries or time are used up, or nothing is left to sleep. */
  predicate Stops<R>(p: Provider<R>, k: nat, used: real)
    requires p.outcome(k).Transport?
  {
    || k + 1 > MAX_RETRIES
    || (Remaining(p, k).Some? && Remaining(p, k).value < MIN_REMAINING)
    || Delay(p, k, used) <= 0.0
  }

  /** Sleep `k` follows a retryable failure that did not stop the loop, and lasts its delay. */
  ghost predicate SleptAt<R>(p: Provider<R>, sleeps: seq<real>, k: nat)
    requires k < |sleeps|
  {
    p.outcome(k).Transport? && !Stops(p, k, Sum(sleeps[..k])) && sleeps[k] == Delay(p, k, Sum(sleeps[..k]))
  }

  ghost predicate Slept<R>(p: Provider<R>, sleeps: seq<real>) {
    forall k | 0 <= k < |sleeps| :: SleptAt(p, sleeps, k)
  }

  function Thousandths(x: real): int {
    var n, rest := (x * 1000.0).Floor, x * 1000.0 - (x * 1000.0).Floor as real;
    if rest < 0.5 || (rest == 0.5 && n % 2 == 0) then n else n + 1
  }

  /** Rounded to three digits, halves to even. */
  function Rounded(x: real): real {
    Thousandths(x) as real / 1000.0
  }

  /** The nearest number of thousandths, and the even one of two. */
  lemma {:induction false} ThousandthsAreNearest(x: real)
    ensures var n := Thousandths(x);
            && -0.5 <= n as real - x * 1000.0 <= 0.5
            && (n as real - x * 1000.0 == 0.5 || n as real - x * 1000.0 == -0.5 ==> n % 2 == 0)
  {
    var n := (x * 1000.0).Floor;
    assert (n + 1) as real == n as real + 1.0;
  }

  /** What is reported when the loop gives up. */
  function GiveUp<R>(kind: Kind, sleeps: seq<real>): Reply<R> {
    GaveUp(kind, |sleeps|, Rounded(Sum(sleeps)), if kind == RateLimited then Some(429) else None)
  }

  /** The run that these sleeps and this reply describe: every call but the last failed and was retried. */
  ghost predicate IsRun<R>(p: Provider<R>, sleeps: seq<real>, reply: Reply<R>) {
    var last := |sleeps|;
    && Slept(p, sleeps)
    && match p.outcome(last)
       case Answer(r) => reply == Done(r)
       case OtherError(code) => reply == Failed(code)
       case Transport(kind, _) => Stops(p, last, Sum(sleeps)) && reply == GiveUp(kind, sleeps)
  }

  lemma {:induction false} SumAppend(sleeps: seq<real>, x: real)
    ensures Sum(sleeps + [x]) == Sum(sleeps) + x
  {
    assert (sleeps + [x])[..|sleeps|] == sleeps;
  }

  method CallWithTransportRetry<R>(p: Provider<R>) returns (reply: Reply<R>, ghost sleeps: seq<real>)
    ensures IsRun(p, sleeps, reply)
    ensures |sleeps| <= MAX_RETRIES
    ensures reply.GaveUp? ==>
              && reply.retryCount <= MAX_RETRIES && 0.0 <= reply.retryWait <= BACKOFF_BUDGET
              && (reply.status == Some(429) <==> reply.kind == RateLimited)
  {
    var backoffUsed, attempt := 0.0, 0;
    sleeps := [];
    while true
      invariant attempt == |sleeps| <= MAX_RETRIES
      invariant backoffUsed == Sum(sleeps)
      invariant Slept(p, sleeps)
      invariant 0.0 <= backoffUsed <= BACKOFF_BUDGET
      decreases MAX_RETRIES - attempt
    {
      match p.outcome(attempt)
      case Answer(r) =>
        return Done(r), sleeps;
      case OtherError(code) =>
        return Failed(code), sleeps;
      case Transport(kind, hint) =>
        ghost var k := attempt;
        attempt := attempt + 1;
        var remaining := if p.deadline.Some? then Some(p.deadline.value - p.failedAt(attempt - 1)) else None;
        if attempt > MAX_RETRIES || (remaining.Some? && remaining.value < MIN_REMAINING) {
          return GaveUp(kind, attempt - 1, Rounded(backoffUsed), if kind == RateLimited then Some(429) else None), sleeps;
        }
        var delay := if hint.Seconds? && hint.s >= 0.0 then hint.s else BACKOFF_BASE * Power(attempt - 1);
        if hint.Forever? || delay > BACKOFF_BUDGET - backoffUsed {
          delay := BACKOFF_BUDGET - backoffUsed;
        }
        if remaining.Some? && delay > remaining.value - MIN_REMAINING {
          delay := remaining.value - MIN_REMAINING;
        }
        assert delay == Delay(p, k, Sum(sleeps));
        if delay <= 0.0 {
          return GaveUp(kind, attempt - 1, Rounded(backoffUsed), if kind == RateLimited then Some(429) else None), sleeps;
        }
        backoffUsed := backoffUsed + delay;
        SleptMore(p, sleeps, delay);
        sleeps := sleeps + [delay];
    }
  }

  lemma {:induction false} SleptMore<R>(p: Provider<R>, sleeps: seq<real>, delay: real)
    requires Slept(p, sleeps) && p.outcome(|sleeps|).Transport?
    requires !Stops(p, |sleeps|, Sum(sleeps)) && delay == Delay(p, |sleeps|, Sum(sleeps))
    ensures Slept(p, sleeps + [delay]) && Sum(sleeps + [delay]) == Sum(sleeps) + delay
  {
    var more := sleeps + [delay];
    SumAppend(sleeps, delay);
    forall k | 0 <= k < |more|
      ensures SleptAt(p, more, k)
    {
      assert more[..k] == (if k < |sleeps| then sleeps[..k] else sleeps);
      if k < |sleeps| {
        assert SleptAt(p, sleeps, k);
      }
    }
  }

  /* ---- The budget ---- */

  /** However the provider behaves, all sleeps together stay within the budget. */
  lemma {:induction false} BudgetIsKept<R>(p: Provider<R>, sleeps: seq<real>, n: nat)
    requires Slept(p, sleeps) && n <= |sleeps|
    ensures 0.0 <= Sum(sleeps[..n]) <= BACKOFF_BUDGET
    ensures n > 0 ==> Sum(sleeps[..n]) > 0.0
  {
    if n > 0 {
      BudgetIsKept(p, sleeps, n - 1);
      assert SleptAt(p, sleeps, n - 1);
      assert sleeps[..n] == sleeps[..n - 1] + [sleeps[n - 1]];
      SumAppend(sleeps[..n - 1], sleeps[n - 1]);
    }
  }

  /** Every sleep is positive, comes after at most seven others, and ends with the required time left. */
  lemma {:induction false} SleepsAreSafe<R>(p: Provider<R>, sleeps: seq<real>, k: nat)
    requires Slept(p, sleeps) && k < |sleeps|
    ensures 0.0 < sleeps[k] && k < MAX_RETRIES
    ensures p.deadline.Some? ==> p.deadline.value - (p.failedAt(k) + sleeps[k]) >= MIN_REMAINING
  {
    assert SleptAt(p, sleeps, k);
  }

  /** The whole run: at most nine calls, at most twelve seconds asleep, and the report tells the retries
      made and the time slept. */
  lemma {:induction false} RunIsBounded<R>(p: Provider<R>, sleeps: seq<real>, reply: Reply<R>)
    requires IsRun(p, sleeps, reply)
    ensures |sleeps| + 1 <= 9 && Sum(sleeps) <= BACKOFF_BUDGET
    ensures reply.GaveUp? ==> reply.retryCount == |sleeps| && -0.0005 <= reply.retryWait - Sum(sleeps) <= 0.0005
  {
    BudgetIsKept(p, sleeps, |sleeps|);
    assert sleeps[..|sleeps|] == sleeps;
    if sleeps != [] {
      SleepsAreSafe(p, sleeps, |sleeps| - 1);
    }
  }

  /** A provider determines its run. */
  lemma {:induction false} SleepsAreDetermined<R>(p: Provider<R>, a: seq<real>, b: seq<real>, n: nat)
    requires Slept(p, a) && Slept(p, b) && n <= |a| && n <= |b|
    ensures a[..n] == b[..n]
  {
    if n > 0 {
      SleepsAreDetermined(p, a, b, n - 1);
      assert SleptAt(p, a, n - 1) && SleptAt(p, b, n - 1);
      assert a[..n] == a[..n - 1] + [a[n - 1]] && b[..n] == b[..n - 1] + [b[n - 1]];
    }
  }

  lemma {:induction false} RunIsDetermined<R>(p: Provider<R>, a: seq<real>, b: seq<real>, r: Reply<R>, s: Reply<R>)
    requires IsRun(p, a, r) && IsRun(p, b, s)
    ensures a == b && r == s
  {
    NotLonger(p, a, b, r);
    NotLonger(p, b, a, s);
    SleepsAreDetermined(p, a, b, |a|);
    assert a == a[..|a|] && b == b[..|a|];
  }

  /** No run goes on where another ended. */
  lemma {:induction false} NotLonger<R>(p: Provider<R>, a: seq<real>, b: seq<real>, r: Reply<R>)
    requires IsRun(p, a, r) && Slept(p, b)
    ensures |b| <= |a|
  {
    SleepsAreDetermined(p, a, b, if |a| < |b| then |a| else |b|);
    assert a == a[..|a|];
    assert |a| < |b| ==> SleptAt(p, b, |a|);
  }

  /* ---- Particular providers ---- */

  /** A provider that always fails the same way, without a deadline. */
  function Persistent<R>(kind: Kind, hint: Hint): Provider<R> {
    Provider((k: nat) => Transport(kind, hint), (k: nat) => 0.0, None)
  }

  const DOUBLING: seq<real> := [1.0, 2.0, 4.0, 5.0]

  lemma {:induction false} DoublingSums()
    ensures Sum(DOUBLING[..0]) == 0.0 && Sum(DOUBLING[..1]) == 1.0 && Sum(DOUBLING[..2]) == 3.0 && Sum(DOUBLING[..3]) == 7.0
    ensures Sum(DOUBLING) == 12.0
  {
    assert DOUBLING[..1] == DOUBLING[..0] + [1.0] && DOUBLING[..2] == DOUBLING[..1] + [2.0];
    assert DOUBLING[..3] == DOUBLING[..2] + [4.0] && DOUBLING == DOUBLING[..3] + [5.0];
    SumAppend(DOUBLING[..0], 1.0);
    SumAppend(DOUBLING[..1], 2.0);
    SumAppend(DOUBLING[..2], 4.0);
    SumAppend(DOUBLING[..3], 5.0);
  }

  lemma {:induction false} DoublingSleeps<R>(kind: Kind, k: nat)
    requires k < 4
    ensures SleptAt(Persistent<R>(kind, NoHint), DOUBLING, k)
  {
    DoublingSums();
    assert Power(0) == 1.0 && Power(1) == 2.0 && Power(2) == 4.0 && Power(3) == 8.0;
  }

  /** Without a hint or a deadline, persistent failure is called five times, sleeping 1, 2, 4 and 5 seconds. */
  lemma {:induction false} PersistentFailure<R>(kind: Kind, sleeps: seq<real>, reply: Reply<R>)
    requires IsRun(Persistent<R>(kind, NoHint), sleeps, reply)
    ensures sleeps == [1.0, 2.0, 4.0, 5.0]
    ensures reply == GaveUp(kind, 4, 12.0, if kind == RateLimited then Some(429) else None)
  {
    var p: Provider<R> := Persistent(kind, NoHint);
    DoublingSums();
    forall k | 0 <= k < |DOUBLING|
      ensures SleptAt(p, DOUBLING, k)
    {
      DoublingSleeps<R>(kind, k);
    }
    assert Delay(p, 4, 12.0) <= 0.0;
    assert Thousandths(12.0) == 12000;
    RunIsDetermined(p, sleeps, DOUBLING, reply, GiveUp(kind, DOUBLING));
  }

  /** A hint of zero seconds means no retry at all. */
  lemma {:induction false} ZeroHintGivesUp<R>(p: Provider<R>, sleeps: seq<real>, reply: Reply<R>)
    requires p.outcome(0).Transport? && p.outcome(0).hint == Seconds(0.0) && IsRun(p, sleeps, reply)
    ensures sleeps == [] && reply == GaveUp(p.outcome(0).kind, 0, 0.0, if p.outcome(0).kind == RateLimited then Some(429) else None)
  {
    assert Delay(p, 0, 0.0) <= 0.0;
    assert Thousandths(0.0) == 0;
    RunIsDetermined(p, sleeps, [], reply, GiveUp(p.outcome(0).kind, []));
  }

  /** A hint beyond the budget is cut to it, so at most one retry follows. */
  lemma {:induction false} LongHintRetriesOnce<R>(kind: Kind, sleeps: seq<real>, reply: Reply<R>)
    requires IsRun(Persistent<R>(kind, Forever), sleeps, reply)
    ensures sleeps == [12.0]
  {
    var p: Provider<R>, full := Persistent(kind, Forever), [12.0];
    SumAppend([], 12.0);
    assert [] + [12.0] == full && full[..0] == [];
    assert SleptAt(p, full, 0);
    assert Delay(p, 1, 12.0) <= 0.0;
    RunIsDetermined(p, sleeps, full, reply, GiveUp(kind, full));
  }

  /* ---- How many retries there are ---- */

  const ONES: seq<real> := [1.0, 1.0, 1.0, 1.0, 1.0, 1.0, 1.0, 1.0]

  lemma {:induction false} OnesSum(n: nat)
    requires n <= 8
    ensures Sum(ONES[..n]) == n as real
  {
    if n > 0 {
      OnesSum(n - 1);
      assert ONES[..n] == ONES[..n - 1] + [1.0];
      SumAppend(ONES[..n - 1], 1.0);
    }
  }

  /** Hints of one second make eight retries, twice the four the backoff alone allows. */
  lemma {:induction false} EightRetries<R>(kind: Kind, sleeps: seq<real>, reply: Reply<R>)
    requires IsRun(Persistent<R>(kind, Seconds(1.0)), sleeps, reply)
    ensures sleeps == [1.0, 1.0, 1.0, 1.0, 1.0, 1.0, 1.0, 1.0]
  {
    var p: Provider<R> := Persistent(kind, Seconds(1.0));
    forall k | 0 <= k < |ONES|
      ensures SleptAt(p, ONES, k)
    {
      OnesSum(k);
    }
    RunIsDetermined(p, sleeps, ONES, reply, GiveUp(kind, ONES));
  }

  /** The delay failure `k` asks for before the budget and the deadline cut it. */
  function Wish<R>(p: Provider<R>, k: nat): real
    requires p.outcome(k).Transport? && !p.outcome(k).hint.Forever?
  {
    match p.outcome(k).hint
    case Seconds(s) => if s >= 0.0 then s else BACKOFF_BASE * Power(k)
    case NoHint => BACKOFF_BASE * Power(k)
  }

  /** The first `n` failures are retryable and ask for positive, finite delays. */
  predicate Wishes<R>(p: Provider<R>, n: nat) {
    forall k | 0 <= k < n :: p.outcome(k).Transport? && !p.outcome(k).hint.Forever? && Wish(p, k) > 0.0
  }

  function WishSum<R>(p: Provider<R>, n: nat): real
    requires Wishes(p, n)
  {
    if n == 0 then 0.0 else WishSum(p, n - 1) + Wish(p, n - 1)
  }

  /** The first five calls fail retryably, the first four ask for positive delays of less than the budget
      together, the fifth for a positive one, and it leaves more than the required time. */
  predicate FifthRetryDue<R>(p: Provider<R>) {
    && Wishes(p, 4) && WishSum(p, 4) < BACKOFF_BUDGET
    && p.outcome(4).Transport? && (p.outcome(4).hint.Forever? || Wish(p, 4) > 0.0)
    && (p.deadline.Some? ==> Remaining(p, 4).value > MIN_REMAINING)
  }

  /** Time passes: calls follow each other, and a retry comes no sooner than its sleep ends. */
  ghost predicate TimePasses<R>(p: Provider<R>, sleeps: seq<real>) {
    && (forall k: nat :: p.failedAt(k) <= p.failedAt(k + 1))
    && forall k | 0 <= k < |sleeps| :: p.failedAt(k) + sleeps[k] <= p.failedAt(k + 1)
  }

  lemma {:induction false} NoLater<R>(p: Provider<R>, j: nat, k: nat)
    requires j <= k && forall i: nat :: p.failedAt(i) <= p.failedAt(i + 1)
    ensures p.failedAt(j) <= p.failedAt(k)
  {
    if j < k {
      NoLater(p, j, k - 1);
    }
  }

  /** A sleep followed by another was not cut: it lasted what its failure asked for. */
  lemma {:induction false} SleepIsWish<R>(p: Provider<R>, sleeps: seq<real>, k: nat)
    requires Slept(p, sleeps) && TimePasses(p, sleeps) && k + 1 < |sleeps|
    ensures p.outcome(k).Transport? && !p.outcome(k).hint.Forever? && sleeps[k] == Wish(p, k) > 0.0
  {
    assert SleptAt(p, sleeps, k) && SleptAt(p, sleeps, k + 1);
    assert sleeps[..k + 1] == sleeps[..k] + [sleeps[k]];
    SumAppend(sleeps[..k], sleeps[k]);
  }

  lemma {:induction false} SleepsAreWishes<R>(p: Provider<R>, sleeps: seq<real>, n: nat)
    requires Slept(p, sleeps) && TimePasses(p, sleeps) && n < |sleeps|
    ensures Wishes(p, n) && WishSum(p, n) == Sum(sleeps[..n])
  {
    if n > 0 {
      SleepsAreWishes(p, sleeps, n - 1);
      SleepIsWish(p, sleeps, n - 1);
      assert SleptAt(p, sleeps, n - 1);
      assert sleeps[..n] == sleeps[..n - 1] + [sleeps[n - 1]];
      SumAppend(sleeps[..n - 1], sleeps[n - 1]);
    }
  }

  lemma {:induction false} WishesGrow<R>(p: Provider<R>, m: nat, n: nat)
    requires Wishes(p, n) && m <= n
    ensures 0.0 <= WishSum(p, m) <= WishSum(p, n)
  {
    if n > 0 {
      WishesGrow(p, if m < n then m else n - 1, n - 1);
    }
  }

  lemma {:induction false} NeverMoreThanWished<R>(p: Provider<R>, sleeps: seq<real>, n: nat)
    requires Slept(p, sleeps) && n <= |sleeps| && Wishes(p, n)
    ensures Sum(sleeps[..n]) <= WishSum(p, n)
  {
    if n > 0 {
      NeverMoreThanWished(p, sleeps, n - 1);
      assert SleptAt(p, sleeps, n - 1);
      assert sleeps[..n] == sleeps[..n - 1] + [sleeps[n - 1]];
      SumAppend(sleeps[..n - 1], sleeps[n - 1]);
    }
  }

  lemma {:induction false} GoesOn<R>(p: Provider<R>, n: nat, used: real)
    requires FifthRetryDue(p) && n <= 4 && p.failedAt(n) <= p.failedAt(4) && used <= WishSum(p, 4)
    ensures p.outcome(n).Transport? && !Stops(p, n, used)
  {
    assert n < 4 ==> Wish(p, n) > 0.0;
  }

  lemma {:induction false} FifthRetryHappens<R>(p: Provider<R>, sleeps: seq<real>, reply: Reply<R>)
    requires IsRun(p, sleeps, reply) && TimePasses(p, sleeps) && FifthRetryDue(p)
    ensures |sleeps| >= 5
  {
    var n := |sleeps|;
    assert sleeps[..n] == sleeps;
    if n <= 4 {
      NeverMoreThanWished(p, sleeps, n);
      WishesGrow(p, n, 4);
      NoLater(p, n, 4);
      GoesOn(p, n, Sum(sleeps));
    }
  }

  /** Exactly when more than four retries happen, whatever the provider, hints and deadline. */
  lemma {:induction false} FifthRetryExactlyWhen<R>(p: Provider<R>, sleeps: seq<real>, reply: Reply<R>)
    requires IsRun(p, sleeps, reply) && TimePasses(p, sleeps)
    ensures |sleeps| >= 5 <==> FifthRetryDue(p)
  {
    if |sleeps| >= 5 {
      SleepsAreWishes(p, sleeps, 4);
      assert SleptAt(p, sleeps, 4);
    } else if FifthRetryDue(p) {
      FifthRetryHappens(p, sleeps, reply);
    }
  }

  lemma {:induction false} UnhintedSum<R>(p: Provider<R>, n: nat)
    requires Wishes(p, n) && forall k: nat | p.outcome(k).Transport? :: p.outcome(k).hint.NoHint?
    ensures WishSum(p, n) == Power(n) - 1.0
  {
    if n > 0 {
      UnhintedSum(p, n - 1);
      assert p.outcome(n - 1).hint.NoHint?;
      assert Wish(p, n - 1) == Power(n - 1);
    }
  }

  /** Without hints there are never more than four retries, with or without a deadline. */
  lemma {:induction false} FourRetriesWithoutHints<R>(p: Provider<R>, sleeps: seq<real>, reply: Reply<R>)
    requires IsRun(p, sleeps, reply) && TimePasses(p, sleeps)
    requires forall k: nat | p.outcome(k).Transport? :: p.outcome(k).hint.NoHint?
    ensures |sleeps| <= 4
  {
    FifthRetryExactlyWhen(p, sleeps, reply);
    if Wishes(p, 4) {
      UnhintedSum(p, 4);
      FourPowers();
    }
  }

  lemma {:induction false} FourPowers()
    ensures Power(4) == 16.0
  {
    assert Power(0) == 1.0 && Power(1) == 2.0 && Power(2) == 4.0 && Power(3) == 8.0;
  }
}
