/**
 * The in-memory limiter for one-time codes and its periodic cleanup
 * (src/api/src/middleware/rate_limit.rs). The count of an entry is raised only below
 * the limit, so its 32-bit width is never exceeded.
 */
module OtcLimiter {
  import opened Common

  datatype Slot = Slot(count: nat, start: Instant)

  type Attempts = map<string, Slot>

  datatype Policy = Policy(maxAttempts: nat, window: nat)

  /** The entry a check works on: inserted if missing, restarted if its window is over. */
  function Current(a: Attempts, key: string, now: Instant, policy: Policy): Slot {
    if key in a && now - a[key].start <= policy.window then a[key] else Slot(0, now)
  }

  function Checked(a: Attempts, key: string, now: Instant, policy: Policy): (Attempts, bool) {
    var slot := Current(a, key, now, policy);
    if slot.count >= policy.maxAttempts then (a[key := slot], false)
    else (a[key := slot.(count := slot.count + 1)], true)
  }

  function Cleaned(a: Attempts, now: Instant, policy: Policy): Attempts {
    map k | k in a && now - a[k].start < policy.window * 2 :: a[k]
  }

  class RateLimiter {
    const policy: Policy
    var attempts: Attempts
    var now: Instant

    constructor (policy: Policy, start: Instant)
      ensures this.policy == policy && attempts == map[] && now == start
    {
      this.policy := policy;
      attempts, now := map[], start;
    }

    method ReadClock() returns (t: Instant)
      modifies this`now
      ensures old(now) <= t == now
    {
      var passed: nat :| true;
      now := now + passed;
      t := now;
    }

    method CheckRateLimit(key: string) returns (allowed: bool)
      modifies this
      ensures old(now) <= now
      ensures (attempts, allowed) == Checked(old(attempts), key, now, policy)
    {
      var t := ReadClock();
      if key !in attempts {
        attempts := attempts[key := Slot(0, t)];
      }
      if t - attempts[key].start > policy.window {
        attempts := attempts[key := Slot(0, t)];
      }
      assert attempts == old(attempts)[key := Current(old(attempts), key, now, policy)];
      if attempts[key].count >= policy.maxAttempts {
        return false;
      }
      attempts := attempts[key := Slot(attempts[key].count + 1, attempts[key].start)];
      assert attempts == Checked(old(attempts), key, now, policy).0;
      return true;
    }

    /** Forgets exactly the entries whose window has been over for a window, so that, given a
        positive window, no check from now on decides differently. */
    method Cleanup()
      modifies this
      ensures old(now) <= now
      ensures attempts == Cleaned(old(attempts), now, policy)
      ensures forall key | key in old(attempts) && key !in attempts ::
            now - old(attempts)[key].start >= 2 * policy.window
      ensures forall key | key in attempts :: now - attempts[key].start < 2 * policy.window
      ensures policy.window > 0 ==>
                forall key, t | t >= now ::
                      Checked(attempts, key, t, policy).1 == Checked(old(attempts), key, t, policy).1
    {
      var t := ReadClock();
      attempts := map k | k in attempts && t - attempts[k].start < policy.window * 2 :: attempts[k];
    }
  }

  // ---------------------------------------------------------------- runs

  datatype Op = Check(key: string, at: Instant) | Cleanup(at: Instant)

  ghost predicate Monotone(ops: seq<Op>, from: Instant) {
    ops != [] ==> from <= ops[0].at && Monotone(ops[1..], ops[0].at)
  }

  function After(a: Attempts, op: Op, policy: Policy): Attempts {
    match op
    case Check(key, at) => Checked(a, key, at, policy).0
    case Cleanup(at) => Cleaned(a, at, policy)
  }

  function Verdicts(a: Attempts, ops: seq<Op>, policy: Policy): seq<bool>
    decreases |ops|
  {
    if ops == [] then []
    else
      (if ops[0].Check? then [Checked(a, ops[0].key, ops[0].at, policy).1] else []) +
      Verdicts(After(a, ops[0], policy), ops[1..], policy)
  }

  function WithoutCleanups(ops: seq<Op>): seq<Op> {
    if ops == [] then []
    else (if ops[0].Check? then [ops[0]] else []) + WithoutCleanups(ops[1..])
  }

  /** `clean` forgot only entries of `full` whose window is over at `now`. */
  ghost predicate Forgets(clean: Attempts, full: Attempts, now: Instant, policy: Policy) {
    && clean.Keys <= full.Keys
    && (forall k | k in clean :: clean[k] == full[k])
    && (forall k | k in full && k !in clean :: now - full[k].start > policy.window)
  }

  lemma {:induction false} SameVerdicts(clean: Attempts, full: Attempts, ops: seq<Op>, now: Instant, policy: Policy)
    requires policy.window > 0 && Monotone(ops, now) && Forgets(clean, full, now, policy)
    ensures Verdicts(clean, ops, policy) == Verdicts(full, WithoutCleanups(ops), policy)
    decreases |ops|
  {
    if ops != [] {
      var rest := WithoutCleanups(ops[1..]);
      if ops[0].Check? {
        assert ([ops[0]] + rest)[1..] == rest;
        SameVerdicts(After(clean, ops[0], policy), After(full, ops[0], policy), ops[1..], ops[0].at, policy);
      } else {
        SameVerdicts(After(clean, ops[0], policy), full, ops[1..], ops[0].at, policy);
        assert [] + rest == rest;
      }
    }
  }

  /** With no attempts allowed, nothing is ever allowed. */
  lemma {:induction false} NothingAllowed(a: Attempts, b: Attempts, ops: seq<Op>, policy: Policy)
    requires policy.maxAttempts == 0
    ensures Verdicts(a, ops, policy) == Verdicts(b, WithoutCleanups(ops), policy)
    decreases |ops|
  {
    if ops != [] {
      var rest := WithoutCleanups(ops[1..]);
      if ops[0].Check? {
        assert ([ops[0]] + rest)[1..] == rest;
        NothingAllowed(After(a, ops[0], policy), After(b, ops[0], policy), ops[1..], policy);
      } else {
        NothingAllowed(After(a, ops[0], policy), b, ops[1..], policy);
        assert [] + rest == rest;
      }
    }
  }

  /** `n` checks of one key at one instant. */
  function Burst(n: nat): seq<Op> {
    if n == 0 then [] else [Check("", 0)] + Burst(n - 1)
  }

  /** With a window of zero, a full entry is refused unless a cleanup came in between. */
  lemma {:induction false} BurstThen(a: Attempts, n: nat, tail: seq<Op>, policy: Policy)
    requires policy.window == 0 && Current(a, "", 0, policy).start == 0
    requires Current(a, "", 0, policy).count + n == policy.maxAttempts && tail != []
    ensures var ops := Burst(n) + tail;
            && (tail == [Cleanup(0), Check("", 0)] && policy.maxAttempts > 0 ==>
                  |Verdicts(a, ops, policy)| == n + 1 && Verdicts(a, ops, policy)[n])
            && (tail == [Check("", 0)] ==> |Verdicts(a, ops, policy)| == n + 1 && !Verdicts(a, ops, policy)[n])
            && (tail == [Cleanup(0), Check("", 0)] ==> WithoutCleanups(ops) == Burst(n) + [Check("", 0)])
            && (tail == [Cleanup(0), Check("", 0)] ==> Monotone(ops, 0))
    decreases n
  {
    var ops := Burst(n) + tail;
    if n == 0 {
      assert ops == tail;
      if tail == [Cleanup(0), Check("", 0)] {
        assert tail[1..] == [Check("", 0)];
        assert tail[1..][1..] == [];
        assert "" !in Cleaned(a, 0, policy);
        assert Verdicts(Cleaned(a, 0, policy), [Check("", 0)], policy)[0] == (policy.maxAttempts > 0);
      }
    } else {
      assert ops[0] == Check("", 0) && ops[1..] == Burst(n - 1) + tail;
      BurstThen(After(a, ops[0], policy), n - 1, tail, policy);
    }
  }

  /** Cleanups, whenever they happen, change no verdict of any run, exactly when the
      window is positive or nothing is allowed anyway. */
  lemma CleanupIsInvisible(policy: Policy)
    ensures (forall ops | Monotone(ops, 0) ::
          Verdicts(map[], ops, policy) == Verdicts(map[], WithoutCleanups(ops), policy))
       <==> (policy.window > 0 || policy.maxAttempts == 0)
  {
    if policy.window > 0 || policy.maxAttempts == 0 {
      forall ops | Monotone(ops, 0)
        ensures Verdicts(map[], ops, policy) == Verdicts(map[], WithoutCleanups(ops), policy)
      {
        if policy.window > 0 {
          SameVerdicts(map[], map[], ops, 0, policy);
        } else {
          NothingAllowed(map[], map[], ops, policy);
        }
      }
    } else {
      var n := policy.maxAttempts;
      BurstThen(map[], n, [Cleanup(0), Check("", 0)], policy);
      BurstThen(map[], n, [Check("", 0)], policy);
      var ops := Burst(n) + [Cleanup(0), Check("", 0)];
      assert Monotone(ops, 0) && Verdicts(map[], ops, policy) != Verdicts(map[], WithoutCleanups(ops), policy);
    }
  }

  // ---------------------------------------------------------------- the rate

  /** How many checks of `key` between `lo` and `hi`, both included, are allowed. */
  function AllowedIn(a: Attempts, ops: seq<Op>, key: string, lo: Instant, hi: Instant, policy: Policy): nat
    decreases |ops|
  {
    if ops == [] then 0
    else
      (if ops[0].Check? && ops[0].key == key && lo <= ops[0].at <= hi && Checked(a, key, ops[0].at, policy).1 then 1
            else 0) +
      AllowedIn(After(a, ops[0], policy), ops[1..], key, lo, hi, policy)
  }

  ghost predicate WithinLimit(a: Attempts, now: Instant, policy: Policy) {
    forall k | k in a :: a[k].count <= policy.maxAttempts && a[k].start <= now
  }

  /** How many more checks the interval of one window from `lo` can still allow. */
  function Budget(a: Attempts, key: string, now: Instant, lo: Instant, policy: Policy): int {
    var all := 2 * policy.maxAttempts;
    if key !in a || now < lo then all
    else if a[key].start < lo then all - a[key].count
    else if a[key].start <= lo + policy.window then policy.maxAttempts - a[key].count
    else 0
  }

  ghost predicate NoCleanups(ops: seq<Op>) {
    forall i | 0 <= i < |ops| :: ops[i].Check?
  }

  lemma {:induction false} AllowedWithinBudget(a: Attempts, ops: seq<Op>, key: string, now: Instant, lo: Instant,
          policy: Policy)
    requires Monotone(ops, now) && NoCleanups(ops) && WithinLimit(a, now, policy)
    ensures AllowedIn(a, ops, key, lo, lo + policy.window, policy) <= Budget(a, key, now, lo, policy)
    decreases |ops|
  {
    if ops != [] {
      AllowedWithinBudget(After(a, ops[0], policy), ops[1..], key, ops[0].at, lo, policy);
    }
  }

  lemma {:induction false} SameAllowed(clean: Attempts, full: Attempts, ops: seq<Op>, now: Instant, key: string,
          lo: Instant, hi: Instant, policy: Policy)
    requires policy.window > 0 && Monotone(ops, now) && Forgets(clean, full, now, policy)
    ensures AllowedIn(clean, ops, key, lo, hi, policy) == AllowedIn(full, WithoutCleanups(ops), key, lo, hi, policy)
    decreases |ops|
  {
    if ops != [] {
      var rest := WithoutCleanups(ops[1..]);
      if ops[0].Check? {
        assert ([ops[0]] + rest)[1..] == rest;
        SameAllowed(After(clean, ops[0], policy), After(full, ops[0], policy), ops[1..], ops[0].at, key, lo, hi,
              policy);
      } else {
        SameAllowed(After(clean, ops[0], policy), full, ops[1..], ops[0].at, key, lo, hi, policy);
        assert [] + rest == rest;
      }
    }
  }

  lemma {:induction false} ChecksStayMonotone(ops: seq<Op>, now: Instant)
    requires Monotone(ops, now)
    ensures Monotone(WithoutCleanups(ops), now) && NoCleanups(WithoutCleanups(ops))
    decreases |ops|
  {
    if ops != [] {
      ChecksStayMonotone(ops[1..], ops[0].at);
      var rest := WithoutCleanups(ops[1..]);
      if ops[0].Check? {
        assert ([ops[0]] + rest)[1..] == rest;
      } else {
        assert [] + rest == rest;
      }
    }
  }

  /** In the run `ops`, the interval of one window from `lo` allows at most twice the
      limit. */
  ghost predicate KeepsRate(ops: seq<Op>, start: Instant, key: string, lo: Instant, policy: Policy) {
    Monotone(ops, start) ==> AllowedIn(map[], ops, key, lo, lo + policy.window, policy) <= 2 * policy.maxAttempts
  }

  lemma PositiveWindowKeepsRate(ops: seq<Op>, start: Instant, key: string, lo: Instant, policy: Policy)
    requires policy.window > 0
    ensures KeepsRate(ops, start, key, lo, policy)
  {
    if Monotone(ops, start) {
      SameAllowed(map[], map[], ops, start, key, lo, lo + policy.window, policy);
      ChecksStayMonotone(ops, start);
      AllowedWithinBudget(map[], WithoutCleanups(ops), key, start, lo, policy);
    }
  }

  lemma {:induction false} NothingIsAllowedIn(a: Attempts, ops: seq<Op>, key: string, lo: Instant, hi: Instant,
          policy: Policy)
    requires policy.maxAttempts == 0
    ensures AllowedIn(a, ops, key, lo, hi, policy) == 0
    decreases |ops|
  {
    if ops != [] {
      NothingIsAllowedIn(After(a, ops[0], policy), ops[1..], key, lo, hi, policy);
    }
  }

  /** `n` checks of one key at one instant, a cleanup after each. */
  function CleanedBurst(n: nat): seq<Op> {
    if n == 0 then [] else [Check("", 0), Cleanup(0)] + CleanedBurst(n - 1)
  }

  /** With a window of zero, each cleanup forgets the count. */
  lemma {:induction false} CleanedBurstIsAllowed(n: nat, policy: Policy)
    requires policy.window == 0 && policy.maxAttempts > 0
    ensures Monotone(CleanedBurst(n), 0) && AllowedIn(map[], CleanedBurst(n), "", 0, 0, policy) == n
  {
    if n > 0 {
      CleanedBurstIsAllowed(n - 1, policy);
      var ops := CleanedBurst(n);
      assert ops[0] == Check("", 0) && ops[1] == Cleanup(0) && ops[1..][1..] == CleanedBurst(n - 1);
      var counted := After(map[], ops[0], policy);
      assert counted == map["" := Slot(1, 0)];
      assert After(counted, ops[1], policy) == map[];
      assert ops[1..][0] == ops[1];
    }
  }

  /** Any closed interval as long as the window holds at most twice the limit, over every
      run with cleanups anywhere, exactly when the window is positive or nothing is
      allowed anyway. */
  lemma RateIsBounded(policy: Policy)
    ensures (forall ops, start, key, lo :: KeepsRate(ops, start, key, lo, policy))
            <==> (policy.window > 0 || policy.maxAttempts == 0)
  {
    if policy.window > 0 || policy.maxAttempts == 0 {
      forall ops, start, key, lo ensures KeepsRate(ops, start, key, lo, policy) {
        if policy.window > 0 {
          PositiveWindowKeepsRate(ops, start, key, lo, policy);
        } else {
          NothingIsAllowedIn(map[], ops, key, lo, lo + policy.window, policy);
        }
      }
    } else {
      CleanedBurstIsAllowed(2 * policy.maxAttempts + 1, policy);
      assert !KeepsRate(CleanedBurst(2 * policy.maxAttempts + 1), 0, "", 0, policy);
    }
  }

  // ---------------------------------------------------------------- refusals

  function Final(a: Attempts, ops: seq<Op>, policy: Policy): Attempts
    decreases |ops|
  {
    if ops == [] then a else Final(After(a, ops[0], policy), ops[1..], policy)
  }

  ghost predicate EndBy(ops: seq<Op>, end: Instant) {
    forall i | 0 <= i < |ops| :: ops[i].at <= end
  }

  /** The count of an entry is no more than the checks of its key allowed since its window
      began. */
  lemma {:induction false} CountIsAllowed(a: Attempts, ops: seq<Op>, key: string, now: Instant, end: Instant,
          policy: Policy)
    requires Monotone(ops, now) && EndBy(ops, end) && now <= end && (key in a ==> a[key].start <= now)
    ensures var final := Final(a, ops, policy);
            key in final ==>
              var slot := final[key];
              && slot.start <= end
              && slot.count <= AllowedIn(a, ops, key, slot.start, end, policy)
                               + if key in a && a[key].start == slot.start then a[key].count else 0
    decreases |ops|
  {
    if ops != [] {
      CountIsAllowed(After(a, ops[0], policy), ops[1..], key, ops[0].at, end, policy);
    }
  }

  lemma {:induction false} LongerIntervalAllowsMore(a: Attempts, ops: seq<Op>, key: string, lo: Instant, later: Instant,
          hi: Instant, policy: Policy)
    requires lo <= later
    ensures AllowedIn(a, ops, key, later, hi, policy) <= AllowedIn(a, ops, key, lo, hi, policy)
    decreases |ops|
  {
    if ops != [] {
      LongerIntervalAllowsMore(After(a, ops[0], policy), ops[1..], key, lo, later, hi, policy);
    }
  }

  /** A check is refused only if as many checks of its key as the limit were allowed in the
      closed interval of one window that ends with it, whatever checks were refused meanwhile
      and whenever cleanups ran. */
  lemma RefusedOnlyWhenUsedUp(ops: seq<Op>, start: Instant, key: string, at: Instant, policy: Policy)
    requires Monotone(ops, start) && EndBy(ops, at) && start <= at
    requires !Checked(Final(map[], ops, policy), key, at, policy).1
    ensures AllowedIn(map[], ops, key, at - policy.window, at, policy) >= policy.maxAttempts
  {
    var final := Final(map[], ops, policy);
    CountIsAllowed(map[], ops, key, start, at, policy);
    if key in final && at - final[key].start <= policy.window {
      LongerIntervalAllowsMore(map[], ops, key, at - policy.window, final[key].start, at, policy);
    }
  }
}
