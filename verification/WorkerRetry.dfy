/**
 * The worker's loop over the attempts at one video job, with exponential backoff, and the
 * status it writes afterwards (src/worker/src/main.rs). The error of an attempt is not
 * forgotten when a later attempt succeeds.
 */
module WorkerRetry {
  import opened Common

  /** How an attempt ends. */
  datatype Verdict = Fine | Transient(code: string) | Permanent(code: string)

  datatype Status = Queued | Published | Failed(code: string)

  const U64: nat := 0x1_0000_0000_0000_0000

  lemma {:induction false} Pow2Grows(a: nat, b: nat)
    requires a <= b
    ensures Pow2(a) <= Pow2(b)
  {
    if a < b {
      Pow2Grows(a, b - 1);
    }
  }

  /** `base * 2_u64.pow(attempt - 1)` does not overflow. */
  predicate DelayFits(base: nat, attempt: nat)
    requires attempt >= 1
  {
    Pow2(attempt - 1) < U64 && base * Pow2(attempt - 1) < U64
  }

  // ---------------------------------------------------------------- what the loop does

  /** The attempt at which the loop ends, when `k` attempts have been transient errors
      and each of `verdicts` is what the next attempt would meet. */
  function Last(verdicts: seq<Verdict>, k: nat): (last: nat)
    requires k < |verdicts|
    ensures k < last <= |verdicts|
    ensures forall j | k <= j < last - 1 :: verdicts[j].Transient?
    ensures last < |verdicts| ==> !verdicts[last - 1].Transient?
    decreases |verdicts| - k
  {
    if verdicts[k].Transient? && k + 1 < |verdicts| then Last(verdicts, k + 1) else k + 1
  }

  /** The error that is left over: that of the last attempt or, if it succeeded, of the
      one before. */
  function LastError(verdicts: seq<Verdict>, made: nat): Option<string>
    requires made <= |verdicts|
  {
    if made == 0 then None
    else if verdicts[made - 1].Fine? then LastError(verdicts, made - 1)
    else Some(verdicts[made - 1].code)
  }

  /** The status after the loop when the database answers and the row exists. */
  function FinalStatus(verdicts: seq<Verdict>): Status {
    if verdicts == [] then Queued
    else
      var error := LastError(verdicts, Last(verdicts, 0));
      if error.Some? then Failed(error.value) else Published
  }

  /** Some backoff that is slept before the last attempt overflows. */
  ghost predicate Overflows(verdicts: seq<Verdict>, base: nat) {
    exists k | 0 < k < |verdicts| && k < Last(verdicts, 0) :: !DelayFits(base, k)
  }

  /** The sum of the backoffs after the first `n` attempts. */
  function Waited(base: nat, n: nat): nat {
    if n == 0 then 0 else Waited(base, n - 1) + base * Pow2(n - 1)
  }

  lemma {:induction false} WaitedIsGeometric(base: nat, n: nat)
    ensures Waited(base, n) == base * (Pow2(n) - 1)
  {
    if n > 0 {
      WaitedIsGeometric(base, n - 1);
    }
  }

  class Worker {
    const maxAttempts: nat
    const base: nat
    var status: Status
    var made: nat
    var slept: nat

    constructor (maxAttempts: nat, base: nat)
      requires maxAttempts < 256 && base < U64
      ensures this.maxAttempts == maxAttempts && this.base == base && status == Queued && made == 0 && slept == 0
    {
      this.maxAttempts, this.base, status, made, slept := maxAttempts, base, Queued, 0, 0;
    }

    /** Makes the attempts, and stops short only where a backoff overflows. */
    method Attempts(verdicts: seq<Verdict>) returns (lastError: Option<string>, overflow: bool)
      requires |verdicts| == maxAttempts && made == 0 && slept == 0 && status == Queued
      modifies this
      ensures made <= maxAttempts && (made == 0 <==> maxAttempts == 0)
      ensures overflow <==> Overflows(verdicts, base)
      ensures made > 0 && !overflow ==> made == Last(verdicts, 0)
      ensures overflow ==> 0 < made < maxAttempts && verdicts[made - 1].Transient? && !DelayFits(base, made)
      ensures slept == Waited(base, Max(made - 1, 0))
      ensures !overflow ==> lastError == LastError(verdicts, made)
      ensures status == if made > 0 && verdicts[made - 1].Fine? then Published else Queued
    {
      var attempt := 1;
      lastError, overflow := None, false;
      while attempt <= maxAttempts
        invariant 1 <= attempt && made == attempt - 1 && (made > 0 ==> attempt <= maxAttempts)
        invariant made > 0 ==> verdicts[made - 1].Transient?
        invariant made < |verdicts| ==> Last(verdicts, 0) == Last(verdicts, made)
        invariant lastError == LastError(verdicts, made)
        invariant forall k | 0 < k <= made :: DelayFits(base, k)
        invariant slept == Waited(base, made)
        invariant status == Queued
        decreases maxAttempts - attempt
      {
        var verdict := verdicts[attempt - 1];
        made := attempt;
        if verdict.Fine? {
          status := Published;
          return;
        }
        lastError := Some(verdict.code);
        if verdict.Transient? && attempt < maxAttempts {
          if !DelayFits(base, attempt) {
            overflow := true;
            return;
          }
          slept := slept + base * Pow2(attempt - 1);
          attempt := attempt + 1;
        } else {
          return;
        }
      }
    }

    /** A whole job: at least one attempt, backoffs that add up to the geometric sum, and
        the final status. `found` says whether that can be written. */
    method RunJob(verdicts: seq<Verdict>, found: bool) returns (overflow: bool)
      requires |verdicts| == maxAttempts && made == 0 && slept == 0 && status == Queued
      modifies this
      ensures !overflow && found ==> status == FinalStatus(verdicts)
      ensures !overflow && !found && made > 0 ==> made <= maxAttempts && status == if verdicts[made - 1].Fine?
            then Published else Queued
      ensures overflow ==> status == Queued
      ensures !overflow && verdicts != [] ==> 1 <= made <= maxAttempts && slept == base * (Pow2(made - 1) - 1)
      ensures overflow <==> Overflows(verdicts, base)
    {
      var lastError: Option<string>;
      lastError, overflow := Attempts(verdicts);
      if overflow {
        return;
      }
      LeftOver(verdicts);
      WaitedIsGeometric(base, Max(made - 1, 0));
      if lastError.Some? && found {
        status := Failed(lastError.value);
      }
    }
  }

  // ---------------------------------------------------------------- what it means

  ghost predicate IsFailed(verdicts: seq<Verdict>) {
    FinalStatus(verdicts).Failed?
  }

  lemma LeftOver(verdicts: seq<Verdict>)
    ensures verdicts != [] ==> (LastError(verdicts, Last(verdicts, 0)).Some? <==> !verdicts[0].Fine?)
    ensures verdicts != [] && !verdicts[0].Fine? ==>
              var last := Last(verdicts, 0);
              LastError(verdicts, last) ==
              Some(if verdicts[last - 1].Fine? then verdicts[last - 2].code else verdicts[last - 1].code)
  {
    if verdicts != [] {
      var last := Last(verdicts, 0);
      if verdicts[last - 1].Fine? {
        if last > 1 {
          assert verdicts[last - 2].Transient?;
        }
      }
    }
  }

  /** FAILED is written exactly when the first attempt errs, whatever happens later. */
  lemma FailedIffFirstErrs(verdicts: seq<Verdict>)
    ensures IsFailed(verdicts) <==> verdicts != [] && !verdicts[0].Fine?
  {
    LeftOver(verdicts);
  }

  /** What the loop's comment promises: FAILED only after every attempt failed. */
  ghost predicate AllMadeFail(verdicts: seq<Verdict>) {
    verdicts != [] && forall j | 0 <= j < Last(verdicts, 0) :: !verdicts[j].Fine?
  }

  /** A transient error, then success: the video is published and then marked failed. */
  lemma SuccessAfterErrorIsFailed(code: string)
    ensures var verdicts := [Transient(code), Fine];
            Last(verdicts, 0) == 2 && verdicts[1].Fine? && FinalStatus(verdicts) == Failed(code)
  {
    var verdicts := [Transient(code), Fine];
    assert Last(verdicts, 1) == 2;
    assert LastError(verdicts, 1) == Some(code);
  }

  /** The comment holds of a job exactly when its last attempt made errs or is its first. */
  lemma CommentHolds(verdicts: seq<Verdict>)
    ensures (IsFailed(verdicts) <==> AllMadeFail(verdicts)) <==>
            (verdicts == [] || Last(verdicts, 0) == 1 || !verdicts[Last(verdicts, 0) - 1].Fine?)
  {
    FailedIffFirstErrs(verdicts);
  }

  /** It holds of every job exactly when the configuration allows one attempt at most. */
  lemma CommentNeedsOneAttempt(maxAttempts: nat)
    ensures (forall verdicts: seq<Verdict> | |verdicts| == maxAttempts :: IsFailed(verdicts) <==> AllMadeFail(verdicts))
            <==> maxAttempts <= 1
  {
    if maxAttempts <= 1 {
      forall verdicts: seq<Verdict> | |verdicts| == maxAttempts ensures IsFailed(verdicts) <==> AllMadeFail(verdicts) {
        CommentHolds(verdicts);
      }
    } else {
      var verdicts: seq<Verdict> := [Transient("")] + seq(maxAttempts - 1, _ => Fine);
      assert Last(verdicts, 1) == 2;
      CommentHolds(verdicts);
      assert |verdicts| == maxAttempts && !(IsFailed(verdicts) <==> AllMadeFail(verdicts));
    }
  }

  /** No job overflows exactly when the longest configured backoff fits. */
  lemma BackoffFits(maxAttempts: nat, base: nat)
    ensures (forall verdicts: seq<Verdict> | |verdicts| == maxAttempts :: !Overflows(verdicts, base))
            <==> maxAttempts <= 1
                 || (Pow2(maxAttempts - 2) < 0x1_0000_0000_0000_0000
                     && base * Pow2(maxAttempts - 2) < 0x1_0000_0000_0000_0000)
  {
    if maxAttempts >= 2 {
      if DelayFits(base, maxAttempts - 1) {
        forall k | 0 < k < maxAttempts ensures DelayFits(base, k) {
          Pow2Grows(k - 1, maxAttempts - 2);
          MulGrows(base, Pow2(k - 1), Pow2(maxAttempts - 2));
        }
      } else {
        var verdicts: seq<Verdict> := seq(maxAttempts, _ => Transient(""));
        assert Last(verdicts, 0) == maxAttempts;
        assert Overflows(verdicts, base);
      }
    }
  }

  lemma MulGrows(a: nat, b: nat, c: nat)
    requires b <= c
    ensures a * b <= a * c
  {
  }
}
