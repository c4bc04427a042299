/**
 * How the `mine` handler spreads its workers over the nonce space, and how a
 * stored mining checkpoint replaces the computed start of each worker.
 */
module Partition {
  import opened Messages

  /** `Number.MAX_SAFE_INTEGER`, 2^53 - 1: the nonce domain the client divides. */
  const MaxSafeInteger: nat := 9007199254740991

  /** Worker count used when the browser reports no hardware concurrency. */
  const DefaultWorkerCount: nat := 4

  /**
   * `navigator.hardwareConcurrency || 4`: the reported core count, or 4 when
   * the value is absent or 0 (both falsy).
   */
  function WorkerCount(hardwareConcurrency: Option<nat>): (n: nat)
    ensures n > 0
    ensures hardwareConcurrency.Some? && hardwareConcurrency.value > 0 ==> n == hardwareConcurrency.value
    ensures hardwareConcurrency == None || hardwareConcurrency == Some(0) ==> n == DefaultWorkerCount
  {
    match hardwareConcurrency
    case Some(c) => if c > 0 then c else DefaultWorkerCount
    case None => DefaultWorkerCount
  }

  /** Width of one worker's share: `Math.floor(Number.MAX_SAFE_INTEGER / workerCount)`. */
  function Gap(workerCount: nat): nat
    requires workerCount > 0
  {
    MaxSafeInteger / workerCount
  }

  /** The start nonce of worker `i`: `i * Math.floor(Number.MAX_SAFE_INTEGER / workerCount)`. */
  function StartNonce(i: nat, workerCount: nat): nat
    requires workerCount > 0
  {
    i * Gap(workerCount)
  }

  /** The start a worker is actually given: the stored checkpoint when one exists, else its own start. */
  function InitialNonce(checkpoint: Option<nat>, startNonce: nat): nat
  {
    match checkpoint
    case Some(nonce) => nonce
    case None => startNonce
  }

  /** Multiplication by a natural number is monotone. */
  lemma {:induction false} MulMonotone(a: nat, b: nat, c: nat)
    requires a <= b
    ensures a * c <= b * c
  {
    if c > 0 {
      MulMonotone(a, b, c - 1);
      assert a * c == a * (c - 1) + a;
      assert b * c == b * (c - 1) + b;
    }
  }

  /**
   * Every worker's share `[StartNonce(i), StartNonce(i) + Gap)` lies inside the
   * safe-integer domain, so in particular no start nonce exceeds it (and the
   * floating-point product in the client is exact).
   */
  lemma StartNonceInDomain(i: nat, workerCount: nat)
    requires i < workerCount
    ensures StartNonce(i, workerCount) + Gap(workerCount) <= MaxSafeInteger
  {
    var g := Gap(workerCount);
    MulMonotone(i + 1, workerCount, g);
    assert (i + 1) * g == i * g + g;
    assert workerCount * g <= MaxSafeInteger;
  }

  /** Consecutive workers start exactly one share apart, worker 0 at nonce 0. */
  lemma StartNonceStep(i: nat, workerCount: nat)
    requires workerCount > 0
    ensures StartNonce(0, workerCount) == 0
    ensures StartNonce(i + 1, workerCount) == StartNonce(i, workerCount) + Gap(workerCount)
  {
    assert (i + 1) * Gap(workerCount) == i * Gap(workerCount) + Gap(workerCount);
  }

  /**
   * While there are no more workers than safe integers, the share is at least 1,
   * so start nonces are strictly increasing in the worker index, `j - i` shares apart.
   */
  lemma {:induction false} StartNoncesIncrease(i: nat, j: nat, workerCount: nat)
    requires i < j < workerCount <= MaxSafeInteger
    ensures Gap(workerCount) >= 1
    ensures StartNonce(j, workerCount) == StartNonce(i, workerCount) + (j - i) * Gap(workerCount)
    ensures StartNonce(i, workerCount) < StartNonce(j, workerCount)
  {
    GapPositive(workerCount);
    StartNonceStep(j - 1, workerCount);
    if i < j - 1 {
      StartNoncesIncrease(i, j - 1, workerCount);
      assert (j - 1 - i) * Gap(workerCount) + Gap(workerCount) == (j - i) * Gap(workerCount);
    }
  }

  /** True when `nonce` lies in worker `i`'s share. */
  predicate InShare(nonce: nat, i: nat, workerCount: nat)
    requires workerCount > 0
  {
    StartNonce(i, workerCount) <= nonce < StartNonce(i, workerCount) + Gap(workerCount)
  }

  /** Two different workers' shares share no nonce. */
  lemma SharesDisjoint(nonce: nat, i: nat, j: nat, workerCount: nat)
    requires workerCount > 0
    requires i < j
    requires InShare(nonce, i, workerCount)
    ensures !InShare(nonce, j, workerCount)
  {
    StartNonceStep(i, workerCount);
    MulMonotone(i + 1, j, Gap(workerCount));
  }

  /**
   * The shares are pairwise disjoint and together cover `[0, workerCount * Gap)`:
   * every nonce below that bound belongs to the share of exactly one worker,
   * the one with index `nonce / Gap`.
   */
  lemma SharesPartition(nonce: nat, workerCount: nat)
    requires 0 < workerCount <= MaxSafeInteger
    requires nonce < workerCount * Gap(workerCount)
    ensures Gap(workerCount) >= 1
    ensures nonce / Gap(workerCount) < workerCount
    ensures InShare(nonce, nonce / Gap(workerCount), workerCount)
    ensures forall j :: 0 <= j < workerCount && InShare(nonce, j, workerCount) ==> j == nonce / Gap(workerCount)
  {
    GapPositive(workerCount);
    var owner := nonce / Gap(workerCount);
    DivideShare(nonce, Gap(workerCount), workerCount);
    forall j | 0 <= j < workerCount && InShare(nonce, j, workerCount)
      ensures j == owner
    {
      if j < owner {
        SharesDisjoint(nonce, j, owner, workerCount);
      } else if j > owner {
        SharesDisjoint(nonce, owner, j, workerCount);
      }
    }
  }

  /** There are at least as many safe integers as workers, so each share is non-empty. */
  lemma GapPositive(workerCount: nat)
    requires 0 < workerCount <= MaxSafeInteger
    ensures Gap(workerCount) >= 1
  {
    QuotientPositive(MaxSafeInteger, workerCount);
  }

  /** Dividing by a positive number no larger than the dividend gives at least 1. */
  lemma QuotientPositive(dividend: nat, divisor: nat)
    requires 0 < divisor <= dividend
    ensures dividend / divisor >= 1
  {
    var q, r := dividend / divisor, dividend % divisor;
    assert q * divisor + r == dividend && r < divisor;
  }

  /** A nonce below `count * width` lies in block `nonce / width`, one of the first `count`. */
  lemma DivideShare(nonce: nat, width: nat, count: nat)
    requires width >= 1
    requires nonce < count * width
    ensures nonce / width < count
    ensures (nonce / width) * width <= nonce < (nonce / width) * width + width
  {
    var owner := nonce / width;
    assert owner * width + nonce % width == nonce;
    if owner >= count {
      MulMonotone(count, owner, width);
    }
  }

  /**
   * The nonces above the last share, `[workerCount * Gap, MaxSafeInteger]`, number
   * at most `workerCount`: the floor in the share width leaves fewer than one
   * nonce per worker outside the shares.
   */
  lemma SharesLeaveShortTail(workerCount: nat)
    requires workerCount > 0
    ensures workerCount * Gap(workerCount) <= MaxSafeInteger
    ensures MaxSafeInteger - workerCount * Gap(workerCount) < workerCount
  {
  }

  /**
   * The initial nonces the `mine` handler hands to its workers, in dispatch
   * order. The checkpoint lookup runs once per worker, so a stored checkpoint
   * replaces the start of every worker, not only the first.
   */
  function StartPlan(checkpoint: Option<nat>, workerCount: nat): (plan: seq<nat>)
    requires workerCount > 0
    ensures |plan| == workerCount
    ensures checkpoint.Some? ==> forall i :: 0 <= i < workerCount ==> plan[i] == checkpoint.value
    ensures checkpoint.None? ==> plan[0] == 0
    ensures checkpoint.None? ==>
      forall i :: 0 <= i < workerCount ==> plan[i] == StartNonce(i, workerCount) && plan[i] + Gap(workerCount) <= MaxSafeInteger
    ensures checkpoint.None? && workerCount <= MaxSafeInteger ==>
      forall i, j :: 0 <= i < j < workerCount ==> plan[i] < plan[j]
  {
    var plan := seq(workerCount, i requires 0 <= i < workerCount => InitialNonce(checkpoint, StartNonce(i, workerCount)));
    assert checkpoint.None? ==> forall i :: 0 <= i < workerCount ==> plan[i] + Gap(workerCount) <= MaxSafeInteger by {
      forall i | 0 <= i < workerCount {
        StartNonceInDomain(i, workerCount);
      }
    }
    assert checkpoint.None? && workerCount <= MaxSafeInteger ==>
      forall i, j :: 0 <= i < j < workerCount ==> plan[i] < plan[j] by {
      if checkpoint.None? && workerCount <= MaxSafeInteger {
        forall i, j | 0 <= i < j < workerCount
          ensures plan[i] < plan[j]
        {
          StartNoncesIncrease(i, j, workerCount);
        }
      }
    }
    plan
  }

  /**
   * With a checkpoint `k` and at least two workers, every worker resumes at `k`:
   * no worker re-evaluates a nonce below `k`, and the shares no longer separate
   * the workers, so all of them search the same nonces.
   */
  lemma ResumeSharesOneStart(k: nat, workerCount: nat)
    requires workerCount >= 2
    ensures forall i :: 0 <= i < workerCount ==> StartPlan(Some(k), workerCount)[i] >= k
    ensures StartPlan(Some(k), workerCount)[0] == StartPlan(Some(k), workerCount)[1]
  {
  }
}
