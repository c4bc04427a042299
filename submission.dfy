/**
 * The `submitProof` port handler. Each foreign call it awaits (`findValidBus`,
 * `waitUntilNextEpoch`, `submitProof`) is an input: what it returned, or the
 * message of what it threw. The handler's only effects are sends on UI ports,
 * the one on-chain submission and a balance refresh, recorded as a trace.
 */
module Submission {
  import opened Messages

  /** Status codes sent on `statusCb`. */
  const BusInvalidWaiting: nat := 5
  const Submitting: nat := 3
  const Submitted: nat := 4

  /** An on-chain bus object, by id. */
  type BusId = string

  /** What an awaited foreign call did: returned a value, or threw (`String(e)`). */
  datatype Call<T> = Returned(value: T) | Threw(message: string)

  /** The outcomes one pass of the handler would meet. */
  datatype PassInputs = PassInputs(
    wallet: Option<Address>,
    validBus: Call<Option<BusId>>,   // findValidBus(provider)
    epochWait: Call<()>,              // waitUntilNextEpoch(provider)
    submit: Call<string>)             // submitProof(...), the transaction digest

  /** Effects of one pass, in order. */
  datatype Effect =
    | Status(code: nat)                        // statusCb.send(code)
    | SubmitTransaction(bus: BusId, proof: Proof) // submitProof(wallet, provider, proof, bus)
    | RetrySubmitProof(proof: Proof)           // retrySubmitProof.send(proof)
    | ProofSubmitError(message: string)        // proofSubmitError.send(String(e))
    | RefreshBalances(owner: Address)          // updateBalances(...), not awaited

  /** Number of on-chain submissions in a trace. */
  function Submissions(trace: seq<Effect>): nat
  {
    if |trace| == 0 then 0
    else (if trace[0].SubmitTransaction? then 1 else 0) + Submissions(trace[1..])
  }

  /** Number of `proofSubmitError` sends in a trace. */
  function Errors(trace: seq<Effect>): nat
  {
    if |trace| == 0 then 0
    else (if trace[0].ProofSubmitError? then 1 else 0) + Errors(trace[1..])
  }

  /** True when the pass got as far as handing the proof back for a retry. */
  predicate AsksRetry(trace: seq<Effect>)
  {
    trace != [] && trace[|trace| - 1].RetrySubmitProof?
  }

  /** True when every submission and every retry in `trace` carries `proof`. */
  predicate CarriesOnly(trace: seq<Effect>, proof: Proof)
  {
    forall k :: 0 <= k < |trace| ==>
      (trace[k].SubmitTransaction? ==> trace[k].proof == proof) &&
      (trace[k].RetrySubmitProof? ==> trace[k].proof == proof)
  }

  /** The thrown failure a pass meets, if any, along the path its inputs select. */
  function FailureOf(inputs: PassInputs): Option<string>
  {
    if inputs.wallet.None? then None
    else match inputs.validBus
      case Threw(e) => Some(e)
      case Returned(None) => if inputs.epochWait.Threw? then Some(inputs.epochWait.message) else None
      case Returned(Some(_)) => if inputs.submit.Threw? then Some(inputs.submit.message) else None
  }

  /**
   * One pass of the handler for `proof`, path by path. Without a wallet:
   * nothing. When the bus lookup throws: the error alone. With no valid bus:
   * status 5, then (after the epoch wait) `proof` handed back on
   * `retrySubmitProof`, or the error the wait threw. With a valid bus: status
   * 3 and one submission against that bus, then status 4 and a balance
   * refresh, or the error the submission threw.
   */
  function SubmitPass(proof: Proof, inputs: PassInputs): (trace: seq<Effect>)
    ensures inputs.wallet.None? ==> trace == []
    ensures inputs.wallet.Some? && inputs.validBus.Threw? ==>
      trace == [ProofSubmitError(inputs.validBus.message)]
    ensures inputs.wallet.Some? && inputs.validBus == Returned(None) ==>
      |trace| == 2 && trace[0] == Status(BusInvalidWaiting) &&
      trace[1] == (if inputs.epochWait.Returned? then RetrySubmitProof(proof) else ProofSubmitError(inputs.epochWait.message))
    ensures inputs.wallet.Some? && inputs.validBus.Returned? && inputs.validBus.value.Some? ==>
      |trace| >= 2 && trace[..2] == [Status(Submitting), SubmitTransaction(inputs.validBus.value.value, proof)] &&
      (inputs.submit.Returned? ==> trace[2..] == [Status(Submitted), RefreshBalances(inputs.wallet.value)]) &&
      (inputs.submit.Threw? ==> trace[2..] == [ProofSubmitError(inputs.submit.message)])
  {
    match inputs.wallet
    case None => []
    case Some(owner) =>
      match inputs.validBus
      case Threw(e) => [ProofSubmitError(e)]
      case Returned(None) =>
        (match inputs.epochWait
         case Threw(e) => [Status(BusInvalidWaiting), ProofSubmitError(e)]
         case Returned(_) => [Status(BusInvalidWaiting), RetrySubmitProof(proof)])
      case Returned(Some(bus)) =>
        (match inputs.submit
         case Threw(e) => [Status(Submitting), SubmitTransaction(bus, proof), ProofSubmitError(e)]
         case Returned(_) => [Status(Submitting), SubmitTransaction(bus, proof), Status(Submitted), RefreshBalances(owner)])
  }

  /**
   * What one pass guarantees whatever its inputs: at most one submission,
   * made exactly when a valid bus was found and against that bus; status 5
   * exactly when no bus was valid and status 3 exactly when one was; status
   * 4 exactly when the submission returned; one error, sent last, exactly
   * when a call on the path threw; a retry exactly when the wait returned
   * after status 5, with no submission; a balance refresh only last, after
   * status 4; and the given proof in every submission and retry.
   */
  lemma PassEffects(proof: Proof, inputs: PassInputs)
    ensures var trace := SubmitPass(proof, inputs);
      Submissions(trace) <= 1 &&
      (Submissions(trace) == 1 <==> inputs.wallet.Some? && inputs.validBus.Returned? && inputs.validBus.value.Some?) &&
      (forall k :: 0 <= k < |trace| && trace[k].SubmitTransaction? ==> inputs.validBus == Returned(Some(trace[k].bus))) &&
      CarriesOnly(trace, proof)
    ensures var trace := SubmitPass(proof, inputs);
      (Status(BusInvalidWaiting) in trace <==> inputs.wallet.Some? && inputs.validBus == Returned(None)) &&
      (Status(Submitting) in trace <==> inputs.wallet.Some? && inputs.validBus.Returned? && inputs.validBus.value.Some?) &&
      (Status(Submitted) in trace <==>
        inputs.wallet.Some? && inputs.validBus.Returned? && inputs.validBus.value.Some? && inputs.submit.Returned?)
    ensures var trace := SubmitPass(proof, inputs);
      Errors(trace) == (if FailureOf(inputs).Some? then 1 else 0) &&
      (FailureOf(inputs).Some? ==> trace[|trace| - 1] == ProofSubmitError(FailureOf(inputs).value))
    ensures var trace := SubmitPass(proof, inputs);
      (AsksRetry(trace) <==> inputs.wallet.Some? && inputs.validBus == Returned(None) && inputs.epochWait.Returned?) &&
      (AsksRetry(trace) ==> trace[0] == Status(BusInvalidWaiting) && Submissions(trace) == 0)
    ensures var trace := SubmitPass(proof, inputs);
      forall k :: 0 <= k < |trace| && trace[k].RefreshBalances? ==>
        k == |trace| - 1 && Status(Submitted) in trace && inputs.wallet == Some(trace[k].owner)
  {
    var trace := SubmitPass(proof, inputs);
    if trace != [] {
      assert trace == [trace[0]] + trace[1..];
      CountsCons(trace[0], trace[1..]);
      if |trace| > 1 {
        assert trace[1..] == [trace[1]] + trace[2..];
        CountsCons(trace[1], trace[2..]);
        if |trace| > 2 {
          assert trace[2..] == [trace[2]] + trace[3..];
          CountsCons(trace[2], trace[3..]);
          if |trace| > 3 {
            assert trace[3..] == [trace[3]] + trace[4..];
            CountsCons(trace[3], trace[4..]);
            assert trace[4..] == [];
          } else {
            assert trace[3..] == [];
          }
        } else {
          assert trace[2..] == [];
        }
      } else {
        assert trace[1..] == [];
      }
    }
  }

  /** Counting a trace that starts with `effect` counts `effect`, then the rest. */
  lemma CountsCons(effect: Effect, rest: seq<Effect>)
    ensures Submissions([effect] + rest) == (if effect.SubmitTransaction? then 1 else 0) + Submissions(rest)
    ensures Errors([effect] + rest) == (if effect.ProofSubmitError? then 1 else 0) + Errors(rest)
  {
    assert ([effect] + rest)[1..] == rest;
  }

  /**
   * Successive passes for one proof: each time a pass hands the proof back on
   * `retrySubmitProof`, the UI fires `submitProof` again with that same proof,
   * meeting the next inputs. The chain stops at the first pass that does not
   * ask for a retry, or when the inputs run out.
   */
  function SubmitChain(proof: Proof, passes: seq<PassInputs>): seq<Effect>
    decreases |passes|
  {
    if passes == [] then []
    else
      var trace := SubmitPass(proof, passes[0]);
      if AsksRetry(trace) then trace + SubmitChain(trace[|trace| - 1].proof, passes[1..])
      else trace
  }

  lemma {:induction false} SubmissionsAppend(a: seq<Effect>, b: seq<Effect>)
    ensures Submissions(a + b) == Submissions(a) + Submissions(b)
  {
    if a != [] {
      assert (a + b)[1..] == a[1..] + b;
      SubmissionsAppend(a[1..], b);
    } else {
      assert a + b == b;
    }
  }

  lemma {:induction false} ErrorsAppend(a: seq<Effect>, b: seq<Effect>)
    ensures Errors(a + b) == Errors(a) + Errors(b)
  {
    if a != [] {
      assert (a + b)[1..] == a[1..] + b;
      ErrorsAppend(a[1..], b);
    } else {
      assert a + b == b;
    }
  }

  /**
   * However many wait-and-retry rounds a proof goes through, it is submitted
   * on chain at most once, and every submission and retry carries the
   * original proof unchanged. A rejected submission is not retried: it ends
   * the chain with an error.
   */
  lemma {:induction false} ChainSubmitsAtMostOnce(proof: Proof, passes: seq<PassInputs>)
    ensures Submissions(SubmitChain(proof, passes)) <= 1
    ensures CarriesOnly(SubmitChain(proof, passes), proof)
    ensures Errors(SubmitChain(proof, passes)) <= 1
    decreases |passes|
  {
    if passes != [] {
      var trace := SubmitPass(proof, passes[0]);
      PassEffects(proof, passes[0]);
      if AsksRetry(trace) {
        var rest := SubmitChain(proof, passes[1..]);
        assert trace[|trace| - 1].proof == proof;
        ChainSubmitsAtMostOnce(proof, passes[1..]);
        SubmissionsAppend(trace, rest);
        ErrorsAppend(trace, rest);
        assert FailureOf(passes[0]).None?;
        assert SubmitChain(proof, passes) == trace + rest;
      }
    }
  }

  /**
   * A proof that meets an invalid bus `waits` times and then a valid one
   * whose submission succeeds is submitted exactly once, after exactly
   * `waits` rounds of status 5, and the chain ends with status 4 and a
   * balance refresh, with no error.
   */
  lemma {:induction false} WaitsThenSucceeds(proof: Proof, passes: seq<PassInputs>, waits: nat)
    requires |passes| == waits + 1
    requires forall k :: 0 <= k < |passes| ==> passes[k].wallet.Some?
    requires forall k :: 0 <= k < waits ==> passes[k].validBus == Returned(None) && passes[k].epochWait.Returned?
    requires passes[waits].validBus.Returned? && passes[waits].validBus.value.Some? && passes[waits].submit.Returned?
    ensures Submissions(SubmitChain(proof, passes)) == 1
    ensures Errors(SubmitChain(proof, passes)) == 0
    ensures |SubmitChain(proof, passes)| == 2 * waits + 4
    ensures forall k :: 0 <= k < waits ==> SubmitChain(proof, passes)[2 * k] == Status(BusInvalidWaiting)
    ensures SubmitChain(proof, passes)[|SubmitChain(proof, passes)| - 2] == Status(Submitted)
    decreases waits
  {
    var trace := SubmitPass(proof, passes[0]);
    PassEffects(proof, passes[0]);
    if waits == 0 {
      assert !AsksRetry(trace);
    } else {
      assert AsksRetry(trace) && |trace| == 2;
      WaitsThenSucceeds(proof, passes[1..], waits - 1);
      var rest := SubmitChain(proof, passes[1..]);
      assert SubmitChain(proof, passes) == trace + rest;
      forall k | 0 <= k < waits
        ensures SubmitChain(proof, passes)[2 * k] == Status(BusInvalidWaiting)
      {
        if k > 0 {
          assert passes[1..][k - 1] == passes[k];
          assert (trace + rest)[2 * k] == rest[2 * (k - 1)];
        }
      }
      SubmissionsAppend(trace, rest);
      ErrorsAppend(trace, rest);
    }
  }
}
