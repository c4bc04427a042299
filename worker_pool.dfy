/**
 * The module-level `workers` list of the mining client and the three handlers
 * that change it: `mine` spawns and configures workers, `stopMining` terminates
 * them, and a worker's message carrying a proof terminates them all and reports
 * the proof to the UI.
 */
module WorkerPool {
  import opened Messages
  import opened Partition

  /** A worker handle; `new Worker(...)` hands out the next unused one. */
  type WorkerId = nat

  /** The configuration posted to a worker, built by `buildMiningConfig`. */
  datatype MineConfig = MineConfig(currentHash: Bytes, signer: Address, difficulty: nat, initialNonce: nat)

  /** Outbound effects, in order: a config posted to a worker, or a send on a UI port. */
  datatype Event =
    | PostConfig(worker: WorkerId, config: MineConfig)
    | ProofFound(proof: Proof)
    | MiningError(message: string)

  /** A message a worker posts back; only its `proof` field is looked at. */
  datatype WorkerMessage = WorkerMessage(proof: Option<Proof>)

  /** The message the `onerror` handler sends on the `miningError` port. */
  const WorkerErrorMessage: string := "Worker error"

  /** `buildMiningConfig`: the stored checkpoint, when present, replaces the start nonce. */
  function BuildMiningConfig(signer: Address, currentHash: Bytes, difficulty: nat, checkpoint: Option<nat>, startNonce: nat): MineConfig
  {
    MineConfig(currentHash, signer, difficulty, InitialNonce(checkpoint, startNonce))
  }

  /** The configs one successful `mine` call posts, worker by worker. */
  function PlannedConfigs(signer: Address, currentHash: Bytes, difficulty: nat, checkpoint: Option<nat>, workerCount: nat): (configs: seq<MineConfig>)
    requires workerCount > 0
    ensures |configs| == workerCount
    ensures forall k :: 0 <= k < workerCount ==>
      configs[k].initialNonce == StartPlan(checkpoint, workerCount)[k] &&
      configs[k].currentHash == currentHash && configs[k].signer == signer && configs[k].difficulty == difficulty
  {
    seq(workerCount, k requires 0 <= k < workerCount =>
      BuildMiningConfig(signer, currentHash, difficulty, checkpoint, StartNonce(k, workerCount)))
  }

  /**
   * How many workers one `mine` call configures and lists: all of them, or
   * those before the first `Miner.fetch` that throws.
   */
  function Dispatched(workerCount: nat, accountFailsAt: Option<nat>): nat
  {
    if accountFailsAt.Some? && accountFailsAt.value < workerCount then accountFailsAt.value else workerCount
  }

  /** `n` consecutive fresh handles starting at `first`. */
  function Handles(first: WorkerId, n: nat): seq<WorkerId>
  {
    seq(n, k requires 0 <= k < n => first + k)
  }

  /** The events that post `configs` to the workers numbered from `first`. */
  function Dispatch(first: WorkerId, configs: seq<MineConfig>): seq<Event>
  {
    seq(|configs|, k requires 0 <= k < |configs| => PostConfig(first + k, configs[k]))
  }

  class Pool {
    /** The live, listed workers, in dispatch order (`workers` in the client). */
    var workers: seq<WorkerId>
    /** Every handle that has been terminated. */
    var terminated: set<WorkerId>
    /** Everything sent so far, oldest first. */
    var outbox: seq<Event>
    /** The next handle `new Worker(...)` will return. */
    var nextId: WorkerId

    /** Listed handles are distinct, allocated and not yet terminated. */
    ghost predicate Valid()
      reads this
    {
      (forall k :: 0 <= k < |workers| ==> workers[k] < nextId && workers[k] !in terminated) &&
      (forall j, k :: 0 <= j < k < |workers| ==> workers[j] != workers[k]) &&
      (forall w :: w in terminated ==> w < nextId)
    }

    constructor ()
      ensures Valid()
      ensures workers == [] && terminated == {} && outbox == [] && nextId == 0
    {
      workers, terminated, outbox, nextId := [], {}, [], 0;
    }

    /**
     * The `mine` handler. `bus` is the difficulty read by `fetchBus` (None when
     * it failed); `currentHash` is the miner's current hash that `Miner.fetch`
     * returns, and `accountFailsAt` the worker, if any, at whose
     * `buildMiningConfig` that read first throws. Without a wallet, or when
     * the bus read fails, nothing happens. Otherwise workers are spawned one
     * by one; each is posted its config and appended to the list after the
     * existing ones. When the account read throws at worker `k`, workers
     * `0 .. k-1` are configured and listed, worker `k` has been spawned but
     * is never configured, listed or terminated, and no more are spawned.
     */
    method Mine(wallet: Option<Address>, bus: Option<nat>, currentHash: Bytes, accountFailsAt: Option<nat>,
                hardwareConcurrency: Option<nat>, checkpoint: Option<nat>)
      requires Valid()
      modifies this
      ensures Valid()
      ensures terminated == old(terminated)
      ensures wallet.None? || bus.None? ==>
        workers == old(workers) && outbox == old(outbox) && nextId == old(nextId)
      ensures wallet.Some? && bus.Some? ==>
        var n := WorkerCount(hardwareConcurrency);
        var k := Dispatched(n, accountFailsAt);
        var configs := PlannedConfigs(wallet.value, currentHash, bus.value, checkpoint, n);
        workers == old(workers) + Handles(old(nextId), k) &&
        outbox == old(outbox) + Dispatch(old(nextId), configs[..k]) &&
        nextId == old(nextId) + k + (if k < n then 1 else 0)
    {
      if wallet.None? || bus.None? {
        return;
      }
      var workerCount := WorkerCount(hardwareConcurrency);
      ghost var configs := PlannedConfigs(wallet.value, currentHash, bus.value, checkpoint, workerCount);
      ghost var k := Dispatched(workerCount, accountFailsAt);
      for i := 0 to workerCount
        invariant Valid()
        invariant terminated == old(terminated)
        invariant i <= k
        invariant nextId == old(nextId) + i
        invariant workers == old(workers) + Handles(old(nextId), i)
        invariant outbox == old(outbox) + Dispatch(old(nextId), configs[..i])
      {
        var worker := nextId;
        nextId := nextId + 1;
        var startNonce := StartNonce(i, workerCount);
        if accountFailsAt == Some(i) {
          return;
        }
        var config := BuildMiningConfig(wallet.value, currentHash, bus.value, checkpoint, startNonce);
        outbox := outbox + [PostConfig(worker, config)];
        workers := workers + [worker];
        assert Handles(old(nextId), i + 1) == Handles(old(nextId), i) + [worker];
        assert Dispatch(old(nextId), configs[..i + 1]) == Dispatch(old(nextId), configs[..i]) + [PostConfig(worker, config)];
      }
    }

    /** The `stopMining` handler: terminate every listed worker and empty the list. */
    method StopMining()
      requires Valid()
      modifies this
      ensures Valid()
      ensures workers == []
      ensures terminated == old(terminated) + set k | 0 <= k < |old(workers)| :: old(workers)[k]
      ensures outbox == old(outbox) && nextId == old(nextId)
      ensures old(workers) == [] ==> terminated == old(terminated)
    {
      TerminateAll();
    }

    /**
     * A worker's `onmessage` handler: a message carrying a proof terminates every
     * listed worker, empties the list and sends that proof, once, on `proofFound`;
     * any other message changes nothing.
     */
    method HandleWorkerMessage(message: WorkerMessage)
      requires Valid()
      modifies this
      ensures Valid()
      ensures nextId == old(nextId)
      ensures message.proof.None? ==>
        workers == old(workers) && terminated == old(terminated) && outbox == old(outbox)
      ensures message.proof.Some? ==>
        workers == [] &&
        terminated == old(terminated) + (set k | 0 <= k < |old(workers)| :: old(workers)[k]) &&
        outbox == old(outbox) + [ProofFound(message.proof.value)]
    {
      if message.proof.Some? {
        TerminateAll();
        outbox := outbox + [ProofFound(message.proof.value)];
      }
    }

    /** A worker's `onerror` handler: report on `miningError`; the workers keep running. */
    method HandleWorkerError()
      requires Valid()
      modifies this
      ensures Valid()
      ensures workers == old(workers) && terminated == old(terminated) && nextId == old(nextId)
      ensures outbox == old(outbox) + [MiningError(WorkerErrorMessage)]
    {
      outbox := outbox + [MiningError(WorkerErrorMessage)];
    }

    /** Terminate every listed worker, then empty the list; nothing is sent. */
    method TerminateAll()
      requires Valid()
      modifies this
      ensures Valid()
      ensures workers == []
      ensures terminated == old(terminated) + set k | 0 <= k < |old(workers)| :: old(workers)[k]
      ensures outbox == old(outbox) && nextId == old(nextId)
    {
      var i := 0;
      while i < |workers|
        invariant 0 <= i <= |workers|
        invariant terminated == old(terminated) + set k | 0 <= k < i :: workers[k]
        invariant workers == old(workers) && outbox == old(outbox) && nextId == old(nextId)
      {
        terminated := terminated + {workers[i]};
        i := i + 1;
      }
      workers := [];
    }
  }
}
