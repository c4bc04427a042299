# Mining client coordination core

A model of the coordination logic in the browser client of a proof-of-work
miner on Sui (`src/cli/index.ts`). The client starts one web worker per core,
and gives each worker its own start in the nonce space. A stored checkpoint
can replace those starts. When a worker reports a proof, the client stops all
workers and hands the proof to the UI. When the UI asks for a proof to be
submitted, the client looks for a valid bus (the on-chain epoch object). It
waits for the next epoch and hands the proof back when no bus is valid, and
submits otherwise. It also summarises the wallet's MINE coins.

Every call into the chain, the browser or the worker script is an input of
the model: what the call returned, or the message of what it threw. Each port
handler runs atomically.

- `messages.dfy` (`Messages`): `Option`, addresses, byte strings and the `Proof` value.
- `partition.dfy` (`Partition`):
  - the worker count;
  - the start nonce of each worker and the shares they mark out;
  - the checkpoint override.
- `worker_pool.dfy` (`WorkerPool`): the class `Pool`.
  - Its state is the module-level `workers` list, the set of terminated handles and an outbox of everything sent.
  - Its methods are the `mine`, `stopMining` and worker `onmessage` / `onerror` handlers.
- `submission.dfy` (`Submission`):
  - one pass of the `submitProof` handler, as the trace of what it sends;
  - a chain of passes in which the UI fires `submitProof` again with each proof handed back on `retrySubmitProof`.
- `balances.dfy` (`Balances`): the pure part of `fetchBalances`, which is a stable descending sort, then the head, count and total.

Four behaviours of the code shape what the model can guarantee:

- A stored checkpoint replaces the start of every worker, not only of the first one.
  The lookup in `buildMiningConfig` runs once per worker (`ResumeSharesOneStart`).
- The miner account is read once per worker, after that worker has been spawned.
  When the read throws at worker `k`, workers `0 .. k-1` stay configured and listed. Worker `k` is never configured, listed or terminated, and no further worker is spawned (`Pool.Mine`).
- A submission that throws is not retried. The pass ends with one `proofSubmitError`.
  Only the "no valid bus" path hands the proof back, so a proof is submitted at most once in any chain of passes (`ChainSubmitsAtMostOnce`).
- `mine` does not refuse to run while workers are listed. It appends its workers after the existing ones.

## Model

| member | source | states |
|---|---|---|
| `Partition.WorkerCount` | src/cli/index.ts:220 | the worker count is positive; it is the reported hardware concurrency when that is positive, and 4 when it is absent or 0 |
| `Partition.Gap` | src/cli/index.ts:230 | definition; no contract: the share width `floor(MAX_SAFE_INTEGER / workerCount)` |
| `Partition.StartNonce` | src/cli/index.ts:230 | definition; no contract: worker `i` starts at `i` times the share width |
| `Partition.StartNonceInDomain` | src/cli/index.ts:230 | for every worker `i < workerCount`, its share `[i*gap, i*gap + gap)` ends at or below `MAX_SAFE_INTEGER`, so no start nonce exceeds it |
| `Partition.StartNonceStep` | src/cli/index.ts:230 | worker 0 starts at 0 and consecutive workers start exactly one gap `floor(MAX_SAFE_INTEGER / workerCount)` apart |
| `Partition.StartNoncesIncrease` | src/cli/index.ts:221-230 | with at most `MAX_SAFE_INTEGER` workers the gap is at least 1 and start nonces strictly increase with the worker index, `j - i` gaps apart |
| `Partition.SharesDisjoint` | src/cli/index.ts:230 | a nonce in worker `i`'s share is in no later worker's share |
| `Partition.SharesPartition` | src/cli/index.ts:230 | the workers' shares are pairwise disjoint and cover `[0, workerCount*gap)`: each nonce there lies in the share of exactly worker `nonce / gap` |
| `Partition.SharesLeaveShortTail` | src/cli/index.ts:230 | the shares stay inside the domain, and the nonces from `workerCount*gap` up to `MAX_SAFE_INTEGER` inclusive are at most `workerCount` in number |
| `Partition.InitialNonce` | src/cli/index.ts:278 | definition; no contract: the stored checkpoint nonce when present, otherwise the worker's computed start |
| `Partition.StartPlan` | src/cli/index.ts:221-236 | the initial nonces handed to the workers: one per worker; with a checkpoint every one equals it; without, worker `i` gets its partition start, worker 0 gets 0, they strictly increase and stay in the domain |
| `Partition.ResumeSharesOneStart` | src/cli/index.ts:277-278 | with a checkpoint `k` no worker starts below `k`, and workers 0 and 1 get the same start, so the shares no longer separate them |
| `WorkerPool.BuildMiningConfig` | src/cli/index.ts:275-286 | definition; no contract: the config carries the miner's current hash, the signer address, the bus difficulty and `InitialNonce` of the checkpoint and start |
| `WorkerPool.PlannedConfigs` | src/cli/index.ts:275-286 | the config posted to worker `k` carries the miner's current hash, the wallet address, the bus difficulty and the `k`-th initial nonce of the plan |
| `WorkerPool.Pool.constructor` | src/cli/index.ts:52 | the client starts with no workers, nothing terminated and nothing sent |
| `WorkerPool.Pool.Mine` | src/cli/index.ts:213-243 | without a wallet or bus nothing changes; otherwise fresh workers are appended after the existing ones, none removed, each posted its planned config in order. That is all `workerCount` of them, or, when the account read first throws at worker `k`, workers `0 .. k-1`, with one more handle spent on the unlisted worker `k` |
| `WorkerPool.Pool.StopMining` | src/cli/index.ts:172-175 | every listed worker is terminated and the list is empty; on an empty list nothing changes, so stopping twice equals stopping once |
| `WorkerPool.Pool.HandleWorkerMessage` | src/cli/index.ts:288-295 | a message with a proof terminates every listed worker, empties the list and sends exactly one `proofFound` with that proof; a message without one changes nothing |
| `WorkerPool.Pool.HandleWorkerError` | src/cli/index.ts:225-228 | a worker error sends one `miningError("Worker error")` and leaves the workers running |
| `WorkerPool.Pool.TerminateAll` | src/cli/index.ts:291-292 | every worker in the list is terminated, the list is emptied and nothing is sent |
| `Submission.SubmitPass` | src/cli/index.ts:185-211 | the sends of one pass, in order, per path. No wallet: nothing. Bus lookup throws: only the error. No valid bus: status 5, then `retrySubmitProof` with the same proof, or the error the epoch wait threw. Valid bus: status 3 and one submission against that bus, then status 4 and a balance refresh, or the error the submission threw |
| `Submission.PassEffects` | src/cli/index.ts:188-210 | for any inputs, one pass makes at most one submission, and only against the valid bus found. Status 5 is sent exactly when no bus was valid, status 3 exactly when one was, and status 4 exactly when the submission returned. It sends one `proofSubmitError`, last, exactly when a call threw. A retry comes only after status 5 with no submission, and a refresh only last after status 4. Every submission and retry carries the given proof |
| `Submission.SubmitChain` | src/cli/index.ts:192-196 | definition; no contract: passes run in turn for as long as each one ends by handing the proof back on `retrySubmitProof`, modelling the UI firing `submitProof` again with it; the chain stops at the first pass that does not |
| `Submission.ChainSubmitsAtMostOnce` | src/cli/index.ts:192-209 | across any number of wait-and-retry rounds the proof is submitted at most once, every submission and retry carries the original proof, and at most one error is sent |
| `Submission.WaitsThenSucceeds` | src/cli/index.ts:192-204 | `n` invalid-bus rounds followed by a valid bus and a returning submission give `n` status-5 rounds, exactly one submission, status 4 and no error |
| `Balances.Total` | src/cli/index.ts:257-260 | definition; no contract: the sum of the coin balances, which is the `reduce` starting from 0 |
| `Balances.InsertKeeps` | src/cli/index.ts:254 | inserting a coin into a list keeps every coin, adds that one, and adds its balance to the total |
| `Balances.InsertSorted` | src/cli/index.ts:254 | inserting a coin into a descending list leaves it descending |
| `Balances.SortByBalance` | src/cli/index.ts:254 | the sort is a permutation of the coins with the same length and total, in descending order of balance |
| `Balances.SortedHead` | src/cli/index.ts:254-255 | the first coin after the stable descending sort is the first coin, in listing order, of largest balance |
| `Balances.Summarize` | src/cli/index.ts:248-268 | `mineralObjects` is the number of coins; `mineral` is the total balance; `coinObject` is null exactly for an empty list, and otherwise the id of the first coin whose balance is maximal |

## Left out

- Elm start-up, the UI ports and their wiring: `fetchStats`, `clearWallet`, `registerMiner`, `refreshTokens`, `combineCoins`, `importWallet` and `copy`. Key handling (`Ed25519Keypair`, `decodeSuiPrivateKey`, `recoverWallet`) and the reassignment of `wallet` are left out too. These are UI, browser and foreign-crypto code; a wallet enters the model only as an optional address.
- The random choice of RPC endpoint, the Sui client, the Turbos swap estimate, gas estimation and the coin-merge transaction. These are network and foreign-library calls.
- `recoverMiningProgress`, which reads local storage and runs `JSON.parse`, is modelled as an optional nonce input. Nothing in this file stores a checkpoint: `clearWallet`, which is left out, only removes it (src/cli/index.ts:91). Each `mine` call therefore takes the checkpoint as its own input.
- The hash search in `/worker.js` is not part of this model. Workers are opaque handles that receive a config.
- Interleavings at the `await`s inside the `mine` loop, where a proof or a stop may arrive mid-loop, are not modelled. Each handler is atomic.
- `WorkerPool.Pool.Mine`: every account read that returns in one call gives the same current hash. A change of the miner's hash between the per-worker reads is not modelled.
- `WorkerPool.Pool.HandleWorkerMessage`: does not state that `proofFound` is sent at most once per session. The handler does not check which worker sent the message. That guarantee comes from the browser discarding the messages of terminated workers, which the model does not include.
- `Partition.SharesPartition`: covers only where the workers start. Each worker searches upward without an end, so the last worker also reaches the nonces above its share. That search is not modelled.
- `Number(...)` conversions and floating-point arithmetic are modelled with mathematical integers. This covers `Math.floor` of a float division, `Number(mineralBalance)` above 2^53, and the float sort comparator.
- `Balances.SortByBalance`: models the in-place sort of the RPC response array by the sequence it produces. The array is local to `fetchBalances` and read only after sorting. Stability is stated through `SortedHead`, not as a separate property.
- `Submission.SubmitChain`: assumes that the UI fires `submitProof` again with the proof it gets back on `retrySubmitProof`. `Main.elm` is not part of this model.
- Sending `balancesCb` after the refresh that follows a successful submission is not modelled. The trace records only that the refresh was started.
- Console logging is left out.
