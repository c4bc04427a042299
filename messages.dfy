/** Values exchanged between the mining client, its workers and the UI ports. */
module Messages {

  /** A value that may be missing (`null`/`undefined` in the client). */
  datatype Option<+T> = None | Some(value: T)

  /** A wallet's Sui address, as `toSuiAddress()` renders it. */
  type Address = string

  /** Raw bytes: a miner's current hash, a proof's hash. */
  type Bytes = seq<bv8>

  /** A proof reported by a worker and carried unchanged through submission. */
  datatype Proof = Proof(nonce: nat, hash: Bytes)
}
