/** Block references shared by the derivation stages: `crates/primitives/src/blocks.rs`. */
module Blocks {
  import opened Bytes

  type Hash = h: bytes | |h| == 32 witness seq(32, _ => 0)
  type Pubkey = Hash
  type Address = a: bytes | |a| == 20 witness seq(20, _ => 0)

  const ZERO_HASH: Hash := Zeros(32)

  datatype BlockInfo = BlockInfo(hash: Hash, number: u64, parentHash: Hash, timestamp: u64)

  const DEFAULT_BLOCK := BlockInfo(ZERO_HASH, 0, ZERO_HASH, 0)
}
