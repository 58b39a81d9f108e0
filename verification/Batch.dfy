/** Batch validity: `crates/derive/src/batch/single_batch.rs`. */
module Batch {
  import opened Bytes
  import opened Blocks

  datatype SingleBatch = SingleBatch(
    parentHash: Hash, epochNum: u64, epochHash: Hash, timestamp: u64, transactions: seq<bytes>)

  datatype BlockId = BlockId(number: u64, hash: Hash)

  datatype L2BlockInfo = L2BlockInfo(blockInfo: BlockInfo, l1Origin: BlockId, seqNum: u64)

  datatype BatchRules = BatchRules(seqWindowSize: u64, maxSequencerDrift: u64)

  datatype Validity = Accept | Drop | Undecided | Past

  /** 64-bit addition as built: overflow checks are off. */
  function WrapAdd(a: u64, b: u64): u64 {
    (a + b) % TWO64
  }

  predicate HasEmptyTransaction(b: SingleBatch) {
    exists i :: 0 <= i < |b.transactions| && b.transactions[i] == []
  }

  /** The verdict once the batch's L1 origin is known. */
  function CheckOrigin(b: SingleBatch, rules: BatchRules, l1Blocks: seq<BlockInfo>, head: L2BlockInfo,
                       origin: BlockInfo): Validity
    requires l1Blocks != []
  {
    if b.epochHash != origin.hash && head.blockInfo.number != 0 then Drop
    else if origin.timestamp + rules.maxSequencerDrift >= TWO64 then Drop
    else
      var max := origin.timestamp + rules.maxSequencerDrift;
      if b.timestamp > max && b.transactions != [] then Drop
      else if b.timestamp > max && l1Blocks[0].number == origin.number && |l1Blocks| < 2 then Undecided
      else if b.timestamp > max && l1Blocks[0].number == origin.number && b.timestamp >= l1Blocks[1].timestamp then Drop
      else if HasEmptyTransaction(b) then Drop
      else Accept
  }

  /** `SingleBatch::check_batch` */
  function CheckBatch(b: SingleBatch, rules: BatchRules, l1Blocks: seq<BlockInfo>, head: L2BlockInfo,
                      inclusion: BlockInfo): Validity
  {
    if l1Blocks == [] then Undecided
    else
      var epoch := l1Blocks[0];
      if b.timestamp < head.blockInfo.timestamp then Past
      else if b.parentHash != head.blockInfo.hash then Past
      else if WrapAdd(b.epochNum, rules.seqWindowSize) < inclusion.number then Drop
      else if b.epochNum < epoch.number then Drop
      else if b.epochNum == epoch.number then CheckOrigin(b, rules, l1Blocks, head, epoch)
      else if b.epochNum != WrapAdd(epoch.number, 1) then Drop
      else if |l1Blocks| < 2 then Undecided
      else CheckOrigin(b, rules, l1Blocks, head, l1Blocks[1])
  }

  /** More L1 blocks never change a verdict, and two of them always give one. */
  lemma VerdictStable(b: SingleBatch, rules: BatchRules, l1Blocks: seq<BlockInfo>, more: seq<BlockInfo>,
                      head: L2BlockInfo, inclusion: BlockInfo)
    ensures var v := CheckBatch(b, rules, l1Blocks, head, inclusion);
            && (v != Undecided ==> CheckBatch(b, rules, l1Blocks + more, head, inclusion) == v)
            && (|l1Blocks| >= 2 ==> v != Undecided)
  {
  }

  /** Checking again each time an L1 block arrives, until there is a verdict. */
  function EagerVerdict(b: SingleBatch, rules: BatchRules, l1Blocks: seq<BlockInfo>, head: L2BlockInfo,
                        inclusion: BlockInfo): Validity
    decreases |l1Blocks|
  {
    if l1Blocks == [] then CheckBatch(b, rules, [], head, inclusion)
    else
      var earlier := EagerVerdict(b, rules, l1Blocks[..|l1Blocks| - 1], head, inclusion);
      if earlier != Undecided then earlier else CheckBatch(b, rules, l1Blocks, head, inclusion)
  }

  /** The eager checker and the one that waits for all L1 blocks agree on every input. */
  lemma {:induction false} EagerAgrees(b: SingleBatch, rules: BatchRules, l1Blocks: seq<BlockInfo>, head: L2BlockInfo,
                                       inclusion: BlockInfo)
    ensures EagerVerdict(b, rules, l1Blocks, head, inclusion) == CheckBatch(b, rules, l1Blocks, head, inclusion)
    decreases |l1Blocks|
  {
    if l1Blocks != [] {
      var n := |l1Blocks| - 1;
      EagerAgrees(b, rules, l1Blocks[..n], head, inclusion);
      VerdictStable(b, rules, l1Blocks[..n], l1Blocks[n..], head, inclusion);
      assert l1Blocks[..n] + l1Blocks[n..] == l1Blocks;
    }
  }

  /** What acceptance above genesis says about the epoch. */
  lemma AcceptedEpoch(b: SingleBatch, rules: BatchRules, l1Blocks: seq<BlockInfo>, head: L2BlockInfo,
                      inclusion: BlockInfo)
    requires CheckBatch(b, rules, l1Blocks, head, inclusion) == Accept && head.blockInfo.number != 0
    ensures l1Blocks != [] && b.parentHash == head.blockInfo.hash
    ensures || (b.epochNum == l1Blocks[0].number && b.epochHash == l1Blocks[0].hash)
            || (|l1Blocks| >= 2 && b.epochNum == WrapAdd(l1Blocks[0].number, 1) && b.epochHash == l1Blocks[1].hash)
  {
  }

  /** At genesis the epoch hash is not looked at, which is why runs start above it. */
  lemma GenesisIgnoresEpochHash(b: SingleBatch, rules: BatchRules, l1Blocks: seq<BlockInfo>, head: L2BlockInfo,
                                inclusion: BlockInfo, other: Hash)
    requires head.blockInfo.number == 0
    ensures CheckBatch(b.(epochHash := other), rules, l1Blocks, head, inclusion)
            == CheckBatch(b, rules, l1Blocks, head, inclusion)
  {
    assert HasEmptyTransaction(b.(epochHash := other)) == HasEmptyTransaction(b);
  }

  // ---- The verdicts in plain terms -----------------------------------------

  /** The window is numbered consecutively, as the L1 chain is. */
  predicate Consecutive(l1Blocks: seq<BlockInfo>) {
    |l1Blocks| >= 2 ==> l1Blocks[1].number == l1Blocks[0].number + 1
  }

  /** The batch builds on the safe head. */
  predicate Extends(b: SingleBatch, head: L2BlockInfo) {
    head.blockInfo.timestamp <= b.timestamp && b.parentHash == head.blockInfo.hash
  }

  /** The batch's epoch is the block `k` steps after the safe head's, and was included in time. */
  predicate EpochAt(b: SingleBatch, rules: BatchRules, l1Blocks: seq<BlockInfo>, inclusion: BlockInfo, k: nat)
    requires l1Blocks != []
  {
    b.epochNum == l1Blocks[0].number + k && inclusion.number <= (b.epochNum + rules.seqWindowSize) % TWO64
  }

  /** Past the sequencer drift a batch must be empty, and it may stay in its epoch only if the next L1
      block is too late to have been adopted. */
  predicate DriftKept(b: SingleBatch, rules: BatchRules, l1Blocks: seq<BlockInfo>, k: nat)
    requires k < |l1Blocks|
  {
    var limit := l1Blocks[k].timestamp + rules.maxSequencerDrift;
    && limit < TWO64
    && (b.timestamp > limit ==>
          && b.transactions == []
          && (k == 0 ==> |l1Blocks| >= 2 && b.timestamp < l1Blocks[1].timestamp))
  }

  predicate ValidAt(b: SingleBatch, rules: BatchRules, l1Blocks: seq<BlockInfo>, head: L2BlockInfo,
                    inclusion: BlockInfo, k: nat)
    requires k < |l1Blocks|
  {
    && EpochAt(b, rules, l1Blocks, inclusion, k)
    && (b.epochHash == l1Blocks[k].hash || head.blockInfo.number == 0)
    && DriftKept(b, rules, l1Blocks, k)
    && forall i :: 0 <= i < |b.transactions| ==> b.transactions[i] != []
  }

  /** A batch is accepted exactly when it builds on the safe head and is valid in its epoch or the next. */
  lemma AcceptedExactly(b: SingleBatch, rules: BatchRules, l1Blocks: seq<BlockInfo>, head: L2BlockInfo,
                        inclusion: BlockInfo)
    requires Consecutive(l1Blocks)
    ensures CheckBatch(b, rules, l1Blocks, head, inclusion) == Accept
            <==> && Extends(b, head)
                 && exists k: nat :: k < 2 && k < |l1Blocks| && ValidAt(b, rules, l1Blocks, head, inclusion, k)
  {
    if l1Blocks != [] {
      CheckedAt(b, rules, l1Blocks, head, 0);
      if |l1Blocks| >= 2 { CheckedAt(b, rules, l1Blocks, head, 1); }
      if CheckBatch(b, rules, l1Blocks, head, inclusion) == Accept {
        var k := if b.epochNum == l1Blocks[0].number then 0 else 1;
        assert ValidAt(b, rules, l1Blocks, head, inclusion, k);
      }
      if k: nat :| k < 2 && k < |l1Blocks| && Extends(b, head) && ValidAt(b, rules, l1Blocks, head, inclusion, k) {
        assert k == 0 || k == 1;
      }
    }
  }

  lemma CheckedAt(b: SingleBatch, rules: BatchRules, l1Blocks: seq<BlockInfo>, head: L2BlockInfo, k: nat)
    requires k < 2 && k < |l1Blocks| && Consecutive(l1Blocks)
    ensures CheckOrigin(b, rules, l1Blocks, head, l1Blocks[k]) == Accept
            <==> && (b.epochHash == l1Blocks[k].hash || head.blockInfo.number == 0)
                 && DriftKept(b, rules, l1Blocks, k)
                 && forall i :: 0 <= i < |b.transactions| ==> b.transactions[i] != []
  {
  }

  /** `Past` means exactly that the batch does not build on the safe head. */
  lemma PastExactly(b: SingleBatch, rules: BatchRules, l1Blocks: seq<BlockInfo>, head: L2BlockInfo,
                    inclusion: BlockInfo)
    ensures CheckBatch(b, rules, l1Blocks, head, inclusion) == Past <==> l1Blocks != [] && !Extends(b, head)
  {
  }

  /** The block that would decide is not there yet: the window is empty; or it has the head's epoch only, and
      the batch names the next one, or is an empty batch of this epoch past the sequencer drift. */
  predicate Waits(b: SingleBatch, rules: BatchRules, l1Blocks: seq<BlockInfo>, head: L2BlockInfo, inclusion: BlockInfo)
  {
    || l1Blocks == []
    || (&& |l1Blocks| == 1 && Extends(b, head)
        && (|| EpochAt(b, rules, l1Blocks, inclusion, 1)
            || (&& EpochAt(b, rules, l1Blocks, inclusion, 0)
                && (b.epochHash == l1Blocks[0].hash || head.blockInfo.number == 0)
                && b.transactions == []
                && l1Blocks[0].timestamp + rules.maxSequencerDrift < TWO64
                && l1Blocks[0].timestamp + rules.maxSequencerDrift < b.timestamp)))
  }

  /** `Undecided` means exactly that the deciding block is missing. */
  lemma UndecidedExactly(b: SingleBatch, rules: BatchRules, l1Blocks: seq<BlockInfo>, head: L2BlockInfo,
                         inclusion: BlockInfo)
    requires Consecutive(l1Blocks)
    ensures CheckBatch(b, rules, l1Blocks, head, inclusion) == Undecided
            <==> Waits(b, rules, l1Blocks, head, inclusion)
  {
  }

  /** And a batch is dropped exactly when it builds on the safe head, nothing is missing to judge it, and
      it is valid neither in its epoch nor in the next. */
  lemma DropExactly(b: SingleBatch, rules: BatchRules, l1Blocks: seq<BlockInfo>, head: L2BlockInfo,
                    inclusion: BlockInfo)
    requires Consecutive(l1Blocks)
    ensures CheckBatch(b, rules, l1Blocks, head, inclusion) == Drop
            <==> && Extends(b, head) && !Waits(b, rules, l1Blocks, head, inclusion)
                 && forall k: nat :: k < 2 && k < |l1Blocks| ==> !ValidAt(b, rules, l1Blocks, head, inclusion, k)
  {
    AcceptedExactly(b, rules, l1Blocks, head, inclusion);
    PastExactly(b, rules, l1Blocks, head, inclusion);
    UndecidedExactly(b, rules, l1Blocks, head, inclusion);
  }
}
