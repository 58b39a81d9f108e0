# kona-soon in Dafny

A Dafny model of the derivation, bridge and execution bookkeeping of kona-soon, the fault-proof client
of an OP Stack rollup whose L2 runs the Solana virtual machine, with proofs of what the code keeps over
whole runs. Check everything with `dafny verify dfyconfig.toml`.

What is modelled:

- **Derived L2 chain** (`Batch`, `Deposits`, `DepositData`, `DerivedChain`, `L1Info`). `check_batch` decides whether a
  batch extends the safe head, `prepare_payload_attributes` picks epoch, sequence number and deposits,
  the attributes become the next head. Runs are over an arbitrary hash-linked L1 chain. `L1Info` puts the
  L1-info transaction on the wire and reads it back, which closes the loop from one block to the next.
- **Framing and reassembly** (`Frames`, `Channel`, `FrameQueue`, `Blob`). The frame codec, the
  out-of-order channel, the Holocene pruning loop and the EIP-4844 blob decoder.
- **L1 pipeline** (`SystemConfig`, `Pipeline`, `PipelineReset`, `PipelineReads`, `PipelineStages`). Traversal,
  retrieval over calldata, and the steps and signals that drive them. `Pipeline` holds the steps as values and
  delivery without resets, `PipelineReset` what a reset does to it, `PipelineReads` what holds in all runs,
  `PipelineStages` the classes proved against the steps.
- **Bridge program** (`BridgeRecords`, `Bridge`, `BridgeLedger`, `BridgeFlows`, `BridgeOutcomes`, `Fields`,
  `BridgeInstructions`). A transition system in which a failing instruction changes nothing, with system
  transfers, token transfers and burns by other programs as further steps; and the instruction codec.
- **Block bookkeeping** (`BlockhashQueue`, `RecentBlockhashes`, `Fees`, `FeeAccounts`, `FeeFailures`, `Bank`,
  `Labels`). The blockhash queue that is persisted and reloaded every block, fees, and Head/Body labels.
- **Ordered trie list walker** (`Lexicographic`, `ListWalker`, `OrderedList`, `TrieBuilder`).

`Bytes`, `Blocks`, `Outcomes`, `PipelineErrors`, `Sets` and `Sums` are shared. Where the source mutates an object or
a buffer the model has a class or a method with loops, whose contract ties it to a function on values; the laws are
lemmas about that function.

Hashes, the virtual machine, rent, UTF-8 validity, the update payloads of the system config and the Solidity encoder
enter as arbitrary functions; provider answers and failures enter as arguments. Arithmetic on machine integers
wraps in the executor and derivation crates and fails the instruction in the bridge program, as each is
built.

Results that say where the code does not do what one would expect:

- A channel whose closing frame prunes it loses from its size account the frames it keeps
  (`Channel.ExactAccount`, `Channel.DriftingRun`), and a channel of 65536 frames is never ready (`Channel.Reassembly`).
- Pruning an abandoned channel drains back to the first frame with its id, which takes along complete
  channels in between exactly when the id was used before (`FrameQueue.DrainedSegment`,
  `FrameQueue.DrainLosesClosedChannel`). A complete channel whose id occurs nowhere else is kept whole exactly when no
  channel drained behind it has a frame left before it, and is lost entirely otherwise
  (`FrameQueue.CompleteSurvivesExactly`).
- The two top bits of a blob's first byte are never checked (`Blob.DecodesExactlyEncodings`).
- A reset leaves the data source as it is and hands the origin to two stages. If the source was open, its stale
  data is delivered and, when the origin advances at its end, the reset origin's own data never is; if the
  origin does not advance at the first block end, the origin is read once more. Delivery stays exactly once if
  the source was closed, as it is in a pipeline just built, and the origin advances there
  (`PipelineReset.OnceAfterReset`, `PipelineReset.ResetLoses`, `PipelineReset.ResetRepeats`).
- The batch stream reports Eof of its own on a span batch that is past or dropped, and the pipeline advances the
  origin on any Eof. Two such steps in a row leave a block unread with all its data; in every run the blocks
  never read are exactly those left before they were handed out (`PipelineReads.ReadOrSkipped`,
  `PipelineReads.EarlyEofSkips`), and a block read after an early advance is read under a later batcher
  (`PipelineReads.ReadUnderBatcher`).
- A transaction that fails between admission and the virtual machine reports a fee it did not pay, and the
  leader is credited with it (`Fees.UnpaidFeeMinted`). No key is reserved, so a transaction may list the instructions
  sysvar as writable: it is loaded as an empty account and written back, which erases what it held
  (`FeeFailures.WritableSysvarLoses`). If the sysvar is the first key, the payer is a later one, and a read-only payer
  is charged a fee that never leaves its account (`FeeFailures.ReadOnlyPayerMints`). What a failing run adds or takes is
  written back and stays. A block conserves lamports exactly when these add up to nothing (`Fees.BlockConserves`).
- The length guard of a deposit's opaque data measures its RLP, so 302 to 304 bytes pass it and the slices behind
  it panic, and with them the derivation of the whole block's deposits (`DepositData.ParsePanicsExactly`,
  `DepositData.ShortLogPanics`, `Deposits.DerivePanicsExactly`).
- Converting a block to batches panics when a Head's length asks for more room than a vector can have, although the
  length has no other use (`Labels.GroupingKeepsOrder`).
- A deposit may name the vault itself as its recipient; then it moves nothing (`BridgeFlows.DepositEthMoves`).
- The check of a confirmed block counts transactions only, so entries that do not tile the block can pass
  (`Labels.EntriesInOrder`, `Labels.RepeatedEntryAccepted`).
- A batch on the wrong parent is reported as `Past`, where a test of the source calls the case a drop
  (`Batch.PastExactly`).
- The fork check of the pruning stage is the constant false in the source; here it is a parameter.

## Model

| member | source | states |
|---|---|---|
| Bytes.BERoundTrip | crates/primitives/src/da/frame.rs:106-107 | reading a big-endian integer of n bytes gives back every value that fits n bytes |
| Bytes.BigEndian | crates/primitives/src/da/frame.rs:106-107 | the first byte of a big-endian integer has the highest weight |
| Bytes.LERoundTrip | crates/programs/bridge-program/src/state.rs:29-41 | the same for little-endian |
| Bytes.LittleEndian | crates/programs/bridge-program/src/state.rs:29-41 | and the last byte of a little-endian one |
| Frames.Encode | crates/primitives/src/da/frame.rs:103-111 | the buffer built field by field is the wire form, 23 bytes longer than the payload |
| Frames.DecodeEncoded | crates/primitives/src/da/frame.rs:114-134 | decoding undoes encoding in front of any bytes, if and only if the payload fits MAX_FRAME_LEN |
| Frames.DecodedIsEncoded | crates/primitives/src/da/frame.rs:114-134 | whatever is accepted is the encoding of the decoded frame, except that any last byte other than 1 reads as not last |
| Frames.ParseFrames | crates/primitives/src/da/frame.rs:151-177 | the loop decodes frames back to back until nothing is left, and success means at least one frame |
| Frames.ParsesExactly | crates/primitives/src/da/frame.rs:151-177 | frames are accepted if and only if they lie back to back behind a version byte 0, at least one and nothing behind them, each with its fields at their offsets; which error stands for no bytes, another version, and the version byte alone |
| Frames.ParseBody | crates/primitives/src/da/frame.rs:160-176 | the loop gives the frames decoded back to back or the first error, and the length check after it can never fail |
| Frames.ParseEncodedFrames | crates/primitives/src/da/frame.rs:151-177 | frames concatenated behind the version byte parse back to exactly those frames in order |
| Channel.Channel.AddFrame | crates/primitives/src/da/channel.rs:103-150 | new state and error of every case, and the invariant of reachable channels |
| Channel.Channel.RetainBelow | crates/primitives/src/da/channel.rs:129-133 | entry by entry in any order, the unsigned size never underflows and ends at 0, and exactly the frames below remain |
| Channel.Channel.IsReady | crates/primitives/src/da/channel.rs:163-182 | closed, count equal to last + 1 in 16 bits, and contiguous |
| Channel.Channel.GetFrameData | crates/primitives/src/da/channel.rs:190-198 | the payloads of frames 0 to last in order, or nothing if one is missing |
| Channel.Reachable | crates/primitives/src/da/channel.rs:103-150 | after any adds: closed implies highest equals last, last is buffered and nothing exceeds it; the size account falls short of the true sum by exactly the frames retained at a pruning close |
| Channel.ExactAccount | crates/primitives/src/da/channel.rs:129-135 | the account stays exact if and only if the frame does not prune the channel with something kept below it |
| Channel.DriftingRun | crates/primitives/src/da/channel.rs:129-135 | frames 0 and 2 and then a closing frame 1: the account holds frame 1 only, the channel frames 0 and 1 |
| Channel.HighestInclusion | crates/primitives/src/da/channel.rs:143-145 | the inclusion block on record is the highest among those of the accepted frames, and of several with that number the first accepted |
| Channel.ReadyByCount | crates/primitives/src/da/channel.rs:163-182 | on reachable channels the contiguity loop is implied by the count, and last = 65535 is never ready |
| Channel.AllAccepted | crates/primitives/src/da/channel.rs:103-150 | each frame of a cut payload is accepted, whichever of the others came before |
| Channel.Reassembly | crates/primitives/src/da/channel.rs:103-198 | any payload cut into frames, any of them in any order: ready exactly when all arrived and there are at most 65535; then reading gives the payload back |
| Channel.WireToChannel | crates/primitives/src/da/frame.rs:103-177 | encode, concatenate, parse, add in any order, read: the payload comes back |
| FrameQueue.FrameQueue.Prune | crates/derive/src/stages/frame_queue.rs:63-109 | the in-place loop ends on every non-empty queue with the queue that its decisions, taken one at a time, give |
| FrameQueue.FrameQueue.LoadFrames | crates/derive/src/stages/frame_queue.rs:112-148 | nothing is loaded over a non-empty queue, unparsable data is skipped, the loaded queue is pruned and well formed |
| FrameQueue.FrameQueue.NextFrame | crates/derive/src/stages/frame_queue.rs:166-176 | loads if empty, then frames leave in order; each failure of loading, and an empty queue after it, is reported |
| FrameQueue.PruneSound | crates/derive/src/stages/frame_queue.rs:68-108 | pruning leaves a non-empty queue in which each frame continues an open channel or opens one after a close |
| FrameQueue.PruneSubsequence | crates/derive/src/stages/frame_queue.rs:68-108 | pruning only removes frames |
| FrameQueue.PruneIdempotent | crates/derive/src/stages/frame_queue.rs:68-108 | pruning again changes nothing, and the queues it leaves alone are exactly the well-formed ones |
| FrameQueue.DrainedSegment | crates/derive/src/stages/frame_queue.rs:95-105 | a drain removes one channel alone if and only if no closed channel used the same id before |
| FrameQueue.NoReuseDrainsAlone | crates/derive/src/stages/frame_queue.rs:95-105 | if no id of the input comes back after a frame that closed it, every drain of the whole loop removes one channel alone |
| FrameQueue.CompleteSurvives | crates/derive/src/stages/frame_queue.rs:68-108 | a complete channel, frames 0 to the closing one in a row, survives in one piece if its id occurs nowhere else and no id occurs on both sides of it, whatever else is in the queue |
| FrameQueue.CompleteSurvivesExactly | crates/derive/src/stages/frame_queue.rs:68-108 | a complete channel whose id occurs nowhere else survives in one piece if and only if no channel drained behind it has a frame left before it; otherwise nothing of it survives |
| FrameQueue.DrainLosesClosedChannel | crates/derive/src/stages/frame_queue.rs:95-105 | a queue in which a drain takes a complete channel along |
| Blob.DecodeFieldElement | crates/derive/src/sources/blob_data.rs:106-122 | 31 bytes written, nothing else touched, refused exactly when a top bit is set |
| Blob.ReassembleBytes | crates/derive/src/sources/blob_data.rs:126-140 | three bytes out of the four leading bytes, at their places, nothing else touched |
| Blob.SixAndTwoBits | crates/derive/src/sources/blob_data.rs:133-135 | the arithmetic form of the six-and-two packing is the masks and shifts, for all bytes |
| Blob.FourAndFourBits | crates/derive/src/sources/blob_data.rs:134 | the same for the four-and-four packing |
| Blob.Decode | crates/derive/src/sources/blob_data.rs:29-100 | every write of all 1024 rounds stays in the buffer; the result is what the elements carry, and which error each bad blob gets |
| Blob.RoundTrip | crates/derive/src/sources/blob_data.rs:29-140 | decoding undoes the blob encoding of every payload up to 130044 bytes |
| Blob.DecodesExactlyEncodings | crates/derive/src/sources/blob_data.rs:29-140 | a 131072-byte blob decodes to p if and only if it is the encoding of p up to the two top bits of byte 0 |
| Blob.OutputDeterminesBlob | crates/derive/src/sources/blob_data.rs:29-140 | two accepted blobs with equal output differ at most in those two bits |
| SystemConfig.UpdateWithReceipts | crates/primitives/src/system/config.rs:38-61 | the loops fold the updates of successful receipts and stop at the first malformed one |
| SystemConfig.EffectExactly | crates/primitives/src/system/log.rs:38-101 | which logs set which batcher: version 0, kind 0 and the address in the last 20 of exactly 96 bytes; and which are malformed, kinds 1 to 5 being left to their own parsers |
| SystemConfig.ApplyReceiptsMeaning | crates/primitives/src/system/config.rs:38-96 | success exactly when no update log is malformed, and then the batcher is that of the last batcher update or the old one |
| SystemConfig.ReceiptsBatcher | crates/primitives/src/system/config.rs:38-61 | applied to the end or only up to a malformed update, receipts leave the batcher of the last update applied |
| Pipeline.ExactlyOnce | crates/derive/src/pipeline/core.rs:161-186 | in every run from a new origin without Reset or Activation that advances only at the end of a block, under any provider failures, the frame queue is handed each block's inbox data once, in chain order, under the batcher in force at that block; all of it once the block is read to its end |
| Pipeline.InboxExactly | crates/derive/src/sources/calldata.rs:44-66 | the data of a block is the calldata of exactly the transactions to the inbox that the batcher sent, in order |
| Pipeline.BlockDataExactly | crates/derive/src/sources/calldata.rs:44-66 | what each block of a run contributes, transaction by transaction, with the batcher of the last update up to that block |
| Pipeline.NextDataExactly | crates/derive/src/stages/l1_retrieval.rs:85-107 | when a call of next_data delivers, what it delivers and leaves, and when it ends in each error |
| Pipeline.AdvanceExactly | crates/derive/src/stages/l1_traversal.rs:75-110 | the origin advances if and only if the next block is its child and its receipts are there and well formed; each error, and what it leaves |
| Pipeline.BatcherAt | crates/derive/src/stages/l1_traversal.rs:94-103 | the batcher in force is that of the last batcher update up to and including the block |
| PipelineReset.ResetRun | crates/derive/src/stages/l1_retrieval.rs:126-136 | in every run after a reset: first what an open source held, or else the origin's data; then what the blocks from the child on contribute if the origin advances when that ends, and from the origin on if it does not |
| PipelineReset.LastReset | crates/derive/src/pipeline/core.rs:95-121 | a run with any resets is cut at the last one, to any block of the chain, and what comes after obeys the law of one reset |
| PipelineReset.OnceAfterReset | crates/derive/src/stages/l1_traversal.rs:121-134 | each block delivered once if the source was closed and the origin advances, the origin's data replaced by stale data if it was open, repeated without the advance; exactly once if and only if the first reading, and the second if there was one, was the origin's data |
| PipelineReset.DeployedRun | crates/proof/proof/src/l1/pipeline.rs:70-95 | a pipeline that is built and then reset keeps the guarantee of a run without resets, unless the origin stays in place at the first block end |
| PipelineReset.ResetThenAdvance | crates/derive/src/stages/l1_retrieval.rs:98-105 | from every state, a reset and a step to the first block end that advances leave the next block as a new origin and have delivered only the first reading |
| PipelineReset.ResetLoses | crates/derive/src/stages/l1_retrieval.rs:126-136 | on every chain, a reset while data is buffered and one step to its end: the reset origin is passed over unread |
| PipelineReset.ResetRepeats | crates/derive/src/stages/l1_retrieval.rs:126-136 | on every chain, a reset of a closed source and a failing first advance: the origin's data is delivered twice |
| PipelineReads.ReadIsDelivered | crates/derive/src/stages/l1_retrieval.rs:85-107 | in every run, with any resets, failures and early advances and from any state, what was buffered and what each read brought in is delivered in that order and once, except what is still buffered |
| PipelineReads.ReadOrSkipped | crates/derive/src/stages/l1_traversal.rs:75-110 | in every run without resets blocks are read in chain order at most once, and those never read are exactly those the origin left before they were handed out; all are read if and only if there is none |
| PipelineReads.ReadUnderBatcher | crates/derive/src/stages/l1_retrieval.rs:85-107 | in every run without resets each read is under the batcher left by the config updates applied between the block's hand-out and the read; it is the block's own if and only if there are none or the last of them sets the same |
| PipelineReads.NoneSkipped | crates/derive/src/pipeline/core.rs:161-186 | there is none where steps report Eof only at the end of a block |
| PipelineReads.EarlyEofSkips | crates/derive/src/stages/batch/batch_stream.rs:158-172 | on every chain, two steps that report Eof without a call leave the block between them unread |
| PipelineStages.L1Traversal.NextL1Block | crates/derive/src/stages/l1_traversal.rs:43-50 | the block is handed out once, then Eof |
| PipelineStages.L1Traversal.AdvanceOrigin | crates/derive/src/stages/l1_traversal.rs:75-110 | new fields and result for every provider answer: missing, reorged, failing receipts, malformed update, success |
| PipelineStages.CalldataSource.LoadCalldata | crates/derive/src/sources/calldata.rs:37-70 | an open source is left alone, a failing provider changes nothing, otherwise the calldata of exactly the batcher's transactions to the inbox, in order |
| PipelineStages.CalldataSource.Next | crates/derive/src/sources/calldata.rs:77-84 | pops in order, Eof when empty |
| PipelineStages.L1Retrieval.NextData | crates/derive/src/stages/l1_retrieval.rs:85-107 | the three mutable stages together make exactly the value-level step |
| PipelineStages.L1Retrieval.Signal | crates/derive/src/stages/l1_retrieval.rs:126-136 | block, done, config and next are reset; the data source keeps what it holds |
| PipelineStages.DerivationPipeline.Step | crates/derive/src/pipeline/core.rs:161-186 | the calls of the stages above, and then by what they return: attributes are queued, Eof advances the origin, any other error is passed on; the result of each case |
| PipelineStages.DerivationPipeline.Signal | crates/derive/src/pipeline/core.rs:95-121 | a reset reaches all stages with the safe head's system config, or changes nothing if that cannot be had; prepared attributes stay |
| PipelineStages.DerivationPipeline.Next | crates/derive/src/pipeline/core.rs:71-73 | prepared attributes leave in the order they were prepared |
| Batch.AcceptedExactly | crates/derive/src/batch/single_batch.rs:42-172 | over a consecutive window, accepted if and only if the batch builds on the safe head and keeps window, epoch hash, drift and transaction rules in its epoch or the next |
| Batch.PastExactly | crates/derive/src/batch/single_batch.rs:56-70 | Past exactly when there is a window and the batch does not build on the safe head |
| Batch.UndecidedExactly | crates/derive/src/batch/single_batch.rs:42-172 | Undecided exactly when the window is empty, or has one block and the batch, on the safe head and in time, names the next epoch or is an empty batch of this one past the drift limit |
| Batch.DropExactly | crates/derive/src/batch/single_batch.rs:42-172 | Drop exactly when the batch builds on the safe head, no block is missing to judge it, and it is valid in neither epoch |
| Batch.VerdictStable | crates/derive/src/batch/single_batch.rs:42-172 | further L1 blocks never change a verdict, and two always give one |
| Batch.EagerAgrees | crates/derive/src/batch/single_batch.rs:86-97 | checking after every L1 block until there is a verdict agrees with checking once at the end |
| Batch.AcceptedEpoch | crates/derive/src/batch/single_batch.rs:78-108 | above genesis an accepted batch names the first or second window block by number and hash |
| Batch.GenesisIgnoresEpochHash | crates/derive/src/batch/single_batch.rs:105-108 | at genesis the verdict does not depend on the epoch hash |
| Deposits.DeriveDeposits | crates/primitives/src/deposit.rs:402-444 | the nested loops give the deposits of all logs of successful receipts under one running index, unless parsing one of them panics, which ends the whole |
| Deposits.DepositsOrdered | crates/primitives/src/deposit.rs:410-436 | log indices strictly increase and name this block |
| Deposits.DepositsComplete | crates/primitives/src/deposit.rs:417-441 | a deposit is derived if and only if the log at its index says so |
| Deposits.DepositsSay | crates/primitives/src/deposit.rs:402-444 | with the source's parser, a deposit is derived if and only if the log at its index is an event of the deposit contract whose bytes say it, field by field |
| Deposits.CarriableExactly | crates/primitives/src/deposit.rs:84-124 | the deposits of a list of logs go into a payload if and only if no log panics, all amounts fit 128 bits and the extra data of each ETH deposit has 32 bytes |
| Deposits.DerivePanicsExactly | crates/primitives/src/deposit.rs:402-444 | with the source's parser, the derivation panics if and only if some successful receipt holds an event of the deposit contract that is read past its end |
| DepositData.AliasRoundTrip | crates/primitives/src/deposit.rs:446-482 | aliasing an address and undoing it are inverse on every address, both ways, across the wrap |
| DepositData.AliasAdds | crates/primitives/src/deposit.rs:464-472 | the alias is the address plus the offset, modulo 2^160 |
| DepositData.ExtractPanicsExactly | crates/primitives/src/deposit.rs:225-267 | the data is refused as too short below 302 bytes, its slices panic from 302 to 304 behind a good selector, and it is extracted exactly with both selectors good from 305 on |
| DepositData.ParsesExactly | crates/primitives/src/deposit.rs:138-301 | a log parses to a deposit if and only if its topics, selectors and bridges are right and it is long enough, with each field of the deposit at its offset in the log; extra data cut or filled to 32 bytes |
| DepositData.ParsePanicsExactly | crates/primitives/src/deposit.rs:138-301 | for every log, whether parsing panics: the length words or the sender's topic are missing, or a log of the messenger lacks the target's topic, or its opaque data for the bridge is 302 to 304 bytes, below 401 for ETH or below 465 for ERC20; never with three topics and 529 bytes of data |
| DepositData.ShortLogPanics | crates/primitives/src/deposit.rs:226-252 | one such log: 302 bytes of opaque data whose RLP is 305 long pass the guard, and the parser panics |
| Deposits.SourceHashInjective | crates/primitives/src/deposit.rs:124-136 | without hash collisions, equal source hashes mean equal domain, block and index |
| DerivedChain.DeriveSanitizedDepositTx | crates/derive/src/attributes/stateful.rs:229-251 | all deposits of a block in order, an error if one does not fit, or a panic if parsing one panics |
| DerivedChain.AttributesExactly | crates/derive/src/attributes/stateful.rs:61-189 | when attributes are prepared, and which error stands for an unknown block, another hash of the same epoch, a foreign parent, an amount that does not fit and a malformed update |
| DerivedChain.AttributesQueue.NextAttributes | crates/derive/src/stages/attributes_queue.rs:66-141 | a batch is kept until its attributes are built and then let go |
| DerivedChain.NextAttributesExactly | crates/derive/src/stages/attributes_queue.rs:104-141 | a batch on another parent is refused with a reset, and every other failure is that of preparing the payload |
| DerivedChain.ExtendStep | crates/derive/src/attributes/stateful.rs:61-134 | one accepted batch keeps the origin, counts up and carries no deposits, or moves to the child block, starts at 0 and carries exactly its deposits |
| DerivedChain.ExtendExactly | crates/derive/src/attributes/stateful.rs:61-189 | an accepted batch that names a known canonical block goes through if and only if that is the head's origin, or its child with no log that panics, carries an amount that does not fit or is a malformed update |
| DerivedChain.DepositsExactlyOnce | crates/derive/src/attributes/stateful.rs:61-189 | over every successful run above genesis, the deposits of the L2 blocks concatenate to those of each L1 block entered, in order and once |
| DerivedChain.InfosRun | crates/derive/src/attributes/stateful.rs:78-134 | (origin number, sequence number) strictly increases lexicographically along every run |
| DerivedChain.SourceHashesDistinct | crates/primitives/src/deposit.rs:382-394 | along any derived chain all source hashes of L1-info and deposit transactions are pairwise distinct, across both domains |
| DerivedChain.SourceBytes | crates/primitives/src/deposit.rs:124-136 | the 64 bytes hashed for an L1-info transaction, domain 1, and for a deposit, domain 0 |
| DerivedChain.SequencedRun | crates/derive/src/stages/attributes_queue.rs:122-132 | each block of a run carries exactly its batch's transactions, in order, besides the derived ones |
| DerivedChain.LinkedRun | crates/derive/src/stages/attributes_queue.rs:104-121 | along a run each batch names the block before it as its parent |
| DerivedChain.TimestampsRun | crates/derive/src/attributes/stateful.rs:138 | block k of a run is k + 1 block times after the head, whatever the batches say |
| L1Info.Pack | crates/programs/l1-block-info-program/src/instruction.rs:137-170 | the buffer is the wire form of the instruction |
| L1Info.InfoOnWire | crates/programs/l1-block-info-program/src/instruction.rs:137-170 | tag 1 and the ten fields in order, integers little-endian |
| L1Info.UnpacksExactly | crates/programs/l1-block-info-program/src/instruction.rs:62-170 | input unpacks to i if and only if the packing of i is a prefix of it |
| L1Info.AddressRecovered | crates/primitives/src/derive.rs:50-55 | big-endian padding, little-endian packing and the 20-byte little-endian read give back every batcher address |
| L1Info.BatcherOnWire | crates/primitives/src/derive.rs:50-55 | the 32 bytes of the batcher are the address backwards and 12 zeros |
| L1Info.HeadRecovered | crates/l2provider/src/chain_provider.rs:255-317 | origin, sequence number and batcher read from a derived block are those the run continues with |
| BridgeRecords.PackIntoSlice | crates/programs/bridge-program/src/state.rs:92-102 | the slice written in place is the record's layout |
| BridgeRecords.RecordRoundTrip | crates/programs/bridge-program/src/state.rs:92-140 | a stored ETH or SPL record reads back as what was stored |
| BridgeRecords.RecordRoundTripBytes | crates/programs/bridge-program/src/state.rs:202-238 | every account of the right size is the packing of some record |
| BridgeRecords.CounterRoundTrip | crates/programs/bridge-program/src/state.rs:29-41 | a stored counter reads back |
| BridgeLedger.Solvent | crates/programs/bridge-program/src/processor.rs:595-739 | in every reachable state withdrawn shares plus supply times 10^(9-d) is at most deposited shares; the gap is the truncated dust and what was burned outside the bridge |
| BridgeLedger.NoOverflow | crates/programs/bridge-program/src/processor.rs:939-947 | converting any 64-bit amount of at most nine decimals to shares fits 128 bits |
| BridgeLedger.ConversionExactly | crates/programs/bridge-program/src/processor.rs:928-947 | conversion to more decimals multiplies, to fewer rounds down, and removing dust goes down and up again |
| BridgeLedger.Reachable | crates/programs/bridge-program/src/processor.rs:812-916 | solvency and the record discipline are kept by every instruction, over every run |
| BridgeLedger.WithdrawEthEffect | crates/programs/bridge-program/src/processor.rs:139-246 | counter up by one; under the old count the record with the program as sender, the config's messenger as target, value, gas limit and a call of the config's bridge as calldata, which unpacks to that; no other account's owner or data changed |
| BridgeLedger.WithdrawSplEffect | crates/programs/bridge-program/src/processor.rs:625-760 | the same for tokens, with value 0 and the burned units at the share decimals in the call |
| BridgeLedger.CounterCountsRecords | crates/programs/bridge-program/src/processor.rs:167-243 | a user's counter is the number of that user's ETH and SPL records, with nonces 0 to counter - 1 each once |
| BridgeLedger.RecordsForever | crates/programs/bridge-program/src/utils.rs:13-47 | no record is overwritten or lost, over any run |
| BridgeLedger.LamportsConserved | crates/programs/bridge-program/src/utils.rs:22-34 | no instruction creates or destroys lamports |
| BridgeLedger.SeedsApart | crates/programs/bridge-program/src/pda.rs:7-75 | different bridge accounts, owners of tokens and of the bridge among them, are derived from different concatenated seeds |
| BridgeOutcomes.WithdrawEthExactly | crates/programs/bridge-program/src/processor.rs:139-246 | an ETH withdrawal succeeds if and only if gas, signature, value, every account named and the calldata length are right, the record is not in use, and the payer has value and rent |
| BridgeOutcomes.WithdrawSplExactly | crates/programs/bridge-program/src/processor.rs:625-760 | the same for tokens: the token known, 1 to 2^64 - 1 units without dust, held by the payer and in supply |
| BridgeOutcomes.DepositEthExactly | crates/programs/bridge-program/src/processor.rs:69-129 | a deposit succeeds if and only if it is authorized, names vault and recipient, is above the rent of an empty account and the vault can pay it |
| BridgeOutcomes.DepositErc20Exactly | crates/programs/bridge-program/src/processor.rs:487-623 | a token deposit succeeds if and only if it is authorized, the token is known, units and supply fit 64 bits, and the token account is there or the vault can pay for it |
| BridgeOutcomes.CreateSplExactly | crates/programs/bridge-program/src/processor.rs:275-409 | a token is created if and only if it is authorized, has at most nine decimals, is not there yet, and the vault can pay for the mint |
| BridgeOutcomes.CreateUserCounterExactly | crates/programs/bridge-program/src/processor.rs:772-809 | a counter is created if and only if it is the payer's, is not in use, and the payer has the rent |
| BridgeFlows.WithdrawEthMoves | crates/programs/bridge-program/src/processor.rs:193-217 | value from payer to vault, rent from payer to record, and no other lamports move |
| BridgeFlows.DepositEthMoves | crates/programs/bridge-program/src/processor.rs:113-126 | value from vault to depositor, whichever account that is, and no other lamports move; a deposit to the vault itself moves none |
| BridgeFlows.VaultAccount | crates/programs/bridge-program/src/processor.rs:69-246 | over every run the vault holds its first balance plus withdrawals and gifts less deposits to others and the rent it paid |
| BridgeFlows.RecordsBackTheVault | crates/programs/bridge-program/src/processor.rs:167-243 | over every run from a fresh state the values of all stored ETH records add up to the lamports withdrawn into the vault |
| BridgeFlows.SupplyIsHeld | crates/programs/bridge-program/src/processor.rs:595-713 | in every reachable state the supply of each token is exactly what its holders have |
| BridgeFlows.HoldersAreCovered | crates/programs/bridge-program/src/processor.rs:688-739 | any holder's balance in shares, with everything withdrawn before, is covered by the shares deposited |
| Fields.ReadAllExactly | crates/programs/bridge-program/src/instruction.rs:337-422 | the unpack helpers in sequence find given fields if and only if their bytes stand in front, in order |
| BridgeInstructions.Pack | crates/programs/bridge-program/src/instruction.rs:425-526 | the appended buffer is the wire form, and packing fails exactly on a string over 255 bytes |
| BridgeInstructions.UnpacksExactly | crates/programs/bridge-program/src/instruction.rs:241-526 | input unpacks to i if and only if the packing of i is a prefix of it; so trailing bytes are ignored and nothing else is accepted |
| BridgeInstructions.PrefixFree | crates/programs/bridge-program/src/instruction.rs:425-526 | no instruction's encoding is a prefix of another's |
| BridgeInstructions.WithdrawalsOnWire | crates/programs/bridge-program/src/instruction.rs:472-500 | the wire form of both withdrawals |
| BridgeInstructions.DepositsOnWire | crates/programs/bridge-program/src/instruction.rs:425-500 | the wire form of both deposits, field by field |
| BridgeInstructions.OthersOnWire | crates/programs/bridge-program/src/instruction.rs:425-526 | and that of the other instructions |
| BlockhashQueue.RegisterAllTracks | crates/executor/svm/src/blockhash_queue.rs:50-68 | any queue driven by registrations holds at most max_age + 1 entries and agrees with the unbounded list |
| BlockhashQueue.AgeCheckExact | crates/executor/svm/src/blockhash_queue.rs:40-48 | age check, age and fee are those the unbounded list of registrations gives, for every age up to the queue's own |
| BlockhashQueue.ListAnswerMeaning | crates/executor/svm/src/blockhash_queue.rs:34-48 | what the list answers: the latest registration of the hash, if it is recent enough |
| RecentBlockhashes.ReloadIsReplay | crates/executor/svm/src/blockhash_queue.rs:90-112 | rebuilding from the sysvar is registering its entries one by one, oldest first |
| RecentBlockhashes.TakeNewest | crates/executor/svm/src/lib.rs:1106-1116 | taking from the sorted heap gives the head of the enumeration by falling index |
| RecentBlockhashes.HashQueue.RegisterHash | crates/executor/svm/src/blockhash_queue.rs:50-68 | the fields after a registration, pruning included |
| RecentBlockhashes.PersistBlockhash | crates/executor/svm/src/lib.rs:216-229 | reload, register, persist: the new entry first, an older copy dropped, 150 kept; the genesis hash where an empty list follows slot 0, and no block where it follows another |
| RecentBlockhashes.SysvarIsRecency | crates/executor/svm/src/lib.rs:1157-1162 | after every run of blocks the sysvar holds the 150 most recently registered hashes |
| RecentBlockhashes.NewestBlocksKept | crates/primitives/src/sysvar/recent_blockhashes.rs:17-50 | with distinct blockhashes these are the newest 150, newest first |
| RecentBlockhashes.NextBlockSees | crates/executor/svm/src/blockhash_queue.rs:40-48 | a hash passes the next block's check exactly if it is among the newest 150, with the age and fee of the full list |
| Fees.SendTotal | crates/executor/svm/src/lib.rs:891-955 | a transaction that reaches the virtual machine takes its fee out of the accounts if it fails or its payer is writable, and no other does; it erases what the overlay holds of a writable instructions sysvar; besides, the total changes by the post-minus-pre sum of the run over the accounts written back, which is 0 unless the run fails |
| Fees.BurnSucceeds | crates/executor/svm/src/lib.rs:775-790 | burning the fee of a failed transaction with a context cannot fail |
| Fees.PayerExactly | crates/executor/svm/src/lib.rs:1296-1340 | which payers are accepted, what is left of their account, and which error the others get |
| Fees.BlockTotal | crates/executor/svm/src/lib.rs:849-888 | for every block: accounts lose what was paid and what was erased, change by what the runs add, and the leader gains the wrapped count of what was reported |
| Fees.BlockConserves | crates/executor/svm/src/lib.rs:849-888 | with a leader, a sealed block conserves lamports if and only if reported fees plus what the runs add equal paid fees plus what is erased; where the runs add nothing and nothing is erased, if and only if every transaction with a fee pays it; where the instructions sysvar is nowhere writable nothing is erased, and a transaction pays if and only if it reaches the virtual machine |
| Fees.UnpaidFeeMinted | crates/executor/svm/src/lib.rs:557-568 | whenever the payer has nothing, or there is none, the reported fee is credited to the leader and nobody lost it |
| FeeAccounts.LoadedExactly | crates/executor/svm/src/lib.rs:510-569 | loading succeeds if and only if no key stops it; every key is loaded as it is found, but the payer without the fee and the instructions sysvar empty |
| FeeAccounts.SendExactly | crates/executor/svm/src/lib.rs:724-790 | account by account: nothing changes unless the virtual machine is reached; then the writable accounts are what the run made of them and nothing else changes, but a read-only payer of a failed run loses the fee |
| FeeAccounts.MintExactly | crates/executor/svm/src/accounts_db.rs:304-318 | when minting succeeds, the one account it changes, and each error |
| FeeAccounts.BurnExactly | crates/executor/svm/src/accounts_db.rs:320-334 | the same for burning |
| FeeAccounts.SealExactly | crates/executor/svm/src/lib.rs:849-888 | sealing credits the leader with the wrapped count of the reported fees, and nobody else |
| FeeFailures.WritableSysvarLoses | crates/executor/svm/src/lib.rs:441-447 | two transactions list the instructions sysvar as writable, both succeed and pay on a conserving virtual machine, and the lamports moved to it are gone |
| FeeFailures.ReadOnlyPayerMints | crates/executor/svm/src/lib.rs:510-569 | with the instructions sysvar first and a read-only payer behind it, a successful transaction reports a fee that is credited and not paid |
| Bank.LiteSvm.MintTo | crates/executor/svm/src/accounts_db.rs:304-318 | overlay and result of every case |
| Bank.LiteSvm.BurnFrom | crates/executor/svm/src/accounts_db.rs:320-334 | overlay and result of every case |
| Bank.LiteSvm.LoadAccounts | crates/executor/svm/src/lib.rs:510-569 | the loading loop with its one fee payer, or the first error |
| Bank.LiteSvm.SendTransaction | crates/executor/svm/src/lib.rs:724-790 | the overlay and result that the fee laws are about |
| Bank.LiteSvm.ExecuteBlock | crates/executor/svm/src/lib.rs:867-888 | batches in order as one list of transactions, then the leader is credited; if that fails the transactions stay |
| Labels.RawBlockFrom | crates/executor/svm/src/block.rs:93-119 | the grouping loop, which panics at the first Head that asks for more room than a vector can have |
| Labels.RawRoundTrip | crates/executor/svm/src/block.rs:86-119 | labelling and grouping again drops exactly the empty batches, if there is room for each batch, and panics otherwise |
| Labels.L2RoundTrip | crates/executor/svm/src/block.rs:86-119 | grouping and labelling again is the identity if and only if the list is empty or starts with a Head, each Head counts its run, and there is room for each |
| Labels.LabelsKeepOrder | crates/executor/svm/src/block.rs:26-34 | labelling keeps every transaction in order |
| Labels.GroupingKeepsOrder | crates/executor/svm/src/block.rs:93-119 | grouping panics if and only if the length of some Head exceeds the room there can be, and otherwise keeps every transaction in order, however wrong the lengths are |
| Labels.LabelFromEntries | crates/primitives/src/l2blocks.rs:138-148 | the labelling of all entries or the first error; every accepted result is well labelled and as long as the block |
| Labels.LabelledExactly | crates/primitives/src/l2blocks.rs:36-67 | which entries are accepted, the transactions they name in that order, and which error stands for an entry past the block and for another total |
| Labels.EntriesInOrder | crates/primitives/src/l2blocks.rs:36-67 | entries that tile the block are accepted with its transactions in order, and where transactions are distinct only they give that order |
| Labels.RepeatedEntryAccepted | crates/primitives/src/l2blocks.rs:146-148 | two entries for one transaction pass the length check |
| ListWalker.FetchLeaves | crates/proof/mpt/src/list_walker.rs:85-127 | the recursion ends on every acyclic store and returns the leaves in slot order, or the first error |
| ListWalker.WalkLists | crates/proof/mpt/src/list_walker.rs:85-127 | walking a well-formed trie lists exactly its bindings, in key order |
| OrderedList.AdjustOrder | crates/proof/mpt/src/util.rs:43-51 | the adjusted indices are every index once, in the order of their RLP keys |
| OrderedList.WalkRestoresList | crates/proof/mpt/src/list_walker.rs:48-127 | for every length, across the 128 boundary, walk and move give the items of the list in order |
| OrderedList.OrderedListWalker.Hydrate | crates/proof/mpt/src/list_walker.rs:48-76 | refuses while items are left, a failed walk changes nothing, otherwise the list with item 0 in front |
| OrderedList.OrderedListWalker.TakeInner | crates/proof/mpt/src/list_walker.rs:80-82 | gives the list away and forgets it |
| OrderedList.OrderedListWalker.Next | crates/proof/mpt/src/list_walker.rs:148-159 | pops in order and forgets the list with its last item |
| TrieBuilder.ListHasTrie | crates/proof/mpt/src/util.rs:43-51 | every list of up to 2^64 items has a well-formed trie with its items under the RLP of their indices, so the laws of the walk hold of something for every length |
| OrderedList.ListOf | crates/proof/mpt/src/list_walker.rs:40-76 | hydrating a fresh walker and iterating it gives back the list |

## Left out

- Network clients and host I/O: RPC calls, retries and logging enter only as provider answers.
- Channel bank, batch queue and span batch stages: they are reduced to their calls of `next_data` and what they then return.
- Pipeline.ExactlyOnce: asks that steps report Eof only after a call that ended in Eof, which the span batch stage does not guarantee; PipelineReads says what holds without it.
- PipelineReset.ResetRun: asks the same.
- DAServerSource and BlobSource: the exactly-once result is about the calldata source only.
- DepositData.RlpLength: the RLP length of a byte string is that of the Yellow Paper, appendix B, as the RLP library is foreign code.
- The virtual machine, program loading, signatures and compute budget: parameters; only that a successful run conserves lamports is asked of the virtual machine, where a law needs it.
- Fees.SendTotal: rent collection is taken as zero.
- Bank.LiteSvm.LoadAccounts: leaves out rent collection on loading.
- Bank.LiteSvm.SendTransaction: leaves out rent collection at write-back and the signature count, which no law here is about.
- Bank.LiteSvm.ExecuteBlock: leaves out the sysvar updates around the batches; RecentBlockhashes models that of the blockhashes.
- Running out of memory: a vector that can be asked for is there; only a capacity that cannot be asked for panics.
- Serialization of native transactions (bincode, RLP) and trie node decoding: foreign code; transactions are kept as values and tries as a datatype.
- Token metadata, token account authorities and the bridge admin: the checks they make are one `authorized` flag per instruction.
- Config updates other than the batcher: parsed by a parameter and ignored, as the source ignores them.
- L2 blocks from UI form: only the conversion from confirmed blocks is modelled.
- DerivedChain.DepositsExactlyOnce: asks for a run shorter than 2^64 blocks and a head above genesis, where the epoch hash is checked.
- PipelineStages.DerivationPipeline.Step: what the stages in between answer is an argument.
- BridgeInstructions.Pack: appends from a table of fields instead of one statement per field; the order is that of the source.
- Bridge handlers: modelled on values as transitions, since a failing instruction is rolled back by the runtime; updates in place between two checks of one handler are not visible.
