/** Payload attributes and the L2 chain they build:
    `crates/derive/src/attributes/stateful.rs` and `crates/derive/src/stages/attributes_queue.rs`. */
module DerivedChain {
  import opened Bytes
  import opened Blocks
  import opened PipelineErrors
  import opened SystemConfig
  import opened Pipeline
  import opened Batch
  import opened Deposits
  import opened Outcomes

  datatype Rollup = Rollup(blockTime: u64, batch: BatchRules, deposits: DepositRules, l1: Config)

  /** Transactions of an L2 block, kept apart from their serialization. */
  datatype L2Tx =
    | L1InfoTx(l1Number: u64, l1Timestamp: u64, l1Hash: Hash, seqNum: u64, batcher: Address)
    | DepositTx(deposit: UserDeposited)
    | SequencedTx(data: bytes)

  datatype Attributes = Attributes(timestamp: u64, transactions: seq<L2Tx>)

  /** The L2 block attributes are built on. `config` is what the L2 provider recovers from the
      block's L1-info transaction. */
  datatype Head = Head(info: L2BlockInfo, config: SystemConfig)

  /** L1 blocks by hash, as far as the provider answers. */
  type World = map<Hash, L1Block>

  function DepositTxs(ds: seq<UserDeposited>): seq<L2Tx> {
    seq(|ds|, i requires 0 <= i < |ds| => DepositTx(ds[i]))
  }

  /** `derive_sanitized_deposit_tx`: all deposits of a block become transactions, or none. */
  method DeriveSanitizedDepositTx(num: u64, hash: Hash, receipts: seq<Receipt>, rules: DepositRules)
    returns (r: Outcome<seq<L2Tx>, PipelineErrorKind>)
    ensures var ds := DepositsIn(num, hash, receipts, rules);
            r == if AnyPanics(LogsOf(receipts), rules) then Panic
                 else if AllEncodable(ds) then Value(DepositTxs(ds)) else Fail(Critical(BadEncoding))
  {
    var derived := DeriveDeposits(num, hash, receipts, rules);
    if derived.Panic? { return Panic; }
    var ds := derived.value;
    var res: seq<L2Tx> := [];
    var i := 0;
    while i < |ds|
      invariant 0 <= i <= |ds| && res == DepositTxs(ds[..i]) && AllEncodable(ds[..i])
    {
      if !Encodable(ds[i]) { return Fail(Critical(BadEncoding)); }
      DepositTxsSnoc(ds, i);
      res := res + [DepositTx(ds[i])];
      i := i + 1;
    }
    assert ds[..i] == ds;
    return Value(res);
  }

  lemma DepositTxsSnoc(ds: seq<UserDeposited>, i: nat)
    requires i < |ds|
    ensures DepositTxs(ds[..i + 1]) == DepositTxs(ds[..i]) + [DepositTx(ds[i])]
    ensures AllEncodable(ds[..i]) && Encodable(ds[i]) ==> AllEncodable(ds[..i + 1])
  {
  }

  /** `prepare_payload_attributes` */
  function PreparePayloadAttributes(parent: Head, epoch: BlockId, world: World,
                                    r: Rollup): Outcome<Attributes, PipelineErrorKind>
  {
    var origin := parent.info.l1Origin;
    var timestamp := WrapAdd(parent.info.blockInfo.timestamp, r.blockTime);
    if origin.number != epoch.number then
      if epoch.hash !in world then Fail(Temporary(Provider))
      else
        var block := world[epoch.hash];
        if origin.hash != block.info.parentHash then Fail(Reset(BlockMismatchEpochReset))
        else if AnyPanics(LogsOf(block.receipts), r.deposits) then Panic
        else
          var ds := DepositsIn(epoch.number, epoch.hash, block.receipts, r.deposits);
          if !AllEncodable(ds) then Fail(Critical(BadEncoding))
          else
            var (config, ok) := ApplyReceipts(parent.config, block.receipts, r.l1.rules);
            if !ok then Fail(Critical(PipelineError.SystemConfigUpdate))
            else Value(Attributes(timestamp, [InfoTx(block.info, 0, config)] + DepositTxs(ds)))
    else if origin.hash != epoch.hash then Fail(Reset(BlockMismatch))
    else if epoch.hash !in world then Fail(Temporary(Provider))
    else Value(Attributes(timestamp, [InfoTx(world[epoch.hash].info, WrapAdd(parent.info.seqNum, 1), parent.config)]))
  }

  /** The epoch is new and its block, which the provider knows, is a child of the parent's origin. */
  predicate EntersChild(parent: Head, epoch: BlockId, world: World) {
    && parent.info.l1Origin.number != epoch.number && epoch.hash in world
    && world[epoch.hash].info.parentHash == parent.info.l1Origin.hash
  }

  predicate NoneMalformed(logs: seq<Log>, rules: UpdateRules) {
    forall log :: log in logs ==> !Effect(log, rules).Malformed?
  }

  /** When attributes are prepared, and what goes wrong otherwise. An epoch that stays needs only a provider
      that knows it; a new one must be a child of the origin, and none of its logs may panic, carry an amount
      that does not fit, or be a malformed update. */
  lemma AttributesExactly(parent: Head, epoch: BlockId, world: World, r: Rollup)
    ensures var p := PreparePayloadAttributes(parent, epoch, world, r);
            var stays := parent.info.l1Origin.number == epoch.number;
            var known := epoch.hash in world;
            var logs := if known then LogsOf(world[epoch.hash].receipts) else [];
            && (p == Fail(Reset(BlockMismatch)) <==> stays && parent.info.l1Origin.hash != epoch.hash)
            && (p == Fail(Temporary(Provider)) <==> !known && (stays ==> parent.info.l1Origin.hash == epoch.hash))
            && (p == Fail(Reset(BlockMismatchEpochReset)) <==> !stays && known && !EntersChild(parent, epoch, world))
            && (p.Panic? <==> EntersChild(parent, epoch, world) && exists log :: log in logs && Panics(log, r.deposits))
            && (p == Fail(Critical(BadEncoding)) <==>
                  && EntersChild(parent, epoch, world) && (forall log :: log in logs ==> !Panics(log, r.deposits))
                  && exists log :: log in logs && !Carriable(log, r.deposits))
            && (p.Value? <==>
                  || (known && parent.info.l1Origin == epoch)
                  || (&& EntersChild(parent, epoch, world) && NoneMalformed(logs, r.l1.rules)
                      && forall log :: log in logs ==> Carriable(log, r.deposits)))
            && (p == Fail(Critical(PipelineError.SystemConfigUpdate)) <==>
                  && EntersChild(parent, epoch, world) && !NoneMalformed(logs, r.l1.rules)
                  && forall log :: log in logs ==> Carriable(log, r.deposits))
  {
    if epoch.hash in world {
      var receipts := world[epoch.hash].receipts;
      CarriableExactly(epoch.number, epoch.hash, LogsOf(receipts), 0, r.deposits);
      PanicsMember(LogsOf(receipts), r.deposits);
      ApplyReceiptsMeaning(parent.config, receipts, r.l1.rules);
    }
  }

  function InfoTx(block: BlockInfo, seqNum: u64, config: SystemConfig): L2Tx {
    L1InfoTx(block.number, block.timestamp, block.hash, seqNum, config.batcher)
  }

  function Sequenced(txs: seq<bytes>): seq<L2Tx> {
    seq(|txs|, i requires 0 <= i < |txs| => SequencedTx(txs[i]))
  }

  /** `create_next_attributes`: derived transactions first, the batch's own behind them. */
  function CreateNextAttributes(batch: SingleBatch, parent: Head, world: World,
                                r: Rollup): Outcome<Attributes, PipelineErrorKind>
  {
    if batch.parentHash != parent.info.blockInfo.hash then Fail(Reset(BadParentHash))
    else
      match PreparePayloadAttributes(parent, BlockId(batch.epochNum, batch.epochHash), world, r)
      case Panic => Panic
      case Fail(e) => Fail(e)
      case Value(a) => Value(a.(transactions := a.transactions + Sequenced(batch.transactions)))
  }

  /** `AttributesQueue` */
  class AttributesQueue {
    var batch: Option<SingleBatch>
    var isLastInSpan: bool

    constructor ()
      ensures batch == None && !isLastInSpan
    {
      batch, isLastInSpan := None, false;
    }

    /** `next_attributes`, with the answer the stage below gives if asked. A batch is kept until its
        attributes are built, and then let go: none is lost to an error, none is used twice. */
    method NextAttributes(parent: Head, below: Result<(SingleBatch, bool), PipelineErrorKind>, world: World, r: Rollup)
      returns (res: Outcome<(Attributes, bool), PipelineErrorKind>)
      modifies this
      ensures old(batch).None? && below.Err? ==>
                batch == None && isLastInSpan == old(isLastInSpan) && res == Fail(below.error)
      ensures old(batch).Some? || below.Ok? ==>
                var (b, last) := if old(batch).Some? then (old(batch).value, old(isLastInSpan)) else below.value;
                match CreateNextAttributes(b, parent, world, r)
                case Value(a) => batch == None && !isLastInSpan && res == Value((a, last))
                case Fail(e) => batch == Some(b) && isLastInSpan == last && res == Fail(e)
                case Panic => res == Panic
    {
      if batch.None? {
        if below.Err? { return Fail(below.error); }
        batch, isLastInSpan := Some(below.value.0), below.value.1;
      }
      var a := CreateNextAttributes(batch.value, parent, world, r);
      if a.Panic? { return Panic; }
      if a.Fail? { return Fail(a.error); }
      res := Value((a.value, isLastInSpan));
      batch, isLastInSpan := None, false;
    }
  }

  // ---- Runs ----------------------------------------------------------------

  /** One accepted batch: the L1 window and inclusion block it was checked with, and the hash the
      executed block gets. */
  datatype Input = Input(batch: SingleBatch, window: seq<BlockInfo>, inclusion: BlockInfo, newHash: Hash)

  function HeadAfter(parent: Head, a: Attributes, newHash: Hash): Head
    requires a.transactions != [] && a.transactions[0].L1InfoTx?
  {
    var tx := a.transactions[0];
    Head(L2BlockInfo(BlockInfo(newHash, WrapAdd(parent.info.blockInfo.number, 1), parent.info.blockInfo.hash,
                               a.timestamp),
                     BlockId(tx.l1Number, tx.l1Hash), tx.seqNum),
         SystemConfig(tx.batcher))
  }

  lemma FirstIsInfo(batch: SingleBatch, parent: Head, world: World, r: Rollup)
    ensures var a := CreateNextAttributes(batch, parent, world, r);
            a.Value? ==> a.value.transactions != [] && a.value.transactions[0].L1InfoTx?
  {
  }

  /** Check the batch, build its attributes, execute them. */
  function Extend(h: Head, i: Input, world: World, r: Rollup): Option<(Head, Attributes)> {
    if CheckBatch(i.batch, r.batch, i.window, h.info, i.inclusion) != Accept then None
    else
      match CreateNextAttributes(i.batch, h, world, r)
      case Panic => None
      case Fail(_) => None
      case Value(a) =>
        FirstIsInfo(i.batch, h, world, r);
        Some((HeadAfter(h, a, i.newHash), a))
  }

  /** Several batches in a row; None as soon as one does not go through. */
  function Derive(h: Head, inputs: seq<Input>, world: World, r: Rollup): Option<(Head, seq<Attributes>)> {
    if inputs == [] then Some((h, []))
    else
      var n := |inputs| - 1;
      match Derive(h, inputs[..n], world, r)
      case None => None
      case Some((t, blocks)) =>
        match Extend(t, inputs[n], world, r)
        case None => None
        case Some((u, a)) => Some((u, blocks + [a]))
  }

  /** The deposits among the transactions of a block. */
  function DepositsAmong(txs: seq<L2Tx>): seq<UserDeposited> {
    if txs == [] then []
    else (if txs[0].DepositTx? then [txs[0].deposit] else []) + DepositsAmong(txs[1..])
  }

  function AllDeposits(blocks: seq<Attributes>): seq<UserDeposited> {
    if blocks == [] then []
    else AllDeposits(blocks[..|blocks| - 1]) + DepositsAmong(blocks[|blocks| - 1].transactions)
  }

  // ---- The canonical L1 chain ----------------------------------------------

  /** Hash-linked, numbered consecutively, rooted; the provider knows its blocks by their hashes. */
  predicate Canonical(chain: seq<L1Block>, world: World) {
    && Chain(chain)
    && (forall i: nat :: i < |chain| ==> Numbered(chain, i) && chain[0].info.parentHash != chain[i].info.hash)
    && (forall i :: 0 <= i < |chain| && chain[i].info.hash in world ==> world[chain[i].info.hash] == chain[i])
  }

  predicate Numbered(chain: seq<L1Block>, i: nat)
    requires i < |chain|
  {
    chain[i].info.number == chain[0].info.number + i
  }

  /** The window is a stretch of the canonical chain. */
  ghost predicate WindowOf(chain: seq<L1Block>, window: seq<BlockInfo>) {
    exists w: nat :: WindowAt(chain, window, w)
  }

  predicate WindowAt(chain: seq<L1Block>, window: seq<BlockInfo>, w: nat) {
    w + |window| <= |chain| && forall k :: 0 <= k < |window| ==> window[k] == chain[w + k].info
  }

  /** The deposits of L1 block `i`. */
  function L1Deposits(chain: seq<L1Block>, i: nat, r: Rollup): seq<UserDeposited>
    requires i < |chain|
  {
    DepositsIn(chain[i].info.number, chain[i].info.hash, chain[i].receipts, r.deposits)
  }

  /** The deposits of the L1 blocks after `lo` up to `hi`, in order. */
  function L1DepositsBetween(chain: seq<L1Block>, lo: nat, hi: nat, r: Rollup): seq<UserDeposited>
    requires lo <= hi < |chain|
  {
    if lo == hi then [] else L1DepositsBetween(chain, lo, hi - 1, r) + L1Deposits(chain, hi, r)
  }

  /** The head's origin is L1 block `i`, with the config in force there. */
  ghost predicate At(chain: seq<L1Block>, config: SystemConfig, h: Head, i: nat, r: Rollup) {
    && i < |chain|
    && h.info.l1Origin == BlockId(chain[i].info.number, chain[i].info.hash)
    && h.config == ConfigAt(chain, config, i, r.l1)
  }

  // ---- One step ------------------------------------------------------------

  lemma ParentIsPrevious(chain: seq<L1Block>, world: World, i: nat, b: nat)
    requires Canonical(chain, world) && i < |chain| && b < |chain|
    requires chain[b].info.parentHash == chain[i].info.hash
    ensures b == i + 1
  {
    if b > 0 { assert IsChild(chain, b - 1); }
  }

  /** An accepted batch names a canonical block, by number and hash. */
  lemma AcceptedIsCanonical(chain: seq<L1Block>, world: World, h: Head, x: Input, r: Rollup) returns (b: nat)
    requires Canonical(chain, world) && WindowOf(chain, x.window) && h.info.blockInfo.number != 0
    requires CheckBatch(x.batch, r.batch, x.window, h.info, x.inclusion) == Accept
    ensures b < |chain| && x.batch.epochNum == chain[b].info.number && x.batch.epochHash == chain[b].info.hash
  {
    AcceptedEpoch(x.batch, r.batch, x.window, h.info, x.inclusion);
    var w: nat :| WindowAt(chain, x.window, w);
    assert x.window[0] == chain[w].info;
    assert Numbered(chain, w);
    if x.batch.epochNum == x.window[0].number && x.batch.epochHash == x.window[0].hash {
      b := w;
    } else {
      b := w + 1;
      assert x.window[1] == chain[w + 1].info;
      assert Numbered(chain, w + 1);
    }
  }

  /** What one successful step does: the origin stays, and then the block carries no deposits and
      counts up the sequence number; or it moves to the child L1 block, and then the block
      carries exactly that L1 block's deposits and starts a new sequence. */
  ghost predicate StepEffect(chain: seq<L1Block>, config: SystemConfig, h: Head, u: Head, a: Attributes, i: nat,
                             j: nat, r: Rollup)
  {
    && At(chain, config, u, j, r)
    && u.info.blockInfo.number == WrapAdd(h.info.blockInfo.number, 1)
    && a.transactions != []
    && a.transactions[0] == L1InfoTx(chain[j].info.number, chain[j].info.timestamp, chain[j].info.hash, u.info.seqNum,
                                     u.config.batcher)
    && (|| (j == i && u.info.seqNum == WrapAdd(h.info.seqNum, 1) && DepositsAmong(a.transactions) == [])
        || (j == i + 1 && u.info.seqNum == 0 && DepositsAmong(a.transactions) == L1Deposits(chain, j, r)))
  }

  lemma {:induction false} DepositsAmongAppend(a: seq<L2Tx>, b: seq<L2Tx>)
    ensures DepositsAmong(a + b) == DepositsAmong(a) + DepositsAmong(b)
  {
    if a == [] {
      assert a + b == b;
    } else {
      DepositsAmongAppend(a[1..], b);
      assert (a + b)[1..] == a[1..] + b;
      var first: seq<UserDeposited> := if a[0].DepositTx? then [a[0].deposit] else [];
      var rest := DepositsAmong(a[1..]);
      assert first + (rest + DepositsAmong(b)) == (first + rest) + DepositsAmong(b);
    }
  }

  lemma {:induction false} NoneSequenced(txs: seq<bytes>)
    ensures DepositsAmong(Sequenced(txs)) == []
  {
    if txs != [] {
      assert Sequenced(txs)[1..] == Sequenced(txs[1..]);
      NoneSequenced(txs[1..]);
    }
  }

  lemma {:induction false} AllDeposited(ds: seq<UserDeposited>)
    ensures DepositsAmong(DepositTxs(ds)) == ds
  {
    if ds != [] {
      assert DepositTxs(ds)[1..] == DepositTxs(ds[1..]);
      AllDeposited(ds[1..]);
    }
  }

  lemma DepositsOfBlock(info: L2Tx, ds: seq<UserDeposited>, txs: seq<bytes>)
    requires info.L1InfoTx?
    ensures DepositsAmong([info] + DepositTxs(ds) + Sequenced(txs)) == ds
    ensures DepositsAmong([info] + Sequenced(txs)) == []
  {
    assert DepositsAmong([info]) == [];
    DepositsAmongAppend([info] + DepositTxs(ds), Sequenced(txs));
    DepositsAmongAppend([info], DepositTxs(ds));
    DepositsAmongAppend([info], Sequenced(txs));
    AllDeposited(ds);
    NoneSequenced(txs);
  }

  /** A step that keeps the epoch. */
  lemma SameEpoch(h: Head, x: Input, world: World, r: Rollup)
    requires Extend(h, x, world, r).Some? && x.batch.epochNum == h.info.l1Origin.number
    ensures var (u, a) := Extend(h, x, world, r).value;
            && x.batch.epochHash == h.info.l1Origin.hash && x.batch.epochHash in world
            && var info := InfoTx(world[x.batch.epochHash].info, WrapAdd(h.info.seqNum, 1), h.config);
            && a.transactions == [info] + Sequenced(x.batch.transactions)
            && u == HeadAfter(h, a, x.newHash)
  {
  }

  /** A step into a new epoch. */
  lemma NewEpoch(h: Head, x: Input, world: World, r: Rollup)
    requires Extend(h, x, world, r).Some? && x.batch.epochNum != h.info.l1Origin.number
    ensures var (u, a) := Extend(h, x, world, r).value;
            && x.batch.epochHash in world
            && var block := world[x.batch.epochHash];
            && block.info.parentHash == h.info.l1Origin.hash
            && var info := InfoTx(block.info, 0, ApplyReceipts(h.config, block.receipts, r.l1.rules).0);
            && var ds := DepositsIn(x.batch.epochNum, x.batch.epochHash, block.receipts, r.deposits);
            && a.transactions == [info] + DepositTxs(ds) + Sequenced(x.batch.transactions)
            && u == HeadAfter(h, a, x.newHash)
  {
  }

  lemma ExtendStep(chain: seq<L1Block>, world: World, config: SystemConfig, h: Head, x: Input, i: nat, r: Rollup)
    returns (j: nat)
    requires Canonical(chain, world) && At(chain, config, h, i, r) && h.info.blockInfo.number != 0
    requires WindowOf(chain, x.window) && Extend(h, x, world, r).Some?
    ensures var (u, a) := Extend(h, x, world, r).value;
            StepEffect(chain, config, h, u, a, i, j, r)
  {
    j := AcceptedIsCanonical(chain, world, h, x, r);
    assert Numbered(chain, i) && Numbered(chain, j);
    if j == i {
      SameEpochStep(chain, world, config, h, x, i, r);
    } else {
      NewEpochStep(chain, world, config, h, x, i, j, r);
    }
  }

  lemma SameEpochStep(chain: seq<L1Block>, world: World, config: SystemConfig, h: Head, x: Input, i: nat, r: Rollup)
    requires Canonical(chain, world) && At(chain, config, h, i, r) && Extend(h, x, world, r).Some?
    requires x.batch.epochNum == chain[i].info.number && x.batch.epochHash == chain[i].info.hash
    ensures var (u, a) := Extend(h, x, world, r).value;
            StepEffect(chain, config, h, u, a, i, i, r)
  {
    SameEpoch(h, x, world, r);
    var info := InfoTx(chain[i].info, WrapAdd(h.info.seqNum, 1), h.config);
    DepositsOfBlock(info, [], x.batch.transactions);
    var (u, a) := Extend(h, x, world, r).value;
    assert a.transactions[0] == info;
  }

  lemma NewEpochStep(chain: seq<L1Block>, world: World, config: SystemConfig, h: Head, x: Input, i: nat, j: nat,
                     r: Rollup)
    requires Canonical(chain, world) && At(chain, config, h, i, r) && Extend(h, x, world, r).Some? && j < |chain|
    requires x.batch.epochNum == chain[j].info.number != chain[i].info.number && x.batch.epochHash == chain[j].info.hash
    ensures var (u, a) := Extend(h, x, world, r).value;
            StepEffect(chain, config, h, u, a, i, j, r)
  {
    NewEpoch(h, x, world, r);
    ParentIsPrevious(chain, world, i, j);
    var info := InfoTx(chain[j].info, 0, ApplyReceipts(h.config, chain[j].receipts, r.l1.rules).0);
    DepositsOfBlock(info, L1Deposits(chain, j, r), x.batch.transactions);
    var (u, a) := Extend(h, x, world, r).value;
    assert a.transactions[0] == info;
  }

  /** The step onto canonical block `j` of a batch that names it goes through exactly when `j` is the head's
      own origin, or its child, whose logs neither panic nor carry a deposit that does not fit nor update
      the config with something malformed. */
  lemma ExtendExactly(chain: seq<L1Block>, world: World, config: SystemConfig, h: Head, x: Input, i: nat, j: nat,
                      r: Rollup)
    requires Canonical(chain, world) && At(chain, config, h, i, r) && j < |chain| && chain[j].info.hash in world
    requires x.batch.epochNum == chain[j].info.number && x.batch.epochHash == chain[j].info.hash
    requires CheckBatch(x.batch, r.batch, x.window, h.info, x.inclusion) == Accept
    ensures Extend(h, x, world, r).Some? <==>
              || j == i
              || (&& j == i + 1 && NoneMalformed(LogsOf(chain[j].receipts), r.l1.rules)
                  && forall log :: log in LogsOf(chain[j].receipts) ==> Carriable(log, r.deposits))
  {
    var epoch := BlockId(x.batch.epochNum, x.batch.epochHash);
    assert Numbered(chain, i) && Numbered(chain, j);
    PastExactly(x.batch, r.batch, x.window, h.info, x.inclusion);
    AttributesExactly(h, epoch, world, r);
    if j > 0 { assert IsChild(chain, j - 1); }
    if chain[j].info.parentHash == chain[i].info.hash { ParentIsPrevious(chain, world, i, j); }
  }

  /** The head after a step: the block executed, on top of the head before, one block time later. */
  lemma HeadExactly(h: Head, x: Input, world: World, r: Rollup)
    requires Extend(h, x, world, r).Some?
    ensures var u := Extend(h, x, world, r).value.0;
            var block := world[x.batch.epochHash].info;
            && x.batch.epochHash in world && x.batch.parentHash == h.info.blockInfo.hash
            && u.info.blockInfo == BlockInfo(x.newHash, (h.info.blockInfo.number + 1) % TWO64, h.info.blockInfo.hash,
                                             (h.info.blockInfo.timestamp + r.blockTime) % TWO64)
            && u.info.l1Origin == BlockId(block.number, block.hash)
            && u.info.seqNum == if x.batch.epochNum == h.info.l1Origin.number then (h.info.seqNum + 1) % TWO64 else 0
  {
    PastExactly(x.batch, r.batch, x.window, h.info, x.inclusion);
    AttributesExactly(h, BlockId(x.batch.epochNum, x.batch.epochHash), world, r);
  }

  /** The hash of the block that batch `k` of a run has to build on. */
  function BlockBefore(h: Head, inputs: seq<Input>, k: nat): Hash
    requires k <= |inputs|
  {
    if k == 0 then h.info.blockInfo.hash else inputs[k - 1].newHash
  }

  predicate NamesParent(h: Head, inputs: seq<Input>, k: nat)
    requires k < |inputs|
  {
    inputs[k].batch.parentHash == BlockBefore(h, inputs, k)
  }

  predicate AllNameParents(h: Head, inputs: seq<Input>) {
    forall k: nat :: k < |inputs| ==> NamesParent(h, inputs, k)
  }

  lemma ParentNamed(h: Head, inputs: seq<Input>, world: World, r: Rollup)
    requires inputs != [] && Derive(h, inputs, world, r).Some?
    ensures var n := |inputs| - 1;
            && Derive(h, inputs[..n], world, r).Some?
            && inputs[n].batch.parentHash == Derive(h, inputs[..n], world, r).value.0.info.blockInfo.hash
            && Derive(h, inputs, world, r).value.0.info.blockInfo.hash == inputs[n].newHash
  {
    DeriveSnoc(h, inputs, world, r);
    var n := |inputs| - 1;
    HeadExactly(Derive(h, inputs[..n], world, r).value.0, inputs[n], world, r);
  }

  /** Along a run each batch names the block before it as its parent. */
  lemma {:induction false} LinkedRun(h: Head, inputs: seq<Input>, world: World, r: Rollup)
    requires Derive(h, inputs, world, r).Some?
    ensures Derive(h, inputs, world, r).value.0.info.blockInfo.hash == BlockBefore(h, inputs, |inputs|)
    ensures AllNameParents(h, inputs)
  {
    if inputs != [] {
      var n := |inputs| - 1;
      ParentNamed(h, inputs, world, r);
      LinkedRun(h, inputs[..n], world, r);
      LinkedSnoc(h, inputs);
    }
  }

  lemma LinkedSnoc(h: Head, inputs: seq<Input>)
    requires inputs != [] && AllNameParents(h, inputs[..|inputs| - 1])
    requires inputs[|inputs| - 1].batch.parentHash == BlockBefore(h, inputs[..|inputs| - 1], |inputs| - 1)
    ensures AllNameParents(h, inputs)
  {
    var init := inputs[..|inputs| - 1];
    forall k: nat | k < |inputs| ensures NamesParent(h, inputs, k) {
      if k < |init| { assert NamesParent(h, init, k) && init[k] == inputs[k]; }
      if k > 0 { assert init[k - 1] == inputs[k - 1]; }
    }
  }

  /** A batch on another parent is refused before anything is asked for. */
  lemma NextAttributesExactly(batch: SingleBatch, parent: Head, world: World, r: Rollup)
    ensures CreateNextAttributes(batch, parent, world, r) == Fail(Reset(BadParentHash))
            <==> batch.parentHash != parent.info.blockInfo.hash
    ensures batch.parentHash == parent.info.blockInfo.hash ==>
              var p := PreparePayloadAttributes(parent, BlockId(batch.epochNum, batch.epochHash), world, r);
              var a := CreateNextAttributes(batch, parent, world, r);
              && (a.Panic? <==> p.Panic?) && (a.Fail? <==> p.Fail?) && (p.Fail? ==> a == Fail(p.error))
  {
  }

  // ---- Whole runs ----------------------------------------------------------

  predicate LexLess(n: nat, s: nat, n': nat, s': nat) {
    n < n' || (n == n' && s < s')
  }

  function Info(blocks: seq<Attributes>, k: nat): L2Tx
    requires k < |blocks| && blocks[k].transactions != []
  {
    blocks[k].transactions[0]
  }

  /** Every block starts with an L1-info transaction for a canonical block, and these strictly
      increase in (origin number, sequence number), starting above the first head's and ending
      at the last head's. */
  ghost predicate InfosIncrease(chain: seq<L1Block>, h: Head, u: Head, blocks: seq<Attributes>) {
    && (forall k: nat :: k < |blocks| ==> blocks[k].transactions != [] && InfoWithin(chain, h, u, Info(blocks, k)))
    && (forall k: nat, l: nat :: k < l < |blocks| ==>
          LexLess(Info(blocks, k).l1Number, Info(blocks, k).seqNum, Info(blocks, l).l1Number, Info(blocks, l).seqNum))
  }

  ghost predicate InfoWithin(chain: seq<L1Block>, h: Head, u: Head, tx: L2Tx) {
    && tx.L1InfoTx?
    && OnChain(chain, tx.l1Number, tx.l1Hash)
    && LexLess(h.info.l1Origin.number, h.info.seqNum, tx.l1Number, tx.seqNum)
    && !LexLess(u.info.l1Origin.number, u.info.seqNum, tx.l1Number, tx.seqNum)
  }

  /** `number` and `hash` belong to the same canonical block. */
  ghost predicate OnChain(chain: seq<L1Block>, number: u64, hash: Hash) {
    exists i: nat :: i < |chain| && IsBlock(chain, i, number, hash)
  }

  predicate IsBlock(chain: seq<L1Block>, i: nat, number: u64, hash: Hash)
    requires i < |chain|
  {
    chain[i].info.number == number && chain[i].info.hash == hash
  }

  lemma InfosStep(chain: seq<L1Block>, world: World, config: SystemConfig, h: Head, t: Head, u: Head,
                  blocks: seq<Attributes>, a: Attributes, i: nat, j: nat, r: Rollup)
    requires Canonical(chain, world) && At(chain, config, t, i, r) && StepEffect(chain, config, t, u, a, i, j, r)
    requires InfosIncrease(chain, h, t, blocks) && t.info.seqNum + 1 < TWO64
    requires !LexLess(t.info.l1Origin.number, t.info.seqNum, h.info.l1Origin.number, h.info.seqNum)
    ensures InfosIncrease(chain, h, u, blocks + [a])
    ensures LexLess(h.info.l1Origin.number, h.info.seqNum, u.info.l1Origin.number, u.info.seqNum)
  {
    assert Numbered(chain, i) && Numbered(chain, j);
    assert IsBlock(chain, j, chain[j].info.number, chain[j].info.hash);
    var all := blocks + [a];
    forall k: nat | k < |all| ensures all[k].transactions != [] && InfoWithin(chain, h, u, Info(all, k)) {
      if k < |blocks| { assert Info(all, k) == Info(blocks, k); }
    }
    forall k: nat, l: nat | k < l < |all|
      ensures LexLess(Info(all, k).l1Number, Info(all, k).seqNum, Info(all, l).l1Number, Info(all, l).seqNum)
    {
      assert Info(all, k) == Info(blocks, k);
      if l < |blocks| { assert Info(all, l) == Info(blocks, l); }
    }
  }

  /** Everything a run keeps. */
  ghost predicate RunEffect(chain: seq<L1Block>, config: SystemConfig, h: Head, u: Head, blocks: seq<Attributes>,
                            i: nat, j: nat, r: Rollup)
  {
    && i <= j && At(chain, config, u, j, r)
    && u.info.blockInfo.number == h.info.blockInfo.number + |blocks|
    && u.info.seqNum <= h.info.seqNum + |blocks|
    && AllDeposits(blocks) == L1DepositsBetween(chain, i, j, r)
  }

  /** The run is short enough for the 64-bit counters. */
  predicate NoOverflow(h: Head, inputs: seq<Input>) {
    && h.info.blockInfo.number + |inputs| < TWO64
    && h.info.seqNum + |inputs| < TWO64
  }

  ghost predicate Windows(chain: seq<L1Block>, inputs: seq<Input>) {
    forall k :: 0 <= k < |inputs| ==> WindowOf(chain, inputs[k].window)
  }

  lemma {:induction false} DeriveRun(chain: seq<L1Block>, world: World, config: SystemConfig, h: Head,
                                     inputs: seq<Input>, i: nat, r: Rollup)
    returns (j: nat)
    requires Canonical(chain, world) && At(chain, config, h, i, r) && h.info.blockInfo.number != 0
    requires Windows(chain, inputs) && NoOverflow(h, inputs) && Derive(h, inputs, world, r).Some?
    ensures var (u, blocks) := Derive(h, inputs, world, r).value;
            |blocks| == |inputs| && RunEffect(chain, config, h, u, blocks, i, j, r)
  {
    if inputs == [] {
      j := i;
    } else {
      var n := |inputs| - 1;
      DeriveSnoc(h, inputs, world, r);
      var k := DeriveRun(chain, world, config, h, inputs[..n], i, r);
      var (t, blocks) := Derive(h, inputs[..n], world, r).value;
      j := ExtendStep(chain, world, config, t, inputs[n], k, r);
      var (u, a) := Extend(t, inputs[n], world, r).value;
      RunSnoc(chain, config, h, t, u, blocks, a, i, k, j, r);
    }
  }

  /** The run effect after one more step. */
  lemma RunSnoc(chain: seq<L1Block>, config: SystemConfig, h: Head, t: Head, u: Head, blocks: seq<Attributes>,
                a: Attributes, i: nat, k: nat, j: nat, r: Rollup)
    requires RunEffect(chain, config, h, t, blocks, i, k, r) && StepEffect(chain, config, t, u, a, k, j, r)
    requires t.info.blockInfo.number + 1 < TWO64 && t.info.seqNum + 1 < TWO64
    ensures RunEffect(chain, config, h, u, blocks + [a], i, j, r)
  {
    DepositsSnoc(chain, blocks, a, i, k, j, r);
  }

  /** Peeling the last batch off a run. */
  lemma DeriveSnoc(h: Head, inputs: seq<Input>, world: World, r: Rollup)
    requires inputs != [] && Derive(h, inputs, world, r).Some?
    ensures var n := |inputs| - 1;
            && Derive(h, inputs[..n], world, r).Some?
            && var (t, blocks) := Derive(h, inputs[..n], world, r).value;
            && Extend(t, inputs[n], world, r).Some?
            && var (u, a) := Extend(t, inputs[n], world, r).value;
            && Derive(h, inputs, world, r).value == (u, blocks + [a])
  {
  }

  /** Along a run, (origin number, sequence number) strictly increases lexicographically. */
  lemma {:induction false} InfosRun(chain: seq<L1Block>, world: World, config: SystemConfig, h: Head,
                                    inputs: seq<Input>, i: nat, r: Rollup)
    requires Canonical(chain, world) && At(chain, config, h, i, r) && h.info.blockInfo.number != 0
    requires Windows(chain, inputs) && NoOverflow(h, inputs) && Derive(h, inputs, world, r).Some?
    ensures var (u, blocks) := Derive(h, inputs, world, r).value;
            && InfosIncrease(chain, h, u, blocks)
            && !LexLess(u.info.l1Origin.number, u.info.seqNum, h.info.l1Origin.number, h.info.seqNum)
  {
    if inputs != [] {
      var n := |inputs| - 1;
      DeriveSnoc(h, inputs, world, r);
      InfosRun(chain, world, config, h, inputs[..n], i, r);
      var k := DeriveRun(chain, world, config, h, inputs[..n], i, r);
      var (t, blocks) := Derive(h, inputs[..n], world, r).value;
      var j := ExtendStep(chain, world, config, t, inputs[n], k, r);
      var (u, a) := Extend(t, inputs[n], world, r).value;
      InfosStep(chain, world, config, h, t, u, blocks, a, k, j, r);
    }
  }

  lemma AllDepositsSnoc(blocks: seq<Attributes>, a: Attributes)
    ensures AllDeposits(blocks + [a]) == AllDeposits(blocks) + DepositsAmong(a.transactions)
  {
    assert (blocks + [a])[..|blocks|] == blocks;
  }

  lemma DepositsSnoc(chain: seq<L1Block>, blocks: seq<Attributes>, a: Attributes, i: nat, k: nat, j: nat, r: Rollup)
    requires i <= k < |chain| && j < |chain| && AllDeposits(blocks) == L1DepositsBetween(chain, i, k, r)
    requires || (j == k && DepositsAmong(a.transactions) == [])
             || (j == k + 1 && DepositsAmong(a.transactions) == L1Deposits(chain, j, r))
    ensures AllDeposits(blocks + [a]) == L1DepositsBetween(chain, i, j, r)
  {
    AllDepositsSnoc(blocks, a);
    if j == k { assert AllDeposits(blocks) + [] == AllDeposits(blocks); }
  }

  /** The main result. Over every successful run of accepted batches from a head above genesis,
      the origin walks along the canonical chain, the deposits of the L2 blocks concatenate to
      the deposits of each L1 block entered, in order and once, and the last head carries the
      batcher in force at its origin. */
  lemma DepositsExactlyOnce(chain: seq<L1Block>, world: World, config: SystemConfig, h: Head, inputs: seq<Input>,
                            i: nat, r: Rollup)
    requires Canonical(chain, world) && At(chain, config, h, i, r) && h.info.blockInfo.number != 0
    requires Windows(chain, inputs) && NoOverflow(h, inputs) && Derive(h, inputs, world, r).Some?
    ensures var (u, blocks) := Derive(h, inputs, world, r).value;
            exists j: nat :: i <= j && At(chain, config, u, j, r)
                             && AllDeposits(blocks) == L1DepositsBetween(chain, i, j, r)
  {
    var j := DeriveRun(chain, world, config, h, inputs, i, r);
  }

  // ---- Source hashes along a run -------------------------------------------

  /** Deposits strictly increase in (block number, log index) and name canonical blocks. */
  ghost predicate DepositsIncrease(chain: seq<L1Block>, ds: seq<UserDeposited>, lo: nat, hi: nat) {
    && (forall k :: 0 <= k < |ds| ==>
          && OnChain(chain, ds[k].l1BlockNum, ds[k].l1BlockHash) && lo < ds[k].l1BlockNum <= hi
          && ds[k].logIndex < TWO64)
    && (forall k, l :: 0 <= k < l < |ds| ==>
          LexLess(ds[k].l1BlockNum, ds[k].logIndex, ds[l].l1BlockNum, ds[l].logIndex))
  }

  predicate LogsFit(chain: seq<L1Block>) {
    forall i :: 0 <= i < |chain| ==> |LogsOf(chain[i].receipts)| < TWO64
  }

  lemma {:induction false} L1DepositsIncrease(chain: seq<L1Block>, world: World, lo: nat, hi: nat, r: Rollup)
    requires Canonical(chain, world) && LogsFit(chain) && lo <= hi < |chain|
    ensures DepositsIncrease(chain, L1DepositsBetween(chain, lo, hi, r), chain[lo].info.number, chain[hi].info.number)
  {
    if lo < hi {
      L1DepositsIncrease(chain, world, lo, hi - 1, r);
      var b := chain[hi];
      DepositsOrdered(b.info.number, b.info.hash, LogsOf(b.receipts), 0, r.deposits);
      assert IsBlock(chain, hi, b.info.number, b.info.hash);
      assert Numbered(chain, lo) && Numbered(chain, hi - 1) && Numbered(chain, hi);
      IncreaseAppend(chain, L1DepositsBetween(chain, lo, hi - 1, r), L1Deposits(chain, hi, r), chain[lo].info.number,
                     b.info.number, b.info.hash, |LogsOf(b.receipts)|);
    }
  }

  lemma IncreaseAppend(chain: seq<L1Block>, ds: seq<UserDeposited>, more: seq<UserDeposited>, lo: nat, n: u64,
                       hash: Hash, logs: nat)
    requires lo < n && DepositsIncrease(chain, ds, lo, n - 1) && OnChain(chain, n, hash)
    requires Ordered(more, n, hash, 0, logs) && logs < TWO64
    ensures DepositsIncrease(chain, ds + more, lo, n)
  {
  }

  lemma SameHashSameNumber(chain: seq<L1Block>, world: World, n: u64, n': u64, hash: Hash)
    requires Canonical(chain, world) && OnChain(chain, n, hash) && OnChain(chain, n', hash)
    ensures n == n'
  {
    var i: nat :| i < |chain| && IsBlock(chain, i, n, hash);
    var j: nat :| j < |chain| && IsBlock(chain, j, n', hash);
    assert i == j;
  }

  function InfoSource(keccak: bytes -> Hash, tx: L2Tx): Hash
    requires tx.L1InfoTx?
  {
    SourceHash(keccak, L1_INFO_DEPOSIT_SOURCE_DOMAIN, tx.l1Hash, tx.seqNum)
  }

  function DepositSource(keccak: bytes -> Hash, d: UserDeposited): Hash {
    SourceHash(keccak, USER_DEPOSIT_SOURCE_DOMAIN, d.l1BlockHash, d.logIndex)
  }

  /** The 64 bytes that are hashed: the domain as a word, 1 for L1-info and 0 for deposits, and the hash of the
      block hash and the sequence number or log index as a word. */
  lemma SourceBytes(keccak: bytes -> Hash, tx: L2Tx, d: UserDeposited)
    requires tx.L1InfoTx?
    ensures InfoSource(keccak, tx) == keccak(Zeros(31) + [1] + keccak(tx.l1Hash + Zeros(24) + ToBE(8, tx.seqNum)))
    ensures DepositSource(keccak, d)
            == keccak(Zeros(31) + [0] + keccak(d.l1BlockHash + Zeros(24) + ToBE(8, d.logIndex)))
  {
    assert ToBE(4, 1) == ToBE(3, 0) + [1] && ToBE(3, 0) == ToBE(2, 0) + [0] && ToBE(2, 0) == ToBE(1, 0) + [0];
    assert ToBE(4, 0) == ToBE(3, 0) + [0] && ToBE(1, 0) == ToBE(0, 0) + [0];
    assert Zeros(28) + ToBE(4, 1) == Zeros(31) + [1] && Zeros(28) + ToBE(4, 0) == Zeros(31) + [0];
  }

  /** `hashed` holds every string the source hashes of these blocks are computed from. */
  ghost predicate HashesAll(hashed: set<bytes>, keccak: bytes -> Hash, blocks: seq<Attributes>) {
    && (forall k: nat :: k < |blocks| && blocks[k].transactions != [] && Info(blocks, k).L1InfoTx? ==>
          HashesInfo(hashed, keccak, Info(blocks, k)))
    && (forall d :: d in AllDeposits(blocks) ==> HashesDeposit(hashed, keccak, d))
  }

  ghost predicate HashesInfo(hashed: set<bytes>, keccak: bytes -> Hash, tx: L2Tx)
    requires tx.L1InfoTx?
  {
    Hashes(hashed, keccak, L1_INFO_DEPOSIT_SOURCE_DOMAIN, tx.l1Hash, tx.seqNum)
  }

  ghost predicate HashesDeposit(hashed: set<bytes>, keccak: bytes -> Hash, d: UserDeposited) {
    Hashes(hashed, keccak, USER_DEPOSIT_SOURCE_DOMAIN, d.l1BlockHash, d.logIndex)
  }

  lemma InfoSourcesDiffer(keccak: bytes -> Hash, hashed: set<bytes>, chain: seq<L1Block>, world: World, a: L2Tx,
                          b: L2Tx)
    requires CollisionFree(keccak, hashed) && Canonical(chain, world) && a.L1InfoTx? && b.L1InfoTx?
    requires HashesInfo(hashed, keccak, a) && HashesInfo(hashed, keccak, b)
    requires OnChain(chain, a.l1Number, a.l1Hash) && OnChain(chain, b.l1Number, b.l1Hash)
    requires LexLess(a.l1Number, a.seqNum, b.l1Number, b.seqNum)
    ensures InfoSource(keccak, a) != InfoSource(keccak, b)
  {
    Widths();
    if a.l1Hash == b.l1Hash { SameHashSameNumber(chain, world, a.l1Number, b.l1Number, a.l1Hash); }
    if InfoSource(keccak, a) == InfoSource(keccak, b) {
      SourceHashInjective(keccak, hashed, L1_INFO_DEPOSIT_SOURCE_DOMAIN, a.l1Hash, a.seqNum,
                          L1_INFO_DEPOSIT_SOURCE_DOMAIN, b.l1Hash, b.seqNum);
    }
  }

  lemma DepositSourcesDiffer(keccak: bytes -> Hash, hashed: set<bytes>, chain: seq<L1Block>, world: World,
                             a: UserDeposited, b: UserDeposited)
    requires CollisionFree(keccak, hashed) && Canonical(chain, world)
    requires HashesDeposit(hashed, keccak, a) && HashesDeposit(hashed, keccak, b)
    requires a.logIndex < TWO64 && b.logIndex < TWO64
    requires OnChain(chain, a.l1BlockNum, a.l1BlockHash) && OnChain(chain, b.l1BlockNum, b.l1BlockHash)
    requires LexLess(a.l1BlockNum, a.logIndex, b.l1BlockNum, b.logIndex)
    ensures DepositSource(keccak, a) != DepositSource(keccak, b)
  {
    Widths();
    if a.l1BlockHash == b.l1BlockHash { SameHashSameNumber(chain, world, a.l1BlockNum, b.l1BlockNum, a.l1BlockHash); }
    if DepositSource(keccak, a) == DepositSource(keccak, b) {
      SourceHashInjective(keccak, hashed, USER_DEPOSIT_SOURCE_DOMAIN, a.l1BlockHash, a.logIndex,
                          USER_DEPOSIT_SOURCE_DOMAIN, b.l1BlockHash, b.logIndex);
    }
  }

  lemma DomainsDiffer(keccak: bytes -> Hash, hashed: set<bytes>, tx: L2Tx, d: UserDeposited)
    requires CollisionFree(keccak, hashed) && tx.L1InfoTx? && d.logIndex < TWO64
    requires HashesInfo(hashed, keccak, tx) && HashesDeposit(hashed, keccak, d)
    ensures InfoSource(keccak, tx) != DepositSource(keccak, d)
  {
    Widths();
    if InfoSource(keccak, tx) == DepositSource(keccak, d) {
      SourceHashInjective(keccak, hashed, L1_INFO_DEPOSIT_SOURCE_DOMAIN, tx.l1Hash, tx.seqNum,
                          USER_DEPOSIT_SOURCE_DOMAIN, d.l1BlockHash, d.logIndex);
    }
  }

  /** No two derived transactions of a run share a source hash, within or across the domains. */
  ghost predicate SourcesDistinct(keccak: bytes -> Hash, blocks: seq<Attributes>) {
    && (forall k: nat :: k < |blocks| ==> blocks[k].transactions != [] && Info(blocks, k).L1InfoTx?)
    && (forall k: nat, l: nat :: k < l < |blocks| ==>
          InfoSource(keccak, Info(blocks, k)) != InfoSource(keccak, Info(blocks, l)))
    && var ds := AllDeposits(blocks);
    && (forall k, l :: 0 <= k < l < |ds| ==> DepositSource(keccak, ds[k]) != DepositSource(keccak, ds[l]))
    && (forall k: nat, l: nat :: k < |blocks| && l < |ds| ==>
          InfoSource(keccak, Info(blocks, k)) != DepositSource(keccak, ds[l]))
  }

  lemma IncreasingSourcesDiffer(keccak: bytes -> Hash, hashed: set<bytes>, chain: seq<L1Block>, world: World, h: Head,
                                u: Head, blocks: seq<Attributes>, lo: nat, hi: nat)
    requires CollisionFree(keccak, hashed) && HashesAll(hashed, keccak, blocks) && Canonical(chain, world)
    requires InfosIncrease(chain, h, u, blocks) && DepositsIncrease(chain, AllDeposits(blocks), lo, hi)
    ensures SourcesDistinct(keccak, blocks)
  {
    var ds := AllDeposits(blocks);
    forall k: nat | k < |blocks|
      ensures blocks[k].transactions != [] && InfoWithin(chain, h, u, Info(blocks, k))
              && HashesInfo(hashed, keccak, Info(blocks, k))
    {
    }
    forall k: nat, l: nat | k < l < |blocks|
      ensures InfoSource(keccak, Info(blocks, k)) != InfoSource(keccak, Info(blocks, l))
    {
      InfoSourcesDiffer(keccak, hashed, chain, world, Info(blocks, k), Info(blocks, l));
    }
    forall k, l | 0 <= k < l < |ds| ensures DepositSource(keccak, ds[k]) != DepositSource(keccak, ds[l]) {
      DepositSourcesDiffer(keccak, hashed, chain, world, ds[k], ds[l]);
    }
    forall k: nat, l: nat | k < |blocks| && l < |ds|
      ensures InfoSource(keccak, Info(blocks, k)) != DepositSource(keccak, ds[l])
    {
      DomainsDiffer(keccak, hashed, Info(blocks, k), ds[l]);
    }
  }

  /** Along any derived chain whose hashed strings do not collide, all source hashes of L1-info and
      user-deposit transactions are pairwise distinct. */
  lemma SourceHashesDistinct(keccak: bytes -> Hash, hashed: set<bytes>, chain: seq<L1Block>, world: World,
                             config: SystemConfig, h: Head, inputs: seq<Input>, i: nat, r: Rollup)
    requires LogsFit(chain)
    requires Canonical(chain, world) && At(chain, config, h, i, r) && h.info.blockInfo.number != 0
    requires Windows(chain, inputs) && NoOverflow(h, inputs) && Derive(h, inputs, world, r).Some?
    requires CollisionFree(keccak, hashed) && HashesAll(hashed, keccak, Derive(h, inputs, world, r).value.1)
    ensures SourcesDistinct(keccak, Derive(h, inputs, world, r).value.1)
  {
    var (u, blocks) := Derive(h, inputs, world, r).value;
    var j := DeriveRun(chain, world, config, h, inputs, i, r);
    InfosRun(chain, world, config, h, inputs, i, r);
    L1DepositsIncrease(chain, world, i, j, r);
    IncreasingSourcesDiffer(keccak, hashed, chain, world, h, u, blocks, chain[i].info.number, chain[j].info.number);
  }

  // ---- Timestamps and sequenced transactions along a run -------------------

  /** `n` block times after `t`, in 64 bits. */
  function Ticks(t: u64, blockTime: u64, n: nat): u64 {
    (t + n * blockTime) % TWO64
  }

  lemma TickOnce(t: u64, blockTime: u64, n: nat)
    ensures WrapAdd(Ticks(t, blockTime, n), blockTime) == Ticks(t, blockTime, n + 1)
  {
    OneMoreTick(n, blockTime);
    WrapOnce(t + n * blockTime, blockTime);
  }

  lemma OneMoreTick(n: nat, blockTime: nat)
    ensures (n + 1) * blockTime == n * blockTime + blockTime
  {
  }

  lemma StepTimestamp(h: Head, x: Input, world: World, r: Rollup)
    requires Extend(h, x, world, r).Some?
    ensures var (u, a) := Extend(h, x, world, r).value;
            u.info.blockInfo.timestamp == a.timestamp == WrapAdd(h.info.blockInfo.timestamp, r.blockTime)
  {
  }

  predicate OnTime(blocks: seq<Attributes>, t: u64, blockTime: u64) {
    forall k :: 0 <= k < |blocks| ==> blocks[k].timestamp == Ticks(t, blockTime, k + 1)
  }

  lemma OnTimeSnoc(blocks: seq<Attributes>, a: Attributes, t: u64, blockTime: u64)
    requires OnTime(blocks, t, blockTime) && a.timestamp == Ticks(t, blockTime, |blocks| + 1)
    ensures OnTime(blocks + [a], t, blockTime)
  {
  }

  /** Block `k` of a run is `k + 1` block times after the head, whatever timestamps the batches name. */
  lemma {:induction false} TimestampsRun(h: Head, inputs: seq<Input>, world: World, r: Rollup)
    requires Derive(h, inputs, world, r).Some?
    ensures var (u, blocks) := Derive(h, inputs, world, r).value;
            && |blocks| == |inputs|
            && u.info.blockInfo.timestamp == Ticks(h.info.blockInfo.timestamp, r.blockTime, |inputs|)
            && OnTime(blocks, h.info.blockInfo.timestamp, r.blockTime)
  {
    if inputs != [] {
      var n := |inputs| - 1;
      DeriveSnoc(h, inputs, world, r);
      TimestampsRun(h, inputs[..n], world, r);
      var (t, blocks) := Derive(h, inputs[..n], world, r).value;
      StepTimestamp(t, inputs[n], world, r);
      TickOnce(h.info.blockInfo.timestamp, r.blockTime, n);
      OnTimeSnoc(blocks, Extend(t, inputs[n], world, r).value.1, h.info.blockInfo.timestamp, r.blockTime);
    }
  }

  /** The batch transactions among the transactions of a block. */
  function SequencedAmong(txs: seq<L2Tx>): seq<bytes> {
    if txs == [] then []
    else (if txs[0].SequencedTx? then [txs[0].data] else []) + SequencedAmong(txs[1..])
  }

  lemma {:induction false} SequencedAppend(a: seq<L2Tx>, b: seq<L2Tx>)
    ensures SequencedAmong(a + b) == SequencedAmong(a) + SequencedAmong(b)
  {
    if a == [] {
      assert a + b == b;
    } else {
      SequencedAppend(a[1..], b);
      assert (a + b)[1..] == a[1..] + b;
      var first: seq<bytes> := if a[0].SequencedTx? then [a[0].data] else [];
      var rest := SequencedAmong(a[1..]);
      assert first + (rest + SequencedAmong(b)) == (first + rest) + SequencedAmong(b);
    }
  }

  lemma {:induction false} AllSequenced(txs: seq<bytes>)
    ensures SequencedAmong(Sequenced(txs)) == txs
  {
    if txs != [] {
      assert Sequenced(txs)[1..] == Sequenced(txs[1..]);
      AllSequenced(txs[1..]);
    }
  }

  lemma {:induction false} NoneDeposited(ds: seq<UserDeposited>)
    ensures SequencedAmong(DepositTxs(ds)) == []
  {
    if ds != [] {
      assert DepositTxs(ds)[1..] == DepositTxs(ds[1..]);
      NoneDeposited(ds[1..]);
    }
  }

  lemma SequencedOfBlock(info: L2Tx, ds: seq<UserDeposited>, txs: seq<bytes>)
    requires info.L1InfoTx?
    ensures SequencedAmong([info] + DepositTxs(ds) + Sequenced(txs)) == txs
    ensures SequencedAmong([info] + Sequenced(txs)) == txs
  {
    assert SequencedAmong([info]) == [];
    SequencedAppend([info] + DepositTxs(ds), Sequenced(txs));
    SequencedAppend([info], DepositTxs(ds));
    SequencedAppend([info], Sequenced(txs));
    NoneDeposited(ds);
    AllSequenced(txs);
  }

  lemma StepSequenced(h: Head, x: Input, world: World, r: Rollup)
    requires Extend(h, x, world, r).Some?
    ensures SequencedAmong(Extend(h, x, world, r).value.1.transactions) == x.batch.transactions
  {
    if x.batch.epochNum == h.info.l1Origin.number {
      SameEpoch(h, x, world, r);
      SequencedOfBlock(InfoTx(world[x.batch.epochHash].info, WrapAdd(h.info.seqNum, 1), h.config), [],
                       x.batch.transactions);
    } else {
      NewEpoch(h, x, world, r);
      var block := world[x.batch.epochHash];
      SequencedOfBlock(InfoTx(block.info, 0, ApplyReceipts(h.config, block.receipts, r.l1.rules).0),
                       DepositsIn(x.batch.epochNum, x.batch.epochHash, block.receipts, r.deposits),
                       x.batch.transactions);
    }
  }

  predicate CarriesBatch(a: Attributes, x: Input) {
    SequencedAmong(a.transactions) == x.batch.transactions
  }

  predicate CarryBatches(blocks: seq<Attributes>, inputs: seq<Input>) {
    |blocks| == |inputs| && forall k :: 0 <= k < |blocks| ==> CarriesBatch(blocks[k], inputs[k])
  }

  lemma CarrySnoc(blocks: seq<Attributes>, a: Attributes, inputs: seq<Input>)
    requires inputs != [] && CarryBatches(blocks, inputs[..|inputs| - 1]) && CarriesBatch(a, inputs[|inputs| - 1])
    ensures CarryBatches(blocks + [a], inputs)
  {
    var init := inputs[..|inputs| - 1];
    forall k | 0 <= k < |inputs| ensures CarriesBatch((blocks + [a])[k], inputs[k]) {
      if k < |init| { assert CarriesBatch(blocks[k], init[k]); }
    }
  }

  /** Every block of a run carries exactly its batch's transactions, in order. */
  lemma {:induction false} SequencedRun(h: Head, inputs: seq<Input>, world: World, r: Rollup)
    requires Derive(h, inputs, world, r).Some?
    ensures CarryBatches(Derive(h, inputs, world, r).value.1, inputs)
  {
    if inputs != [] {
      var n := |inputs| - 1;
      DeriveSnoc(h, inputs, world, r);
      SequencedRun(h, inputs[..n], world, r);
      var (t, blocks) := Derive(h, inputs[..n], world, r).value;
      StepSequenced(t, inputs[n], world, r);
      CarrySnoc(blocks, Extend(t, inputs[n], world, r).value.1, inputs);
    }
  }
}
