/** L1 traversal, L1 retrieval over calldata, and the pipeline step that drives them:
    `crates/derive/src/stages/l1_traversal.rs`, `stages/l1_retrieval.rs`, `sources/calldata.rs`,
    `pipeline/core.rs`.

    What the provider answers, including its failures, enters as arguments. The stages above the
    retrieval stage enter as their calls of `next_data` in a step and whether they then report Eof.
    The one does not decide the other: after a call that ended in Eof the batch queue may still
    answer with a batch it holds, and the batch stream reports Eof of its own on a span batch that
    is past or dropped (`stages/batch/batch_stream.rs:158-172`). */
module Pipeline {
  import opened Bytes
  import opened Blocks
  import opened PipelineErrors
  import opened SystemConfig

  datatype L1Tx = L1Tx(from: Address, to: Option<Address>, input: bytes)
  datatype L1Block = L1Block(info: BlockInfo, txs: seq<L1Tx>, receipts: seq<Receipt>)

  datatype Config = Config(batchInbox: Address, rules: UpdateRules)

  /** The calldata of the transactions sent by the batcher to the inbox, in order. */
  function Inbox(txs: seq<L1Tx>, inbox: Address, batcher: Address): seq<bytes> {
    if txs == [] then []
    else
      (if txs[0].to == Some(inbox) && txs[0].from == batcher then [txs[0].input] else [])
      + Inbox(txs[1..], inbox, batcher)
  }

  /** `data` is the calldata of exactly the transactions at the positions `idx`: those that the batcher
      sent to the inbox, in order. */
  ghost predicate SentToInbox(txs: seq<L1Tx>, inbox: Address, batcher: Address, data: seq<bytes>, idx: seq<nat>) {
    && |data| == |idx|
    && (forall k, l :: 0 <= k < l < |idx| ==> idx[k] < idx[l])
    && (forall k :: 0 <= k < |idx| ==> idx[k] < |txs| && data[k] == txs[idx[k]].input)
    && forall i: nat :: i < |txs| ==> (i in idx <==> txs[i].to == Some(inbox) && txs[i].from == batcher)
  }

  lemma {:induction false} InboxSnoc(txs: seq<L1Tx>, tx: L1Tx, inbox: Address, batcher: Address)
    ensures Inbox(txs + [tx], inbox, batcher)
            == Inbox(txs, inbox, batcher) + if tx.to == Some(inbox) && tx.from == batcher then [tx.input] else []
  {
    if txs == [] {
      assert [tx][1..] == [] && [] + [tx] == [tx];
    } else {
      assert (txs + [tx])[1..] == txs[1..] + [tx];
      InboxSnoc(txs[1..], tx, inbox, batcher);
    }
  }

  lemma {:induction false} InboxExactly(txs: seq<L1Tx>, inbox: Address, batcher: Address) returns (idx: seq<nat>)
    ensures SentToInbox(txs, inbox, batcher, Inbox(txs, inbox, batcher), idx)
  {
    idx := [];
    if txs != [] {
      var n := |txs| - 1;
      var before := InboxExactly(txs[..n], inbox, batcher);
      InboxSnoc(txs[..n], txs[n], inbox, batcher);
      assert txs == txs[..n] + [txs[n]];
      idx := if txs[n].to == Some(inbox) && txs[n].from == batcher then before + [n] else before;
      OneMoreSent(txs, inbox, batcher, Inbox(txs[..n], inbox, batcher), before);
    }
  }

  lemma OneMoreSent(txs: seq<L1Tx>, inbox: Address, batcher: Address, data: seq<bytes>, idx: seq<nat>)
    requires txs != [] && SentToInbox(txs[..|txs| - 1], inbox, batcher, data, idx)
    ensures var n := |txs| - 1;
            if txs[n].to == Some(inbox) && txs[n].from == batcher
            then SentToInbox(txs, inbox, batcher, data + [txs[n].input], idx + [n])
            else SentToInbox(txs, inbox, batcher, data, idx)
  {
    var n := |txs| - 1;
    forall i: nat | i < n ensures i in idx <==> txs[i].to == Some(inbox) && txs[i].from == batcher {
      assert txs[..n][i] == txs[i];
    }
  }

  // ---- The stages as values ------------------------------------------------

  /** Fields of the two bottom stages and the calldata source. */
  datatype Stages = Stages(
    block: Option<BlockInfo>, done: bool, config: SystemConfig,
    next: Option<BlockInfo>,
    open: bool, calldata: seq<bytes>
  )

  function Start(block: BlockInfo, config: SystemConfig): Stages {
    Stages(Some(block), false, config, None, false, [])
  }

  /** One call of `next_data`. `answer` is what the provider says when asked for the block's
      transactions, or None if it fails; it is only asked when the source is not open. */
  function NextData(s: Stages, answer: Option<seq<L1Tx>>, c: Config): (Stages, Result<bytes, PipelineErrorKind>) {
    if s.next.None? && s.done then (s, Err(Temporary(Eof)))
    else if s.next.None? && s.block.None? then (s.(done := true), Err(Temporary(MissingL1Data)))
    else
      var t := if s.next.None? then s.(done := true, next := s.block) else s;
      if !t.open && answer.None? then (t, Err(Temporary(Provider)))
      else
        var calldata := if t.open then t.calldata else Inbox(answer.value, c.batchInbox, t.config.batcher);
        if calldata == [] then (t.(next := None, open := false, calldata := []), Err(Temporary(Eof)))
        else (t.(open := true, calldata := calldata[1..]), Ok(calldata[0]))
  }

  /** What one call comes to. The block asked for is the one handed out before, or else the current one if it
      was not yet handed out. Its data is what is buffered, or what the batcher in force sent to the inbox. */
  lemma NextDataExactly(s: Stages, answer: Option<seq<L1Tx>>, c: Config)
    ensures var (t, r) := NextData(s, answer, c);
            var asked := if s.next.Some? then s.next else if s.done then None else s.block;
            var readable := asked.Some? && (s.open || answer.Some?);
            && (r.Ok? ==> readable)
            && (r == Err(Temporary(MissingL1Data)) <==> s.next.None? && !s.done && s.block.None?)
            && (r == Err(Temporary(Provider)) <==> asked.Some? && !s.open && answer.None?)
            && (readable ==>
                  var data := if s.open then s.calldata else Inbox(answer.value, c.batchInbox, s.config.batcher);
                  && (r == Err(Temporary(Eof)) <==> data == [])
                  && (data == [] ==> t == Stages(s.block, s.done || s.next.None?, s.config, None, false, []))
                  && (data != [] ==>
                        && r == Ok(data[0])
                        && t == Stages(s.block, s.done || s.next.None?, s.config, asked, true, data[1..])))
            && (!readable ==>
                  && (r == Err(Temporary(Eof)) <==> s.next.None? && s.done)
                  && t == s.(done := s.done || s.next.None?, next := asked))
  {
  }

  /** What the provider says when asked for the next L1 block and its receipts. */
  datatype AdvanceAnswer = AdvanceAnswer(block: Option<BlockInfo>, receipts: Option<seq<Receipt>>)

  function AdvanceOrigin(s: Stages, a: AdvanceAnswer, c: Config): (Stages, Result<(), PipelineErrorKind>) {
    if s.block.None? then (s, Err(Temporary(Eof)))
    else if a.block.None? then (s, Err(Temporary(Provider)))
    else if s.block.value.hash != a.block.value.parentHash then (s, Err(Reset(ReorgDetected)))
    else if a.receipts.None? then (s, Err(Temporary(Provider)))
    else
      var (config, ok) := ApplyReceipts(s.config, a.receipts.value, c.rules);
      if !ok then (s.(config := config), Err(Critical(SystemConfigUpdate)))
      else (s.(block := a.block, done := false, config := config), Ok(()))
  }

  /** The origin advances exactly to a child whose receipts are there and well formed; which error stands for
      what is missing; and what an error leaves, which is the config up to the malformed update. */
  lemma AdvanceExactly(s: Stages, a: AdvanceAnswer, c: Config)
    ensures var (t, r) := AdvanceOrigin(s, a, c);
            var child := s.block.Some? && a.block.Some? && a.block.value.parentHash == s.block.value.hash;
            && (r.Ok? <==> child && a.receipts.Some?
                           && forall log :: log in LogsOf(a.receipts.value) ==> !Effect(log, c.rules).Malformed?)
            && (r == Err(Critical(SystemConfigUpdate)) <==>
                  child && a.receipts.Some? && exists log :: log in LogsOf(a.receipts.value)
                                                             && Effect(log, c.rules).Malformed?)
            && (r == Err(Temporary(Eof)) <==> s.block.None?)
            && (r == Err(Reset(ReorgDetected)) <==> s.block.Some? && a.block.Some? && !child)
            && (r == Err(Temporary(Provider)) <==> s.block.Some? && (a.block.None? || (child && a.receipts.None?)))
            && (r.Ok? ==> t.block == a.block && !t.done)
            && (r.Err? ==> t.block == s.block && t.done == s.done)
            && (t.config.batcher
                == if child && a.receipts.Some?
                   then OrElse(LastBatcher(Applied(LogsOf(a.receipts.value), c.rules), c.rules), s.config.batcher)
                   else s.config.batcher)
            && t.next == s.next && t.open == s.open && t.calldata == s.calldata
  {
    if a.receipts.Some? {
      ApplyReceiptsMeaning(s.config, a.receipts.value, c.rules);
      ReceiptsBatcher(s.config, a.receipts.value, c.rules);
    }
  }

  /** Reset and Activation act alike on these stages; the data source is left as it is. */
  function Resetted(s: Stages, origin: BlockInfo, config: SystemConfig): Stages {
    s.(block := Some(origin), done := false, config := config, next := Some(origin))
  }

  /** Several calls of `next_data`: the stages after them, what they delivered, and whether the
      last one ended in Eof. */
  function Pull(s: Stages, answers: seq<Option<seq<L1Tx>>>, c: Config): (Stages, seq<bytes>, bool) {
    if answers == [] then (s, [], false)
    else
      var n := |answers| - 1;
      var (t, out, _) := Pull(s, answers[..n], c);
      var (u, r) := NextData(t, answers[n], c);
      (u, out + (if r.Ok? then [r.value] else []), r == Err(Temporary(Eof)))
  }

  /** `eof`: the stages above report Eof. ResetTo stands for Reset and Activation. */
  datatype Event =
    | Step(answers: seq<Option<seq<L1Tx>>>, eof: bool, advance: AdvanceAnswer)
    | FlushChannel
    | ResetTo(origin: BlockInfo, config: SystemConfig)

  /** `DerivationPipeline::step`, which pulls and advances the origin if that came to Eof, and
      `DerivationPipeline::signal`. */
  function Stepped(s: Stages, e: Event, c: Config): (Stages, seq<bytes>) {
    match e
    case FlushChannel => (s, [])
    case ResetTo(origin, config) => (Resetted(s, origin, config), [])
    case Step(answers, eof, advance) =>
      var (t, out, _) := Pull(s, answers, c);
      (if eof then AdvanceOrigin(t, advance, c).0 else t, out)
  }

  function Run(s: Stages, events: seq<Event>, c: Config): (Stages, seq<bytes>) {
    if events == [] then (s, [])
    else
      var n := |events| - 1;
      var (t, out) := Run(s, events[..n], c);
      var (u, more) := Stepped(t, events[n], c);
      (u, out + more)
  }

  // ---- The L1 chain and an honest provider ---------------------------------

  predicate Chain(chain: seq<L1Block>) {
    && chain != []
    && (forall i: nat :: i < |chain| - 1 ==> IsChild(chain, i))
    && (forall i, j :: 0 <= i < j < |chain| ==> chain[i].info.hash != chain[j].info.hash)
  }

  predicate IsChild(chain: seq<L1Block>, i: nat)
    requires i + 1 < |chain|
  {
    chain[i + 1].info.parentHash == chain[i].info.hash
  }

  /** Failures are allowed anywhere; answers about the chain are true. */
  predicate HonestTxs(chain: seq<L1Block>, asked: Option<BlockInfo>, answer: Option<seq<L1Tx>>) {
    answer.Some? && asked.Some? ==>
      forall i :: 0 <= i < |chain| && chain[i].info == asked.value ==> answer.value == chain[i].txs
  }

  /** A block that names `parent` as its parent is its successor on the chain. */
  predicate HonestAdvance(chain: seq<L1Block>, parent: Option<BlockInfo>, a: AdvanceAnswer) {
    a.block.Some? && parent.Some? && a.block.value.parentHash == parent.value.hash ==>
      forall i :: 0 <= i < |chain| && chain[i].info == parent.value ==>
        && i + 1 < |chain| && a.block.value == chain[i + 1].info
        && (a.receipts.Some? ==> a.receipts.value == chain[i + 1].receipts)
  }

  function Asked(s: Stages): Option<BlockInfo> {
    if s.next.Some? then s.next else s.block
  }

  predicate HonestPull(chain: seq<L1Block>, s: Stages, answers: seq<Option<seq<L1Tx>>>, c: Config) {
    answers != [] ==>
      && HonestPull(chain, s, answers[..|answers| - 1], c)
      && HonestTxs(chain, Asked(Pull(s, answers[..|answers| - 1], c).0), answers[|answers| - 1])
  }

  predicate HonestEvent(chain: seq<L1Block>, s: Stages, e: Event, c: Config) {
    e.Step? ==>
      && HonestPull(chain, s, e.answers, c)
      && HonestAdvance(chain, Pull(s, e.answers, c).0.block, e.advance)
  }

  predicate HonestRun(chain: seq<L1Block>, s: Stages, events: seq<Event>, c: Config) {
    events != [] ==>
      && HonestRun(chain, s, events[..|events| - 1], c)
      && HonestEvent(chain, Run(s, events[..|events| - 1], c).0, events[|events| - 1], c)
  }

  predicate NoResets(events: seq<Event>) {
    forall e :: e in events ==> !e.ResetTo?
  }

  /** A step reports Eof only after a last call that ended in Eof. */
  predicate EofAtEnd(s: Stages, e: Event, c: Config) {
    e.Step? && e.eof ==> Pull(s, e.answers, c).2
  }

  predicate AllEofAtEnd(s: Stages, events: seq<Event>, c: Config) {
    events != [] ==>
      && AllEofAtEnd(s, events[..|events| - 1], c)
      && EofAtEnd(Run(s, events[..|events| - 1], c).0, events[|events| - 1], c)
  }

  // ---- Exactly-once delivery -----------------------------------------------

  /** The config in force at block `i`: all updates up to and including that block. */
  function ConfigAt(chain: seq<L1Block>, config: SystemConfig, i: nat, c: Config): SystemConfig
    requires i < |chain|
  {
    if i == 0 then config else ApplyReceipts(ConfigAt(chain, config, i - 1, c), chain[i].receipts, c.rules).0
  }

  /** What block `i` contributes. */
  function BlockData(chain: seq<L1Block>, config: SystemConfig, i: nat, c: Config): seq<bytes>
    requires i < |chain|
  {
    Inbox(chain[i].txs, c.batchInbox, ConfigAt(chain, config, i, c).batcher)
  }

  /** What the blocks before `n` contribute, in chain order. */
  function DataBefore(chain: seq<L1Block>, config: SystemConfig, n: nat, c: Config): seq<bytes>
    requires n <= |chain|
  {
    if n == 0 then [] else DataBefore(chain, config, n - 1, c) + BlockData(chain, config, n - 1, c)
  }

  /** `before` is out; of `data`, the current block's, what is not yet out is buffered in the open
      source, or the block has not been read. */
  ghost predicate Ledger(s: Stages, out: seq<bytes>, before: seq<bytes>, data: seq<bytes>) {
    && (s.next.Some? ==> s.done && s.next == s.block)
    && (s.open ==> s.next.Some?)
    && (!s.open ==> s.calldata == [])
    && (if Drained(s) then out == before + data
        else if s.open then before <= out && out + s.calldata == before + data
        else out == before)
  }

  ghost predicate Tracks(chain: seq<L1Block>, config: SystemConfig, c: Config, s: Stages, out: seq<bytes>, i: nat) {
    && i < |chain|
    && s.block == Some(chain[i].info)
    && Ledger(s, out, DataBefore(chain, config, i, c), BlockData(chain, config, i, c))
    && (s.config == ConfigAt(chain, config, i, c) || (Drained(s) && Stuck(chain, i, c)))
  }

  /** The current block has been read to its end. */
  predicate Drained(s: Stages) {
    s.done && s.next.None?
  }

  /** The next block carries a malformed config update, so the origin can never pass it. */
  ghost predicate Stuck(chain: seq<L1Block>, i: nat, c: Config) {
    i + 1 < |chain| && exists log :: log in LogsOf(chain[i + 1].receipts) && Effect(log, c.rules).Malformed?
  }

  lemma LedgerPull(s: Stages, out: seq<bytes>, before: seq<bytes>, data: seq<bytes>, answer: Option<seq<L1Tx>>,
                   c: Config)
    requires Ledger(s, out, before, data) && s.block.Some?
    requires answer.Some? && !s.open && !Drained(s) ==> Inbox(answer.value, c.batchInbox, s.config.batcher) == data
    ensures var (t, r) := NextData(s, answer, c);
            && t.block == s.block && t.config == s.config
            && Ledger(t, out + (if r.Ok? then [r.value] else []), before, data)
            && (r == Err(Temporary(Eof)) ==> Drained(t))
            && (Drained(s) ==> Drained(t))
  {
    var (t, r) := NextData(s, answer, c);
    assert out + [] == out;
    if r.Ok? {
      var all := if s.open then s.calldata else data;
      assert all == [r.value] + t.calldata;
      assert out + all == (out + [r.value]) + t.calldata;
    }
  }

  lemma TracksPull1(chain: seq<L1Block>, config: SystemConfig, c: Config, s: Stages, out: seq<bytes>, i: nat,
                    answer: Option<seq<L1Tx>>)
    requires Tracks(chain, config, c, s, out, i) && HonestTxs(chain, Asked(s), answer)
    ensures var (t, r) := NextData(s, answer, c);
            && Tracks(chain, config, c, t, out + (if r.Ok? then [r.value] else []), i)
            && (r == Err(Temporary(Eof)) ==> Drained(t))
  {
    LedgerPull(s, out, DataBefore(chain, config, i, c), BlockData(chain, config, i, c), answer, c);
  }

  /** Peeling the last call off a pull. */
  lemma PullSnoc(s: Stages, answers: seq<Option<seq<L1Tx>>>, c: Config, out: seq<bytes>)
    requires answers != []
    ensures var n := |answers| - 1;
            var p := Pull(s, answers[..n], c);
            var (t, r) := NextData(p.0, answers[n], c);
            var last := if r.Ok? then [r.value] else [];
            && Pull(s, answers, c).0 == t
            && out + Pull(s, answers, c).1 == (out + p.1) + last
            && (Pull(s, answers, c).2 <==> r == Err(Temporary(Eof)))
  {
    var n := |answers| - 1;
    var p := Pull(s, answers[..n], c);
    var r := NextData(p.0, answers[n], c).1;
    var last := if r.Ok? then [r.value] else [];
    assert (out + p.1) + last == out + (p.1 + last);
  }

  lemma {:induction false} TracksPull(chain: seq<L1Block>, config: SystemConfig, c: Config, s: Stages, out: seq<bytes>,
                                      i: nat, answers: seq<Option<seq<L1Tx>>>)
    requires Tracks(chain, config, c, s, out, i) && HonestPull(chain, s, answers, c)
    ensures var p := Pull(s, answers, c);
            Tracks(chain, config, c, p.0, out + p.1, i) && (p.2 ==> Drained(p.0))
  {
    if answers == [] {
      assert out + [] == out;
    } else {
      var n := |answers| - 1;
      TracksPull(chain, config, c, s, out, i, answers[..n]);
      var p := Pull(s, answers[..n], c);
      TracksPull1(chain, config, c, p.0, out + p.1, i, answers[n]);
      PullSnoc(s, answers, c, out);
    }
  }

  lemma TracksAdvance(chain: seq<L1Block>, config: SystemConfig, c: Config, s: Stages, out: seq<bytes>, i: nat,
                      a: AdvanceAnswer)
    requires Tracks(chain, config, c, s, out, i) && Drained(s) && HonestAdvance(chain, s.block, a)
    ensures var (t, r) := AdvanceOrigin(s, a, c);
            && Tracks(chain, config, c, t, out, if r.Ok? then i + 1 else i)
            && (r.Ok? ==> !Stuck(chain, i, c))
  {
    if a.block.Some? && a.receipts.Some? && a.block.value.parentHash == s.block.value.hash {
      ApplyReceiptsMeaning(s.config, chain[i + 1].receipts, c.rules);
    }
  }

  lemma TracksEvent(chain: seq<L1Block>, config: SystemConfig, c: Config, s: Stages, out: seq<bytes>, i: nat, e: Event)
    returns (j: nat)
    requires Tracks(chain, config, c, s, out, i)
    requires HonestEvent(chain, s, e, c) && EofAtEnd(s, e, c) && !e.ResetTo?
    ensures var (t, more) := Stepped(s, e, c);
            Tracks(chain, config, c, t, out + more, j) && (Stuck(chain, i, c) ==> j == i)
  {
    j := i;
    match e
    case FlushChannel => assert out + [] == out;
    case Step(answers, eof, advance) =>
      TracksPull(chain, config, c, s, out, i, answers);
      var (t, more, _) := Pull(s, answers, c);
      if eof {
        TracksAdvance(chain, config, c, t, out + more, i, advance);
        if AdvanceOrigin(t, advance, c).1.Ok? { j := i + 1; }
      }
  }

  lemma {:induction false} TracksRun(chain: seq<L1Block>, config: SystemConfig, c: Config, events: seq<Event>)
    returns (i: nat)
    requires Chain(chain) && NoResets(events)
    requires HonestRun(chain, Start(chain[0].info, config), events, c)
    requires AllEofAtEnd(Start(chain[0].info, config), events, c)
    ensures var (s, out) := Run(Start(chain[0].info, config), events, c);
            Tracks(chain, config, c, s, out, i)
  {
    var s0 := Start(chain[0].info, config);
    if events == [] {
      i := 0;
    } else {
      var n := |events| - 1;
      var k := TracksRun(chain, config, c, events[..n]);
      var (s, out) := Run(s0, events[..n], c);
      i := TracksEvent(chain, config, c, s, out, k, events[n]);
    }
  }

  /** With block `i` as origin, everything before it is out and a prefix of its own data; all of
      it once the block is read to its end. */
  ghost predicate DeliveredUpTo(chain: seq<L1Block>, config: SystemConfig, c: Config, s: Stages, out: seq<bytes>,
                                i: nat)
  {
    && i < |chain| && s.block == Some(chain[i].info)
    && DataBefore(chain, config, i, c) <= out <= DataBefore(chain, config, i + 1, c)
    && (Drained(s) ==> out == DataBefore(chain, config, i + 1, c))
  }

  lemma TracksDelivers(chain: seq<L1Block>, config: SystemConfig, c: Config, s: Stages, out: seq<bytes>, i: nat)
    requires Tracks(chain, config, c, s, out, i)
    ensures DeliveredUpTo(chain, config, c, s, out, i)
  {
    var before, data := DataBefore(chain, config, i, c), BlockData(chain, config, i, c);
    assert DataBefore(chain, config, i + 1, c) == before + data;
    assert s.open && !Drained(s) ==> out <= out + s.calldata;
  }

  /** In every run without Reset or Activation from a new origin that advances only at the end of a
      block, whatever provider calls fail, the frame queue has been handed the inbox data of every
      block before the origin and a prefix of the origin's own, each once and in chain order, filtered
      by the batcher in force at that block; and all of it once the origin is read to its end. */
  lemma ExactlyOnce(chain: seq<L1Block>, config: SystemConfig, c: Config, events: seq<Event>)
    requires Chain(chain) && NoResets(events)
    requires HonestRun(chain, Start(chain[0].info, config), events, c)
    requires AllEofAtEnd(Start(chain[0].info, config), events, c)
    ensures var (s, out) := Run(Start(chain[0].info, config), events, c);
            exists i :: DeliveredUpTo(chain, config, c, s, out, i)
  {
    var i := TracksRun(chain, config, c, events);
    var (s, out) := Run(Start(chain[0].info, config), events, c);
    TracksDelivers(chain, config, c, s, out, i);
  }

  /** What block `i` contributes, transaction by transaction: the calldata that the batcher in force there
      sent to the inbox. */
  lemma BlockDataExactly(chain: seq<L1Block>, config: SystemConfig, i: nat, c: Config) returns (idx: seq<nat>)
    requires i < |chain|
    requires forall log :: log in LogsUpTo(chain, i) ==> !Effect(log, c.rules).Malformed?
    ensures SentToInbox(chain[i].txs, c.batchInbox, OrElse(LastBatcher(LogsUpTo(chain, i), c.rules), config.batcher),
                        BlockData(chain, config, i, c), idx)
  {
    BatcherAt(chain, config, i, c);
    idx := InboxExactly(chain[i].txs, c.batchInbox, ConfigAt(chain, config, i, c).batcher);
  }

  /** The batcher in force at block `i`, without naming the fold: the last batcher update in the
      successful receipts of blocks 1 to `i`, provided none of their updates is malformed. */
  function LogsUpTo(chain: seq<L1Block>, i: nat): seq<Log>
    requires i < |chain|
  {
    if i == 0 then [] else LogsUpTo(chain, i - 1) + LogsOf(chain[i].receipts)
  }

  lemma {:induction false} BatcherAt(chain: seq<L1Block>, config: SystemConfig, i: nat, c: Config)
    requires i < |chain|
    requires forall log :: log in LogsUpTo(chain, i) ==> !Effect(log, c.rules).Malformed?
    ensures ConfigAt(chain, config, i, c).batcher == OrElse(LastBatcher(LogsUpTo(chain, i), c.rules), config.batcher)
  {
    if i > 0 {
      BatcherAt(chain, config, i - 1, c);
      ApplyReceiptsMeaning(ConfigAt(chain, config, i - 1, c), chain[i].receipts, c.rules);
      LastBatcherAppend(LogsUpTo(chain, i - 1), LogsOf(chain[i].receipts), c.rules);
    }
  }
}
