/** What holds of delivery in all runs, also those in which a step advances the origin while blocks
    are still to be read: the batch stream reports Eof of its own on a span batch that is past or
    dropped (`crates/derive/src/stages/batch/batch_stream.rs:158-172`), and the step cannot tell
    (`pipeline/core.rs:169-175`). */
module PipelineReads {
  import opened Bytes
  import opened Blocks
  import opened PipelineErrors
  import opened SystemConfig
  import opened Pipeline
  import opened PipelineReset

  /** The source is filled from a block's transactions under the batcher then in force, with the
      traversal stage at `origin`. */
  datatype Read = Read(block: BlockInfo, txs: seq<L1Tx>, batcher: Address, origin: Option<BlockInfo>)

  /** The block the retrieval stage has, or takes over when called. */
  function TakenOver(s: Stages): Option<BlockInfo> {
    if s.next.None? && !s.done then s.block else s.next
  }

  function ReadsOf(s: Stages, answer: Option<seq<L1Tx>>): seq<Read> {
    if TakenOver(s).Some? && !s.open && answer.Some?
    then [Read(TakenOver(s).value, answer.value, s.config.batcher, s.block)]
    else []
  }

  function PullReads(s: Stages, answers: seq<Option<seq<L1Tx>>>, c: Config): seq<Read> {
    if answers == [] then []
    else
      var n := |answers| - 1;
      PullReads(s, answers[..n], c) + ReadsOf(Pull(s, answers[..n], c).0, answers[n])
  }

  function StepReads(s: Stages, e: Event, c: Config): seq<Read> {
    if e.Step? then PullReads(s, e.answers, c) else []
  }

  function RunReads(s: Stages, events: seq<Event>, c: Config): seq<Read> {
    if events == [] then []
    else
      var n := |events| - 1;
      RunReads(s, events[..n], c) + StepReads(Run(s, events[..n], c).0, events[n], c)
  }

  function DataOf(taken: seq<Read>, c: Config): seq<bytes> {
    if taken == [] then []
    else
      var n := |taken| - 1;
      DataOf(taken[..n], c) + Inbox(taken[n].txs, c.batchInbox, taken[n].batcher)
  }

  function Buffered(s: Stages): seq<bytes> {
    if s.open then s.calldata else []
  }

  // ---- What is read is delivered -------------------------------------------

  lemma {:induction false} DataOfAppend(a: seq<Read>, b: seq<Read>, c: Config)
    ensures DataOf(a + b, c) == DataOf(a, c) + DataOf(b, c)
  {
    if b == [] {
      assert a + b == a && DataOf(a, c) + [] == DataOf(a, c);
    } else {
      var n := |b| - 1;
      DataOfAppend(a, b[..n], c);
      assert (a + b)[..|a + b| - 1] == a + b[..n];
      var last := Inbox(b[n].txs, c.batchInbox, b[n].batcher);
      assert (DataOf(a, c) + DataOf(b[..n], c)) + last == DataOf(a, c) + (DataOf(b[..n], c) + last);
    }
  }

  lemma FlowOne(s: Stages, answer: Option<seq<L1Tx>>, c: Config)
    ensures var (t, r) := NextData(s, answer, c);
            Buffered(s) + DataOf(ReadsOf(s, answer), c) == (if r.Ok? then [r.value] else []) + Buffered(t)
  {
    var taken := ReadsOf(s, answer);
    if taken != [] {
      assert taken[..0] == [];
      assert DataOf(taken, c) == [] + Inbox(taken[0].txs, c.batchInbox, taken[0].batcher);
    }
  }

  lemma Compose(a: seq<bytes>, x: seq<bytes>, out: seq<bytes>, b: seq<bytes>, y: seq<bytes>, more: seq<bytes>,
                d: seq<bytes>)
    requires a + x == out + b && b + y == more + d
    ensures a + (x + y) == (out + more) + d
  {
    assert a + (x + y) == (a + x) + y;
    assert (out + b) + y == out + (b + y);
    assert out + (more + d) == (out + more) + d;
  }

  lemma {:induction false} FlowPull(s: Stages, answers: seq<Option<seq<L1Tx>>>, c: Config)
    ensures var p := Pull(s, answers, c);
            Buffered(s) + DataOf(PullReads(s, answers, c), c) == p.1 + Buffered(p.0)
  {
    if answers == [] {
      assert Buffered(s) + [] == [] + Buffered(s);
    } else {
      var n := |answers| - 1;
      FlowPull(s, answers[..n], c);
      var p := Pull(s, answers[..n], c);
      var (t, r) := NextData(p.0, answers[n], c);
      FlowOne(p.0, answers[n], c);
      DataOfAppend(PullReads(s, answers[..n], c), ReadsOf(p.0, answers[n]), c);
      Compose(Buffered(s), DataOf(PullReads(s, answers[..n], c), c), p.1, Buffered(p.0),
              DataOf(ReadsOf(p.0, answers[n]), c), if r.Ok? then [r.value] else [], Buffered(t));
    }
  }

  lemma AdvanceKeepsBuffer(s: Stages, a: AdvanceAnswer, c: Config)
    ensures Buffered(AdvanceOrigin(s, a, c).0) == Buffered(s)
  {}

  lemma FlowStep(s: Stages, e: Event, c: Config)
    ensures var (t, out) := Stepped(s, e, c);
            Buffered(s) + DataOf(StepReads(s, e, c), c) == out + Buffered(t)
  {
    if e.Step? {
      FlowPull(s, e.answers, c);
      AdvanceKeepsBuffer(Pull(s, e.answers, c).0, e.advance, c);
    } else {
      assert Buffered(s) + [] == [] + Buffered(s);
    }
  }

  /** In every run, with any resets, failures and early advances and from any state: what was buffered
      at first and what every read brought in has been delivered, in the order it came in and once,
      except for what is still buffered. */
  lemma {:induction false} ReadIsDelivered(s: Stages, events: seq<Event>, c: Config)
    ensures var (t, out) := Run(s, events, c);
            Buffered(s) + DataOf(RunReads(s, events, c), c) == out + Buffered(t)
  {
    if events == [] {
      assert Buffered(s) + [] == [] + Buffered(s);
    } else {
      var n := |events| - 1;
      ReadIsDelivered(s, events[..n], c);
      var (t, out) := Run(s, events[..n], c);
      var (u, more) := Stepped(t, events[n], c);
      FlowStep(t, events[n], c);
      var before, last := RunReads(s, events[..n], c), StepReads(t, events[n], c);
      DataOfAppend(before, last, c);
      Compose(Buffered(s), DataOf(before, c), out, Buffered(t), DataOf(last, c), more, Buffered(u));
    }
  }

  // ---- Which blocks are read -----------------------------------------------

  /** A block the origin leaves behind before the retrieval stage was given it. */
  function StepSkips(s: Stages, e: Event, c: Config): seq<BlockInfo> {
    match e
    case FlushChannel => []
    case ResetTo(_, _) => []
    case Step(answers, eof, advance) =>
      var t := Pull(s, answers, c).0;
      if eof && AdvanceOrigin(t, advance, c).1.Ok? && !t.done then [t.block.value] else []
  }

  function RunSkips(s: Stages, events: seq<Event>, c: Config): seq<BlockInfo> {
    if events == [] then []
    else
      var n := |events| - 1;
      RunSkips(s, events[..n], c) + StepSkips(Run(s, events[..n], c).0, events[n], c)
  }

  predicate Rising(idx: seq<nat>) {
    forall m, n :: 0 <= m < n < |idx| ==> idx[m] < idx[n]
  }

  /** The reads are of the blocks `idx`, in chain order, each at most once. */
  ghost predicate InOrder(chain: seq<L1Block>, taken: seq<Read>, idx: seq<nat>) {
    && |idx| == |taken| && Rising(idx)
    && forall m :: 0 <= m < |idx| ==>
         idx[m] < |chain| && taken[m].block == chain[idx[m]].info && taken[m].txs == chain[idx[m]].txs
  }

  /** Block `j` is still to be read: it is the retrieval stage's and not loaded, or it is the origin
      and not handed out. */
  predicate ToBeRead(s: Stages, block: BlockInfo) {
    (s.next == Some(block) && !s.open) || (s.block == Some(block) && !s.done)
  }

  predicate Below(idx: seq<nat>, k: nat) {
    forall m :: 0 <= m < |idx| ==> idx[m] < k
  }

  predicate EndsWith(idx: seq<nat>, k: nat) {
    idx != [] && idx[|idx| - 1] == k
  }

  lemma EndsBelow(idx: seq<nat>, k: nat)
    requires Rising(idx) && EndsWith(idx, k)
    ensures Below(idx, k + 1)
  {}

  lemma BelowOut(idx: seq<nat>, k: nat)
    requires Below(idx, k)
    ensures forall j: nat :: j >= k ==> j !in idx
  {}

  /** Where the stages are among the blocks: `i` is the origin, `k` the retrieval stage's block. */
  ghost predicate Placed(chain: seq<L1Block>, s: Stages, idx: seq<nat>, i: nat, k: nat) {
    && k <= i < |chain| && s.block == Some(chain[i].info)
    && Rising(idx)
    && if s.next.None? then
         !s.open && (if s.done then EndsWith(idx, i) else Below(idx, i))
       else
         && s.next == Some(chain[k].info) && (s.done <==> k == i)
         && (if s.open then EndsWith(idx, k) else Below(idx, k))
  }

  /** Every block up to the origin has been read, is to be read, or was skipped. */
  ghost predicate Covered(chain: seq<L1Block>, s: Stages, idx: seq<nat>, skips: seq<BlockInfo>, i: nat) {
    && (forall b :: b in skips ==> exists j: nat :: j < |chain| && chain[j].info == b)
    && forall j: nat :: j < |chain| ==>
         (chain[j].info in skips <==> j <= i && j !in idx && !ToBeRead(s, chain[j].info))
  }

  lemma RisingOn(idx: seq<nat>, k: nat)
    requires Rising(idx) && Below(idx, k)
    ensures Rising(idx + [k]) && EndsWith(idx + [k], k)
  {}

  lemma InOrderOn(chain: seq<L1Block>, taken: seq<Read>, idx: seq<nat>, k: nat, r: Read)
    requires InOrder(chain, taken, idx) && Below(idx, k)
    requires k < |chain| && r.block == chain[k].info && r.txs == chain[k].txs
    ensures InOrder(chain, taken + [r], idx + [k])
  {
    RisingOn(idx, k);
  }

  /** A block that was to be read has been read. */
  lemma CoveredOn(chain: seq<L1Block>, s: Stages, t: Stages, idx: seq<nat>, skips: seq<BlockInfo>, i: nat, k: nat)
    requires Chain(chain) && k <= i < |chain| && Covered(chain, s, idx, skips, i)
    requires forall j: nat :: j < |chain| && j != k ==> (ToBeRead(s, chain[j].info) <==> ToBeRead(t, chain[j].info))
    requires ToBeRead(s, chain[k].info) && !ToBeRead(t, chain[k].info)
    ensures Covered(chain, t, idx + [k], skips, i)
  {
    assert forall j: nat :: j in idx + [k] <==> j in idx || j == k;
  }

  lemma OrderRead(chain: seq<L1Block>, s: Stages, taken: seq<Read>, skips: seq<BlockInfo>, idx: seq<nat>, i: nat,
                  k: nat, answer: Option<seq<L1Tx>>, c: Config)
    returns (k': nat)
    requires Chain(chain) && HonestTxs(chain, Asked(s), answer) && ReadsOf(s, answer) != []
    requires Placed(chain, s, idx, i, k) && InOrder(chain, taken, idx) && Covered(chain, s, idx, skips, i)
    ensures var t := NextData(s, answer, c).0;
            && Placed(chain, t, idx + [k'], i, k') && InOrder(chain, taken + ReadsOf(s, answer), idx + [k'])
            && Covered(chain, t, idx + [k'], skips, i)
  {
    k' := if s.next.None? then i else k;
    Distinct(chain, k');
    RisingOn(idx, k');
    InOrderOn(chain, taken, idx, k', ReadsOf(s, answer)[0]);
    CoveredOn(chain, s, NextData(s, answer, c).0, idx, skips, i, k');
  }

  lemma OrderOne(chain: seq<L1Block>, s: Stages, taken: seq<Read>, skips: seq<BlockInfo>, idx: seq<nat>, i: nat, k: nat,
                 answer: Option<seq<L1Tx>>, c: Config)
    returns (idx': seq<nat>, k': nat)
    requires Chain(chain) && HonestTxs(chain, Asked(s), answer)
    requires Placed(chain, s, idx, i, k) && InOrder(chain, taken, idx) && Covered(chain, s, idx, skips, i)
    ensures var t := NextData(s, answer, c).0;
            && Placed(chain, t, idx', i, k') && InOrder(chain, taken + ReadsOf(s, answer), idx')
            && Covered(chain, t, idx', skips, i)
  {
    if ReadsOf(s, answer) != [] {
      k' := OrderRead(chain, s, taken, skips, idx, i, k, answer, c);
      idx' := idx + [k'];
    } else {
      idx', k' := idx, if s.next.None? then i else k;
      Distinct(chain, k');
      assert taken + [] == taken;
    }
  }

  lemma {:induction false} OrderPull(chain: seq<L1Block>, s: Stages, taken: seq<Read>, skips: seq<BlockInfo>,
                                     idx: seq<nat>, i: nat, k: nat, answers: seq<Option<seq<L1Tx>>>, c: Config)
    returns (idx': seq<nat>, k': nat)
    requires Chain(chain) && HonestPull(chain, s, answers, c)
    requires Placed(chain, s, idx, i, k) && InOrder(chain, taken, idx) && Covered(chain, s, idx, skips, i)
    ensures var t := Pull(s, answers, c).0;
            && Placed(chain, t, idx', i, k') && InOrder(chain, taken + PullReads(s, answers, c), idx')
            && Covered(chain, t, idx', skips, i)
  {
    if answers == [] {
      idx', k' := idx, k;
      assert taken + [] == taken;
    } else {
      var n := |answers| - 1;
      var t := Pull(s, answers[..n], c).0;
      var before := PullReads(s, answers[..n], c);
      assert taken + PullReads(s, answers, c) == (taken + before) + ReadsOf(t, answers[n]);
      idx', k' := OrderPull(chain, s, taken, skips, idx, i, k, answers[..n], c);
      idx', k' := OrderOne(chain, t, taken + before, skips, idx', i, k', answers[n], c);
    }
  }

  lemma OrderAdvance(chain: seq<L1Block>, s: Stages, skips: seq<BlockInfo>, idx: seq<nat>, i: nat, k: nat,
                     a: AdvanceAnswer, c: Config)
    requires Chain(chain) && HonestAdvance(chain, s.block, a) && AdvanceOrigin(s, a, c).1.Ok?
    requires Placed(chain, s, idx, i, k) && Covered(chain, s, idx, skips, i)
    ensures var t := AdvanceOrigin(s, a, c).0;
            && Placed(chain, t, idx, i + 1, k)
            && Covered(chain, t, idx, skips + (if !s.done then [s.block.value] else []), i + 1)
  {
    var t := AdvanceOrigin(s, a, c).0;
    assert t.block == Some(chain[i + 1].info) && !t.done;
    Distinct(chain, i);
    Distinct(chain, i + 1);
    Distinct(chain, k);
    if s.next.None? {
      if s.done { EndsBelow(idx, i); } else { BelowOut(idx, i); }
    } else {
      if s.open { EndsBelow(idx, k); }
      BelowOut(idx, k + 1);
    }
    BelowOut(idx, i + 1);
  }

  lemma OrderAdvanced(chain: seq<L1Block>, s: Stages, skips: seq<BlockInfo>, idx: seq<nat>, i: nat, k: nat,
                      a: AdvanceAnswer, c: Config)
    returns (i': nat)
    requires Chain(chain) && HonestAdvance(chain, s.block, a)
    requires Placed(chain, s, idx, i, k) && Covered(chain, s, idx, skips, i)
    ensures var (t, r) := AdvanceOrigin(s, a, c);
            && Placed(chain, t, idx, i', k)
            && Covered(chain, t, idx, skips + (if r.Ok? && !s.done then [s.block.value] else []), i')
  {
    if AdvanceOrigin(s, a, c).1.Ok? {
      i' := i + 1;
      OrderAdvance(chain, s, skips, idx, i, k, a, c);
    } else {
      i' := i;
      assert skips + [] == skips;
    }
  }

  lemma OrderEvent(chain: seq<L1Block>, s: Stages, taken: seq<Read>, skips: seq<BlockInfo>, idx: seq<nat>, i: nat,
                   k: nat, e: Event, c: Config)
    returns (idx': seq<nat>, i': nat, k': nat)
    requires Chain(chain) && HonestEvent(chain, s, e, c) && !e.ResetTo?
    requires Placed(chain, s, idx, i, k) && InOrder(chain, taken, idx) && Covered(chain, s, idx, skips, i)
    ensures var t := Stepped(s, e, c).0;
            && Placed(chain, t, idx', i', k') && InOrder(chain, taken + StepReads(s, e, c), idx')
            && Covered(chain, t, idx', skips + StepSkips(s, e, c), i')
  {
    idx', i', k' := idx, i, k;
    assert taken + [] == taken && skips + [] == skips;
    if e.Step? {
      idx', k' := OrderPull(chain, s, taken, skips, idx, i, k, e.answers, c);
      var t := Pull(s, e.answers, c).0;
      if e.eof {
        i' := OrderAdvanced(chain, t, skips, idx', i, k', e.advance, c);
      }
    }
  }

  lemma {:induction false} OrderRun(chain: seq<L1Block>, config: SystemConfig, c: Config, events: seq<Event>)
    returns (idx: seq<nat>, i: nat, k: nat)
    requires Chain(chain) && NoResets(events) && HonestRun(chain, Start(chain[0].info, config), events, c)
    ensures var s := Start(chain[0].info, config);
            var t := Run(s, events, c).0;
            && Placed(chain, t, idx, i, k) && InOrder(chain, RunReads(s, events, c), idx)
            && Covered(chain, t, idx, RunSkips(s, events, c), i)
  {
    if events == [] {
      idx, i, k := [], 0, 0;
    } else {
      var n := |events| - 1;
      var s := Start(chain[0].info, config);
      idx, i, k := OrderRun(chain, config, c, events[..n]);
      var t := Run(s, events[..n], c).0;
      idx, i, k := OrderEvent(chain, t, RunReads(s, events[..n], c), RunSkips(s, events[..n], c), idx, i, k, events[n],
                              c);
    }
  }

  /** In every run without resets: blocks are read in chain order and at most once; of the blocks up
      to the origin those are never read that the origin left before they were handed out, and no
      others; so all are read, or still to be, if and only if no advance left one like that. */
  lemma ReadOrSkipped(chain: seq<L1Block>, config: SystemConfig, c: Config, events: seq<Event>)
    requires Chain(chain) && NoResets(events) && HonestRun(chain, Start(chain[0].info, config), events, c)
    ensures var s := Start(chain[0].info, config);
            var t := Run(s, events, c).0;
            var skips := RunSkips(s, events, c);
            exists idx, i, k ::
              && Placed(chain, t, idx, i, k)
              && InOrder(chain, RunReads(s, events, c), idx)
              && Covered(chain, t, idx, skips, i)
              && (skips == [] <==> forall j: nat :: j <= i ==> j in idx || ToBeRead(t, chain[j].info))
  {
    var idx, i, k := OrderRun(chain, config, c, events);
    var s := Start(chain[0].info, config);
    var t := Run(s, events, c).0;
    var skips := RunSkips(s, events, c);
    if skips != [] {
      assert skips[0] in skips;
      var j: nat :| j < |chain| && chain[j].info == skips[0];
      assert j <= i && j !in idx && !ToBeRead(t, chain[j].info);
    } else {
      assert forall j: nat :: j < |chain| ==> chain[j].info !in skips;
    }
  }

  /** Where steps report Eof only at the end of a block, none is skipped. */
  lemma {:induction false} NoneSkipped(chain: seq<L1Block>, config: SystemConfig, c: Config, events: seq<Event>)
    requires Chain(chain) && NoResets(events) && HonestRun(chain, Start(chain[0].info, config), events, c)
    requires AllEofAtEnd(Start(chain[0].info, config), events, c)
    ensures RunSkips(Start(chain[0].info, config), events, c) == []
  {
    if events != [] {
      var n := |events| - 1;
      var s := Start(chain[0].info, config);
      NoneSkipped(chain, config, c, events[..n]);
      var i := TracksRun(chain, config, c, events[..n]);
      var (t, out) := Run(s, events[..n], c);
      if events[n].Step? {
        TracksPull(chain, config, c, t, out, i, events[n].answers);
      }
    }
  }

  /** Two steps in a row that report Eof without a call: the block between is never read. Here
      `chain[0]` is read to its end, and `chain[1]` is passed over with all its data. */
  lemma EarlyEofSkips(chain: seq<L1Block>, config: SystemConfig, c: Config)
    requires Chain(chain) && 2 < |chain| && !Stuck(chain, 0, c) && !Stuck(chain, 1, c)
    ensures var s := Start(chain[0].info, config);
            var data := BlockData(chain, config, 0, c);
            var events := [Step(AnswerAll(chain[0].txs, |data| + 1), false, NO_ANSWER),
                           Step([], true, AdvanceTo(chain[1])), Step([], true, AdvanceTo(chain[2]))];
            && RunDoes(chain, s, events, c, Start(chain[2].info, ConfigAt(chain, config, 2, c)), data)
            && !AllEofAtEnd(s, events, c)
  {
    var s := Start(chain[0].info, config);
    var data := BlockData(chain, config, 0, c);
    assert data + [] + [] == data;
    var e0 := Step(AnswerAll(chain[0].txs, |data| + 1), false, NO_ANSWER);
    var e1, e2 := Step([], true, AdvanceTo(chain[1])), Step([], true, AdvanceTo(chain[2]));
    var t, u := s.(done := true), Start(chain[1].info, ConfigAt(chain, config, 1, c));
    DrainFresh(s, chain[0].txs, c);
    HonestAnswers(chain, 0, s, |data| + 1, c);
    assert Does(chain, s, e0, c, t, data);
    AdvanceWithoutCall(chain, 0, c, t);
    AdvanceWithoutCall(chain, 1, c, u);
    ThreeSteps(chain, s, e0, e1, e2, c, t, data, u, [], Start(chain[2].info, ConfigAt(chain, config, 2, c)), []);
  }

  lemma AdvanceWithoutCall(chain: seq<L1Block>, k: nat, c: Config, s: Stages)
    requires Chain(chain) && k + 1 < |chain| && !Stuck(chain, k, c) && s.block == Some(chain[k].info)
    ensures var e := Step([], true, AdvanceTo(chain[k + 1]));
            var config := ApplyReceipts(s.config, chain[k + 1].receipts, c.rules).0;
            && !EofAtEnd(s, e, c)
            && Does(chain, s, e, c, s.(block := Some(chain[k + 1].info), done := false, config := config), [])
  {
    AdvanceMoves(chain, k, c, s);
  }

  // ---- Under which batcher a block is read ---------------------------------

  /** The logs of the blocks after `j` up to `o`, all of which were applied. */
  function LogsBetween(chain: seq<L1Block>, j: nat, o: nat): seq<Log>
    requires j <= o < |chain|
  {
    if j == o then [] else LogsBetween(chain, j, o - 1) + LogsOf(chain[o].receipts)
  }

  /** The updates applied between the hand-out of block `j` and a moment with block `o` as origin:
      those of the blocks after `j` up to `o`, and what an advance that failed on the next block's
      receipts applied before it did. */
  function UpdatesBetween(chain: seq<L1Block>, j: nat, o: nat, tried: bool, c: Config): seq<Log>
    requires j <= o < |chain|
  {
    LogsBetween(chain, j, o)
    + if tried && o + 1 < |chain| then Applied(LogsOf(chain[o + 1].receipts), c.rules) else []
  }

  ghost predicate UnderBatcher(chain: seq<L1Block>, config: SystemConfig, c: Config, batcher: Address,
                               j: nat, o: nat, tried: bool)
  {
    && j <= o < |chain| && (tried ==> Stuck(chain, o, c))
    && batcher == OrElse(LastBatcher(UpdatesBetween(chain, j, o, tried, c), c.rules),
                         ConfigAt(chain, config, j, c).batcher)
  }

  /** No block up to `i` carries a malformed update, and the config is that of block `i`, or that with
      what a failed advance applied on top. */
  ghost predicate InForce(chain: seq<L1Block>, config: SystemConfig, c: Config, s: Stages, i: nat, tried: bool) {
    && i < |chain| && s.block == Some(chain[i].info)
    && (forall k: nat :: k < i ==> !Stuck(chain, k, c))
    && UnderBatcher(chain, config, c, s.config.batcher, i, i, tried)
  }

  lemma {:induction false} BetweenBatcher(chain: seq<L1Block>, config: SystemConfig, c: Config, j: nat, o: nat)
    requires j <= o < |chain| && forall k: nat :: k < o ==> !Stuck(chain, k, c)
    ensures ConfigAt(chain, config, o, c).batcher
            == OrElse(LastBatcher(LogsBetween(chain, j, o), c.rules), ConfigAt(chain, config, j, c).batcher)
  {
    if j < o {
      BetweenBatcher(chain, config, c, j, o - 1);
      assert !Stuck(chain, o - 1, c);
      ApplyReceiptsMeaning(ConfigAt(chain, config, o - 1, c), chain[o].receipts, c.rules);
      LastBatcherAppend(LogsBetween(chain, j, o - 1), LogsOf(chain[o].receipts), c.rules);
    }
  }

  /** What is in force at origin `i`, as seen from an earlier block. */
  lemma InForceFrom(chain: seq<L1Block>, config: SystemConfig, c: Config, s: Stages, i: nat, tried: bool, j: nat)
    requires InForce(chain, config, c, s, i, tried) && j <= i
    ensures UnderBatcher(chain, config, c, s.config.batcher, j, i, tried)
  {
    BetweenBatcher(chain, config, c, j, i);
    var tail := if tried && i + 1 < |chain| then Applied(LogsOf(chain[i + 1].receipts), c.rules) else [];
    LastBatcherAppend(LogsBetween(chain, j, i), tail, c.rules);
    assert LogsBetween(chain, i, i) + tail == tail;
  }

  lemma InForceAdvance(chain: seq<L1Block>, config: SystemConfig, c: Config, s: Stages, i: nat, tried: bool,
                       a: AdvanceAnswer)
    returns (i': nat, tried': bool)
    requires InForce(chain, config, c, s, i, tried) && HonestAdvance(chain, s.block, a)
    ensures InForce(chain, config, c, AdvanceOrigin(s, a, c).0, i', tried') && i <= i'
    ensures AdvanceOrigin(s, a, c).1.Ok? <==> i' == i + 1
    ensures !AdvanceOrigin(s, a, c).1.Ok? ==> i' == i
  {
    i', tried' := i, tried;
    if a.block.Some? && a.receipts.Some? && a.block.value.parentHash == s.block.value.hash {
      var logs := LogsOf(chain[i + 1].receipts);
      ApplyReceiptsMeaning(s.config, chain[i + 1].receipts, c.rules);
      ReceiptsBatcher(s.config, chain[i + 1].receipts, c.rules);
      assert LogsBetween(chain, i, i) + [] == [] && [] + Applied(logs, c.rules) == Applied(logs, c.rules);
      if AdvanceOrigin(s, a, c).1.Ok? {
        i', tried' := i + 1, false;
        ApplyReceiptsMeaning(ConfigAt(chain, config, i, c), chain[i + 1].receipts, c.rules);
        assert LogsBetween(chain, i + 1, i + 1) + [] == [];
      } else {
        tried' := true;
      }
    }
  }

  /** A read of some block at an origin not before it, under the batcher that the updates in between
      leave; which is that block's own if and only if they leave none or the same. */
  ghost predicate ReadUnder(chain: seq<L1Block>, config: SystemConfig, c: Config, r: Read, j: nat, o: nat,
                            tried: bool)
  {
    && UnderBatcher(chain, config, c, r.batcher, j, o, tried)
    && r.block == chain[j].info && r.origin == Some(chain[o].info)
    && (r.batcher == ConfigAt(chain, config, j, c).batcher
        <==> LastBatcher(UpdatesBetween(chain, j, o, tried, c), c.rules)
             in {None, Some(ConfigAt(chain, config, j, c).batcher)})
  }

  ghost predicate AllUnder(chain: seq<L1Block>, config: SystemConfig, c: Config, taken: seq<Read>) {
    forall r :: r in taken ==> exists j, o, tried :: ReadUnder(chain, config, c, r, j, o, tried)
  }

  /** The retrieval stage's block is not beyond the origin. */
  predicate Behind(chain: seq<L1Block>, s: Stages, i: nat) {
    s.next.Some? ==> exists k: nat :: k <= i && k < |chain| && s.next == Some(chain[k].info)
  }

  lemma PullKeepsBlock(s: Stages, answer: Option<seq<L1Tx>>, c: Config)
    ensures var t := NextData(s, answer, c).0;
            t.block == s.block && t.config == s.config && (t.next.None? || t.next == TakenOver(s))
  {}

  lemma UnderOne(chain: seq<L1Block>, config: SystemConfig, c: Config, s: Stages, i: nat, tried: bool,
                 answer: Option<seq<L1Tx>>)
    requires InForce(chain, config, c, s, i, tried) && Behind(chain, s, i)
    ensures InForce(chain, config, c, NextData(s, answer, c).0, i, tried) && Behind(chain, NextData(s, answer, c).0, i)
    ensures AllUnder(chain, config, c, ReadsOf(s, answer))
  {
    PullKeepsBlock(s, answer, c);
    if ReadsOf(s, answer) != [] {
      var k := TakenOverIs(chain, s, i);
      BlockUnder(chain, config, c, s, i, tried, k, ReadsOf(s, answer)[0]);
    }
  }

  lemma TakenOverIs(chain: seq<L1Block>, s: Stages, i: nat) returns (k: nat)
    requires i < |chain| && s.block == Some(chain[i].info) && Behind(chain, s, i) && TakenOver(s).Some?
    ensures k <= i && TakenOver(s) == Some(chain[k].info)
  {
    if s.next.Some? { k :| k <= i && k < |chain| && s.next == Some(chain[k].info); } else { k := i; }
  }

  lemma BlockUnder(chain: seq<L1Block>, config: SystemConfig, c: Config, s: Stages, i: nat, tried: bool, k: nat,
                   r: Read)
    requires InForce(chain, config, c, s, i, tried) && k <= i
    requires r.block == chain[k].info && r.origin == s.block && r.batcher == s.config.batcher
    ensures ReadUnder(chain, config, c, r, k, i, tried)
  {
    InForceFrom(chain, config, c, s, i, tried, k);
  }

  lemma {:induction false} UnderPull(chain: seq<L1Block>, config: SystemConfig, c: Config, s: Stages, i: nat,
                                     tried: bool, answers: seq<Option<seq<L1Tx>>>)
    requires InForce(chain, config, c, s, i, tried) && Behind(chain, s, i)
    ensures InForce(chain, config, c, Pull(s, answers, c).0, i, tried) && Behind(chain, Pull(s, answers, c).0, i)
    ensures AllUnder(chain, config, c, PullReads(s, answers, c))
  {
    if answers != [] {
      var n := |answers| - 1;
      UnderPull(chain, config, c, s, i, tried, answers[..n]);
      UnderOne(chain, config, c, Pull(s, answers[..n], c).0, i, tried, answers[n]);
    }
  }

  lemma UnderStep(chain: seq<L1Block>, config: SystemConfig, c: Config, s: Stages, i: nat, tried: bool, e: Event)
    returns (i': nat, tried': bool)
    requires InForce(chain, config, c, s, i, tried) && Behind(chain, s, i)
    requires HonestEvent(chain, s, e, c) && !e.ResetTo?
    ensures InForce(chain, config, c, Stepped(s, e, c).0, i', tried') && Behind(chain, Stepped(s, e, c).0, i')
    ensures AllUnder(chain, config, c, StepReads(s, e, c))
  {
    i', tried' := i, tried;
    if e.Step? {
      UnderPull(chain, config, c, s, i, tried, e.answers);
      if e.eof {
        i', tried' := InForceAdvance(chain, config, c, Pull(s, e.answers, c).0, i, tried, e.advance);
      }
    }
  }

  lemma {:induction false} UnderRun(chain: seq<L1Block>, config: SystemConfig, c: Config, events: seq<Event>)
    returns (i: nat, tried: bool)
    requires Chain(chain) && NoResets(events) && HonestRun(chain, Start(chain[0].info, config), events, c)
    ensures var s := Start(chain[0].info, config);
            var t := Run(s, events, c).0;
            && InForce(chain, config, c, t, i, tried) && Behind(chain, t, i)
            && AllUnder(chain, config, c, RunReads(s, events, c))
  {
    var s := Start(chain[0].info, config);
    if events == [] {
      i, tried := 0, false;
      assert LogsBetween(chain, 0, 0) + [] == [];
    } else {
      var n := |events| - 1;
      i, tried := UnderRun(chain, config, c, events[..n]);
      i, tried := UnderStep(chain, config, c, Run(s, events[..n], c).0, i, tried, events[n]);
    }
  }

  /** In every run without resets each read is of some block at an origin not before it, under the
      batcher left by the updates applied between that block's hand-out and the read. So it is the
      block's own batcher if and only if no update lies between, or the last of them sets the same. */
  lemma ReadUnderBatcher(chain: seq<L1Block>, config: SystemConfig, c: Config, events: seq<Event>, r: Read)
    returns (j: nat, o: nat, tried: bool)
    requires Chain(chain) && NoResets(events) && HonestRun(chain, Start(chain[0].info, config), events, c)
    requires r in RunReads(Start(chain[0].info, config), events, c)
    ensures ReadUnder(chain, config, c, r, j, o, tried)
  {
    var i, t := UnderRun(chain, config, c, events);
    j, o, tried :| ReadUnder(chain, config, c, r, j, o, tried);
  }
}
