/** The mutable stages, each method proved against the value-level step of module Pipeline. */
module PipelineStages {
  import opened Bytes
  import opened Blocks
  import opened PipelineErrors
  import opened SystemConfig
  import opened Pipeline

  /** `L1Traversal` */
  class L1Traversal {
    const config: Config
    var block: Option<BlockInfo>
    var done: bool
    var systemConfig: SystemConfig

    constructor (config: Config, block: Option<BlockInfo>, systemConfig: SystemConfig)
      ensures this.config == config && this.block == block && !done && this.systemConfig == systemConfig
    {
      this.config, this.block, this.systemConfig := config, block, systemConfig;
      done := false;
    }

    method NextL1Block() returns (r: Result<Option<BlockInfo>, PipelineErrorKind>)
      modifies `done
      ensures done
      ensures r == if old(done) then Err(Temporary(Eof)) else Ok(block)
    {
      if !done {
        done := true;
        return Ok(block);
      } else {
        return Err(Temporary(Eof));
      }
    }

    method AdvanceOrigin(answer: AdvanceAnswer) returns (r: Result<(), PipelineErrorKind>)
      modifies this
      ensures forall next, open, calldata ::
                var s := Stages(old(block), old(done), old(systemConfig), next, open, calldata);
                Pipeline.AdvanceOrigin(s, answer, config)
                  == (Stages(block, done, systemConfig, next, open, calldata), r)
    {
      if block.None? { return Err(Temporary(Eof)); }
      if answer.block.None? { return Err(Temporary(Provider)); }
      var nextL1Origin := answer.block.value;
      if block.value.hash != nextL1Origin.parentHash { return Err(Reset(ReorgDetected)); }
      if answer.receipts.None? { return Err(Temporary(Provider)); }
      var ok;
      systemConfig, ok := UpdateWithReceipts(systemConfig, answer.receipts.value, config.rules);
      if !ok { return Err(Critical(PipelineError.SystemConfigUpdate)); }
      block := Some(nextL1Origin);
      done := false;
      return Ok(());
    }

    method Signal(origin: BlockInfo, systemConfig: SystemConfig)
      modifies this
      ensures block == Some(origin) && !done && this.systemConfig == systemConfig
    {
      block := Some(origin);
      done := false;
      this.systemConfig := systemConfig;
    }
  }

  /** `CalldataSource` */
  class CalldataSource {
    const batchInbox: Address
    var calldata: seq<bytes>
    var open: bool

    constructor (batchInbox: Address)
      ensures this.batchInbox == batchInbox && calldata == [] && !open
    {
      this.batchInbox := batchInbox;
      calldata, open := [], false;
    }

    /** `load_calldata`: filter the block's transactions, once. */
    method LoadCalldata(txs: Option<seq<L1Tx>>, batcher: Address) returns (r: Result<(), PipelineErrorKind>)
      modifies this
      ensures old(open) ==> open && calldata == old(calldata) && r == Ok(())
      ensures !old(open) && txs.None? ==> !open && calldata == old(calldata) && r == Err(Temporary(Provider))
      ensures !old(open) && txs.Some? ==> open && calldata == Inbox(txs.value, batchInbox, batcher) && r == Ok(())
      ensures !old(open) && txs.Some? ==> exists idx :: SentToInbox(txs.value, batchInbox, batcher, calldata, idx)
    {
      if open { return Ok(()); }
      if txs.None? { return Err(Temporary(Provider)); }
      var found: seq<bytes> := [];
      var i := 0;
      while i < |txs.value|
        invariant 0 <= i <= |txs.value|
        invariant found + Inbox(txs.value[i..], batchInbox, batcher) == Inbox(txs.value, batchInbox, batcher)
      {
        var tx := txs.value[i];
        assert txs.value[i..][0] == tx && txs.value[i..][1..] == txs.value[i + 1..];
        if tx.to == Some(batchInbox) && tx.from == batcher { found := found + [tx.input]; }
        i := i + 1;
      }
      ghost var idx := InboxExactly(txs.value, batchInbox, batcher);
      calldata := found;
      open := true;
      return Ok(());
    }

    method Next(txs: Option<seq<L1Tx>>, batcher: Address) returns (r: Result<bytes, PipelineErrorKind>)
      modifies this
      ensures !old(open) && txs.None? ==> !open && calldata == old(calldata) && r == Err(Temporary(Provider))
      ensures old(open) || txs.Some? ==>
                var all := if old(open) then old(calldata) else Inbox(txs.value, batchInbox, batcher);
                && open
                && (all == [] ==> calldata == [] && r == Err(Temporary(Eof)))
                && (all != [] ==> calldata == all[1..] && r == Ok(all[0]))
    {
      var loaded := LoadCalldata(txs, batcher);
      if loaded.Err? { return Err(loaded.error); }
      if calldata == [] { return Err(Temporary(Eof)); }
      r := Ok(calldata[0]);
      calldata := calldata[1..];
    }

    method Clear()
      modifies this
      ensures calldata == [] && !open
    {
      calldata, open := [], false;
    }
  }

  /** `L1Retrieval` over a calldata source */
  class L1Retrieval {
    const prev: L1Traversal
    const provider: CalldataSource
    var next: Option<BlockInfo>

    constructor (prev: L1Traversal, provider: CalldataSource)
      ensures this.prev == prev && this.provider == provider && next == None
    {
      this.prev, this.provider, next := prev, provider, None;
    }

    ghost predicate Wired() { provider.batchInbox == prev.config.batchInbox }

    ghost function View(): Stages
      reads this, prev, provider
    {
      Stages(prev.block, prev.done, prev.systemConfig, next, provider.open, provider.calldata)
    }

    method NextData(answer: Option<seq<L1Tx>>) returns (r: Result<bytes, PipelineErrorKind>)
      requires Wired()
      modifies this, prev`done, provider
      ensures (View(), r) == Pipeline.NextData(old(View()), answer, prev.config)
    {
      if next.None? {
        var b := prev.NextL1Block();
        if b.Err? { return Err(b.error); }
        if b.value.None? { return Err(Temporary(MissingL1Data)); }
        next := b.value;
      }
      r := provider.Next(answer, prev.systemConfig.batcher);
      if r == Err(Temporary(Eof)) {
        next := None;
        provider.Clear();
      }
    }

    /** Reset and Activation; FlushChannel does not reach this stage's state. */
    method Signal(origin: BlockInfo, systemConfig: SystemConfig)
      modifies this, prev
      ensures View() == Resetted(old(View()), origin, systemConfig)
    {
      prev.Signal(origin, systemConfig);
      next := Some(origin);
    }
  }

  datatype StepResult =
    | PreparedAttributes
    | AdvancedOrigin
    | OriginAdvanceErr(error: PipelineErrorKind)
    | StepFailed(error: PipelineErrorKind)

  /** `DerivationPipeline`, with the stages in between reduced to their calls of `next_data` and what they
      answer above. `delivered` records what those calls returned. */
  class DerivationPipeline<A> {
    const retrieval: L1Retrieval
    var delivered: seq<bytes>
    var prepared: seq<A>

    constructor (retrieval: L1Retrieval)
      ensures this.retrieval == retrieval && delivered == [] && prepared == []
    {
      this.retrieval, delivered, prepared := retrieval, [], [];
    }

    /** `next_attributes`: the stages in between call `next_data`, and what they then return is `above`. */
    method NextAttributes(answers: seq<Option<seq<L1Tx>>>, above: Result<A, PipelineErrorKind>)
      returns (r: Result<A, PipelineErrorKind>)
      requires retrieval.Wired()
      modifies `delivered, retrieval, retrieval.prev`done, retrieval.provider
      ensures var (t, out, _) := Pull(old(retrieval.View()), answers, retrieval.prev.config);
              retrieval.View() == t && delivered == old(delivered) + out
      ensures r == above
    {
      var i := 0;
      assert delivered == old(delivered) + [];
      while i < |answers|
        invariant 0 <= i <= |answers|
        invariant var (t, out, _) := Pull(old(retrieval.View()), answers[..i], retrieval.prev.config);
                  retrieval.View() == t && delivered == old(delivered) + out
      {
        assert answers[..i + 1][..i] == answers[..i];
        var d := retrieval.NextData(answers[i]);
        if d.Ok? { delivered := delivered + [d.value]; }
        i := i + 1;
      }
      assert answers[..i] == answers;
      return above;
    }

    /** `step` */
    method Step(answers: seq<Option<seq<L1Tx>>>, above: Result<A, PipelineErrorKind>, advance: AdvanceAnswer)
      returns (r: StepResult)
      requires retrieval.Wired()
      modifies this, retrieval, retrieval.prev, retrieval.provider
      ensures var eof := above.Err? && above.error == Temporary(Eof);
              var (t, out) := Stepped(old(retrieval.View()), Event.Step(answers, eof, advance), retrieval.prev.config);
              retrieval.View() == t && delivered == old(delivered) + out
      ensures prepared == old(prepared) + (if above.Ok? then [above.value] else [])
      ensures above.Ok? ==> r == PreparedAttributes
      ensures above.Err? && above.error != Temporary(Eof) ==> r == StepFailed(above.error)
      ensures above.Err? && above.error == Temporary(Eof) ==>
                var t := Pull(old(retrieval.View()), answers, retrieval.prev.config).0;
                var advanced := AdvanceOrigin(t, advance, retrieval.prev.config).1;
                r == if advanced.Ok? then AdvancedOrigin else OriginAdvanceErr(advanced.error)
    {
      assert prepared + [] == prepared;
      var attributes := NextAttributes(answers, above);
      if attributes.Ok? {
        prepared := prepared + [attributes.value];
        return PreparedAttributes;
      }
      if attributes.error == Temporary(Eof) {
        var a := retrieval.prev.AdvanceOrigin(advance);
        if a.Err? { return OriginAdvanceErr(a.error); }
        return AdvancedOrigin;
      }
      return StepFailed(attributes.error);
    }

    /** `signal`, Reset and Activation: the stages are reset to the system config of the safe head, if the
        provider has it; prepared attributes are kept. */
    method Signal(origin: BlockInfo, systemConfig: Option<SystemConfig>) returns (r: Result<(), PipelineErrorKind>)
      modifies retrieval, retrieval.prev
      ensures systemConfig.None? ==> r == Err(Temporary(Provider)) && retrieval.View() == old(retrieval.View())
      ensures systemConfig.Some? ==>
                && r == Ok(())
                && (retrieval.View(), []) == Stepped(old(retrieval.View()), ResetTo(origin, systemConfig.value),
                                                     retrieval.prev.config)
    {
      if systemConfig.None? { return Err(Temporary(Provider)); }
      retrieval.Signal(origin, systemConfig.value);
      return Ok(());
    }

    /** `Iterator::next`: prepared attributes leave in the order they were prepared. */
    method Next() returns (a: Option<A>)
      modifies `prepared
      ensures old(prepared) == [] ==> a == None && prepared == []
      ensures old(prepared) != [] ==> a.Some? && [a.value] + prepared == old(prepared)
    {
      if prepared == [] { return None; }
      a := Some(prepared[0]);
      prepared := prepared[1..];
    }
  }
}
