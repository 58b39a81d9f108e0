/** What a Reset or Activation does to exactly-once delivery.

    The retrieval stage takes the reset origin over while the traversal stage keeps it to hand out,
    and the data source is left as it is (`stages/l1_retrieval.rs:126-136`,
    `stages/l1_traversal.rs:121-140`). So the first block end after a reset may be that of stale
    data, and whether the origin is read after it depends on the advance that step makes there. */
module PipelineReset {
  import opened Bytes
  import opened Blocks
  import opened PipelineErrors
  import opened SystemConfig
  import opened Pipeline

  /** How far the first reading after a reset has come: still going on; ended, with the origin
      advanced to its child under `config`; or ended with the origin still in place, to be read
      under `config`. */
  datatype FirstReading = Ongoing | Passed(config: SystemConfig) | Repeated(config: SystemConfig)

  /** Some call of the pull ended in Eof. */
  predicate Ended(s: Stages, answers: seq<Option<seq<L1Tx>>>, c: Config) {
    answers != [] && (Ended(s, answers[..|answers| - 1], c) || Pull(s, answers, c).2)
  }

  /** How an event leaves a first reading that was going on. The advance counts only if the step
      makes it right at the first Eof. */
  function ReadingAfter(s: Stages, e: Event, c: Config): FirstReading {
    match e
    case FlushChannel => Ongoing
    case ResetTo(_, _) => Ongoing
    case Step(answers, eof, advance) =>
      if !Ended(s, answers, c) then Ongoing
      else if !eof || Ended(s, answers[..|answers| - 1], c) then Repeated(s.config)
      else
        var (t, r) := AdvanceOrigin(Pull(s, answers, c).0, advance, c);
        if r.Ok? then Passed(t.config) else Repeated(t.config)
  }

  function Reading(s: Stages, events: seq<Event>, c: Config): FirstReading {
    if events == [] then Ongoing
    else
      var n := |events| - 1;
      var r := Reading(s, events[..n], c);
      if r.Ongoing? then ReadingAfter(Run(s, events[..n], c).0, events[n], c) else r
  }

  /** What the first reading delivers: what an open source still buffers, or the origin's data. */
  function First(s: Stages, origin: L1Block, config: SystemConfig, c: Config): seq<bytes> {
    if s.open then s.calldata else Inbox(origin.txs, c.batchInbox, config.batcher)
  }

  // ---- The run law ---------------------------------------------------------

  /** The first reading is going on. */
  ghost predicate Held(origin: BlockInfo, config: SystemConfig, data: seq<bytes>, first: seq<bytes>,
                       s: Stages, out: seq<bytes>)
  {
    && s.block == s.next == Some(origin) && !s.done && s.config == config
    && (if s.open then out + s.calldata == first else out == [] && first == data)
  }

  ghost predicate Invariant(chain: seq<L1Block>, config: SystemConfig, c: Config, first: seq<bytes>,
                            reading: FirstReading, s: Stages, out: seq<bytes>, rest: seq<bytes>, i: nat)
  {
    && chain != []
    && match reading
       case Ongoing => Held(chain[0].info, config, BlockData(chain, config, 0, c), first, s, out)
       case Passed(next) =>
         && 1 < |chain| && next == ConfigAt(chain, config, 1, c)
         && out == first + rest && Tracks(chain[1..], next, c, s, rest, i)
       case Repeated(again) =>
         && (again == config || (Stuck(chain, 0, c) && i == 0))
         && out == first + rest && Tracks(chain, again, c, s, rest, i)
  }

  lemma HeldPull1(chain: seq<L1Block>, config: SystemConfig, c: Config, first: seq<bytes>,
                  s: Stages, out: seq<bytes>, answer: Option<seq<L1Tx>>)
    requires chain != [] && HonestTxs(chain, Asked(s), answer)
    requires Held(chain[0].info, config, BlockData(chain, config, 0, c), first, s, out)
    ensures var (t, r) := NextData(s, answer, c);
            if r == Err(Temporary(Eof)) then t == Start(chain[0].info, config) && out == first
            else Held(chain[0].info, config, BlockData(chain, config, 0, c), first, t, out
                      + (if r.Ok? then [r.value] else []))
  {
    assert out + [] == out;
    var (t, r) := NextData(s, answer, c);
    if r.Ok? {
      var all := if s.open then s.calldata else first;
      assert all == [r.value] + t.calldata;
      assert out + all == (out + [r.value]) + t.calldata;
    }
  }

  lemma StartTracks(chain: seq<L1Block>, config: SystemConfig, c: Config)
    requires chain != []
    ensures Tracks(chain, config, c, Start(chain[0].info, config), [], 0)
  {}

  /** A pull from a first reading: still reading; or at its end, with the stages those of a new
      origin; or some calls beyond that, which delivered `rest`. */
  ghost predicate Pulled(chain: seq<L1Block>, config: SystemConfig, c: Config, first: seq<bytes>,
                         s: Stages, out: seq<bytes>, answers: seq<Option<seq<L1Tx>>>, rest: seq<bytes>)
    requires chain != []
  {
    var (t, more, eof) := Pull(s, answers, c);
    if !Ended(s, answers, c) then
      !eof && Held(chain[0].info, config, BlockData(chain, config, 0, c), first, t, out + more)
    else if !Ended(s, answers[..|answers| - 1], c) then
      t == Start(chain[0].info, config) && out + more == first && rest == []
    else
      out + more == first + rest && Tracks(chain, config, c, t, rest, 0) && (eof ==> Drained(t))
  }

  lemma PulledOn(chain: seq<L1Block>, config: SystemConfig, c: Config, first: seq<bytes>,
                 s: Stages, out: seq<bytes>, answers: seq<Option<seq<L1Tx>>>, before: seq<bytes>)
    returns (rest: seq<bytes>)
    requires chain != [] && answers != [] && HonestPull(chain, s, answers, c)
    requires Ended(s, answers[..|answers| - 1], c)
    requires Pulled(chain, config, c, first, s, out, answers[..|answers| - 1], before)
    ensures Pulled(chain, config, c, first, s, out, answers, rest)
  {
    var n := |answers| - 1;
    var p := Pull(s, answers[..n], c);
    StartTracks(chain, config, c);
    assert out + p.1 == first + before by { assert first + [] == first; }
    TracksPull1(chain, config, c, p.0, before, 0, answers[n]);
    PullSnoc(s, answers, c, out);
    var r := NextData(p.0, answers[n], c).1;
    rest := before + (if r.Ok? then [r.value] else []);
    assert (first + before) + (if r.Ok? then [r.value] else []) == first + rest;
  }

  lemma {:induction false} HeldPull(chain: seq<L1Block>, config: SystemConfig, c: Config, first: seq<bytes>,
                                    s: Stages, out: seq<bytes>, answers: seq<Option<seq<L1Tx>>>)
    returns (rest: seq<bytes>)
    requires chain != [] && HonestPull(chain, s, answers, c)
    requires Held(chain[0].info, config, BlockData(chain, config, 0, c), first, s, out)
    ensures Pulled(chain, config, c, first, s, out, answers, rest)
  {
    rest := [];
    if answers == [] {
      assert out + [] == out;
    } else {
      var n := |answers| - 1;
      var before := HeldPull(chain, config, c, first, s, out, answers[..n]);
      if Ended(s, answers[..n], c) {
        rest := PulledOn(chain, config, c, first, s, out, answers, before);
      } else {
        var p := Pull(s, answers[..n], c);
        PullSnoc(s, answers, c, out);
        HeldPull1(chain, config, c, first, p.0, out + p.1, answers[n]);
        assert (out + p.1) + [] == out + p.1;
      }
    }
  }

  lemma HeldStep(chain: seq<L1Block>, config: SystemConfig, c: Config, first: seq<bytes>, s: Stages, out: seq<bytes>,
                 e: Event)
    returns (rest: seq<bytes>, i: nat)
    requires chain != [] && e.Step? && HonestEvent(chain, s, e, c) && EofAtEnd(s, e, c)
    requires Held(chain[0].info, config, BlockData(chain, config, 0, c), first, s, out)
    ensures var (t, more) := Stepped(s, e, c);
            Invariant(chain, config, c, first, ReadingAfter(s, e, c), t, out + more, rest, i)
  {
    rest := HeldPull(chain, config, c, first, s, out, e.answers);
    i := 0;
    StartTracks(chain, config, c);
    assert first + [] == first;
    var (t, more, _) := Pull(s, e.answers, c);
    if Ended(s, e.answers, c) && e.eof {
      var (u, r) := AdvanceOrigin(t, e.advance, c);
      if Ended(s, e.answers[..|e.answers| - 1], c) {
        TracksAdvance(chain, config, c, t, rest, 0, e.advance);
        if r.Ok? { i := 1; }
      } else if r.Ok? {
        assert u == Start(chain[1].info, ConfigAt(chain, config, 1, c));
        StartTracks(chain[1..], u.config, c);
      } else {
        assert u == Start(chain[0].info, u.config);
        StartTracks(chain, u.config, c);
        if u.config != config {
          ApplyReceiptsMeaning(config, chain[1].receipts, c.rules);
        }
      }
    }
  }

  lemma {:induction false} HonestPullSuffix(chain: seq<L1Block>, k: nat, s: Stages, answers: seq<Option<seq<L1Tx>>>,
                                            c: Config)
    requires k <= |chain| && HonestPull(chain, s, answers, c)
    ensures HonestPull(chain[k..], s, answers, c)
  {
    if answers != [] {
      HonestPullSuffix(chain, k, s, answers[..|answers| - 1], c);
    }
  }

  /** What is honest about a chain is honest about its end. */
  lemma HonestSuffix(chain: seq<L1Block>, k: nat, s: Stages, e: Event, c: Config)
    requires k <= |chain| && HonestEvent(chain, s, e, c)
    ensures HonestEvent(chain[k..], s, e, c)
  {
    if e.Step? {
      HonestPullSuffix(chain, k, s, e.answers, c);
      var parent := Pull(s, e.answers, c).0.block;
      assert forall i :: 0 <= i < |chain[k..]| ==> chain[k..][i] == chain[k + i];
      assert HonestAdvance(chain[k..], parent, e.advance);
    }
  }

  lemma InvariantEvent(chain: seq<L1Block>, config: SystemConfig, c: Config, first: seq<bytes>, reading: FirstReading,
                       s: Stages, out: seq<bytes>, rest: seq<bytes>, i: nat, e: Event)
    returns (rest': seq<bytes>, i': nat)
    requires Invariant(chain, config, c, first, reading, s, out, rest, i)
    requires HonestEvent(chain, s, e, c) && EofAtEnd(s, e, c) && !e.ResetTo?
    ensures var (t, more) := Stepped(s, e, c);
            var reading' := if reading.Ongoing? then ReadingAfter(s, e, c) else reading;
            Invariant(chain, config, c, first, reading', t, out + more, rest', i')
  {
    var (t, more) := Stepped(s, e, c);
    rest', i' := rest + more, i;
    assert (first + rest) + more == first + rest';
    match reading
    case Ongoing =>
      if e.Step? {
        rest', i' := HeldStep(chain, config, c, first, s, out, e);
      } else {
        assert out + [] == out;
      }
    case Passed(next) =>
      HonestSuffix(chain, 1, s, e, c);
      i' := TracksEvent(chain[1..], next, c, s, rest, i, e);
    case Repeated(again) =>
      i' := TracksEvent(chain, again, c, s, rest, i, e);
  }

  lemma {:induction false} InvariantRun(chain: seq<L1Block>, config: SystemConfig, c: Config, s: Stages,
                                        events: seq<Event>)
    returns (rest: seq<bytes>, i: nat)
    requires chain != [] && NoResets(events)
    requires HonestRun(chain, Resetted(s, chain[0].info, config), events, c)
    requires AllEofAtEnd(Resetted(s, chain[0].info, config), events, c)
    ensures var r := Resetted(s, chain[0].info, config);
            var (t, out) := Run(r, events, c);
            Invariant(chain, config, c, First(s, chain[0], config, c), Reading(r, events, c), t, out, rest, i)
  {
    if events == [] {
      rest, i := [], 0;
    } else {
      var n := |events| - 1;
      rest, i := InvariantRun(chain, config, c, s, events[..n]);
      var r := Resetted(s, chain[0].info, config);
      var (t, out) := Run(r, events[..n], c);
      rest, i := InvariantEvent(chain, config, c, First(s, chain[0], config, c), Reading(r, events[..n], c), t, out,
                                rest, i, events[n]);
    }
  }

  /** What has been delivered since the reset, by how the first reading went. */
  ghost predicate Outcome(chain: seq<L1Block>, config: SystemConfig, c: Config, first: seq<bytes>,
                          reading: FirstReading, s: Stages, out: seq<bytes>)
  {
    && chain != []
    && match reading
       case Ongoing => s.block == Some(chain[0].info) && !Drained(s) && out <= first
       case Passed(next) =>
         && 1 < |chain| && next == ConfigAt(chain, config, 1, c) && first <= out
         && exists i :: DeliveredUpTo(chain[1..], next, c, s, out[|first|..], i)
       case Repeated(again) =>
         && first <= out
         && exists i :: DeliveredUpTo(chain, again, c, s, out[|first|..], i)
                        && (again == config || (Stuck(chain, 0, c) && i == 0))
  }

  /** The main result: in every run after a reset the queue is handed first what an open source had
      left, or else the origin's data; and then what the blocks from the child on contribute, if the
      origin is advanced when that ends, or what the blocks from the origin on contribute, if not. */
  lemma ResetRun(chain: seq<L1Block>, config: SystemConfig, c: Config, s: Stages, events: seq<Event>)
    requires chain != [] && NoResets(events)
    requires HonestRun(chain, Resetted(s, chain[0].info, config), events, c)
    requires AllEofAtEnd(Resetted(s, chain[0].info, config), events, c)
    ensures var r := Resetted(s, chain[0].info, config);
            var (t, out) := Run(r, events, c);
            Outcome(chain, config, c, First(s, chain[0], config, c), Reading(r, events, c), t, out)
  {
    var r := Resetted(s, chain[0].info, config);
    var (t, out) := Run(r, events, c);
    var first := First(s, chain[0], config, c);
    var rest, i := InvariantRun(chain, config, c, s, events);
    match Reading(r, events, c)
    case Ongoing =>
    case Passed(next) =>
      assert out[|first|..] == rest;
      TracksDelivers(chain[1..], next, c, t, rest, i);
    case Repeated(again) =>
      assert out[|first|..] == rest;
      TracksDelivers(chain, again, c, t, rest, i);
  }

  lemma {:induction false} RunAppend(s: Stages, a: seq<Event>, b: seq<Event>, c: Config)
    ensures var (t, out) := Run(s, a, c);
            var (u, more) := Run(t, b, c);
            Run(s, a + b, c) == (u, out + more)
  {
    var (t, out) := Run(s, a, c);
    if b == [] {
      assert a + b == a && out + [] == out;
    } else {
      var n := |b| - 1;
      RunAppend(s, a, b[..n], c);
      assert (a + b)[..|a + b| - 1] == a + b[..n];
      var (u, more) := Run(t, b[..n], c);
      var last := Stepped(u, b[n], c).1;
      assert (out + more) + last == out + (more + last);
    }
  }

  lemma {:induction false} HonestAppend(chain: seq<L1Block>, s: Stages, a: seq<Event>, b: seq<Event>, c: Config)
    ensures HonestRun(chain, s, a + b, c) <==> HonestRun(chain, s, a, c) && HonestRun(chain, Run(s, a, c).0, b, c)
  {
    if b == [] {
      assert a + b == a;
    } else {
      var n := |b| - 1;
      HonestAppend(chain, s, a, b[..n], c);
      RunAppend(s, a, b[..n], c);
      assert (a + b)[..|a + b| - 1] == a + b[..n];
    }
  }

  lemma {:induction false} HonestRunSuffix(chain: seq<L1Block>, k: nat, s: Stages, events: seq<Event>, c: Config)
    requires k <= |chain| && HonestRun(chain, s, events, c)
    ensures HonestRun(chain[k..], s, events, c)
  {
    if events != [] {
      var n := |events| - 1;
      HonestRunSuffix(chain, k, s, events[..n], c);
      HonestSuffix(chain, k, Run(s, events[..n], c).0, events[n], c);
    }
  }

  /** A run splits at each of its events. */
  lemma RunAround(chain: seq<L1Block>, s: Stages, before: seq<Event>, e: Event, after: seq<Event>, c: Config)
    ensures var (t, out) := Run(s, before, c);
            var (u, more) := Stepped(t, e, c);
            var (v, rest) := Run(u, after, c);
            && Run(s, before + [e] + after, c) == (v, out + more + rest)
            && (HonestRun(chain, s, before + [e] + after, c) ==> HonestRun(chain, u, after, c))
  {
    HonestAppend(chain, s, before + [e], after, c);
    RunAppend(s, before + [e], after, c);
    assert (before + [e])[..|before + [e]| - 1] == before;
  }

  /** The same for a run with any number of resets: the last one, to block `k` of the chain, decides
      what comes after it. */
  lemma LastReset(chain: seq<L1Block>, k: nat, config: SystemConfig, c: Config, s: Stages,
                  before: seq<Event>, after: seq<Event>)
    requires k < |chain| && NoResets(after)
    requires HonestRun(chain, s, before + [ResetTo(chain[k].info, config)] + after, c)
    requires AllEofAtEnd(Resetted(Run(s, before, c).0, chain[k].info, config), after, c)
    ensures var (t, out) := Run(s, before, c);
            var r := Resetted(t, chain[k].info, config);
            var (u, more) := Run(r, after, c);
            && Run(s, before + [ResetTo(chain[k].info, config)] + after, c) == (u, out + more)
            && Outcome(chain[k..], config, c, First(t, chain[k], config, c), Reading(r, after, c), u, more)
  {
    var (t, out) := Run(s, before, c);
    var r := Resetted(t, chain[k].info, config);
    RunAround(chain, s, before, ResetTo(chain[k].info, config), after, c);
    assert out + [] == out;
    HonestRunSuffix(chain, k, r, after, c);
    assert chain[k..][0] == chain[k];
    ResetRun(chain[k..], config, c, t, after);
  }

  // ---- Exactly once after a reset ------------------------------------------

  /** What blocks 1 to `j` contribute. */
  function LaterData(chain: seq<L1Block>, config: SystemConfig, j: nat, c: Config): seq<bytes>
    requires j < |chain|
  {
    if j == 0 then [] else DataBefore(chain[1..], ConfigAt(chain, config, 1, c), j, c)
  }

  lemma {:induction false} ConfigShift(chain: seq<L1Block>, config: SystemConfig, i: nat, c: Config)
    requires i + 1 < |chain|
    ensures ConfigAt(chain, config, i + 1, c) == ConfigAt(chain[1..], ConfigAt(chain, config, 1, c), i, c)
  {
    if i > 0 {
      ConfigShift(chain, config, i - 1, c);
    }
  }

  lemma {:induction false} DataSplit(chain: seq<L1Block>, config: SystemConfig, j: nat, c: Config)
    requires j < |chain|
    ensures DataBefore(chain, config, j + 1, c) == BlockData(chain, config, 0, c) + LaterData(chain, config, j, c)
  {
    var data := BlockData(chain, config, 0, c);
    if j == 0 {
      assert DataBefore(chain, config, 0, c) + data == data;
      assert data + [] == data;
    } else {
      DataSplit(chain, config, j - 1, c);
      ConfigShift(chain, config, j - 1, c);
      var last := BlockData(chain, config, j, c);
      assert DataBefore(chain[1..], ConfigAt(chain, config, 1, c), 0, c) == [];
      assert LaterData(chain, config, j, c) == LaterData(chain, config, j - 1, c) + last;
      assert (data + LaterData(chain, config, j - 1, c)) + last == data + LaterData(chain, config, j, c);
    }
  }

  lemma CancelSuffix(a: seq<bytes>, b: seq<bytes>, later: seq<bytes>)
    ensures a + later == b + later <==> a == b
  {
    if a + later == b + later {
      assert a == (a + later)[..|a|] && b == (b + later)[..|b|];
    }
  }

  lemma CancelAfterFirst(first: seq<bytes>, second: seq<bytes>, data: seq<bytes>, later: seq<bytes>)
    ensures first + (second + later) == data + later <==> first + second == data
  {
    assert first + (second + later) == (first + second) + later;
    CancelSuffix(first + second, data, later);
  }

  lemma OnceIfPassed(chain: seq<L1Block>, config: SystemConfig, c: Config, first: seq<bytes>, next: SystemConfig,
                     t: Stages, out: seq<bytes>, j: nat)
    requires Chain(chain) && j < |chain| && Drained(t) && t.block == Some(chain[j].info)
    requires Outcome(chain, config, c, first, Passed(next), t, out)
    ensures j > 0 && out == first + LaterData(chain, config, j, c)
    ensures out == DataBefore(chain, config, j + 1, c) <==> first == BlockData(chain, config, 0, c)
  {
    var i: nat :| DeliveredUpTo(chain[1..], next, c, t, out[|first|..], i);
    assert chain[1..][i] == chain[i + 1];
    assert i + 1 == j;
    assert out == first + out[|first|..];
    DataSplit(chain, config, j, c);
    CancelSuffix(first, BlockData(chain, config, 0, c), LaterData(chain, config, j, c));
  }

  lemma OnceIfRepeated(chain: seq<L1Block>, config: SystemConfig, c: Config, first: seq<bytes>, again: SystemConfig,
                       t: Stages, out: seq<bytes>, j: nat)
    requires Chain(chain) && j < |chain| && Drained(t) && t.block == Some(chain[j].info)
    requires Outcome(chain, config, c, first, Repeated(again), t, out)
    ensures out == first + DataBefore(chain, again, j + 1, c)
    ensures again == config || (Stuck(chain, 0, c) && j == 0)
    ensures out == DataBefore(chain, config, j + 1, c)
            <==> first + BlockData(chain, again, 0, c) == BlockData(chain, config, 0, c)
  {
    var i: nat :| DeliveredUpTo(chain, again, c, t, out[|first|..], i)
                  && (again == config || (Stuck(chain, 0, c) && i == 0));
    assert i == j;
    assert out == first + out[|first|..];
    DataSplit(chain, again, j, c);
    DataSplit(chain, config, j, c);
    CancelAfterFirst(first, BlockData(chain, again, 0, c), BlockData(chain, config, 0, c),
                     LaterData(chain, again, j, c));
  }

  /** When block `j`, counted from the reset origin, is read to its end. With the source closed at the
      reset and the origin advanced, every block was delivered once. With it open and the origin
      advanced, stale data stands in the place of the origin's, which is never read. Without an
      advance the origin is read in addition. So delivery is exactly once if and only if the first
      reading, with the second if there was one, was the origin's data. */
  lemma OnceAfterReset(chain: seq<L1Block>, config: SystemConfig, c: Config, s: Stages, events: seq<Event>, j: nat)
    requires Chain(chain) && NoResets(events) && j < |chain|
    requires HonestRun(chain, Resetted(s, chain[0].info, config), events, c)
    requires AllEofAtEnd(Resetted(s, chain[0].info, config), events, c)
    requires var t := Run(Resetted(s, chain[0].info, config), events, c).0;
             Drained(t) && t.block == Some(chain[j].info)
    ensures var r := Resetted(s, chain[0].info, config);
            var out := Run(r, events, c).1;
            var first := First(s, chain[0], config, c);
            var data := BlockData(chain, config, 0, c);
            var once := DataBefore(chain, config, j + 1, c);
            match Reading(r, events, c)
            case Ongoing => false
            case Passed(_) =>
              && j > 0
              && out == first + LaterData(chain, config, j, c)
              && (!s.open ==> out == once)
              && (out == once <==> first == data)
            case Repeated(again) =>
              && out == first + DataBefore(chain, again, j + 1, c)
              && (again == config || (Stuck(chain, 0, c) && j == 0))
              && (!s.open && again == config ==> out == data + once)
              && (out == once <==> first + BlockData(chain, again, 0, c) == data)
  {
    var r := Resetted(s, chain[0].info, config);
    var (t, out) := Run(r, events, c);
    var first := First(s, chain[0], config, c);
    ResetRun(chain, config, c, s, events);
    match Reading(r, events, c)
    case Ongoing =>
    case Passed(next) => OnceIfPassed(chain, config, c, first, next, t, out, j);
    case Repeated(again) => OnceIfRepeated(chain, config, c, first, again, t, out, j);
  }

  lemma PrefixAppend(data: seq<bytes>, a: seq<bytes>, b: seq<bytes>)
    requires a <= b
    ensures data + a <= data + b
  {}

  lemma PassedDelivers(chain: seq<L1Block>, config: SystemConfig, c: Config, t: Stages, rest: seq<bytes>, k: nat)
    requires 1 < |chain| && DeliveredUpTo(chain[1..], ConfigAt(chain, config, 1, c), c, t, rest, k)
    ensures DeliveredUpTo(chain, config, c, t, BlockData(chain, config, 0, c) + rest, k + 1)
  {
    var data, next := BlockData(chain, config, 0, c), ConfigAt(chain, config, 1, c);
    DataSplit(chain, config, k, c);
    DataSplit(chain, config, k + 1, c);
    var low, high := DataBefore(chain[1..], next, k, c), DataBefore(chain[1..], next, k + 1, c);
    assert DataBefore(chain, config, k + 1, c) == data + low;
    assert DataBefore(chain, config, k + 2, c) == data + high;
    PrefixAppend(data, low, rest);
    PrefixAppend(data, rest, high);
  }

  /** Every deployed pipeline is built and reset at once. The guarantee of a run without resets holds
      for it until the origin's end, and from there on if the origin is advanced there. */
  lemma DeployedRun(chain: seq<L1Block>, config: SystemConfig, c: Config, origin: BlockInfo, built: SystemConfig,
                    events: seq<Event>)
    requires chain != [] && NoResets(events)
    requires HonestRun(chain, Start(origin, built), [ResetTo(chain[0].info, config)] + events, c)
    requires AllEofAtEnd(Resetted(Start(origin, built), chain[0].info, config), events, c)
    ensures var (t, out) := Run(Start(origin, built), [ResetTo(chain[0].info, config)] + events, c);
            Reading(Resetted(Start(origin, built), chain[0].info, config), events, c).Repeated?
            || exists i :: DeliveredUpTo(chain, config, c, t, out, i)
  {
    var s := Start(origin, built);
    var r := Resetted(s, chain[0].info, config);
    var reset := [ResetTo(chain[0].info, config)];
    assert [] + reset + events == reset + events;
    LastReset(chain, 0, config, c, s, [], events);
    assert chain[0..] == chain;
    var (t, out) := Run(r, events, c);
    assert [] + out == out;
    match Reading(r, events, c)
    case Repeated(_) =>
    case Ongoing =>
      DataSplit(chain, config, 0, c);
      assert DeliveredUpTo(chain, config, c, t, out, 0);
    case Passed(next) =>
      var data := BlockData(chain, config, 0, c);
      assert out == data + out[|data|..];
      var k: nat :| DeliveredUpTo(chain[1..], next, c, t, out[|data|..], k);
      PassedDelivers(chain, config, c, t, out[|data|..], k);
  }

  // ---- Both failures, on every chain ---------------------------------------

  function AnswerAll(txs: seq<L1Tx>, n: nat): seq<Option<seq<L1Tx>>> {
    seq(n, _ => Some(txs))
  }

  /** Calls that empty an open source and meet its end. */
  lemma {:induction false} PullBuffered(s: Stages, txs: seq<L1Tx>, n: nat, c: Config)
    requires s.next.Some? && s.open && n <= |s.calldata|
    ensures Pull(s, AnswerAll(txs, n), c) == (s.(calldata := s.calldata[n..]), s.calldata[..n], false)
  {
    if n == 0 {
      assert s.calldata[0..] == s.calldata && s.calldata[..0] == [];
    } else {
      PullBuffered(s, txs, n - 1, c);
      assert AnswerAll(txs, n)[..n - 1] == AnswerAll(txs, n - 1);
      var t := s.(calldata := s.calldata[n - 1..]);
      assert NextData(t, Some(txs), c) == (t.(calldata := t.calldata[1..]), Ok(t.calldata[0]));
      assert t.calldata[1..] == s.calldata[n..];
      assert s.calldata[..n] == s.calldata[..n - 1] + [t.calldata[0]];
    }
  }

  lemma DrainBuffered(s: Stages, txs: seq<L1Tx>, c: Config)
    requires s.next.Some? && s.open
    ensures Pull(s, AnswerAll(txs, |s.calldata| + 1), c)
         == (s.(next := None, open := false, calldata := []), s.calldata, true)
  {
    var n := |s.calldata|;
    PullBuffered(s, txs, n, c);
    assert AnswerAll(txs, n + 1)[..n] == AnswerAll(txs, n);
    assert s.calldata[..n] == s.calldata && s.calldata + [] == s.calldata;
  }

  /** Calls that read a block from a closed source to its end. */
  lemma DrainClosed(s: Stages, txs: seq<L1Tx>, c: Config)
    requires s.next.Some? && !s.open
    ensures var data := Inbox(txs, c.batchInbox, s.config.batcher);
            Pull(s, AnswerAll(txs, |data| + 1), c) == (s.(next := None, open := false, calldata := []), data, true)
  {
    var data := Inbox(txs, c.batchInbox, s.config.batcher);
    var o := s.(open := true, calldata := data);
    DrainBuffered(o, txs, c);
    OpenOrClosed(s, o, txs, |data| + 1, c);
  }

  lemma {:induction false} OpenOrClosed(s: Stages, o: Stages, txs: seq<L1Tx>, n: nat, c: Config)
    requires s.next.Some? && !s.open && n > 0
    requires o == s.(open := true, calldata := Inbox(txs, c.batchInbox, s.config.batcher))
    ensures Pull(s, AnswerAll(txs, n), c) == Pull(o, AnswerAll(txs, n), c)
  {
    assert AnswerAll(txs, n)[..n - 1] == AnswerAll(txs, n - 1);
    if n == 1 {
      assert AnswerAll(txs, 0) == [];
      assert NextData(s, Some(txs), c) == NextData(o, Some(txs), c);
    } else {
      OpenOrClosed(s, o, txs, n - 1, c);
    }
  }

  lemma {:induction false} FreshOrTaken(u: Stages, w: Stages, txs: seq<L1Tx>, n: nat, c: Config)
    requires u.next.None? && !u.done && u.block.Some? && n > 0
    requires w == u.(done := true, next := u.block)
    ensures Pull(u, AnswerAll(txs, n), c) == Pull(w, AnswerAll(txs, n), c)
  {
    assert AnswerAll(txs, n)[..n - 1] == AnswerAll(txs, n - 1);
    if n == 1 {
      assert AnswerAll(txs, 0) == [];
      assert NextData(u, Some(txs), c) == NextData(w, Some(txs), c);
    } else {
      FreshOrTaken(u, w, txs, n - 1, c);
    }
  }

  /** Calls that take a block over from the traversal stage and read it to its end. */
  lemma DrainFresh(u: Stages, txs: seq<L1Tx>, c: Config)
    requires u.next.None? && !u.done && u.block.Some? && !u.open
    ensures var data := Inbox(txs, c.batchInbox, u.config.batcher);
            Pull(u, AnswerAll(txs, |data| + 1), c) == (u.(done := true, open := false, calldata := []), data, true)
  {
    var w := u.(done := true, next := u.block);
    DrainClosed(w, txs, c);
    FreshOrTaken(u, w, txs, |Inbox(txs, c.batchInbox, u.config.batcher)| + 1, c);
  }

  /** Calls that read a reset stage until the first Eof. */
  lemma DrainReset(s: Stages, origin: L1Block, config: SystemConfig, c: Config)
    ensures var t := Resetted(s, origin.info, config);
            var first := First(s, origin, config, c);
            Pull(t, AnswerAll(origin.txs, |first| + 1), c)
              == (t.(next := None, open := false, calldata := []), first, true)
  {
    var t := Resetted(s, origin.info, config);
    if s.open { DrainBuffered(t, origin.txs, c); } else { DrainClosed(t, origin.txs, c); }
  }

  lemma Distinct(chain: seq<L1Block>, i: nat)
    requires Chain(chain) && i < |chain|
    ensures forall j: nat :: j < |chain| && chain[j].info == chain[i].info ==> j == i
  {
    forall j: nat | j < |chain| && j != i ensures chain[j].info != chain[i].info {
      assert chain[j].info.hash != chain[i].info.hash;
    }
  }

  lemma {:induction false} BlockStays(s: Stages, answers: seq<Option<seq<L1Tx>>>, c: Config)
    requires s.next.None? || s.next == s.block
    ensures var t := Pull(s, answers, c).0;
            t.block == s.block && (t.next.None? || t.next == t.block)
  {
    if answers != [] { BlockStays(s, answers[..|answers| - 1], c); }
  }

  lemma {:induction false} HonestAnswers(chain: seq<L1Block>, k: nat, s: Stages, n: nat, c: Config)
    requires Chain(chain) && k < |chain|
    requires s.block == Some(chain[k].info) && (s.next.None? || s.next == s.block)
    ensures HonestPull(chain, s, AnswerAll(chain[k].txs, n), c)
    ensures Pull(s, AnswerAll(chain[k].txs, n), c).0.block == s.block
  {
    BlockStays(s, AnswerAll(chain[k].txs, n), c);
    if n > 0 {
      HonestAnswers(chain, k, s, n - 1, c);
      BlockStays(s, AnswerAll(chain[k].txs, n - 1), c);
      Distinct(chain, k);
      assert AnswerAll(chain[k].txs, n)[..n - 1] == AnswerAll(chain[k].txs, n - 1);
    }
  }

  const NO_ANSWER := AdvanceAnswer(None, None)

  function AdvanceTo(block: L1Block): AdvanceAnswer {
    AdvanceAnswer(Some(block.info), Some(block.receipts))
  }

  lemma AdvanceMoves(chain: seq<L1Block>, k: nat, c: Config, s: Stages)
    requires Chain(chain) && k + 1 < |chain| && !Stuck(chain, k, c) && s.block == Some(chain[k].info)
    ensures HonestAdvance(chain, s.block, AdvanceTo(chain[k + 1]))
    ensures var config := ApplyReceipts(s.config, chain[k + 1].receipts, c.rules).0;
            AdvanceOrigin(s, AdvanceTo(chain[k + 1]), c)
            == (s.(block := Some(chain[k + 1].info), done := false, config := config), Ok(()))
  {
    ApplyReceiptsMeaning(s.config, chain[k + 1].receipts, c.rules);
    Distinct(chain, k);
    assert IsChild(chain, k);
  }

  /** An honest event that takes `s` to `t` and delivers `out`. */
  ghost predicate Does(chain: seq<L1Block>, s: Stages, e: Event, c: Config, t: Stages, out: seq<bytes>) {
    HonestEvent(chain, s, e, c) && Stepped(s, e, c) == (t, out)
  }

  ghost predicate RunDoes(chain: seq<L1Block>, s: Stages, events: seq<Event>, c: Config, t: Stages, out: seq<bytes>) {
    HonestRun(chain, s, events, c) && Run(s, events, c) == (t, out)
  }

  lemma RunDoesOn(chain: seq<L1Block>, s: Stages, events: seq<Event>, c: Config, t: Stages, out: seq<bytes>,
                  e: Event, u: Stages, more: seq<bytes>)
    requires RunDoes(chain, s, events, c, t, out) && Does(chain, t, e, c, u, more)
    ensures RunDoes(chain, s, events + [e], c, u, out + more)
    ensures AllEofAtEnd(s, events + [e], c) <==> AllEofAtEnd(s, events, c) && EofAtEnd(t, e, c)
  {
    assert (events + [e])[..|events|] == events;
  }

  lemma ThreeSteps(chain: seq<L1Block>, s: Stages, e0: Event, e1: Event, e2: Event, c: Config,
                   t: Stages, x: seq<bytes>, u: Stages, y: seq<bytes>, v: Stages, z: seq<bytes>)
    requires Does(chain, s, e0, c, t, x) && Does(chain, t, e1, c, u, y) && Does(chain, u, e2, c, v, z)
    ensures RunDoes(chain, s, [e0, e1, e2], c, v, x + y + z)
    ensures AllEofAtEnd(s, [e0, e1, e2], c) <==> EofAtEnd(s, e0, c) && EofAtEnd(t, e1, c) && EofAtEnd(u, e2, c)
  {
    assert RunDoes(chain, s, [], c, s, []);
    RunDoesOn(chain, s, [], c, s, [], e0, t, x);
    assert [] + [e0] == [e0] && [] + x == x;
    RunDoesOn(chain, s, [e0], c, t, x, e1, u, y);
    assert [e0] + [e1] == [e0, e1];
    RunDoesOn(chain, s, [e0, e1], c, u, x + y, e2, v, z);
    assert [e0, e1] + [e2] == [e0, e1, e2];
  }

  lemma ReadOne(chain: seq<L1Block>, config: SystemConfig, c: Config)
    requires Chain(chain) && BlockData(chain, config, 0, c) != []
    ensures var data := BlockData(chain, config, 0, c);
            var s := Start(chain[0].info, config);
            Does(chain, s, Step([Some(chain[0].txs)], false, NO_ANSWER), c,
                 s.(done := true, next := s.block, open := true, calldata := data[1..]), [data[0]])
  {
    var s := Start(chain[0].info, config);
    var answers := [Some(chain[0].txs)];
    HonestAnswers(chain, 0, s, 1, c);
    assert AnswerAll(chain[0].txs, 1) == answers;
    assert answers[..0] == [];
    assert Pull(s, [], c) == (s, [], false);
    assert [] + [BlockData(chain, config, 0, c)[0]] == [BlockData(chain, config, 0, c)[0]];
  }

  /** From every state: a reset to block `k`, a step that reads to the first block end, and an
      advance there that succeeds leave the next block as a new origin. An open source has then given
      what it held; the data of block `k` is out only if it was closed. */
  lemma ResetThenAdvance(chain: seq<L1Block>, k: nat, config: SystemConfig, c: Config, s: Stages)
    requires Chain(chain) && k + 1 < |chain| && !Stuck(chain, k, c)
    ensures var r := Resetted(s, chain[k].info, config);
            var first := First(s, chain[k], config, c);
            var e := Step(AnswerAll(chain[k].txs, |first| + 1), true, AdvanceTo(chain[k + 1]));
            && EofAtEnd(r, e, c)
            && Does(chain, r, e, c, Start(chain[k + 1].info, ApplyReceipts(config, chain[k + 1].receipts, c.rules).0),
                    first)
  {
    var r := Resetted(s, chain[k].info, config);
    DrainReset(s, chain[k], config, c);
    HonestAnswers(chain, k, r, |First(s, chain[k], config, c)| + 1, c);
    AdvanceMoves(chain, k, c, r.(next := None, open := false, calldata := []));
  }

  /** A reset to `chain[1]` while data of `chain[0]` is buffered: the queue is handed that data, the
      origin moves on to `chain[2]`, and `chain[1]` has not been read. */
  lemma ResetLoses(chain: seq<L1Block>, config: SystemConfig, c: Config)
    requires Chain(chain) && 2 < |chain| && !Stuck(chain, 1, c)
    requires BlockData(chain, config, 0, c) != []
    ensures var data := BlockData(chain, config, 0, c);
            var s := Start(chain[0].info, config);
            var events := [Step([Some(chain[0].txs)], false, NO_ANSWER), ResetTo(chain[1].info, config),
                           Step(AnswerAll(chain[1].txs, |data|), true, AdvanceTo(chain[2]))];
            && AllEofAtEnd(s, events, c)
            && RunDoes(chain, s, events, c,
                       Start(chain[2].info, ApplyReceipts(config, chain[2].receipts, c.rules).0), data)
  {
    var data := BlockData(chain, config, 0, c);
    var s := Start(chain[0].info, config);
    var t := s.(done := true, next := s.block, open := true, calldata := data[1..]);
    var r := Resetted(t, chain[1].info, config);
    var e0, e1 := Step([Some(chain[0].txs)], false, NO_ANSWER), ResetTo(chain[1].info, config);
    var e2 := Step(AnswerAll(chain[1].txs, |t.calldata| + 1), true, AdvanceTo(chain[2]));
    assert [data[0]] + [] + data[1..] == data;
    ReadOne(chain, config, c);
    ResetThenAdvance(chain, 1, config, c, t);
    ThreeSteps(chain, s, e0, e1, e2, c, t, [data[0]], r, [],
               Start(chain[2].info, ApplyReceipts(config, chain[2].receipts, c.rules).0), data[1..]);
  }

  lemma ReadButStay(chain: seq<L1Block>, config: SystemConfig, c: Config, s: Stages)
    requires Chain(chain) && !s.open
    ensures var data := BlockData(chain, config, 0, c);
            var r := Resetted(s, chain[0].info, config);
            var e := Step(AnswerAll(chain[0].txs, |data| + 1), true, NO_ANSWER);
            EofAtEnd(r, e, c) && Does(chain, r, e, c, Start(chain[0].info, config), data)
  {
    var r := Resetted(s, chain[0].info, config);
    DrainClosed(r, chain[0].txs, c);
    HonestAnswers(chain, 0, r, |BlockData(chain, config, 0, c)| + 1, c);
  }

  lemma ReadAndAdvance(chain: seq<L1Block>, config: SystemConfig, c: Config)
    requires Chain(chain) && 1 < |chain| && !Stuck(chain, 0, c)
    ensures var data := BlockData(chain, config, 0, c);
            var u := Start(chain[0].info, config);
            var e := Step(AnswerAll(chain[0].txs, |data| + 1), true, AdvanceTo(chain[1]));
            EofAtEnd(u, e, c) && Does(chain, u, e, c, Start(chain[1].info, ConfigAt(chain, config, 1, c)), data)
  {
    var u := Start(chain[0].info, config);
    DrainFresh(u, chain[0].txs, c);
    HonestAnswers(chain, 0, u, |BlockData(chain, config, 0, c)| + 1, c);
    AdvanceMoves(chain, 0, c, u.(done := true));
  }

  /** A reset with the source closed, and an advance that fails at the origin's end: the origin's
      data is handed over twice. */
  lemma ResetRepeats(chain: seq<L1Block>, config: SystemConfig, c: Config, s: Stages)
    requires Chain(chain) && 1 < |chain| && !Stuck(chain, 0, c) && !s.open
    ensures var data := BlockData(chain, config, 0, c);
            var answers := AnswerAll(chain[0].txs, |data| + 1);
            var events := [ResetTo(chain[0].info, config), Step(answers, true, NO_ANSWER),
                           Step(answers, true, AdvanceTo(chain[1]))];
            && AllEofAtEnd(s, events, c)
            && RunDoes(chain, s, events, c, Start(chain[1].info, ConfigAt(chain, config, 1, c)), data + data)
  {
    var data := BlockData(chain, config, 0, c);
    assert [] + data + data == data + data;
    var answers := AnswerAll(chain[0].txs, |data| + 1);
    var e0, e1 := ResetTo(chain[0].info, config), Step(answers, true, NO_ANSWER);
    var e2 := Step(answers, true, AdvanceTo(chain[1]));
    var r := Resetted(s, chain[0].info, config);
    ReadButStay(chain, config, c, s);
    ReadAndAdvance(chain, config, c);
    ThreeSteps(chain, s, e0, e1, e2, c, r, [], Start(chain[0].info, config), data,
               Start(chain[1].info, ConfigAt(chain, config, 1, c)), data);
  }
}
