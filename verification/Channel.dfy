/** Out-of-order reassembly of frames: `crates/primitives/src/da/channel.rs`. */
module Channel {
  import opened Bytes
  import opened Blocks
  import opened Frames
  import opened Sets

  datatype ChannelError =
    | FrameIdMismatch
    | ChannelClosed
    | FrameNumberExists(number: nat)
    | FrameBeyondEndFrame(number: nat)

  /** The value of a channel's fields at one moment. */
  datatype State = State(
    id: ChannelId,
    openBlock: BlockInfo,
    estimatedSize: int,
    closed: bool,
    highest: u16,
    last: u16,
    inputs: map<u16, Frame>,
    highestInclusion: BlockInfo
  )

  function New(id: ChannelId, openBlock: BlockInfo): State {
    State(id, openBlock, 0, false, 0, 0, map[], DEFAULT_BLOCK)
  }

  // ---- Sums of frame sizes -------------------------------------------------

  /** Total size of the frames of `m` whose number is in `keys` and below `n`. */
  ghost function SizeBelow(m: map<u16, Frame>, keys: set<u16>, n: nat): nat
    requires keys <= m.Keys
  {
    if n == 0 then 0
    else SizeBelow(m, keys, n - 1) + if n - 1 < 0x1_0000 && n - 1 in keys then m[n - 1].Size() else 0
  }

  ghost function SizeOf(m: map<u16, Frame>, keys: set<u16>): nat
    requires keys <= m.Keys
  {
    SizeBelow(m, keys, 0x1_0000)
  }

  ghost function TotalSize(m: map<u16, Frame>): nat {
    SizeOf(m, m.Keys)
  }

  lemma {:induction false} SizeBelowSame(m: map<u16, Frame>, m': map<u16, Frame>, keys: set<u16>, n: nat)
    requires keys <= m.Keys && keys <= m'.Keys
    requires forall k :: k in keys ==> m[k] == m'[k]
    ensures SizeBelow(m, keys, n) == SizeBelow(m', keys, n)
  {
    if n > 0 { SizeBelowSame(m, m', keys, n - 1); }
  }

  lemma {:induction false} SizeBelowRemove(m: map<u16, Frame>, keys: set<u16>, k: u16, n: nat)
    requires keys <= m.Keys && k in keys
    ensures SizeBelow(m, keys, n) == SizeBelow(m, keys - {k}, n) + if k < n then m[k].Size() else 0
  {
    if n > 0 { SizeBelowRemove(m, keys, k, n - 1); }
  }

  lemma SizeInsert(m: map<u16, Frame>, k: u16, f: Frame)
    requires k !in m
    ensures TotalSize(m[k := f]) == TotalSize(m) + f.Size()
  {
    var m' := m[k := f];
    SizeBelowRemove(m', m'.Keys, k, 0x1_0000);
    assert m'.Keys - {k} == m.Keys;
    SizeBelowSame(m, m', m.Keys, 0x1_0000);
  }

  lemma {:induction false} SizeBelowEmpty(m: map<u16, Frame>, n: nat)
    ensures SizeBelow(m, {}, n) == 0
  {
    if n > 0 { SizeBelowEmpty(m, n - 1); }
  }

  lemma EmptySize()
    ensures TotalSize(map[]) == 0
  {
    var m: map<u16, Frame> := map[];
    assert m.Keys == {};
    SizeBelowEmpty(m, 0x1_0000);
  }

  // ---- add_frame -----------------------------------------------------------

  function KeepBelow(m: map<u16, Frame>, n: u16): map<u16, Frame> {
    map k | k in m && k < n :: m[k]
  }

  function Refusal(s: State, f: Frame): Option<ChannelError> {
    if f.id != s.id then Some(FrameIdMismatch)
    else if f.isLast && s.closed then Some(ChannelClosed)
    else if f.number in s.inputs then Some(FrameNumberExists(f.number))
    else if s.closed && f.number >= s.last then Some(FrameBeyondEndFrame(f.number))
    else None
  }

  /** A closing frame that arrives below a frame already buffered. */
  predicate Prunes(s: State, f: Frame) {
    f.isLast && f.number < s.highest
  }

  /** The state after `add_frame`. Pruning subtracts the size of every buffered frame,
      including the frames it keeps. */
  ghost function Added(s: State, f: Frame, b: BlockInfo): State {
    if Refusal(s, f).Some? then s
    else
      var inputs := if Prunes(s, f) then KeepBelow(s.inputs, f.number) else s.inputs;
      var size := if Prunes(s, f) then s.estimatedSize - TotalSize(s.inputs) else s.estimatedSize;
      State(
        s.id,
        s.openBlock,
        size + f.Size(),
        s.closed || f.isLast,
        if Prunes(s, f) || f.number > s.highest then f.number else s.highest,
        if f.isLast then f.number else s.last,
        inputs[f.number := f],
        if s.highestInclusion.number < b.number then b else s.highestInclusion)
  }

  ghost function Run(s: State, adds: seq<(Frame, BlockInfo)>): State {
    if adds == [] then s
    else
      var n := |adds| - 1;
      Added(Run(s, adds[..n]), adds[n].0, adds[n].1)
  }

  // ---- What every reachable channel satisfies ------------------------------

  ghost predicate Inv(s: State) {
    && (forall k :: k in s.inputs ==> s.inputs[k].number == k && s.inputs[k].id == s.id && k <= s.highest)
    && (s.inputs != map[] ==> s.highest in s.inputs)
    && (s.inputs == map[] ==> s.highest == 0 && !s.closed)
    && (forall k :: k in s.inputs ==> (s.inputs[k].isLast <==> s.closed && k == s.last))
    && (s.closed ==> s.highest == s.last)
    && (!s.closed ==> s.estimatedSize == TotalSize(s.inputs))
    && 0 <= s.estimatedSize
  }

  lemma InvStep(s: State, f: Frame, b: BlockInfo)
    requires Inv(s)
    ensures Inv(Added(s, f, b))
  {
    if Refusal(s, f).None? {
      SizeInsert(s.inputs, f.number, f);
      var s' := Added(s, f, b);
      assert f.number in s'.inputs;
    }
  }

  /** What one accepted frame takes off the account without taking it off the channel:
      the frames that a pruning close retains. */
  ghost function Retained(s: State, f: Frame): nat {
    if Refusal(s, f).None? && Prunes(s, f) then TotalSize(KeepBelow(s.inputs, f.number)) else 0
  }

  ghost function Shortfall(s: State, adds: seq<(Frame, BlockInfo)>): nat {
    if adds == [] then 0
    else
      var n := |adds| - 1;
      Shortfall(s, adds[..n]) + Retained(Run(s, adds[..n]), adds[n].0)
  }

  lemma SizeStep(s: State, f: Frame, b: BlockInfo, shortfall: nat)
    requires Inv(s) && s.estimatedSize + shortfall == TotalSize(s.inputs)
    ensures var s' := Added(s, f, b);
            s'.estimatedSize + shortfall + Retained(s, f) == TotalSize(s'.inputs)
  {
    if Refusal(s, f).None? {
      SizeInsert(s.inputs, f.number, f);
      SizeInsert(KeepBelow(s.inputs, f.number), f.number, f);
    }
  }

  /** Every run of add_frame on a fresh channel, with any frames in any order. */
  lemma {:induction false} Reachable(id: ChannelId, open: BlockInfo, adds: seq<(Frame, BlockInfo)>)
    ensures var s := Run(New(id, open), adds);
            && Inv(s)
            && s.estimatedSize + Shortfall(New(id, open), adds) == TotalSize(s.inputs)
            && (!s.closed ==> Shortfall(New(id, open), adds) == 0)
            && (s.closed ==> s.highest == s.last && s.last in s.inputs
                             && forall k :: k in s.inputs ==> k <= s.last)
  {
    if adds == [] {
      EmptySize();
    } else {
      var n := |adds| - 1;
      Reachable(id, open, adds[..n]);
      var s := Run(New(id, open), adds[..n]);
      InvStep(s, adds[n].0, adds[n].1);
      SizeStep(s, adds[n].0, adds[n].1, Shortfall(New(id, open), adds[..n]));
    }
  }

  /** Add number `k` of a run is accepted. */
  ghost predicate AcceptedAt(s: State, adds: seq<(Frame, BlockInfo)>, k: nat)
    requires k < |adds|
  {
    Refusal(Run(s, adds[..k]), adds[k].0).None?
  }

  lemma AcceptedBefore(s: State, adds: seq<(Frame, BlockInfo)>, k: nat, n: nat)
    requires k < n <= |adds|
    ensures AcceptedAt(s, adds[..n], k) <==> AcceptedAt(s, adds, k)
  {
    assert adds[..n][..k] == adds[..k];
  }

  lemma {:induction false} InclusionBound(s: State, adds: seq<(Frame, BlockInfo)>, k: nat)
    requires k < |adds| && AcceptedAt(s, adds, k)
    ensures adds[k].1.number <= Run(s, adds).highestInclusion.number
  {
    var n := |adds| - 1;
    if k < n {
      AcceptedBefore(s, adds, k, n);
      InclusionBound(s, adds[..n], k);
    }
  }

  lemma {:induction false} InclusionGrows(s: State, adds: seq<(Frame, BlockInfo)>)
    ensures s.highestInclusion.number <= Run(s, adds).highestInclusion.number
  {
    if adds != [] { InclusionGrows(s, adds[..|adds| - 1]); }
  }

  /** Add number `k` is accepted and above the first record and everything accepted before it. */
  ghost predicate SetsRecord(s: State, adds: seq<(Frame, BlockInfo)>, k: nat)
    requires k < |adds|
  {
    && AcceptedAt(s, adds, k) && s.highestInclusion.number < adds[k].1.number
    && forall j: nat :: j < k && AcceptedAt(s, adds, j) ==> adds[j].1.number < adds[k].1.number
  }

  lemma {:induction false} InclusionSource(s: State, adds: seq<(Frame, BlockInfo)>) returns (k: int)
    ensures -1 <= k < |adds|
    ensures k == -1 ==> Run(s, adds).highestInclusion == s.highestInclusion
    ensures k >= 0 ==> SetsRecord(s, adds, k) && adds[k].1 == Run(s, adds).highestInclusion
  {
    k := -1;
    if adds != [] {
      var n := |adds| - 1;
      var before := Run(s, adds[..n]).highestInclusion;
      if AcceptedAt(s, adds, n) && before.number < adds[n].1.number {
        k := n;
        InclusionGrows(s, adds[..n]);
        forall j: nat | j < n && AcceptedAt(s, adds, j) ensures adds[j].1.number <= before.number {
          AcceptedBefore(s, adds, j, n);
          InclusionBound(s, adds[..n], j);
        }
      } else {
        k := InclusionSource(s, adds[..n]);
        if k >= 0 {
          AcceptedBefore(s, adds, k, n);
          forall j: nat | j < k && AcceptedAt(s, adds, j) ensures adds[j].1.number < adds[k].1.number {
            AcceptedBefore(s, adds, j, n);
          }
        }
      }
    }
  }

  /** The inclusion block on record is the highest among those of the accepted frames, and of several the
      first. */
  lemma HighestInclusion(s: State, adds: seq<(Frame, BlockInfo)>)
    ensures var b := Run(s, adds).highestInclusion;
            && (forall k: nat :: k < |adds| && AcceptedAt(s, adds, k) ==> adds[k].1.number <= b.number)
            && s.highestInclusion.number <= b.number
            && (b == s.highestInclusion || exists k: nat :: k < |adds| && SetsRecord(s, adds, k) && adds[k].1 == b)
  {
    forall k: nat | k < |adds| && AcceptedAt(s, adds, k)
      ensures adds[k].1.number <= Run(s, adds).highestInclusion.number
    {
      InclusionBound(s, adds, k);
    }
    InclusionGrows(s, adds);
    var k := InclusionSource(s, adds);
  }

  /** Frames have a size, so what is kept has one unless nothing is. */
  lemma EmptyKept(m: map<u16, Frame>, n: u16)
    ensures TotalSize(KeepBelow(m, n)) == 0 <==> !exists k :: k in m && k < n
  {
    var kept := KeepBelow(m, n);
    if k :| k in m && k < n {
      assert k in kept;
      SizeBelowRemove(kept, kept.Keys, k, 0x1_0000);
    } else {
      assert kept == map[];
      EmptySize();
    }
  }

  /** The account drifts from the sum of the frame sizes exactly when a closing frame prunes
      the channel and something below it is kept. */
  lemma ExactAccount(s: State, f: Frame, b: BlockInfo)
    requires Inv(s) && s.estimatedSize == TotalSize(s.inputs)
    ensures Added(s, f, b).estimatedSize == TotalSize(Added(s, f, b).inputs)
            <==> !(Refusal(s, f).None? && Prunes(s, f) && exists k :: k in s.inputs && k < f.number)
  {
    SizeStep(s, f, b, 0);
    if Refusal(s, f).None? && Prunes(s, f) { EmptyKept(s.inputs, f.number); }
  }

  lemma RunSnoc(s: State, adds: seq<(Frame, BlockInfo)>, f: Frame, b: BlockInfo)
    ensures Run(s, adds + [(f, b)]) == Added(Run(s, adds), f, b)
    ensures Shortfall(s, adds + [(f, b)]) == Shortfall(s, adds) + Retained(Run(s, adds), f)
  {
    assert (adds + [(f, b)])[..|adds|] == adds;
  }

  /** The smallest run that drifts: frames 0 and 2, then frame 1 closes the channel. Frame 2 is
      pruned and frame 0 stays, but its size has been taken off the account. */
  lemma DriftingRun(id: ChannelId, open: BlockInfo, b: BlockInfo, x: bytes, y: bytes, z: bytes)
    ensures var f, g, h := Frame(id, 0, x, false), Frame(id, 2, y, false), Frame(id, 1, z, true);
            var s := Run(New(id, open), [(f, b), (g, b), (h, b)]);
            && s.inputs == map[0 := f, 1 := h] && s.closed
            && s.estimatedSize == h.Size()
            && TotalSize(s.inputs) == f.Size() + h.Size()
            && f.Size() > 0
  {
    var f, g, h := Frame(id, 0, x, false), Frame(id, 2, y, false), Frame(id, 1, z, true);
    var s0 := New(id, open);
    RunSnoc(s0, [], f, b);
    RunSnoc(s0, [(f, b)], g, b);
    RunSnoc(s0, [(f, b), (g, b)], h, b);
    assert [] + [(f, b)] == [(f, b)] && [(f, b)] + [(g, b)] == [(f, b), (g, b)];
    assert [(f, b), (g, b)] + [(h, b)] == [(f, b), (g, b), (h, b)];
    Reachable(id, open, [(f, b), (g, b), (h, b)]);
    var before: map<u16, Frame> := map[];
    EmptySize();
    SizeInsert(before, 0, f);
    assert KeepBelow(map[0 := f, 2 := g], 1) == map[0 := f];
    SizeInsert(map[0 := f], 1, h);
  }

  // ---- is_ready and frame_data --------------------------------------------

  /** `last_frame_number + 1` is a wrapping 16-bit addition. */
  predicate Ready(s: State) {
    && s.closed
    && |s.inputs| == (s.last + 1) % 0x1_0000
    && forall i: u16 :: 0 <= i <= s.last ==> i in s.inputs
  }

  ghost function Upto(n: nat): (r: set<u16>)
    requires n <= 0x1_0000
    ensures forall k: u16 :: k in r <==> k < n
    ensures |r| == n
  {
    if n == 0 then {} else Upto(n - 1) + {n - 1}
  }

  /** On reachable channels the contiguity loop is implied by the count; and a channel whose
      last frame has number 65535 is never ready, because the expected count wraps to 0. */
  lemma ReadyByCount(s: State)
    requires Inv(s)
    ensures Ready(s) <==> s.closed && |s.inputs| == s.last + 1 && s.last < 0xffff
  {
    if s.closed {
      var all := Upto(s.last + 1);
      assert s.inputs.Keys <= all;
      if |s.inputs| == s.last + 1 { SameSizeSubset(s.inputs.Keys, all); }
      assert |s.inputs.Keys| > 0;
    }
  }

  function DataBelow(m: map<u16, Frame>, n: nat): Option<bytes>
    requires n <= 0x1_0000
  {
    if n == 0 then Some([])
    else
      match DataBelow(m, n - 1)
      case None => None
      case Some(d) => if n - 1 in m then Some(d + m[n - 1].data) else None
  }

  function FrameData(s: State): Option<bytes> {
    DataBelow(s.inputs, s.last + 1)
  }

  // ---- The mutable object --------------------------------------------------

  class Channel {
    const id: ChannelId
    const openBlock: BlockInfo
    var estimatedSize: nat
    var closed: bool
    var highestFrameNumber: u16
    var lastFrameNumber: u16
    var inputs: map<u16, Frame>
    var highestL1InclusionBlock: BlockInfo

    ghost function View(): State
      reads this
    {
      State(id, openBlock, estimatedSize, closed, highestFrameNumber, lastFrameNumber, inputs,
            highestL1InclusionBlock)
    }

    ghost predicate Valid()
      reads this
    {
      Inv(View())
    }

    constructor (id: ChannelId, openBlock: BlockInfo)
      ensures Valid() && View() == New(id, openBlock)
    {
      this.id := id;
      this.openBlock := openBlock;
      estimatedSize, closed, highestFrameNumber, lastFrameNumber := 0, false, 0, 0;
      inputs := map[];
      highestL1InclusionBlock := DEFAULT_BLOCK;
      new;
      EmptySize();
    }

    /** The `retain` call of a pruning close, entry by entry in any order. The subtraction is
        on an unsigned size: it never underflows. */
    method RetainBelow(n: u16)
      requires estimatedSize == TotalSize(inputs)
      modifies `estimatedSize, `inputs
      ensures inputs == KeepBelow(old(inputs), n)
      ensures estimatedSize == 0
    {
      var todo := inputs.Keys;
      var kept: map<u16, Frame> := map[];
      while todo != {}
        invariant todo <= inputs.Keys && inputs == old(inputs)
        invariant estimatedSize == SizeOf(inputs, todo)
        invariant kept == map k | k in inputs && k !in todo && k < n :: inputs[k]
        decreases todo
      {
        var k :| k in todo;
        SizeBelowRemove(inputs, todo, k, 0x1_0000);
        estimatedSize := estimatedSize - inputs[k].Size();
        if k < n { kept := kept[k := inputs[k]]; }
        todo := todo - {k};
      }
      SizeBelowEmpty(inputs, 0x1_0000);
      inputs := kept;
    }

    method AddFrame(frame: Frame, l1InclusionBlock: BlockInfo) returns (r: Result<(), ChannelError>)
      requires Valid()
      modifies this
      ensures Valid()
      ensures View() == Added(old(View()), frame, l1InclusionBlock)
      ensures r == match Refusal(old(View()), frame) case Some(e) => Err(e) case None => Ok(())
    {
      InvStep(View(), frame, l1InclusionBlock);
      if frame.id != id { return Err(FrameIdMismatch); }
      if frame.isLast && closed { return Err(ChannelClosed); }
      if frame.number in inputs { return Err(FrameNumberExists(frame.number)); }
      if closed && frame.number >= lastFrameNumber { return Err(FrameBeyondEndFrame(frame.number)); }
      Buffer(frame, l1InclusionBlock);
      return Ok(());
    }

    /** The part of `add_frame` behind its checks. */
    method Buffer(frame: Frame, l1InclusionBlock: BlockInfo)
      requires Valid() && Refusal(View(), frame).None?
      modifies this
      ensures View() == Added(old(View()), frame, l1InclusionBlock)
    {
      if frame.isLast {
        lastFrameNumber := frame.number;
        closed := true;
        if lastFrameNumber < highestFrameNumber {
          RetainBelow(lastFrameNumber);
          highestFrameNumber := lastFrameNumber;
        }
      }
      if frame.number > highestFrameNumber { highestFrameNumber := frame.number; }
      if highestL1InclusionBlock.number < l1InclusionBlock.number {
        highestL1InclusionBlock := l1InclusionBlock;
      }
      estimatedSize := estimatedSize + frame.Size();
      inputs := inputs[frame.number := frame];
    }

    method IsReady() returns (ready: bool)
      ensures ready == Ready(View())
    {
      if !closed { return false; }
      if |inputs| != (lastFrameNumber + 1) % 0x1_0000 { return false; }
      var i: nat := 0;
      while i <= lastFrameNumber
        invariant i <= lastFrameNumber + 1
        invariant forall j: u16 :: 0 <= j < i ==> j in inputs
      {
        if i !in inputs { return false; }
        i := i + 1;
      }
      return true;
    }

    method GetFrameData() returns (r: Option<bytes>)
      ensures r == FrameData(View())
    {
      var data: bytes := [];
      var i: nat := 0;
      while i <= lastFrameNumber
        invariant i <= lastFrameNumber + 1
        invariant DataBelow(inputs, i) == Some(data)
      {
        if i !in inputs {
          MissingFrame(inputs, i, lastFrameNumber + 1);
          return None;
        }
        data := data + inputs[i].data;
        i := i + 1;
      }
      return Some(data);
    }
  }

  // ---- Cutting, shuffling and reassembling ---------------------------------

  /** The frames of one channel that carries `pieces`, only the last one flagged. */
  function Cut(id: ChannelId, pieces: seq<bytes>): (fs: seq<Frame>)
    requires |pieces| <= 0x1_0000
    ensures |fs| == |pieces|
  {
    seq(|pieces|, i requires 0 <= i < |pieces| => Frame(id, i, pieces[i], i == |pieces| - 1))
  }

  function Concat(pieces: seq<bytes>): bytes {
    if pieces == [] then [] else Concat(pieces[..|pieces| - 1]) + pieces[|pieces| - 1]
  }

  /** Distinct frame numbers below `n`: some of the frames, in some order of arrival. */
  predicate Draws(order: seq<u16>, n: nat) {
    && (forall k :: 0 <= k < |order| ==> order[k] < n)
    && (forall j, k :: 0 <= j < k < |order| ==> order[j] != order[k])
  }

  function Deliveries(fs: seq<Frame>, order: seq<u16>, blocks: seq<BlockInfo>): seq<(Frame, BlockInfo)>
    requires Draws(order, |fs|) && |blocks| == |order|
  {
    seq(|order|, k requires 0 <= k < |order| => (fs[order[k]], blocks[k]))
  }

  ghost function Elems(order: seq<u16>): set<u16> {
    set k | k in order
  }

  /** What the channel holds once the frames numbered `arrived` came in, in any order. */
  ghost predicate Holds(s: State, fs: seq<Frame>, arrived: set<u16>) {
    && s.inputs.Keys == arrived
    && (forall k :: k in s.inputs ==> k < |fs| && s.inputs[k] == fs[k])
    && (s.closed <==> |fs| - 1 in arrived)
    && (s.closed ==> s.last == |fs| - 1)
    && s.estimatedSize == TotalSize(s.inputs)
  }

  predicate OneChannel(fs: seq<Frame>, id: ChannelId) {
    && 0 < |fs| <= 0x1_0000
    && forall i :: 0 <= i < |fs| ==> fs[i].id == id && fs[i].number == i && (fs[i].isLast <==> i == |fs| - 1)
  }

  lemma HoldsStep(s: State, fs: seq<Frame>, arrived: set<u16>, k: u16, b: BlockInfo)
    requires OneChannel(fs, s.id) && k < |fs| && k !in arrived
    requires Inv(s) && Holds(s, fs, arrived)
    ensures Refusal(s, fs[k]).None?
    ensures Holds(Added(s, fs[k], b), fs, arrived + {k})
  {
    var f := fs[k];
    assert f.number == k;
    assert s.inputs != map[] ==> s.highest in s.inputs;
    assert !Prunes(s, f);
    SizeInsert(s.inputs, k, f);
    assert Added(s, f, b).inputs == s.inputs[k := f];
    assert s.inputs[k := f].Keys == arrived + {k};
  }

  lemma {:induction false} HoldsRun(id: ChannelId, open: BlockInfo, fs: seq<Frame>, order: seq<u16>,
                                    blocks: seq<BlockInfo>)
    requires OneChannel(fs, id)
    requires Draws(order, |fs|) && |blocks| == |order|
    ensures var s := Run(New(id, open), Deliveries(fs, order, blocks));
            Inv(s) && s.id == id && Holds(s, fs, Elems(order))
  {
    if order == [] {
      EmptySize();
    } else {
      var n := |order| - 1;
      HoldsRun(id, open, fs, order[..n], blocks[..n]);
      var s := Run(New(id, open), Deliveries(fs, order[..n], blocks[..n]));
      DeliverOne(New(id, open), fs, order, blocks);
      HoldsStep(s, fs, Elems(order[..n]), order[n], blocks[n]);
      InvStep(s, fs[order[n]], blocks[n]);
    }
  }

  /** Peeling the latest arrival off a run. */
  lemma DeliverOne(s0: State, fs: seq<Frame>, order: seq<u16>, blocks: seq<BlockInfo>)
    requires Draws(order, |fs|) && |blocks| == |order| > 0
    ensures var n := |order| - 1;
            && Run(s0, Deliveries(fs, order, blocks))
               == Added(Run(s0, Deliveries(fs, order[..n], blocks[..n])), fs[order[n]], blocks[n])
            && Elems(order) == Elems(order[..n]) + {order[n]}
            && order[n] !in Elems(order[..n])
  {
    var n := |order| - 1;
    var adds := Deliveries(fs, order, blocks);
    assert adds[..n] == Deliveries(fs, order[..n], blocks[..n]);
    assert order == order[..n] + [order[n]];
  }

  lemma CutIsOneChannel(id: ChannelId, pieces: seq<bytes>)
    requires 0 < |pieces| <= 0x1_0000
    ensures OneChannel(Cut(id, pieces), id)
  {
  }

  /** Every frame is accepted, whichever of the others arrived before it. */
  lemma AllAccepted(id: ChannelId, open: BlockInfo, pieces: seq<bytes>, order: seq<u16>,
                    blocks: seq<BlockInfo>, next: u16)
    requires 0 < |pieces| <= 0x1_0000 && next < |pieces|
    requires Draws(order, |pieces|) && |blocks| == |order| && next !in order
    ensures var s := Run(New(id, open), Deliveries(Cut(id, pieces), order, blocks));
            Refusal(s, Cut(id, pieces)[next]).None?
  {
    var fs := Cut(id, pieces);
    CutIsOneChannel(id, pieces);
    HoldsRun(id, open, fs, order, blocks);
    HoldsStep(Run(New(id, open), Deliveries(fs, order, blocks)), fs, Elems(order), next, DEFAULT_BLOCK);
  }

  lemma {:induction false} DistinctCount(order: seq<u16>, n: nat)
    requires Draws(order, n) && n <= 0x1_0000
    ensures |Elems(order)| == |order|
  {
    if order == [] {
      assert Elems(order) == {};
    } else {
      var m := |order| - 1;
      DistinctCount(order[..m], n);
      assert order == order[..m] + [order[m]];
      assert Elems(order) == Elems(order[..m]) + {order[m]};
    }
  }

  lemma {:induction false} DataOfCut(m: map<u16, Frame>, id: ChannelId, pieces: seq<bytes>, n: nat)
    requires n <= |pieces| <= 0x1_0000
    requires forall k: u16 :: k < |pieces| ==> k in m && m[k] == Cut(id, pieces)[k]
    ensures DataBelow(m, n) == Some(Concat(pieces[..n]))
  {
    if n > 0 {
      DataOfCut(m, id, pieces, n - 1);
      assert pieces[..n][..n - 1] == pieces[..n - 1];
    }
  }

  /** Reassembly. Cut any payload into frames and let any part of them arrive in any order: the
      channel is ready exactly when all of them arrived and there are at most 65535; and once
      all arrived, reading it gives the payload back. The size account is exact throughout. */
  lemma Reassembly(id: ChannelId, open: BlockInfo, pieces: seq<bytes>, order: seq<u16>, blocks: seq<BlockInfo>)
    requires 0 < |pieces| <= 0x1_0000
    requires Draws(order, |pieces|) && |blocks| == |order|
    ensures var s := Run(New(id, open), Deliveries(Cut(id, pieces), order, blocks));
            && (Ready(s) <==> |order| == |pieces| <= 0xffff)
            && (|order| == |pieces| ==> FrameData(s) == Some(Concat(pieces)))
            && s.estimatedSize == TotalSize(s.inputs)
  {
    var fs := Cut(id, pieces);
    CutIsOneChannel(id, pieces);
    HoldsRun(id, open, fs, order, blocks);
    DistinctCount(order, |pieces|);
    HeldData(Run(New(id, open), Deliveries(fs, order, blocks)), id, pieces, Elems(order));
  }

  lemma HeldData(s: State, id: ChannelId, pieces: seq<bytes>, arrived: set<u16>)
    requires 0 < |pieces| <= 0x1_0000
    requires Inv(s) && Holds(s, Cut(id, pieces), arrived)
    ensures Ready(s) <==> |arrived| == |pieces| <= 0xffff
    ensures |arrived| == |pieces| ==> FrameData(s) == Some(Concat(pieces))
  {
    HeldCount(s, |pieces|, arrived);
    if |arrived| == |pieces| { HeldComplete(s, id, pieces, arrived); }
  }

  lemma HeldComplete(s: State, id: ChannelId, pieces: seq<bytes>, arrived: set<u16>)
    requires 0 < |pieces| <= 0x1_0000 && |arrived| == |pieces|
    requires Holds(s, Cut(id, pieces), arrived)
    ensures FrameData(s) == Some(Concat(pieces))
  {
    assert arrived <= Upto(|pieces|);
    SameSizeSubset(arrived, Upto(|pieces|));
    assert |pieces| - 1 in arrived;
    CompleteData(s.inputs, id, pieces);
  }

  lemma CompleteData(m: map<u16, Frame>, id: ChannelId, pieces: seq<bytes>)
    requires 0 < |pieces| <= 0x1_0000
    requires forall k: u16 :: k < |pieces| ==> k in m && m[k] == Cut(id, pieces)[k]
    ensures DataBelow(m, |pieces|) == Some(Concat(pieces))
  {
    DataOfCut(m, id, pieces, |pieces|);
    assert pieces[..|pieces|] == pieces;
  }

  lemma HeldCount(s: State, n: nat, arrived: set<u16>)
    requires 0 < n <= 0x1_0000 && Inv(s) && s.inputs.Keys == arrived <= Upto(n)
    requires (s.closed <==> n - 1 in arrived) && (s.closed ==> s.last == n - 1)
    ensures Ready(s) <==> |arrived| == n <= 0xffff
    ensures |arrived| == n ==> s.closed
  {
    ReadyByCount(s);
    assert |s.inputs| == |arrived|;
    if |arrived| == n { SameSizeSubset(arrived, Upto(n)); }
  }

  /** End to end: encode, concatenate behind the version byte, parse, add in any order, read. */
  lemma WireToChannel(id: ChannelId, open: BlockInfo, pieces: seq<bytes>, order: seq<u16>, blocks: seq<BlockInfo>)
    requires 0 < |pieces| <= 0xffff
    requires forall i :: 0 <= i < |pieces| ==> |pieces[i]| <= MAX_FRAME_LEN
    requires Draws(order, |pieces|) && |blocks| == |order| == |pieces|
    ensures var wire := [DERIVATION_VERSION_0] + EncodedAll(Cut(id, pieces));
            Parsed(wire).Ok? && |Parsed(wire).value| == |pieces|
            && var s := Run(New(id, open), Deliveries(Parsed(wire).value, order, blocks));
            Ready(s) && FrameData(s) == Some(Concat(pieces))
  {
    ParseEncodedFrames(Cut(id, pieces));
    Reassembly(id, open, pieces, order, blocks);
  }

  lemma {:induction false} MissingFrame(m: map<u16, Frame>, i: nat, n: nat)
    requires i < n <= 0x1_0000 && i !in m
    ensures DataBelow(m, n) == None
  {
    if i < n - 1 { MissingFrame(m, i, n - 1); }
  }
}
