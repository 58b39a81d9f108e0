/** The frame queue stage and its Holocene pruning: `crates/derive/src/stages/frame_queue.rs`. */
module FrameQueue {
  import opened Bytes
  import opened Frames
  import opened PipelineErrors

  /** What the pruning loop does with a pair of neighbours. */
  datatype Verdict = DropNext | DrainPrevious | Keep

  function Judge(prev: Frame, next: Frame): Verdict {
    var same := prev.id == next.id;
    if same && (prev.number + 1) % 0x1_0000 != next.number then DropNext
    else if same && prev.isLast then DropNext
    else if !same && next.number != 0 then DropNext
    else if !same && !prev.isLast then DrainPrevious
    else Keep
  }

  function FirstOf(q: seq<Frame>, id: ChannelId): (i: nat)
    requires exists k :: 0 <= k < |q| && q[k].id == id
    ensures i < |q| && q[i].id == id
    ensures forall k :: 0 <= k < i ==> q[k].id != id
  {
    if q[0].id == id then 0 else FirstOf(q[1..], id) + 1
  }

  /** The queue the loop ends with when it stands at index `i`. */
  function PruneFrom(q: seq<Frame>, i: nat): seq<Frame>
    requires i < |q|
    decreases |q|, |q| - i
  {
    if i + 1 == |q| then q
    else
      match Judge(q[i], q[i + 1])
      case DropNext => PruneFrom(q[..i + 1] + q[i + 2..], i)
      case DrainPrevious =>
        var first := FirstOf(q, q[i].id);
        PruneFrom(q[..first] + q[i + 1..], if first == 0 then 0 else first - 1)
      case Keep => PruneFrom(q, i + 1)
  }

  /** The loop ends with the same queue from both. */
  predicate SameEnd(q: seq<Frame>, i: nat, r: seq<Frame>, k: nat)
    requires i < |q| && k < |r|
  {
    PruneFrom(q, i) == PruneFrom(r, k)
  }

  /** One round of the loop, to the queue `r`. */
  lemma OnDrop(q: seq<Frame>, i: nat, r: seq<Frame>)
    requires i + 1 < |q| && Judge(q[i], q[i + 1]) == DropNext && r == q[..i + 1] + q[i + 2..]
    ensures SameEnd(q, i, r, i)
  {}

  lemma OnDrain(q: seq<Frame>, i: nat, first: nat, r: seq<Frame>, k: nat)
    requires i + 1 < |q| && Judge(q[i], q[i + 1]) == DrainPrevious
    requires first == FirstOf(q, q[i].id) && r == q[..first] + q[i + 1..] && k == if first == 0 then 0 else first - 1
    ensures first <= i && k < |r| && SameEnd(q, i, r, k)
  {}

  /** `next` continues the unclosed channel of `prev`, or opens a new channel after `prev`
      closed its own. */
  predicate Follows(prev: Frame, next: Frame) {
    if prev.id == next.id then !prev.isLast && next.number == (prev.number + 1) % 0x1_0000
    else prev.isLast && next.number == 0
  }

  predicate Linked(q: seq<Frame>, j: nat)
    requires j + 1 < |q|
  {
    Follows(q[j], q[j + 1])
  }

  /** The first `n` frames of the queue each follow their predecessor. */
  predicate WellFormedUpTo(q: seq<Frame>, n: nat)
    requires n <= |q|
  {
    forall j: nat :: j + 1 < n ==> Linked(q, j)
  }

  predicate WellFormed(q: seq<Frame>) {
    WellFormedUpTo(q, |q|)
  }

  /** `idx` picks the elements of `a` out of `b`, in order. */
  ghost predicate Picks(a: seq<Frame>, b: seq<Frame>, idx: seq<nat>) {
    && |idx| == |a|
    && (forall k :: 0 <= k < |a| ==> idx[k] < |b| && a[k] == b[idx[k]])
    && (forall j, k :: 0 <= j < k < |a| ==> idx[j] < idx[k])
  }

  ghost predicate Subsequence(a: seq<Frame>, b: seq<Frame>) {
    exists idx :: Picks(a, b, idx)
  }

  lemma SubsequenceSelf(a: seq<Frame>)
    ensures Subsequence(a, a)
  {
    assert Picks(a, a, seq(|a|, k => k));
  }

  lemma SubsequenceTransitive(a: seq<Frame>, b: seq<Frame>, c: seq<Frame>)
    requires Subsequence(a, b) && Subsequence(b, c)
    ensures Subsequence(a, c)
  {
    var x :| Picks(a, b, x);
    var y :| Picks(b, c, y);
    assert Picks(a, c, seq(|a|, k requires 0 <= k < |a| => y[x[k]]));
  }

  lemma SubsequenceCut(b: seq<Frame>, lo: nat, hi: nat)
    requires lo <= hi <= |b|
    ensures Subsequence(b[..lo] + b[hi..], b)
  {
    var a := b[..lo] + b[hi..];
    assert Picks(a, b, seq(|a|, k => if k < lo then k else k + (hi - lo)));
  }

  lemma CutKeepsLinks(q: seq<Frame>, lo: nat, hi: nat)
    requires lo <= hi <= |q| && WellFormedUpTo(q, lo)
    ensures WellFormedUpTo(q[..lo] + q[hi..], lo)
  {
    var q' := q[..lo] + q[hi..];
    forall j: nat | j + 1 < lo ensures Linked(q', j) { assert Linked(q, j); }
  }

  lemma DropPrefixLinks(q: seq<Frame>, n: nat, m: nat)
    requires n <= m <= |q| && WellFormedUpTo(q, m)
    ensures WellFormedUpTo(q, n)
  {
  }

  /** Pruning leaves a non-empty, well-formed queue, ... */
  lemma {:induction false} PruneSound(q: seq<Frame>, i: nat)
    requires i < |q| && WellFormedUpTo(q, i + 1)
    ensures PruneFrom(q, i) != []
    ensures WellFormed(PruneFrom(q, i))
    decreases |q|, |q| - i
  {
    if i + 1 < |q| {
      match Judge(q[i], q[i + 1])
      case DropNext =>
        CutKeepsLinks(q, i + 1, i + 2);
        PruneSound(q[..i + 1] + q[i + 2..], i);
      case DrainPrevious =>
        var first := FirstOf(q, q[i].id);
        DropPrefixLinks(q, first, i + 1);
        CutKeepsLinks(q, first, i + 1);
        PruneSound(q[..first] + q[i + 1..], if first == 0 then 0 else first - 1);
      case Keep =>
        assert Linked(q, i);
        PruneSound(q, i + 1);
    }
  }

  /** ... and only removes frames. */
  lemma {:induction false} PruneSubsequence(q: seq<Frame>, i: nat)
    requires i < |q|
    ensures Subsequence(PruneFrom(q, i), q)
    decreases |q|, |q| - i
  {
    if i + 1 == |q| {
      SubsequenceSelf(q);
    } else {
      match Judge(q[i], q[i + 1])
      case DropNext =>
        var q' := q[..i + 1] + q[i + 2..];
        OnDrop(q, i, q');
        PruneSubsequence(q', i);
        SubsequenceCut(q, i + 1, i + 2);
        SubsequenceTransitive(PruneFrom(q', i), q', q);
      case DrainPrevious =>
        var first := FirstOf(q, q[i].id);
        var q' := q[..first] + q[i + 1..];
        var i' := if first == 0 then 0 else first - 1;
        OnDrain(q, i, first, q', i');
        PruneSubsequence(q', i');
        SubsequenceCut(q, first, i + 1);
        SubsequenceTransitive(PruneFrom(q', i'), q', q);
      case Keep =>
        PruneSubsequence(q, i + 1);
    }
  }

  /** A well-formed queue is left alone. */
  lemma {:induction false} PruneComplete(q: seq<Frame>, i: nat)
    requires i < |q| && WellFormed(q)
    ensures PruneFrom(q, i) == q
    decreases |q| - i
  {
    if i + 1 < |q| {
      assert Linked(q, i);
      PruneComplete(q, i + 1);
    }
  }

  /** Pruning again changes nothing; and the queues pruning leaves alone are exactly the
      well-formed ones. */
  lemma PruneIdempotent(q: seq<Frame>)
    requires q != []
    ensures PruneFrom(q, 0) != [] && PruneFrom(PruneFrom(q, 0), 0) == PruneFrom(q, 0)
    ensures PruneFrom(q, 0) == q <==> WellFormed(q)
  {
    PruneSound(q, 0);
    PruneComplete(PruneFrom(q, 0), 0);
    if WellFormed(q) { PruneComplete(q, 0); }
  }

  /** The frames from `lo` to `hi` all belong to channel `id`. */
  predicate OneChannel(q: seq<Frame>, lo: nat, hi: nat, id: ChannelId)
    requires hi < |q|
  {
    forall k :: lo <= k <= hi ==> q[k].id == id
  }

  /** No frame up to `hi` closed channel `id`. */
  predicate StillOpen(q: seq<Frame>, hi: nat, id: ChannelId)
    requires hi < |q|
  {
    forall k :: 0 <= k <= hi && q[k].id == id ==> !q[k].isLast
  }

  lemma {:induction false} OpenStaysTogether(q: seq<Frame>, first: nat, i: nat)
    requires first <= i < |q| && WellFormedUpTo(q, i + 1) && StillOpen(q, i, q[first].id)
    ensures OneChannel(q, first, i, q[first].id)
  {
    if first < i {
      OpenStaysTogether(q, first, i - 1);
      assert Linked(q, i - 1);
    }
  }

  lemma TogetherIsOpen(q: seq<Frame>, first: nat, i: nat)
    requires first <= i < |q| && WellFormedUpTo(q, i + 1) && !q[i].isLast
    requires OneChannel(q, first, i, q[i].id) && forall k :: 0 <= k < first ==> q[k].id != q[i].id
    ensures StillOpen(q, i, q[i].id)
  {
    forall k | 0 <= k <= i && q[k].id == q[i].id ensures !q[k].isLast {
      if k < i { assert Linked(q, k); }
    }
  }

  /** What a drain removes. The segment starts at the first frame with the channel's id, so it
      is that channel alone exactly when no earlier, already closed channel used the same id. */
  lemma DrainedSegment(q: seq<Frame>, i: nat)
    requires i < |q| && WellFormedUpTo(q, i + 1) && !q[i].isLast
    ensures OneChannel(q, FirstOf(q, q[i].id), i, q[i].id) <==> StillOpen(q, i, q[i].id)
  {
    var first := FirstOf(q, q[i].id);
    if StillOpen(q, i, q[i].id) { OpenStaysTogether(q, first, i); }
    if OneChannel(q, first, i, q[i].id) { TogetherIsOpen(q, first, i); }
  }

  /** So reusing an id loses a complete channel in between: A closes, B closes, A reopens and is
      abandoned for C, and the drain takes B along. */
  lemma DrainLosesClosedChannel(a: ChannelId, b: ChannelId, c: ChannelId)
    requires a != b && b != c && a != c
    ensures var q := [Frame(a, 0, [], true), Frame(b, 0, [], true), Frame(a, 0, [], false), Frame(c, 0, [], true)];
            PruneFrom(q, 0) == [q[3]]
  {
    var q := [Frame(a, 0, [], true), Frame(b, 0, [], true), Frame(a, 0, [], false), Frame(c, 0, [], true)];
    assert Judge(q[0], q[1]) == Keep && Judge(q[1], q[2]) == Keep && Judge(q[2], q[3]) == DrainPrevious;
    assert PruneFrom(q, 0) == PruneFrom(q, 1);
    assert PruneFrom(q, 1) == PruneFrom(q, 2);
    assert FirstOf(q, a) == 0;
    assert q[..0] + q[3..] == [q[3]];
    assert PruneFrom(q, 2) == PruneFrom([q[3]], 0);
  }

  /** No id is used again after a frame that closed it. */
  predicate NoReuse(q: seq<Frame>) {
    forall j, k :: 0 <= j < k < |q| && q[j].isLast ==> q[k].id != q[j].id
  }

  /** Every drain of the pruning loop removes frames of one channel only. */
  ghost predicate DrainsAlone(q: seq<Frame>, i: nat)
    requires i < |q|
    decreases |q|, |q| - i
  {
    i + 1 < |q| ==>
      match Judge(q[i], q[i + 1])
      case DropNext => DrainsAlone(q[..i + 1] + q[i + 2..], i)
      case DrainPrevious =>
        var first := FirstOf(q, q[i].id);
        && OneChannel(q, first, i, q[i].id)
        && DrainsAlone(q[..first] + q[i + 1..], if first == 0 then 0 else first - 1)
      case Keep => DrainsAlone(q, i + 1)
  }

  lemma CutKeepsNoReuse(q: seq<Frame>, lo: nat, hi: nat)
    requires lo <= hi <= |q| && NoReuse(q)
    ensures NoReuse(q[..lo] + q[hi..])
  {}

  /** What a caller can see to: without reuse in the input, every drain removes one channel alone. */
  lemma {:induction false} NoReuseDrainsAlone(q: seq<Frame>, i: nat)
    requires i < |q| && WellFormedUpTo(q, i + 1) && NoReuse(q)
    ensures DrainsAlone(q, i)
    decreases |q|, |q| - i
  {
    if i + 1 < |q| {
      match Judge(q[i], q[i + 1])
      case DropNext =>
        CutKeepsLinks(q, i + 1, i + 2);
        CutKeepsNoReuse(q, i + 1, i + 2);
        NoReuseDrainsAlone(q[..i + 1] + q[i + 2..], i);
      case DrainPrevious =>
        var first := FirstOf(q, q[i].id);
        DrainedSegment(q, i);
        DropPrefixLinks(q, first, i + 1);
        CutKeepsLinks(q, first, i + 1);
        CutKeepsNoReuse(q, first, i + 1);
        NoReuseDrainsAlone(q[..first] + q[i + 1..], if first == 0 then 0 else first - 1);
      case Keep =>
        assert Linked(q, i);
        NoReuseDrainsAlone(q, i + 1);
    }
  }

  /** All frames of a channel, from number 0 to the closing one. */
  predicate Complete(b: seq<Frame>) {
    b != [] && forall k :: 0 <= k < |b| ==> b[k].id == b[0].id && b[k].number == k && (b[k].isLast <==> k == |b| - 1)
  }

  /** No frame of `q` has the id. */
  predicate Without(q: seq<Frame>, id: ChannelId) {
    forall f :: f in q ==> f.id != id
  }

  /** The ids of the channels that the loop drains from index `i` on. */
  ghost function DrainedIds(q: seq<Frame>, i: nat): set<ChannelId>
    requires i < |q|
    decreases |q|, |q| - i
  {
    if i + 1 == |q| then {}
    else
      match Judge(q[i], q[i + 1])
      case DropNext => DrainedIds(q[..i + 1] + q[i + 2..], i)
      case DrainPrevious =>
        var first := FirstOf(q, q[i].id);
        {q[i].id} + DrainedIds(q[..first] + q[i + 1..], if first == 0 then 0 else first - 1)
      case Keep => DrainedIds(q, i + 1)
  }

  /** The id's first place, as a caller knows it. */
  lemma FirstAt(q: seq<Frame>, id: ChannelId, i: nat)
    requires i < |q| && q[i].id == id && forall k :: 0 <= k < i ==> q[k].id != id
    ensures FirstOf(q, id) == i
  {}

  // ---- Before, through and behind a complete channel -----------------------

  lemma DrainedOnDrop(q: seq<Frame>, i: nat, r: seq<Frame>)
    requires i + 1 < |q| && Judge(q[i], q[i + 1]) == DropNext && r == q[..i + 1] + q[i + 2..]
    ensures DrainedIds(q, i) == DrainedIds(r, i)
  {}

  lemma DrainedOnDrain(q: seq<Frame>, i: nat, first: nat, r: seq<Frame>, k: nat)
    requires i + 1 < |q| && Judge(q[i], q[i + 1]) == DrainPrevious
    requires first == FirstOf(q, q[i].id) && r == q[..first] + q[i + 1..] && k == if first == 0 then 0 else first - 1
    ensures k < |r| && DrainedIds(q, i) == {q[i].id} + DrainedIds(r, k)
  {}

  /** What is left of `u` when the loop, from index `i` on, comes to the first frame of `b`. */
  ghost predicate LeftAt(u: seq<Frame>, b: seq<Frame>, v: seq<Frame>, i: nat, w: seq<Frame>)
    requires i <= |u| && b != []
  {
    && SameEnd(u + b + v, i, w + b + v, |w|)
    && PruneFrom(u + [b[0]], i) == w + [b[0]]
    && forall f :: f in w ==> f in u
  }

  /** Up to the first frame of the channel the loop sees only what stands before it and that frame. */
  lemma {:induction false} BeforePhase(u: seq<Frame>, b: seq<Frame>, v: seq<Frame>, i: nat) returns (w: seq<Frame>)
    requires i <= |u| && b != [] && b[0].number == 0 && Without(u, b[0].id)
    ensures LeftAt(u, b, v, i, w)
    decreases |u|, 1, |u| - i
  {
    w := u;
    if i < |u| {
      var q, r := u + b + v, u + [b[0]];
      var next := if i + 1 < |u| then u[i + 1] else b[0];
      assert u[i] in u;
      assert q[i] == r[i] == u[i] && q[i + 1] == r[i + 1] == next;
      match Judge(u[i], next)
      case Keep => w := BeforePhase(u, b, v, i + 1);
      case DropNext => w := BeforeDrop(u, b, v, i);
      case DrainPrevious => w := BeforeDrain(u, b, v, i);
    }
  }

  lemma {:induction false} BeforeDrop(u: seq<Frame>, b: seq<Frame>, v: seq<Frame>, i: nat) returns (w: seq<Frame>)
    requires i < |u| && b != [] && b[0].number == 0 && Without(u, b[0].id)
    requires Judge(u[i], if i + 1 < |u| then u[i + 1] else b[0]) == DropNext
    ensures LeftAt(u, b, v, i, w)
    decreases |u|, 0, 1
  {
    assert u[i] in u;
    var x := CutBefore(u, b, v, i + 1, i + 2);
    OnDrop(u + b + v, i, x + b + v);
    OnDrop(u + [b[0]], i, x + [b[0]]);
    w := BeforePhase(x, b, v, i);
  }

  lemma {:induction false} BeforeDrain(u: seq<Frame>, b: seq<Frame>, v: seq<Frame>, i: nat) returns (w: seq<Frame>)
    requires i < |u| && b != [] && b[0].number == 0 && Without(u, b[0].id)
    requires Judge(u[i], if i + 1 < |u| then u[i + 1] else b[0]) == DrainPrevious
    ensures LeftAt(u, b, v, i, w)
    decreases |u|, 0, 1
  {
    var first := FirstOf(u, u[i].id);
    FirstAt(u + b + v, u[i].id, first);
    FirstAt(u + [b[0]], u[i].id, first);
    var x := CutBefore(u, b, v, first, i + 1);
    var k := if first == 0 then 0 else first - 1;
    OnDrain(u + b + v, i, first, x + b + v, k);
    OnDrain(u + [b[0]], i, first, x + [b[0]], k);
    w := BeforePhase(x, b, v, k);
  }

  lemma CutBefore(u: seq<Frame>, b: seq<Frame>, v: seq<Frame>, lo: nat, hi: nat) returns (x: seq<Frame>)
    requires lo < hi <= |u| && b != []
    ensures |x| < |u| && lo <= |x| && forall f :: f in x ==> f in u
    ensures (u + b + v)[..lo] + (u + b + v)[hi..] == x + b + v
    ensures (u + [b[0]])[..lo] + (u + [b[0]])[hi..] == x + [b[0]]
  {
    x := u[..lo] + u[hi..];
    assert (u + b + v)[..lo] + (u + b + v)[hi..] == x + b + v;
    assert (u + [b[0]])[..lo] + (u + [b[0]])[hi..] == x + [b[0]];
    assert forall f :: f in x ==> f in u;
  }

  /** The frames of a complete channel are kept one after the other. */
  lemma {:induction false} ThroughPhase(w: seq<Frame>, b: seq<Frame>, v: seq<Frame>, k: nat)
    requires Complete(b) && k < |b|
    ensures SameEnd(w + b + v, |w| + k, w + b + v, Place(w, b, 0))
    decreases |b| - k
  {
    if k + 1 < |b| {
      var q := w + b + v;
      assert q[|w| + k] == b[k] && q[|w| + k + 1] == b[k + 1];
      assert b[k].id == b[0].id && b[k].number == k && b[k + 1].id == b[0].id && b[k + 1].number == k + 1;
      ThroughPhase(w, b, v, k + 1);
    }
  }

  /** The last frame of the channel and what follows it. */
  function Tail(b: seq<Frame>, v: seq<Frame>): seq<Frame>
    requires b != []
  {
    [b[|b| - 1]] + v
  }

  /** Where frame `t` of the tail stands behind `w`. */
  function Place(w: seq<Frame>, b: seq<Frame>, t: nat): nat
    requires b != []
  {
    |w| + |b| - 1 + t
  }

  lemma TailAt(w: seq<Frame>, b: seq<Frame>, v: seq<Frame>, t: nat)
    requires b != [] && t <= |v|
    ensures (w + b + v)[Place(w, b, t)] == Tail(b, v)[t]
  {}

  /** Behind a channel the loop sees its last frame and what follows, until it drains a channel that has
      frames before. Then the complete channel is drained along. */
  ghost predicate BehindResult(w: seq<Frame>, b: seq<Frame>, v: seq<Frame>, p: nat)
    requires b != [] && p <= |v|
  {
    var result := PruneFrom(w + b + v, Place(w, b, p));
    if Harmless(w, Tail(b, v), p) then exists y :: result == w + b + y else Without(result, b[0].id)
  }

  /** No channel drained from index `p` of the tail on has a frame in `w`. */
  ghost predicate Harmless(w: seq<Frame>, tail: seq<Frame>, p: nat)
    requires p < |tail|
  {
    forall f :: f in w ==> f.id !in DrainedIds(tail, p)
  }

  lemma {:induction false} BehindPhase(w: seq<Frame>, b: seq<Frame>, v: seq<Frame>, p: nat)
    requires Complete(b) && Without(w, b[0].id) && Without(v, b[0].id) && p <= |v|
    ensures BehindResult(w, b, v, p)
    decreases |v|, 2, |v| - p
  {
    if p < |v| {
      TailAt(w, b, v, p);
      TailAt(w, b, v, p + 1);
      match Judge(Tail(b, v)[p], Tail(b, v)[p + 1])
      case Keep => BehindPhase(w, b, v, p + 1);
      case DropNext => BehindDrop(w, b, v, p);
      case DrainPrevious => BehindDrain(w, b, v, p);
    } else {
      assert PruneFrom(w + b + v, Place(w, b, p)) == w + b + v;
    }
  }

  /** Frames `lo` to `hi` of the tail go; they stand at `from` to `to` in the queue. */
  lemma CutBehind(w: seq<Frame>, b: seq<Frame>, v: seq<Frame>, lo: nat, hi: nat, from: nat, to: nat)
    returns (x: seq<Frame>)
    requires b != [] && 1 <= lo < hi <= |v| + 1 && from == Place(w, b, lo) && to == Place(w, b, hi)
    ensures |x| < |v| && lo <= |x| + 1 && forall f :: f in x ==> f in v
    ensures Tail(b, v)[..lo] + Tail(b, v)[hi..] == Tail(b, x)
    ensures (w + b + v)[..from] + (w + b + v)[to..] == w + b + x
  {
    var q := w + b + v;
    x := v[..lo - 1] + v[hi - 1..];
    assert Tail(b, v)[..lo] + Tail(b, v)[hi..] == Tail(b, x);
    assert q[..from] == w + b + v[..lo - 1] && q[to..] == v[hi - 1..];
    assert forall f :: f in x ==> f in v;
  }

  lemma SameResult(w: seq<Frame>, b: seq<Frame>, v: seq<Frame>, p: nat, x: seq<Frame>, k: nat)
    requires b != [] && p <= |v| && k <= |x| && BehindResult(w, b, x, k)
    requires SameEnd(w + b + v, Place(w, b, p), w + b + x, Place(w, b, k))
    requires Harmless(w, Tail(b, v), p) <==> Harmless(w, Tail(b, x), k)
    ensures BehindResult(w, b, v, p)
  {}

  lemma DropInStep(q: seq<Frame>, i: nat, r: seq<Frame>, tail: seq<Frame>, p: nat, rest: seq<Frame>)
    requires i + 1 < |q| && p + 1 < |tail| && q[i] == tail[p] && q[i + 1] == tail[p + 1]
    requires Judge(tail[p], tail[p + 1]) == DropNext
    requires r == q[..i + 1] + q[i + 2..] && rest == tail[..p + 1] + tail[p + 2..]
    ensures SameEnd(q, i, r, i) && DrainedIds(tail, p) == DrainedIds(rest, p)
  {
    OnDrop(q, i, r);
    DrainedOnDrop(tail, p, rest);
  }

  lemma {:induction false} BehindDrop(w: seq<Frame>, b: seq<Frame>, v: seq<Frame>, p: nat)
    requires Complete(b) && Without(w, b[0].id) && Without(v, b[0].id) && p < |v|
    requires Judge(Tail(b, v)[p], Tail(b, v)[p + 1]) == DropNext
    ensures BehindResult(w, b, v, p)
    decreases |v|, 1, 0
  {
    TailPair(w, b, v, p);
    var x := CutBehind(w, b, v, p + 1, p + 2, Place(w, b, p) + 1, Place(w, b, p) + 2);
    DropInStep(w + b + v, Place(w, b, p), w + b + x, Tail(b, v), p, Tail(b, x));
    BehindPhase(w, b, x, p);
    SameResult(w, b, v, p, x, p);
  }

  lemma {:induction false} BehindDrain(w: seq<Frame>, b: seq<Frame>, v: seq<Frame>, p: nat)
    requires Complete(b) && Without(w, b[0].id) && Without(v, b[0].id) && p < |v|
    requires Judge(Tail(b, v)[p], Tail(b, v)[p + 1]) == DrainPrevious
    ensures BehindResult(w, b, v, p)
    decreases |v|, 1, 1
  {
    assert p > 0 && Tail(b, v)[p] == v[p - 1];
    if Without(w, v[p - 1].id) {
      BehindDrainAlone(w, b, v, p);
    } else {
      BehindDrainOver(w, b, v, p);
    }
  }

  lemma BehindDrainOver(w: seq<Frame>, b: seq<Frame>, v: seq<Frame>, p: nat)
    requires Complete(b) && Without(w, b[0].id) && Without(v, b[0].id) && 0 < p < |v|
    requires Judge(Tail(b, v)[p], Tail(b, v)[p + 1]) == DrainPrevious && !Without(w, Tail(b, v)[p].id)
    ensures BehindResult(w, b, v, p)
  {
    TailAt(w, b, v, p);
    TailAt(w, b, v, p + 1);
    var id := Tail(b, v)[p].id;
    assert id in DrainedIds(Tail(b, v), p);
    assert !Harmless(w, Tail(b, v), p);
    DrainOver(w, b, v, Place(w, b, p));
  }

  /** Both queues drain from their own first frame of the channel, in step. */
  lemma DrainInStep(q: seq<Frame>, i: nat, first: nat, r: seq<Frame>, j: nat,
                    tail: seq<Frame>, p: nat, least: nat, rest: seq<Frame>, k: nat)
    requires i + 1 < |q| && p + 1 < |tail| && q[i] == tail[p] && q[i + 1] == tail[p + 1]
    requires Judge(tail[p], tail[p + 1]) == DrainPrevious
    requires first == FirstOf(q, q[i].id) && r == q[..first] + q[i + 1..] && first == j + 1
    requires least == FirstOf(tail, tail[p].id) && rest == tail[..least] + tail[p + 1..] && least == k + 1
    ensures j < |r| && k < |rest| && SameEnd(q, i, r, j)
    ensures DrainedIds(tail, p) == {tail[p].id} + DrainedIds(rest, k)
  {
    OnDrain(q, i, first, r, j);
    DrainedOnDrain(tail, p, least, rest, k);
  }

  lemma TailPair(w: seq<Frame>, b: seq<Frame>, v: seq<Frame>, p: nat)
    requires b != [] && p < |v|
    ensures var q, i := w + b + v, Place(w, b, p);
            q[i] == Tail(b, v)[p] && q[i + 1] == Tail(b, v)[p + 1]
  {
    TailAt(w, b, v, p);
    TailAt(w, b, v, p + 1);
  }

  /** A drain that stays behind the channel takes the same frames of the queue and of the tail. */
  lemma AloneStep(w: seq<Frame>, b: seq<Frame>, v: seq<Frame>, p: nat) returns (x: seq<Frame>, k: nat)
    requires Complete(b) && Without(v, b[0].id) && 0 < p < |v|
    requires Judge(Tail(b, v)[p], Tail(b, v)[p + 1]) == DrainPrevious && Without(w, Tail(b, v)[p].id)
    ensures |x| < |v| && k <= |x| && forall f :: f in x ==> f in v
    ensures SameEnd(w + b + v, Place(w, b, p), w + b + x, Place(w, b, k))
    ensures DrainedIds(Tail(b, v), p) == {Tail(b, v)[p].id} + DrainedIds(Tail(b, x), k)
  {
    FirstBehind(w, b, v, p);
    var least := FirstOf(Tail(b, v), Tail(b, v)[p].id);
    x := CutBehind(w, b, v, least, p + 1, Place(w, b, least), Place(w, b, p) + 1);
    k := least - 1;
    TailPair(w, b, v, p);
    DrainInStep(w + b + v, Place(w, b, p), Place(w, b, least), w + b + x, Place(w, b, k),
                Tail(b, v), p, least, Tail(b, x), k);
  }

  lemma {:induction false} BehindDrainAlone(w: seq<Frame>, b: seq<Frame>, v: seq<Frame>, p: nat)
    requires Complete(b) && Without(w, b[0].id) && Without(v, b[0].id) && 0 < p < |v|
    requires Judge(Tail(b, v)[p], Tail(b, v)[p + 1]) == DrainPrevious && Without(w, Tail(b, v)[p].id)
    ensures BehindResult(w, b, v, p)
    decreases |v|, 1, 0
  {
    var x, k := AloneStep(w, b, v, p);
    BehindPhase(w, b, x, k);
    SameResult(w, b, v, p, x, k);
  }

  /** Nothing up to the tail's first frame with the id has it. */
  lemma NoneBefore(w: seq<Frame>, b: seq<Frame>, v: seq<Frame>, id: ChannelId, first: nat, k: nat)
    requires Complete(b) && Without(w, id) && id != b[0].id && first <= |v| && k < Place(w, b, first)
    requires forall t :: 0 <= t < first ==> Tail(b, v)[t].id != id
    ensures (w + b + v)[k].id != id
  {
    if k < |w| {
      assert (w + b + v)[k] in w;
    } else if k < |w| + |b| - 1 {
      assert (w + b + v)[k] == b[k - |w|];
    } else {
      TailAt(w, b, v, k - (|w| + |b| - 1));
    }
  }

  lemma FirstBehind(w: seq<Frame>, b: seq<Frame>, v: seq<Frame>, p: nat)
    requires Complete(b) && Without(v, b[0].id) && 0 < p <= |v| && Without(w, Tail(b, v)[p].id)
    ensures var first := FirstOf(Tail(b, v), Tail(b, v)[p].id);
            && 0 < first <= p && (w + b + v)[Place(w, b, p)] == Tail(b, v)[p]
            && FirstOf(w + b + v, Tail(b, v)[p].id) == Place(w, b, first)
  {
    var id := Tail(b, v)[p].id;
    assert Tail(b, v)[p] in v;
    assert Tail(b, v)[0].id == b[0].id;
    var first := FirstOf(Tail(b, v), id);
    forall k | 0 <= k < Place(w, b, first) ensures (w + b + v)[k].id != id {
      NoneBefore(w, b, v, id, first, k);
    }
    TailAt(w, b, v, first);
    TailAt(w, b, v, p);
    FirstAt(w + b + v, id, Place(w, b, first));
  }

  /** A drain from behind the channel to before it leaves none of it. */
  lemma DrainOver(w: seq<Frame>, b: seq<Frame>, v: seq<Frame>, i: nat)
    requires Complete(b) && Without(w, b[0].id) && Without(v, b[0].id) && |w + b| <= i && i + 1 < |w + b + v|
    requires Judge((w + b + v)[i], (w + b + v)[i + 1]) == DrainPrevious && !Without(w, (w + b + v)[i].id)
    ensures Without(PruneFrom(w + b + v, i), b[0].id)
  {
    var q := w + b + v;
    var id, m := q[i].id, |w + b|;
    var f :| f in w && f.id == id;
    var k :| 0 <= k < |w| && w[k] == f;
    assert q[k].id == id;
    var first := FirstOf(q, id);
    assert first <= k;
    var rest := q[..first] + q[i + 1..];
    assert rest == w[..first] + v[i + 1 - m..];
    assert forall g :: g in rest ==> g in w || g in v;
    var i' := if first == 0 then 0 else first - 1;
    OnDrain(q, i, first, rest, i');
    PruneSubsequence(rest, i');
    SubsequenceMembers(PruneFrom(rest, i'), rest);
  }

  lemma SubsequenceMembers(a: seq<Frame>, b: seq<Frame>)
    requires Subsequence(a, b)
    ensures forall f :: f in a ==> f in b
  {
    var idx :| Picks(a, b, idx);
    forall f | f in a ensures f in b {
      var k :| 0 <= k < |a| && a[k] == f;
      assert b[idx[k]] == f;
    }
  }

  /** What is left of `u` when the loop comes to a frame behind it. */
  ghost function LeftBefore(u: seq<Frame>, f: Frame): seq<Frame> {
    var r := PruneFrom(u + [f], 0);
    if r == [] then [] else r[..|r| - 1]
  }

  /** Exactly when a complete channel whose id occurs nowhere else survives pruning in one piece: no
      channel that is drained behind it, looked at from its last frame on, has a frame left before it.
      Otherwise nothing of it survives. */
  lemma CompleteSurvivesExactly(u: seq<Frame>, b: seq<Frame>, v: seq<Frame>)
    requires Complete(b) && Without(u, b[0].id) && Without(v, b[0].id)
    ensures (exists x, y :: PruneFrom(u + b + v, 0) == x + b + y)
            <==> Harmless(LeftBefore(u, b[0]), Tail(b, v), 0)
    ensures (exists x, y :: PruneFrom(u + b + v, 0) == x + b + y) || Without(PruneFrom(u + b + v, 0), b[0].id)
  {
    var w := LeftIs(u, b, v);
    ThroughPhase(w, b, v, 0);
    BehindPhase(w, b, v, 0);
    WholeOrNone(w, b, v);
    assert SameEnd(u + b + v, 0, w + b + v, Place(w, b, 0));
  }

  lemma LeftIs(u: seq<Frame>, b: seq<Frame>, v: seq<Frame>) returns (w: seq<Frame>)
    requires Complete(b) && Without(u, b[0].id)
    ensures w == LeftBefore(u, b[0]) && SameEnd(u + b + v, 0, w + b + v, |w|) && forall f :: f in w ==> f in u
  {
    w := BeforePhase(u, b, v, 0);
    assert (w + [b[0]])[..|w|] == w;
  }

  lemma WholeOrNone(w: seq<Frame>, b: seq<Frame>, v: seq<Frame>)
    requires b != [] && BehindResult(w, b, v, 0)
    ensures var result := PruneFrom(w + b + v, Place(w, b, 0));
            && ((exists x, y :: result == x + b + y) <==> Harmless(w, Tail(b, v), 0))
            && ((exists x, y :: result == x + b + y) || Without(result, b[0].id))
  {
    var result := PruneFrom(w + b + v, Place(w, b, 0));
    if x, y :| result == x + b + y {
      assert result[|x|] == b[0];
      assert b[0] in result;
    }
  }

  /** No frame of `u` or `v` has an id of `b`, and none of `v` an id of `u`. */
  predicate Apart(u: seq<Frame>, b: seq<Frame>, v: seq<Frame>) {
    && (forall f, g :: f in b && g in u ==> f.id != g.id)
    && (forall f, g :: f in b && g in v ==> f.id != g.id)
    && (forall f, g :: f in u && g in v ==> f.id != g.id)
  }

  /** Only ids of the queue are drained. */
  lemma {:induction false} DrainedAreThere(q: seq<Frame>, i: nat, id: ChannelId)
    requires i < |q| && id in DrainedIds(q, i)
    ensures !Without(q, id)
    decreases |q|, |q| - i
  {
    match Judge(q[i], q[i + 1])
    case Keep => DrainedAreThere(q, i + 1, id);
    case DropNext =>
      var r := q[..i + 1] + q[i + 2..];
      DrainedAreThere(r, i, id);
      assert forall f :: f in r ==> f in q;
    case DrainPrevious =>
      if id != q[i].id {
        var first := FirstOf(q, q[i].id);
        var r := q[..first] + q[i + 1..];
        DrainedAreThere(r, if first == 0 then 0 else first - 1, id);
        assert forall f :: f in r ==> f in q;
      }
  }

  /** What a caller can see to: a complete channel survives in one piece if its id occurs nowhere else
      and no other id occurs on both sides of it. Without the second condition it may not: see
      DrainLosesClosedChannel, where it is the channel of `b`. */
  lemma CompleteSurvives(u: seq<Frame>, b: seq<Frame>, v: seq<Frame>)
    requires Complete(b) && Apart(u, b, v)
    ensures exists x, y :: PruneFrom(u + b + v, 0) == x + b + y
  {
    assert b[0] in b && b[|b| - 1] in b;
    var w := LeftIs(u, b, v);
    CompleteSurvivesExactly(u, b, v);
    forall f | f in w ensures f.id !in DrainedIds(Tail(b, v), 0) {
      if f.id in DrainedIds(Tail(b, v), 0) { DrainedAreThere(Tail(b, v), 0, f.id); }
    }
  }

  class FrameQueue {
    var queue: seq<Frame>

    constructor ()
      ensures queue == []
    {
      queue := [];
    }

    /** `prune`, with the fork check as a parameter (the source fixes it to false). The loop bound
        `len - 1` is only meaningful on a non-empty queue. */
    method Prune(holoceneActive: bool)
      requires holoceneActive ==> queue != []
      modifies this
      ensures queue == if holoceneActive then PruneFrom(old(queue), 0) else old(queue)
    {
      if !holoceneActive { return; }
      var i := 0;
      while i < |queue| - 1
        invariant 0 <= i < |queue|
        invariant PruneFrom(queue, i) == PruneFrom(old(queue), 0)
        decreases |queue|, |queue| - i
      {
        var prevFrame, nextFrame := queue[i], queue[i + 1];
        var extendsChannel := prevFrame.id == nextFrame.id;
        if extendsChannel && (prevFrame.number + 1) % 0x1_0000 != nextFrame.number {
          queue := queue[..i + 1] + queue[i + 2..];
          continue;
        }
        if extendsChannel && prevFrame.isLast {
          queue := queue[..i + 1] + queue[i + 2..];
          continue;
        }
        if !extendsChannel && nextFrame.number != 0 {
          queue := queue[..i + 1] + queue[i + 2..];
          continue;
        }
        if !extendsChannel && !prevFrame.isLast && nextFrame.number == 0 {
          var firstFrame := FirstOf(queue, prevFrame.id);
          var drained := i + 1 - firstFrame;
          queue := queue[..firstFrame] + queue[i + 1..];
          i := if i < drained then 0 else i - drained;
          continue;
        }
        i := i + 1;
      }
    }

    /** `load_frames` when the stage below answered `next` and the origin is known or not. */
    method LoadFrames(next: Result<bytes, PipelineErrorKind>, hasOrigin: bool, holoceneActive: bool)
      returns (r: Result<(), PipelineErrorKind>)
      modifies this
      ensures old(queue) != [] ==> queue == old(queue) && r == Ok(())
      ensures old(queue) == [] && next.Err? ==> queue == [] && r == Err(next.error)
      ensures old(queue) == [] && next.Ok? && Parsed(next.value).Err? ==> queue == [] && r == Ok(())
      ensures old(queue) == [] && next.Ok? && Parsed(next.value).Ok? && hasOrigin ==>
                && Parsed(next.value).value != []
                && r == Ok(())
                && queue
                   == (if holoceneActive then PruneFrom(Parsed(next.value).value, 0) else Parsed(next.value).value)
                && (holoceneActive ==> WellFormed(queue) && queue != [])
      ensures old(queue) == [] && next.Ok? && Parsed(next.value).Ok? && !hasOrigin ==>
                queue == Parsed(next.value).value && r == Err(Critical(MissingOrigin))
    {
      if queue != [] { return Ok(()); }
      match next
      case Err(e) => return Err(e);
      case Ok(data) =>
        var frames := ParseFrames(data);
        if frames.Err? { return Ok(()); }
        queue := queue + frames.value;
        assert queue == frames.value;
        if !hasOrigin { return Err(Critical(MissingOrigin)); }
        PruneSound(queue, 0);
        Prune(holoceneActive);
        return Ok(());
    }

    /** `next_frame`: load if empty, then the front. */
    method NextFrame(next: Result<bytes, PipelineErrorKind>, hasOrigin: bool, holoceneActive: bool)
      returns (r: Result<Frame, PipelineErrorKind>)
      modifies this
      ensures old(queue) != [] ==> r.Ok? && [r.value] + queue == old(queue)
      ensures old(queue) == [] && next.Err? ==> queue == [] && r == Err(next.error)
      ensures old(queue) == [] && next.Ok? && Parsed(next.value).Err? ==>
                queue == [] && r == Err(Temporary(NotEnoughData))
      ensures old(queue) == [] && next.Ok? && Parsed(next.value).Ok? && !hasOrigin ==>
                queue == Parsed(next.value).value && r == Err(Critical(MissingOrigin))
      ensures old(queue) == [] && next.Ok? && Parsed(next.value).Ok? && hasOrigin ==>
                && Parsed(next.value).value != []
                && r.Ok?
                && [r.value] + queue
                   == if holoceneActive then PruneFrom(Parsed(next.value).value, 0) else Parsed(next.value).value
    {
      var loaded := LoadFrames(next, hasOrigin, holoceneActive);
      if loaded.Err? { return Err(loaded.error); }
      if queue == [] { return Err(Temporary(NotEnoughData)); }
      r := Ok(queue[0]);
      queue := queue[1..];
    }
  }
}
