/** Reloading the blockhash queue from the recent-blockhashes sysvar, registering the new
    blockhash and persisting: `crates/executor/svm/src/blockhash_queue.rs`,
    `crates/executor/svm/src/lib.rs` and `crates/primitives/src/sysvar/recent_blockhashes.rs`. */
module RecentBlockhashes {
  import opened Bytes
  import opened Blocks
  import opened BlockhashQueue

  /** Solana's `MAX_PROCESSING_AGE`, the number of entries the sysvar keeps. */
  const MAX_ENTRIES: u64 := 150

  // ------------------------------------------------------------------
  // Reloading
  // ------------------------------------------------------------------

  /** The first `n` entries collected into a map; a later entry overwrites an earlier one. */
  function Collected(recent: seq<Entry>, n: nat): map<Hash, HashInfo>
    requires n <= |recent| < TWO64
  {
    if n == 0 then map[]
    else
      var e := recent[n - 1];
      Collected(recent, n - 1)[e.blockhash := HashInfo(e.lamportsPerSignature, |recent| - (n - 1))]
  }

  /** The queue rebuilt from the persisted list, newest entry first. */
  function FromSysvar(recent: seq<Entry>): Queue
    requires |recent| < TWO64
  {
    Queue(|recent|, if recent == [] then None else Some(recent[0].blockhash),
          Collected(recent, |recent|), MAX_RECENT_BLOCKHASHES)
  }

  ghost predicate Distinct(recent: seq<Entry>) {
    forall i, j :: 0 <= i < j < |recent| ==> recent[i].blockhash != recent[j].blockhash
  }

  function Reversed(xs: seq<Entry>): (r: seq<Entry>)
    ensures |r| == |xs|
    ensures forall i :: 0 <= i < |xs| ==> r[i] == xs[|xs| - 1 - i]
  {
    seq(|xs|, i requires 0 <= i < |xs| => xs[|xs| - 1 - i])
  }

  lemma {:induction false} CollectedOnly(recent: seq<Entry>, n: nat, h: Hash) returns (i: nat)
    requires n <= |recent| < TWO64 && h in Collected(recent, n)
    ensures i < n && recent[i].blockhash == h
  {
    if recent[n - 1].blockhash == h {
      i := n - 1;
    } else {
      i := CollectedOnly(recent, n - 1, h);
    }
  }

  lemma {:induction false} CollectedAt(recent: seq<Entry>, n: nat, i: nat)
    requires i < n <= |recent| < TWO64 && Distinct(recent)
    ensures recent[i].blockhash in Collected(recent, n)
    ensures Collected(recent, n)[recent[i].blockhash] == HashInfo(recent[i].lamportsPerSignature, |recent| - i)
  {
    if i < n - 1 {
      CollectedAt(recent, n - 1, i);
    }
  }

  lemma ReversedLast(recent: seq<Entry>, i: nat)
    requires Distinct(recent) && i < |recent|
    ensures LastOf(Reversed(recent), recent[i].blockhash) == |recent| - i
  {
    var h := recent[i].blockhash;
    var log := Reversed(recent);
    LastOfLast(log, h, |recent| - 1 - i);
    var n := LastOf(log, h);
    assert log[n - 1] == recent[|recent| - n];
  }

  lemma ReloadTracksHash(recent: seq<Entry>, h: Hash)
    requires Distinct(recent) && |recent| < TWO64
    ensures TracksHash(FromSysvar(recent), Reversed(recent), h)
    ensures h in FromSysvar(recent).hashes <==> LastOf(Reversed(recent), h) > 0
  {
    var n := LastOf(Reversed(recent), h);
    if n > 0 {
      assert Reversed(recent)[n - 1] == recent[|recent| - n];
      CollectedAt(recent, |recent|, |recent| - n);
    }
    if h in FromSysvar(recent).hashes {
      var i := CollectedOnly(recent, |recent|, h);
      CollectedAt(recent, |recent|, i);
      ReversedLast(recent, i);
    }
  }

  lemma ReplayTracksHash(recent: seq<Entry>, h: Hash)
    requires Distinct(recent) && |recent| <= MAX_RECENT_BLOCKHASHES
    ensures TracksHash(RegisterAll(New(MAX_RECENT_BLOCKHASHES), Reversed(recent)), Reversed(recent), h)
    ensures RegisterAll(New(MAX_RECENT_BLOCKHASHES), Reversed(recent)).maxAge == MAX_RECENT_BLOCKHASHES
  {
    RegisterAllTracks(MAX_RECENT_BLOCKHASHES, Reversed(recent));
  }

  /** Rebuilding from the list is registering its entries one by one, oldest first. */
  lemma ReloadIsReplay(recent: seq<Entry>)
    requires Distinct(recent) && |recent| <= MAX_RECENT_BLOCKHASHES
    ensures FromSysvar(recent) == RegisterAll(New(MAX_RECENT_BLOCKHASHES), Reversed(recent))
  {
    var q, q' := FromSysvar(recent), RegisterAll(New(MAX_RECENT_BLOCKHASHES), Reversed(recent));
    RegisterAllTracks(MAX_RECENT_BLOCKHASHES, Reversed(recent));
    assert q.lastHash == q'.lastHash;
    forall h ensures h in q.hashes <==> h in q'.hashes
      ensures h in q.hashes ==> h in q'.hashes && q.hashes[h] == q'.hashes[h]
    {
      ReloadTracksHash(recent, h);
      ReplayTracksHash(recent, h);
    }
    assert q.hashes == q'.hashes;
  }

  // ------------------------------------------------------------------
  // Persisting
  // ------------------------------------------------------------------

  /** `h` is the one hash with the highest index. */
  ghost predicate Newest(hashes: map<Hash, HashInfo>, h: Hash) {
    h in hashes && forall k :: k in hashes && k != h ==> hashes[k].hashIndex < hashes[h].hashIndex
  }

  /** `all` lists the whole of `hashes`, by falling index. */
  ghost predicate Enumerates(hashes: map<Hash, HashInfo>, all: seq<Entry>) {
    if all == [] then hashes == map[]
    else
      && Newest(hashes, all[0].blockhash)
      && hashes[all[0].blockhash].lamportsPerSignature == all[0].lamportsPerSignature
      && Enumerates(hashes - {all[0].blockhash}, all[1..])
  }

  function Take(xs: seq<Entry>, n: nat): seq<Entry> {
    if |xs| <= n then xs else xs[..n]
  }

  /** The top of the heap. */
  method PeekNewest(hashes: map<Hash, HashInfo>) returns (h: Hash)
    requires hashes != map[]
    ensures h in hashes
    ensures forall k :: k in hashes ==> hashes[k].hashIndex <= hashes[h].hashIndex
  {
    var rest := hashes.Keys;
    h :| h in rest;
    rest := rest - {h};
    while rest != {}
      invariant h in hashes && rest <= hashes.Keys
      invariant forall k :: k in hashes && k !in rest ==> hashes[k].hashIndex <= hashes[h].hashIndex
      decreases |rest|
    {
      var k :| k in rest;
      if hashes[k].hashIndex > hashes[h].hashIndex {
        h := k;
      }
      rest := rest - {k};
    }
  }

  /** `IntoIterSorted::new(heap).take(limit).collect()`: the indices are distinct, so there
      is one way to sort, and the head of that enumeration comes out. */
  method TakeNewest(hashes: map<Hash, HashInfo>, limit: nat, ghost all: seq<Entry>) returns (out: seq<Entry>)
    requires Enumerates(hashes, all)
    ensures out == Take(all, limit)
  {
    out := [];
    var heap := hashes;
    ghost var rest := all;
    while |out| < limit && heap != map[]
      invariant |out| <= limit
      invariant all == out + rest
      invariant Enumerates(heap, rest)
      decreases |heap|
    {
      var h := PeekNewest(heap);
      assert rest[0] == Entry(h, heap[h].lamportsPerSignature);
      out := out + [Entry(h, heap[h].lamportsPerSignature)];
      heap := heap - {h};
      rest := rest[1..];
    }
    if |out| < limit {
      assert rest == [];
    }
  }

  // ------------------------------------------------------------------
  // One block: reload, register, persist
  // ------------------------------------------------------------------

  /** The list without the entry of `h`. */
  function Without(recent: seq<Entry>, h: Hash): seq<Entry> {
    if recent == [] then []
    else if recent[0].blockhash == h then Without(recent[1..], h)
    else [recent[0]] + Without(recent[1..], h)
  }

  /** The reloaded entries from position `k` on, except that of `h`. */
  ghost function Older(recent: seq<Entry>, h: Hash, k: nat): map<Hash, HashInfo>
    requires k <= |recent| < TWO64
    decreases |recent| - k
  {
    if k == |recent| then map[]
    else if recent[k].blockhash == h then Older(recent, h, k + 1)
    else Older(recent, h, k + 1)[recent[k].blockhash := HashInfo(recent[k].lamportsPerSignature, |recent| - k)]
  }

  lemma {:induction false} OlderOnly(recent: seq<Entry>, h: Hash, k: nat, g: Hash) returns (i: nat)
    requires k <= |recent| < TWO64 && g in Older(recent, h, k)
    ensures k <= i < |recent| && recent[i].blockhash == g && g != h
    ensures Older(recent, h, k)[g].hashIndex <= |recent| - k
    decreases |recent| - k
  {
    if recent[k].blockhash == g {
      i := k;
      if g == h {
        i := OlderOnly(recent, h, k + 1, g);
      }
    } else {
      i := OlderOnly(recent, h, k + 1, g);
    }
  }

  lemma {:induction false} OlderAt(recent: seq<Entry>, h: Hash, k: nat, i: nat)
    requires k <= i < |recent| < TWO64 && Distinct(recent) && recent[i].blockhash != h
    ensures recent[i].blockhash in Older(recent, h, k)
    ensures Older(recent, h, k)[recent[i].blockhash] == HashInfo(recent[i].lamportsPerSignature, |recent| - i)
    decreases |recent| - k
  {
    if k < i {
      OlderAt(recent, h, k + 1, i);
    }
  }

  ghost predicate AllBelow(m: map<Hash, HashInfo>, index: int) {
    forall g :: g in m ==> m[g].hashIndex < index
  }

  /** The older entries lie below position `k`'s index. */
  lemma OlderBelow(recent: seq<Entry>, h: Hash, k: nat)
    requires k < |recent| < TWO64 && Distinct(recent)
    ensures recent[k].blockhash !in Older(recent, h, k + 1)
    ensures AllBelow(Older(recent, h, k + 1), |recent| - k)
  {
    var m := Older(recent, h, k + 1);
    forall g | g in m ensures m[g].hashIndex < |recent| - k && g != recent[k].blockhash {
      var i := OlderOnly(recent, h, k + 1, g);
    }
  }

  lemma {:induction false} OlderEnumerates(recent: seq<Entry>, h: Hash, k: nat)
    requires k <= |recent| < TWO64 && Distinct(recent)
    ensures Enumerates(Older(recent, h, k), Without(recent[k..], h))
    decreases |recent| - k
  {
    if k < |recent| {
      OlderEnumerates(recent, h, k + 1);
      assert recent[k..][1..] == recent[k + 1..];
      if recent[k].blockhash != h {
        OlderBelow(recent, h, k);
        assert Older(recent, h, k) - {recent[k].blockhash} == Older(recent, h, k + 1);
        var all := Without(recent[k..], h);
        assert all[0] == recent[k] && all[1..] == Without(recent[k + 1..], h);
      }
    }
  }

  lemma {:induction false} CollectedSize(recent: seq<Entry>, n: nat)
    requires n <= |recent| < TWO64
    ensures |Collected(recent, n)| <= n
  {
    if n > 0 {
      CollectedSize(recent, n - 1);
      SizeAfterInsert(Collected(recent, n - 1), recent[n - 1].blockhash,
                      HashInfo(recent[n - 1].lamportsPerSignature, |recent| - (n - 1)));
    }
  }

  /** The map right after a registration: a reloaded list is too short to be pruned. */
  ghost function WithNew(recent: seq<Entry>, e: Entry): map<Hash, HashInfo>
    requires |recent| < MAX_RECENT_BLOCKHASHES
  {
    Collected(recent, |recent|)[e.blockhash := HashInfo(e.lamportsPerSignature, |recent| + 1)]
  }

  lemma RegisteredIs(recent: seq<Entry>, e: Entry)
    requires |recent| < MAX_RECENT_BLOCKHASHES
    ensures Registered(FromSysvar(recent), e.blockhash, e.lamportsPerSignature).hashes == WithNew(recent, e)
  {
    CollectedSize(recent, |recent|);
  }

  lemma NewIsOlder(recent: seq<Entry>, e: Entry, g: Hash)
    requires Distinct(recent) && |recent| < MAX_RECENT_BLOCKHASHES
    requires g in Collected(recent, |recent|) && g != e.blockhash
    ensures g in Older(recent, e.blockhash, 0)
    ensures Older(recent, e.blockhash, 0)[g] == Collected(recent, |recent|)[g]
  {
    var i := CollectedOnly(recent, |recent|, g);
    CollectedAt(recent, |recent|, i);
    OlderAt(recent, e.blockhash, 0, i);
  }

  lemma OlderIsNew(recent: seq<Entry>, e: Entry, g: Hash)
    requires Distinct(recent) && |recent| < MAX_RECENT_BLOCKHASHES
    requires g in Older(recent, e.blockhash, 0)
    ensures g in Collected(recent, |recent|) && g != e.blockhash
  {
    var i := OlderOnly(recent, e.blockhash, 0, g);
    CollectedAt(recent, |recent|, i);
  }

  lemma InsertThenRemove<K, V>(c: map<K, V>, older: map<K, V>, k: K, v: V)
    requires forall g :: g in c && g != k ==> g in older && c[g] == older[g]
    requires forall g :: g in older ==> g in c && g != k
    ensures c[k := v] - {k} == older
  {
  }

  lemma WithNewRest(recent: seq<Entry>, e: Entry)
    requires Distinct(recent) && |recent| < MAX_RECENT_BLOCKHASHES
    ensures WithNew(recent, e) - {e.blockhash} == Older(recent, e.blockhash, 0)
  {
    var c, older := Collected(recent, |recent|), Older(recent, e.blockhash, 0);
    forall g | g in c && g != e.blockhash ensures g in older && c[g] == older[g] {
      NewIsOlder(recent, e, g);
    }
    forall g | g in older ensures g in c && g != e.blockhash {
      OlderIsNew(recent, e, g);
    }
    InsertThenRemove(c, older, e.blockhash, HashInfo(e.lamportsPerSignature, |recent| + 1));
  }

  /** After a registration the newest entry is the new one, then come the reloaded ones. */
  lemma NewEnumerates(recent: seq<Entry>, e: Entry)
    requires Distinct(recent) && |recent| < MAX_RECENT_BLOCKHASHES
    ensures Enumerates(WithNew(recent, e), [e] + Without(recent, e.blockhash))
  {
    var m := WithNew(recent, e);
    WithNewRest(recent, e);
    OlderEnumerates(recent, e.blockhash, 0);
    assert recent[0..] == recent;
    var all := [e] + Without(recent, e.blockhash);
    assert all[1..] == Without(recent, e.blockhash);
    forall g | g in m && g != e.blockhash ensures m[g].hashIndex < |recent| + 1 {
      assert g in m - {e.blockhash};
      var i := OlderOnly(recent, e.blockhash, 0, g);
    }
  }

  /** The entries a block reloads: the sysvar, or the genesis hash at the start of the chain. */
  function Reloaded(sysvar: seq<Entry>, genesis: Hash, parentSlot: u64): seq<Entry> {
    if sysvar == [] && parentSlot == 0 then [Entry(genesis, 0)] else sysvar
  }

  /** The list after a block with entry `e`: `e` first, an older copy dropped, 150 kept. */
  function NextSysvar(recent: seq<Entry>, e: Entry): seq<Entry> {
    Take([e] + Without(recent, e.blockhash), MAX_ENTRIES)
  }

  lemma {:induction false} WithoutSplit(a: seq<Entry>, b: seq<Entry>, h: Hash)
    ensures Without(a + b, h) == Without(a, h) + Without(b, h)
  {
    if a == [] {
      assert a + b == b;
    } else {
      assert (a + b)[1..] == a[1..] + b;
      WithoutSplit(a[1..], b, h);
    }
  }

  lemma {:induction false} WithoutNone(recent: seq<Entry>, h: Hash)
    requires forall i :: 0 <= i < |recent| ==> recent[i].blockhash != h
    ensures Without(recent, h) == recent
  {
    if recent != [] {
      WithoutNone(recent[1..], h);
    }
  }

  /** At most one entry goes. */
  lemma {:induction false} WithoutLength(recent: seq<Entry>, h: Hash)
    requires Distinct(recent)
    ensures |recent| - 1 <= |Without(recent, h)| <= |recent|
  {
    if recent != [] {
      if recent[0].blockhash == h {
        WithoutNone(recent[1..], h);
      } else {
        WithoutLength(recent[1..], h);
      }
    }
  }

  lemma {:induction false} WithoutMember(recent: seq<Entry>, h: Hash, x: Entry)
    requires x in Without(recent, h)
    ensures x in recent && x.blockhash != h
  {
    if recent[0].blockhash == h || x != recent[0] {
      WithoutMember(recent[1..], h, x);
    }
  }

  lemma {:induction false} WithoutDistinct(recent: seq<Entry>, h: Hash)
    requires Distinct(recent)
    ensures Distinct(Without(recent, h))
  {
    if recent != [] {
      var rest := Without(recent[1..], h);
      WithoutDistinct(recent[1..], h);
      forall i | 0 <= i < |rest| ensures rest[i].blockhash != recent[0].blockhash {
        WithoutMember(recent[1..], h, rest[i]);
      }
    }
  }

  lemma DistinctFront(recent: seq<Entry>, e: Entry)
    requires Distinct(recent)
    ensures Distinct([e] + Without(recent, e.blockhash))
  {
    WithoutDistinct(recent, e.blockhash);
    var rest := Without(recent, e.blockhash);
    forall i | 0 <= i < |rest| ensures rest[i].blockhash != e.blockhash {
      WithoutMember(recent, e.blockhash, rest[i]);
    }
  }

  // ------------------------------------------------------------------
  // Whole runs
  // ------------------------------------------------------------------

  /** Every hash registered so far, once, the latest registration first. */
  function Recency(log: seq<Entry>): seq<Entry> {
    if log == [] then []
    else [log[|log| - 1]] + Without(Recency(log[..|log| - 1]), log[|log| - 1].blockhash)
  }

  /** The sysvar after the given blocks on top of genesis; block `i` has parent slot `i`. */
  function SysvarAfter(genesis: Hash, blocks: seq<Entry>): seq<Entry>
    requires |blocks| < TWO64
  {
    if blocks == [] then []
    else
      var init := blocks[..|blocks| - 1];
      NextSysvar(Reloaded(SysvarAfter(genesis, init), genesis, |init|), blocks[|blocks| - 1])
  }

  lemma {:induction false} RecencyDistinct(log: seq<Entry>)
    ensures Distinct(Recency(log))
  {
    if log != [] {
      RecencyDistinct(log[..|log| - 1]);
      DistinctFront(Recency(log[..|log| - 1]), log[|log| - 1]);
    }
  }

  /** Forgetting all but the newest entries before a block does not show after it. */
  lemma TruncationInvisible(all: seq<Entry>, e: Entry)
    requires Distinct(all)
    ensures NextSysvar(Take(all, MAX_ENTRIES), e) == NextSysvar(all, e)
  {
    if |all| > MAX_ENTRIES {
      var kept, lost := all[..MAX_ENTRIES], all[MAX_ENTRIES..];
      assert all == kept + lost;
      WithoutSplit(kept, lost, e.blockhash);
      WithoutLength(kept, e.blockhash);
      var front := [e] + Without(kept, e.blockhash);
      assert [e] + Without(all, e.blockhash) == front + Without(lost, e.blockhash);
    }
  }

  function GenesisLog(genesis: Hash, blocks: seq<Entry>): seq<Entry> {
    [Entry(genesis, 0)] + blocks
  }

  /** After every run, the sysvar holds the 150 most recently registered hashes. */
  lemma {:induction false} SysvarIsRecency(genesis: Hash, blocks: seq<Entry>)
    requires 0 < |blocks| < TWO64
    ensures SysvarAfter(genesis, blocks) == Take(Recency(GenesisLog(genesis, blocks)), MAX_ENTRIES)
  {
    var init, e := blocks[..|blocks| - 1], blocks[|blocks| - 1];
    var log := GenesisLog(genesis, init);
    assert GenesisLog(genesis, blocks)[..|blocks|] == log;
    if init == [] {
      assert log[..0] == [];
      assert Recency(log) == [Entry(genesis, 0)];
    } else {
      SysvarIsRecency(genesis, init);
      RecencyDistinct(log);
      TruncationInvisible(Recency(log), e);
    }
  }

  lemma {:induction false} RecencyOfDistinct(log: seq<Entry>)
    requires Distinct(log)
    ensures Recency(log) == Reversed(log)
  {
    if log != [] {
      var init, e := log[..|log| - 1], log[|log| - 1];
      RecencyOfDistinct(init);
      WithoutNone(Reversed(init), e.blockhash);
      assert Reversed(log) == [e] + Reversed(init);
    }
  }

  /** With distinct blockhashes these are the newest 150 blocks, newest first. */
  lemma NewestBlocksKept(genesis: Hash, blocks: seq<Entry>)
    requires 0 < |blocks| < TWO64 && Distinct(GenesisLog(genesis, blocks))
    ensures SysvarAfter(genesis, blocks) == Take(Reversed(GenesisLog(genesis, blocks)), MAX_ENTRIES)
  {
    SysvarIsRecency(genesis, blocks);
    RecencyOfDistinct(GenesisLog(genesis, blocks));
  }

  lemma {:induction false} LastOfSuffix(log: seq<Entry>, k: nat, h: Hash)
    requires k <= |log|
    ensures LastOf(log[k..], h) == if LastOf(log, h) > k then LastOf(log, h) - k else 0
    decreases |log|
  {
    if k < |log| && log[|log| - 1].blockhash != h {
      var init := log[..|log| - 1];
      LastOfSuffix(init, k, h);
      assert log[k..][..|log| - k - 1] == init[k..];
    }
  }

  lemma ReloadAnswer(recent: seq<Entry>, h: Hash)
    requires Distinct(recent) && |recent| <= MAX_ENTRIES
    ensures QueueAnswer(FromSysvar(recent), h, MAX_ENTRIES) == ListAnswer(Reversed(recent), h, MAX_ENTRIES - 1)
  {
    ReloadTracksHash(recent, h);
    var n := LastOf(Reversed(recent), h);
    if n > 0 {
      Unwrapped(|recent|, MAX_ENTRIES, n);
    }
  }

  /** Dropping the oldest registrations does not change answers within what is left. */
  lemma SuffixAnswer(log: seq<Entry>, k: nat, h: Hash)
    requires k <= |log|
    requires |log| - k == MAX_ENTRIES || (k == 0 && |log| <= MAX_ENTRIES)
    ensures ListAnswer(log[k..], h, MAX_ENTRIES - 1) == ListAnswer(log, h, MAX_ENTRIES - 1)
  {
    LastOfSuffix(log, k, h);
  }

  lemma NewestAsSuffix(log: seq<Entry>) returns (k: nat)
    requires Distinct(log)
    ensures k <= |log| && (|log| - k == MAX_ENTRIES || (k == 0 && |log| <= MAX_ENTRIES))
    ensures var recent := Take(Reversed(log), MAX_ENTRIES);
            Distinct(recent) && |recent| <= MAX_ENTRIES && Reversed(recent) == log[k..]
  {
    k := if |log| <= MAX_ENTRIES then 0 else |log| - MAX_ENTRIES;
  }

  lemma NewestAnswer(log: seq<Entry>, h: Hash)
    requires Distinct(log)
    ensures QueueAnswer(FromSysvar(Take(Reversed(log), MAX_ENTRIES)), h, MAX_ENTRIES)
            == ListAnswer(log, h, MAX_ENTRIES - 1)
  {
    var k := NewestAsSuffix(log);
    ReloadAnswer(Take(Reversed(log), MAX_ENTRIES), h);
    SuffixAnswer(log, k, h);
  }

  /** What the next block's transactions may refer to: a blockhash passes the age check iff
      it is one of the newest 150, and its age and fee are those of the full list of blocks.
      The check itself would admit age 150; the persisted list has already dropped it. */
  lemma NextBlockSees(genesis: Hash, blocks: seq<Entry>, h: Hash)
    requires 0 < |blocks| < TWO64 && Distinct(GenesisLog(genesis, blocks))
    ensures |SysvarAfter(genesis, blocks)| <= MAX_ENTRIES
    ensures QueueAnswer(FromSysvar(SysvarAfter(genesis, blocks)), h, MAX_ENTRIES)
            == ListAnswer(GenesisLog(genesis, blocks), h, MAX_ENTRIES - 1)
  {
    NewestBlocksKept(genesis, blocks);
    NewestAnswer(GenesisLog(genesis, blocks), h);
  }

  // ------------------------------------------------------------------
  // The queue object and a block
  // ------------------------------------------------------------------

  class HashQueue {
    var lastHashIndex: u64
    var lastHash: Option<Hash>
    var hashes: map<Hash, HashInfo>
    const maxAge: u64

    function State(): Queue
      reads this
    {
      Queue(lastHashIndex, lastHash, hashes, maxAge)
    }

    constructor (maxAge: u64)
      ensures State() == New(maxAge)
    {
      lastHashIndex, lastHash, hashes, this.maxAge := 0, None, map[], maxAge;
    }

    constructor FromRecent(recent: seq<Entry>)
      requires |recent| < TWO64
      ensures State() == FromSysvar(recent)
    {
      var collected: map<Hash, HashInfo> := map[];
      for i := 0 to |recent|
        invariant collected == Collected(recent, i)
      {
        collected := collected[recent[i].blockhash := HashInfo(recent[i].lamportsPerSignature, |recent| - i)];
      }
      hashes := collected;
      lastHashIndex := |recent|;
      lastHash := if recent == [] then None else Some(recent[0].blockhash);
      maxAge := MAX_RECENT_BLOCKHASHES;
    }

    method RegisterHash(h: Hash, fee: u64)
      modifies this
      ensures State() == Registered(old(State()), h, fee)
    {
      lastHashIndex := (lastHashIndex + 1) % TWO64;
      if |hashes| >= maxAge {
        hashes := map k | k in hashes && IndexValid(lastHashIndex, maxAge, hashes[k].hashIndex) :: hashes[k];
      }
      hashes := hashes[h := HashInfo(fee, lastHashIndex)];
      lastHash := Some(h);
    }
  }

  lemma FirstSysvar(genesis: Hash, e: Entry)
    ensures NextSysvar([Entry(genesis, 0)], e) == if e.blockhash == genesis then [e] else [e, Entry(genesis, 0)]
  {
    var recent := [Entry(genesis, 0)];
    assert recent[1..] == [];
    assert Without(recent, e.blockhash) == if e.blockhash == genesis then [] else recent + [];
  }

  /** One block's use of the queue: reload (the genesis hash at the start; an empty list has
      no last hash, and the block cannot begin), register the new blockhash, persist. */
  method PersistBlockhash(sysvar: seq<Entry>, genesis: Hash, parentSlot: u64, e: Entry) returns (r: Option<seq<Entry>>)
    requires Distinct(sysvar) && |sysvar| <= MAX_ENTRIES
    ensures r == if Reloaded(sysvar, genesis, parentSlot) == [] then None
                 else Some(NextSysvar(Reloaded(sysvar, genesis, parentSlot), e))
    ensures r == None <==> sysvar == [] && parentSlot != 0
    ensures sysvar != [] ==> r == Some(Take([e] + Without(sysvar, e.blockhash), 150))
    ensures sysvar == [] && parentSlot == 0 ==>
              r == Some(if e.blockhash == genesis then [e] else [e, Entry(genesis, 0)])
    ensures r.Some? ==> Distinct(r.value) && |r.value| <= MAX_ENTRIES
  {
    var recent := sysvar;
    if recent == [] && parentSlot == 0 {
      recent := [Entry(genesis, 0)];
      FirstSysvar(genesis, e);
    }
    var queue := new HashQueue.FromRecent(recent);
    if queue.lastHash == None {
      return None;
    }
    queue.RegisterHash(e.blockhash, e.lamportsPerSignature);
    RegisteredIs(recent, e);
    NewEnumerates(recent, e);
    DistinctFront(recent, e);
    var persisted := TakeNewest(queue.hashes, MAX_ENTRIES, [e] + Without(recent, e.blockhash));
    r := Some(persisted);
  }
}
