/** The queue of recent blockhashes: `crates/executor/svm/src/blockhash_queue.rs`. */
module BlockhashQueue {
  import opened Bytes
  import opened Blocks
  import opened Sets

  /** Solana's `MAX_RECENT_BLOCKHASHES`. */
  const MAX_RECENT_BLOCKHASHES: u64 := 300

  datatype HashInfo = HashInfo(lamportsPerSignature: u64, hashIndex: u64)

  datatype Queue = Queue(lastHashIndex: u64, lastHash: Option<Hash>, hashes: map<Hash, HashInfo>, maxAge: u64)

  /** A blockhash with its fee: a registration, and an entry of the persisted list. */
  datatype Entry = Entry(blockhash: Hash, lamportsPerSignature: u64)

  function New(maxAge: u64): Queue {
    Queue(0, None, map[], maxAge)
  }

  /** `is_hash_index_valid`, with the wrapping subtraction of an unchecked build. */
  predicate IndexValid(last: u64, maxAge: u64, index: u64) {
    (last - index) % TWO64 <= maxAge
  }

  /** What `retain` keeps, once the queue is full. */
  function Kept(q: Queue): map<Hash, HashInfo> {
    var last: u64 := (q.lastHashIndex + 1) % TWO64;
    if |q.hashes| >= q.maxAge
    then map k | k in q.hashes && IndexValid(last, q.maxAge, q.hashes[k].hashIndex) :: q.hashes[k]
    else q.hashes
  }

  function Registered(q: Queue, h: Hash, fee: u64): Queue {
    var last: u64 := (q.lastHashIndex + 1) % TWO64;
    Queue(last, Some(h), Kept(q)[h := HashInfo(fee, last)], q.maxAge)
  }

  /** `get_hash_info_if_valid` */
  function InfoIfValid(q: Queue, h: Hash, maxAge: u64): Option<HashInfo> {
    if h in q.hashes && IndexValid(q.lastHashIndex, maxAge, q.hashes[h].hashIndex) then Some(q.hashes[h]) else None
  }

  /** `get_hash_age` */
  function HashAge(q: Queue, h: Hash): Option<u64> {
    if h in q.hashes then Some((q.lastHashIndex - q.hashes[h].hashIndex) % TWO64) else None
  }

  /** The age and fee of a hash that passes the age check. */
  datatype Answer = Answer(age: nat, lamportsPerSignature: u64)

  function QueueAnswer(q: Queue, h: Hash, maxAge: u64): Option<Answer> {
    var info := InfoIfValid(q, h, maxAge);
    if info.None? then None else Some(Answer(HashAge(q, h).value, info.value.lamportsPerSignature))
  }

  // ------------------------------------------------------------------
  // The unbounded list of registrations behind a queue
  // ------------------------------------------------------------------

  /** One more than the position of the last registration of `h`; 0 if there is none. */
  function LastOf(log: seq<Entry>, h: Hash): (n: nat)
    ensures n <= |log|
    ensures n > 0 ==> log[n - 1].blockhash == h
  {
    if log == [] then 0
    else if log[|log| - 1].blockhash == h then |log|
    else LastOf(log[..|log| - 1], h)
  }

  lemma {:induction false} LastOfLast(log: seq<Entry>, h: Hash, i: nat)
    requires i < |log| && log[i].blockhash == h
    ensures i < LastOf(log, h)
  {
    if i < |log| - 1 {
      LastOfLast(log[..|log| - 1], h, i);
    }
  }

  /** What the unbounded list says about `h`, if it was registered at most `maxAge` registrations ago. */
  function ListAnswer(log: seq<Entry>, h: Hash, maxAge: nat): Option<Answer> {
    var n := LastOf(log, h);
    if n > 0 && |log| - n <= maxAge then Some(Answer(|log| - n, log[n - 1].lamportsPerSignature)) else None
  }

  /** The answer in plain terms: `h` is among the last age + 1 registrations, and the age
      and fee are those of a registration of `h` that no later one follows. */
  lemma ListAnswerMeaning(log: seq<Entry>, h: Hash, maxAge: nat)
    ensures ListAnswer(log, h, maxAge).Some?
            <==> exists i :: 0 <= i < |log| && |log| - 1 - i <= maxAge && log[i].blockhash == h
    ensures ListAnswer(log, h, maxAge).Some? ==>
      var i := |log| - 1 - ListAnswer(log, h, maxAge).value.age;
      && 0 <= i < |log|
      && log[i] == Entry(h, ListAnswer(log, h, maxAge).value.lamportsPerSignature)
      && forall j :: i < j < |log| ==> log[j].blockhash != h
  {
    var n := LastOf(log, h);
    if n > 0 && |log| - n <= maxAge {
      assert log[n - 1].blockhash == h;
    }
    forall i | 0 <= i < |log| && log[i].blockhash == h ensures i < n {
      LastOfLast(log, h, i);
    }
  }

  /** The queue's answer about `h` is the list's: an entry carries the position and fee of
      the last registration, and none registered within the queue's age is missing. */
  ghost predicate TracksHash(q: Queue, log: seq<Entry>, h: Hash) {
    var n := LastOf(log, h);
    && (h in q.hashes ==>
          && n > 0
          && q.hashes[h].hashIndex == n
          && q.hashes[h].lamportsPerSignature == log[n - 1].lamportsPerSignature)
    && (n > 0 && |log| - n <= q.maxAge ==> h in q.hashes)
  }

  ghost predicate Tracks(q: Queue, log: seq<Entry>) {
    && q.lastHashIndex == |log|
    && q.lastHash == (if log == [] then None else Some(log[|log| - 1].blockhash))
    && (forall h :: TracksHash(q, log, h))
    && |q.hashes| <= q.maxAge + 1
  }

  lemma LastOfSnoc(log: seq<Entry>, e: Entry, h: Hash)
    ensures LastOf(log + [e], h) == if e.blockhash == h then |log| + 1 else LastOf(log, h)
  {
    assert (log + [e])[..|log|] == log;
  }

  ghost function HashesIn(log: seq<Entry>, lo: nat, hi: nat): (r: set<Hash>)
    requires lo <= hi <= |log|
    ensures |r| <= hi - lo
  {
    if lo == hi then {} else HashesIn(log, lo, hi - 1) + {log[hi - 1].blockhash}
  }

  lemma {:induction false} HashesInHas(log: seq<Entry>, lo: nat, hi: nat, i: nat)
    requires lo <= i < hi <= |log|
    ensures log[i].blockhash in HashesIn(log, lo, hi)
  {
    if i < hi - 1 {
      HashesInHas(log, lo, hi - 1, i);
    }
  }

  /** Hashes last registered within a range of positions are no more than the range. */
  lemma PositionsBound(log: seq<Entry>, hs: set<Hash>, lo: nat)
    requires lo <= |log|
    requires forall h :: h in hs ==> lo < LastOf(log, h)
    ensures |hs| <= |log| - lo
  {
    forall h | h in hs ensures h in HashesIn(log, lo, |log|) {
      HashesInHas(log, lo, |log|, LastOf(log, h) - 1);
    }
    SubsetSize(hs, HashesIn(log, lo, |log|));
  }

  /** Before the counter wraps, ages are plain differences. */
  lemma Unwrapped(last: u64, maxAge: u64, index: u64)
    requires index <= last
    ensures IndexValid(last, maxAge, index) <==> last - index <= maxAge
    ensures (last - index) % TWO64 == last - index
  {
  }

  lemma KeptAge(q: Queue, h: Hash)
    requires |q.hashes| >= q.maxAge && h in Kept(q) && h in q.hashes
    requires q.hashes[h].hashIndex <= q.lastHashIndex < TWO64 - 1
    ensures q.lastHashIndex + 1 - q.hashes[h].hashIndex <= q.maxAge
  {
    Unwrapped(q.lastHashIndex + 1, q.maxAge, q.hashes[h].hashIndex);
  }

  /** What pruning leaves room for. */
  lemma KeptBounded(q: Queue, log: seq<Entry>)
    requires Tracks(q, log) && |log| + 1 < TWO64
    ensures |Kept(q)| <= q.maxAge
  {
    if |q.hashes| >= q.maxAge {
      var lo := if |log| > q.maxAge then |log| - q.maxAge else 0;
      forall h | h in Kept(q).Keys ensures lo < LastOf(log, h) {
        assert TracksHash(q, log, h);
        KeptAge(q, h);
      }
      PositionsBound(log, Kept(q).Keys, lo);
    }
  }

  lemma SizeAfterInsert<K, V>(m: map<K, V>, k: K, v: V)
    ensures |m[k := v]| <= |m| + 1
  {
    assert m[k := v].Keys == m.Keys + {k};
    assert |m[k := v]| == |m[k := v].Keys| && |m| == |m.Keys|;
  }

  lemma RegisteredTracksHash(q: Queue, log: seq<Entry>, e: Entry, h: Hash)
    requires TracksHash(q, log, h) && q.lastHashIndex == |log| && |log| + 1 < TWO64
    ensures TracksHash(Registered(q, e.blockhash, e.lamportsPerSignature), log + [e], h)
  {
    LastOfSnoc(log, e, h);
    if h in q.hashes {
      Unwrapped(|log| + 1, q.maxAge, q.hashes[h].hashIndex);
    }
  }

  /** One registration keeps the queue in step with the list. */
  lemma RegisteredTracks(q: Queue, log: seq<Entry>, e: Entry)
    requires Tracks(q, log) && |log| + 1 < TWO64
    ensures Tracks(Registered(q, e.blockhash, e.lamportsPerSignature), log + [e])
  {
    var q' := Registered(q, e.blockhash, e.lamportsPerSignature);
    KeptBounded(q, log);
    SizeAfterInsert(Kept(q), e.blockhash, HashInfo(e.lamportsPerSignature, q'.lastHashIndex));
    forall h ensures TracksHash(q', log + [e], h) {
      assert TracksHash(q, log, h);
      RegisteredTracksHash(q, log, e, h);
    }
  }

  function RegisterAll(q: Queue, log: seq<Entry>): Queue {
    if log == [] then q
    else
      var e := log[|log| - 1];
      Registered(RegisterAll(q, log[..|log| - 1]), e.blockhash, e.lamportsPerSignature)
  }

  /** Any queue driven by `register_hash` tracks its registrations, in at most max_age + 1 entries. */
  lemma {:induction false} RegisterAllTracks(maxAge: u64, log: seq<Entry>)
    requires |log| < TWO64
    ensures Tracks(RegisterAll(New(maxAge), log), log)
    ensures RegisterAll(New(maxAge), log).maxAge == maxAge
  {
    if log != [] {
      var init := log[..|log| - 1];
      RegisterAllTracks(maxAge, init);
      RegisteredTracks(RegisterAll(New(maxAge), init), init, log[|log| - 1]);
      assert log == init + [log[|log| - 1]];
    }
  }

  /** For every age up to the queue's own, the queue answers as the unbounded list would. */
  lemma AgeCheckExact(q: Queue, log: seq<Entry>, h: Hash, age: u64)
    requires Tracks(q, log) && |log| < TWO64 && age <= q.maxAge
    ensures QueueAnswer(q, h, age) == ListAnswer(log, h, age)
  {
    assert TracksHash(q, log, h);
    if h in q.hashes {
      Unwrapped(q.lastHashIndex, age, q.hashes[h].hashIndex);
    }
  }
}
