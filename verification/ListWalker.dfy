/** The ordered trie list walker: `crates/proof/mpt/src/list_walker.rs`, with the
    index order of `crates/proof/mpt/src/util.rs`. */
module ListWalker {
  import opened Bytes
  import opened Blocks
  import opened Lexicographic

  /** A key as nibbles. A walk also uses 16, the number of a branch's value slot. */
  type Nibbles = seq<nat>

  datatype TrieNode =
    | Empty
    | Blinded(commitment: Hash)
    | Leaf(prefix: Nibbles, value: bytes)
    | Extension(prefix: Nibbles, node: TrieNode)
    | Branch(stack: seq<TrieNode>)

  datatype WalkError = AlreadyHydrated | Provider | InvalidNodeType

  /** The nodes a fetcher can produce, by hash. */
  type Store = map<Hash, TrieNode>

  // ------------------------------------------------------------------
  // Tries: acyclicity, shape, and what a trie holds
  // ------------------------------------------------------------------

  /** Every commitment inside `node` has a rank below `bound`. */
  ghost predicate Below(rank: map<Hash, nat>, node: TrieNode, bound: nat) {
    match node
    case Blinded(h) => h in rank && rank[h] < bound
    case Extension(_, child) => Below(rank, child, bound)
    case Branch(stack) => forall i :: 0 <= i < |stack| ==> Below(rank, stack[i], bound)
    case _ => true
  }

  /** No node refers, through commitments, to itself: ranks fall along every reference. */
  ghost predicate Acyclic(store: Store, rank: map<Hash, nat>) {
    forall h :: h in rank && h in store ==> Below(rank, store[h], rank[h])
  }

  /** Branches have 16 children and an empty value slot, extensions a non-empty path. */
  predicate Shaped(node: TrieNode) {
    match node
    case Extension(prefix, child) => prefix != [] && Shaped(child)
    case Branch(stack) => |stack| == 17 && stack[16] == Empty && forall i :: 0 <= i < 17 ==> Shaped(stack[i])
    case _ => true
  }

  /** The nodes named by `rank` form a complete, acyclic, well-shaped trie. */
  ghost predicate WellFormed(store: Store, rank: map<Hash, nat>) {
    && Acyclic(store, rank)
    && forall h :: h in rank ==> h in store && !store[h].Blinded? && Shaped(store[h])
  }

  /** The value under `key`: how a Merkle Patricia trie is read (Yellow Paper, appendix D). */
  ghost function Lookup(store: Store, node: TrieNode, key: Nibbles): Option<bytes>
    decreases |key|, if node.Blinded? then 1 else 0
  {
    match node
    case Empty => None
    case Blinded(h) =>
      if h in store && !store[h].Blinded? then Lookup(store, store[h], key) else None
    case Leaf(prefix, value) => if key == prefix then Some(value) else None
    case Extension(prefix, child) =>
      if prefix != [] && prefix <= key then Lookup(store, child, key[|prefix|..]) else None
    case Branch(stack) =>
      if key != [] && key[0] < |stack| then Lookup(store, stack[key[0]], key[1..]) else None
  }

  // ------------------------------------------------------------------
  // What a walk returns
  // ------------------------------------------------------------------

  /** A leaf met on a walk: its full path, the part of it stored in the leaf, its value. */
  datatype Entry = Entry(path: Nibbles, prefix: Nibbles, value: bytes)

  type Walked = Result<seq<Entry>, WalkError>

  ghost function Walk(store: Store, rank: map<Hash, nat>, bound: nat, at: Nibbles, node: TrieNode): Walked
    requires Acyclic(store, rank) && Below(rank, node, bound)
    decreases bound, node, 2, 0
  {
    match node
    case Empty => Ok([])
    case Leaf(prefix, value) => Ok([Entry(at + prefix, prefix, value)])
    case Extension(prefix, child) => WalkChild(store, rank, bound, at + prefix, child)
    case Branch(stack) => WalkFirst(store, rank, bound, at, node, |stack|)
    case Blinded(_) => Err(InvalidNodeType)
  }

  /** A child that is only a hash is fetched first. */
  ghost function WalkChild(store: Store, rank: map<Hash, nat>, bound: nat, at: Nibbles, child: TrieNode): Walked
    requires Acyclic(store, rank) && Below(rank, child, bound)
    decreases bound, child, 3, 0
  {
    match child
    case Blinded(h) =>
      if h in store then Walk(store, rank, rank[h], at, store[h]) else Err(Provider)
    case _ => Walk(store, rank, bound, at, child)
  }

  /** The first `k` slots of a branch. */
  ghost function WalkFirst(store: Store, rank: map<Hash, nat>, bound: nat, at: Nibbles, node: TrieNode, k: nat): Walked
    requires Acyclic(store, rank) && Below(rank, node, bound)
    requires node.Branch? && k <= |node.stack|
    decreases bound, node, 1, k
  {
    if k == 0 then Ok([])
    else
      var before := WalkFirst(store, rank, bound, at, node, k - 1);
      if before.Err? then before
      else
        var last := WalkChild(store, rank, bound, at + [k - 1], node.stack[k - 1]);
        if last.Err? then last else Ok(before.value + last.value)
  }

  /** What the walker keeps of an entry. */
  function Pairs(es: seq<Entry>): (r: seq<(Nibbles, bytes)>)
    ensures |r| == |es|
  {
    seq(|es|, i requires 0 <= i < |es| => (es[i].prefix, es[i].value))
  }

  ghost predicate Returns(r: Result<seq<(Nibbles, bytes)>, WalkError>, w: Walked) {
    if w.Err? then r == Err(w.error) else r == Ok(Pairs(w.value))
  }

  /** The recursion ends on every acyclic store, and visits leaves in slot order. */
  method FetchLeaves(store: Store, node: TrieNode, ghost rank: map<Hash, nat>, ghost bound: nat, ghost at: Nibbles)
    returns (r: Result<seq<(Nibbles, bytes)>, WalkError>)
    requires Acyclic(store, rank) && Below(rank, node, bound)
    ensures Returns(r, Walk(store, rank, bound, at, node))
    decreases bound, node, 0
  {
    match node
    case Branch(stack) =>
      var leaves: seq<(Nibbles, bytes)> := [];
      var i := 0;
      while i < |stack|
        invariant 0 <= i <= |stack|
        invariant Returns(Ok(leaves), WalkFirst(store, rank, bound, at, node, i))
      {
        ghost var before := WalkFirst(store, rank, bound, at, node, i).value;
        var more := FetchChild(store, stack[i], rank, bound, at + [i]);
        if more.Err? {
          FirstFails(store, rank, bound, at, node, i + 1);
          return more;
        }
        ghost var last := WalkChild(store, rank, bound, at + [i], stack[i]).value;
        assert Pairs(before + last) == Pairs(before) + Pairs(last);
        leaves := leaves + more.value;
        i := i + 1;
      }
      return Ok(leaves);
    case Leaf(prefix, value) =>
      r := Ok([(prefix, value)]);
      assert Pairs([Entry(at + prefix, prefix, value)]) == [(prefix, value)];
    case Extension(prefix, child) =>
      r := FetchChild(store, child, rank, bound, at + prefix);
    case Empty =>
      return Ok([]);
    case Blinded(_) =>
      return Err(InvalidNodeType);
  }

  /** A child that is a hash is fetched first; one already retrieved is walked as it is. */
  method FetchChild(store: Store, child: TrieNode, ghost rank: map<Hash, nat>, ghost bound: nat, ghost at: Nibbles)
    returns (r: Result<seq<(Nibbles, bytes)>, WalkError>)
    requires Acyclic(store, rank) && Below(rank, child, bound)
    ensures Returns(r, WalkChild(store, rank, bound, at, child))
    decreases bound, child, 1
  {
    match child
    case Blinded(h) =>
      if h !in store {
        return Err(Provider);
      }
      r := FetchLeaves(store, store[h], rank, rank[h], at);
    case _ =>
      r := FetchLeaves(store, child, rank, bound, at);
  }

  /** The first failing slot decides the whole branch. */
  lemma {:induction false} FirstFails(store: Store, rank: map<Hash, nat>, bound: nat, at: Nibbles, node: TrieNode,
                                      k: nat)
    requires Acyclic(store, rank) && Below(rank, node, bound)
    requires node.Branch? && k <= |node.stack|
    requires WalkFirst(store, rank, bound, at, node, k).Err?
    ensures Walk(store, rank, bound, at, node) == WalkFirst(store, rank, bound, at, node, k)
    decreases |node.stack| - k
  {
    if k < |node.stack| {
      FirstFails(store, rank, bound, at, node, k + 1);
    }
  }

  // ------------------------------------------------------------------
  // A walk lists exactly what the trie holds, in key order
  // ------------------------------------------------------------------

  ghost predicate Ordered(es: seq<Entry>) {
    forall i, j :: 0 <= i < j < |es| ==> Less(es[i].path, es[j].path)
  }

  /** Each entry below `at` is a binding of `node`. */
  ghost predicate Holds(store: Store, node: TrieNode, at: Nibbles, es: seq<Entry>) {
    forall i :: 0 <= i < |es| ==>
      at <= es[i].path && Lookup(store, node, es[i].path[|at|..]) == Some(es[i].value)
  }

  ghost predicate Listed(es: seq<Entry>, path: Nibbles) {
    exists i :: 0 <= i < |es| && es[i].path == path
  }

  /** `es` lists the bindings of `node`, all of them, in key order. */
  ghost predicate Lists(store: Store, node: TrieNode, at: Nibbles, es: seq<Entry>) {
    && Holds(store, node, at, es)
    && (forall key :: Lookup(store, node, key).Some? ==> Listed(es, at + key))
    && Ordered(es)
  }

  /** The same for the bindings of a branch below its first `k` slots. */
  ghost predicate ListsFirst(store: Store, node: TrieNode, at: Nibbles, es: seq<Entry>, k: nat) {
    && Holds(store, node, at, es)
    && (forall i :: 0 <= i < |es| ==> |at| < |es[i].path| && es[i].path[|at|] < k)
    && (forall key :: Lookup(store, node, key).Some? && key != [] && key[0] < k ==> Listed(es, at + key))
    && Ordered(es)
  }

  lemma ExtensionLists(store: Store, node: TrieNode, at: Nibbles, es: seq<Entry>)
    requires node.Extension? && node.prefix != []
    requires Lists(store, node.node, at + node.prefix, es)
    ensures Lists(store, node, at, es)
  {
    var p := node.prefix;
    forall i | 0 <= i < |es|
      ensures at <= es[i].path && Lookup(store, node, es[i].path[|at|..]) == Some(es[i].value)
    {
      var key := es[i].path[|at + p|..];
      assert es[i].path == (at + p) + key;
      assert es[i].path[|at|..] == p + key && (p + key)[|p|..] == key;
    }
    forall key | Lookup(store, node, key).Some? ensures Listed(es, at + key) {
      assert key == p + key[|p|..];
      assert (at + p) + key[|p|..] == at + key;
    }
  }

  /** Entries of earlier slots come before entries of a later one. */
  lemma SlotsApart(a: Nibbles, b: Nibbles, at: Nibbles, k: nat)
    requires at <= a && |at| < |a| && a[|at|] < k
    requires at + [k] <= b
    ensures Less(a, b)
  {
    assert b[..|at|] == (at + [k])[..|at|] == at == a[..|at|];
    assert b[|at|] == (at + [k])[|at|];
    LessAt(a, b, |at|);
  }

  lemma SlotHolds(store: Store, node: TrieNode, at: Nibbles, path: Nibbles, value: bytes, k: nat)
    requires node.Branch? && k < |node.stack|
    requires at + [k] <= path && Lookup(store, node.stack[k], path[|at| + 1..]) == Some(value)
    ensures at <= path && |at| < |path| && path[|at|] == k
    ensures Lookup(store, node, path[|at|..]) == Some(value)
  {
    var rest := path[|at| + 1..];
    assert path == (at + [k]) + rest;
    assert path[|at|..] == [k] + rest && ([k] + rest)[1..] == rest;
  }

  lemma SlotListed(before: seq<Entry>, last: seq<Entry>, path: Nibbles)
    requires Listed(before, path) || Listed(last, path)
    ensures Listed(before + last, path)
  {
    if Listed(before, path) {
      var i :| 0 <= i < |before| && before[i].path == path;
      assert (before + last)[i].path == path;
    } else {
      var i :| 0 <= i < |last| && last[i].path == path;
      assert (before + last)[|before| + i].path == path;
    }
  }

  /** One more slot of a branch. */
  lemma SlotLists(store: Store, node: TrieNode, at: Nibbles, before: seq<Entry>, last: seq<Entry>, k: nat)
    requires node.Branch? && k < |node.stack|
    requires ListsFirst(store, node, at, before, k)
    requires Lists(store, node.stack[k], at + [k], last)
    ensures ListsFirst(store, node, at, before + last, k + 1)
  {
    var es := before + last;
    forall i | 0 <= i < |last|
      ensures at <= last[i].path && |at| < |last[i].path| && last[i].path[|at|] == k
      ensures Lookup(store, node, last[i].path[|at|..]) == Some(last[i].value)
    {
      SlotHolds(store, node, at, last[i].path, last[i].value, k);
    }
    forall key | Lookup(store, node, key).Some? && key != [] && key[0] < k + 1 ensures Listed(es, at + key) {
      if key[0] == k {
        assert (at + [k]) + key[1..] == at + key;
        assert Listed(last, at + key);
      }
      SlotListed(before, last, at + key);
    }
    forall i, j | 0 <= i < j < |es| ensures Less(es[i].path, es[j].path) {
      if i < |before| <= j {
        SlotsApart(before[i].path, last[j - |before|].path, at, k);
      } else if |before| <= i {
        assert Less(last[i - |before|].path, last[j - |before|].path);
      }
    }
  }

  /** Walking a well-formed trie lists exactly its bindings, in key order. */
  lemma {:induction false} WalkLists(store: Store, rank: map<Hash, nat>, bound: nat, at: Nibbles, node: TrieNode)
    requires WellFormed(store, rank) && Below(rank, node, bound) && Shaped(node) && !node.Blinded?
    ensures Walk(store, rank, bound, at, node).Ok?
    ensures Lists(store, node, at, Walk(store, rank, bound, at, node).value)
    decreases bound, node, 2, 0
  {
    match node
    case Empty =>
    case Leaf(prefix, value) =>
      var es := Walk(store, rank, bound, at, node).value;
      assert es[0].path[|at|..] == prefix;
      assert Listed(es, at + prefix);
    case Extension(prefix, child) =>
      ChildLists(store, rank, bound, at + prefix, child);
      ExtensionLists(store, node, at, Walk(store, rank, bound, at, node).value);
    case Branch(stack) =>
      FirstLists(store, rank, bound, at, node, 17);
  }

  lemma {:induction false} ChildLists(store: Store, rank: map<Hash, nat>, bound: nat, at: Nibbles, child: TrieNode)
    requires WellFormed(store, rank) && Below(rank, child, bound) && Shaped(child)
    ensures WalkChild(store, rank, bound, at, child).Ok?
    ensures Lists(store, child, at, WalkChild(store, rank, bound, at, child).value)
    decreases bound, child, 3, 0
  {
    match child
    case Blinded(h) =>
      WalkLists(store, rank, rank[h], at, store[h]);
      assert forall key :: Lookup(store, child, key) == Lookup(store, store[h], key);
    case _ =>
      WalkLists(store, rank, bound, at, child);
  }

  lemma {:induction false} FirstLists(store: Store, rank: map<Hash, nat>, bound: nat, at: Nibbles, node: TrieNode,
                                      k: nat)
    requires WellFormed(store, rank) && Below(rank, node, bound) && Shaped(node)
    requires node.Branch? && k <= |node.stack|
    ensures WalkFirst(store, rank, bound, at, node, k).Ok?
    ensures ListsFirst(store, node, at, WalkFirst(store, rank, bound, at, node, k).value, k)
    decreases bound, node, 1, k
  {
    if k > 0 {
      FirstLists(store, rank, bound, at, node, k - 1);
      ChildLists(store, rank, bound, at + [k - 1], node.stack[k - 1]);
      SlotLists(store, node, at,
                WalkFirst(store, rank, bound, at, node, k - 1).value,
                WalkChild(store, rank, bound, at + [k - 1], node.stack[k - 1]).value, k - 1);
    }
  }
}
