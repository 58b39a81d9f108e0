/** Derivable ordered lists: the order of RLP(index) keys (`crates/proof/mpt/src/util.rs`)
    and the walker that restores list order (`crates/proof/mpt/src/list_walker.rs`). */
module OrderedList {
  import opened Bytes
  import opened Blocks
  import opened Lexicographic
  import opened ListWalker

  /** `EMPTY_STRING_CODE`: the RLP of the empty string, and of the integer 0. */
  const EMPTY_STRING_CODE := 0x80

  // ------------------------------------------------------------------
  // RLP(index) keys
  // ------------------------------------------------------------------

  /** Bytes of the shortest big-endian form. */
  function Width(v: nat): nat {
    if v == 0 then 0 else 1 + Width(v / 256)
  }

  lemma {:induction false} WidthFits(v: nat)
    ensures v < Pow256(Width(v))
  {
    if v > 0 {
      WidthFits(v / 256);
    }
  }

  lemma {:induction false} WidthMonotone(v: nat, w: nat)
    requires v <= w
    ensures Width(v) <= Width(w)
  {
    if v > 0 {
      WidthMonotone(v / 256, w / 256);
    }
  }

  lemma {:induction false} WidthBound(v: nat, n: nat)
    requires v < Pow256(n)
    ensures Width(v) <= n
  {
    if v > 0 {
      WidthBound(v / 256, n - 1);
    }
  }

  /** The RLP of an index (Yellow Paper, appendix B). */
  function RlpIndex(i: u64): bytes {
    if i == 0 then [EMPTY_STRING_CODE]
    else if i < EMPTY_STRING_CODE then [i]
    else
      assert Width(i) <= 8 by { Widths(); WidthBound(i, 8); }
      [EMPTY_STRING_CODE + Width(i)] + ToBE(Width(i), i)
  }

  function Key(i: u64): Nibbles {
    Unpack(RlpIndex(i))
  }

  /** The position of an index in key order: 1 to 127, then 0, then the rest. */
  predicate KeyBefore(i: nat, j: nat) {
    if i == 0 then EMPTY_STRING_CODE <= j
    else if j == 0 then i < EMPTY_STRING_CODE
    else i < j
  }

  lemma LongKeyLess(i: u64, j: u64)
    requires EMPTY_STRING_CODE <= i < j
    ensures Less(RlpIndex(i), RlpIndex(j))
  {
    WidthMonotone(i, j);
    if Width(i) < Width(j) {
      LessAt(RlpIndex(i), RlpIndex(j), 0);
    } else {
      WidthFits(j);
      BigEndianLess(Width(j), i, j);
      assert RlpIndex(i)[1..] == ToBE(Width(j), i) && RlpIndex(j)[1..] == ToBE(Width(j), j);
    }
  }

  lemma KeyLess(i: u64, j: u64)
    requires KeyBefore(i, j)
    ensures Less(Key(i), Key(j))
  {
    if EMPTY_STRING_CODE <= i {
      LongKeyLess(i, j);
    } else {
      assert Width(j) == 0 ==> j == 0;
      LessAt(RlpIndex(i), RlpIndex(j), 0);
    }
    UnpackLess(RlpIndex(i), RlpIndex(j));
  }

  /** `adjust_index_for_rlp`: the index whose key is `i`-th among the keys of `len` items. */
  function AdjustIndex(i: nat, len: nat): nat {
    if i > 0x7f then i
    else if i == 0x7f || i + 1 == len then 0
    else i + 1
  }

  function KeysInOrder(n: nat): (r: seq<Nibbles>)
    requires n <= TWO64
    ensures |r| == n
  {
    seq(n, j requires 0 <= j < n => Key(AdjustIndex(j, n)))
  }

  /** The adjusted indices are every index once, in the order of their keys. */
  lemma AdjustOrder(n: nat)
    requires n <= TWO64
    ensures Sorted(KeysInOrder(n))
    ensures forall i: nat :: i < n ==> Key(i) in KeysInOrder(n)
  {
    var ks := KeysInOrder(n);
    forall j, k | 0 <= j < k < n ensures Less(ks[j], ks[k]) {
      KeyLess(AdjustIndex(j, n), AdjustIndex(k, n));
    }
    forall i: nat | i < n ensures Key(i) in ks {
      var j := if i > 0x7f then i else if i > 0 then i - 1 else if n <= 0x80 then n - 1 else 0x7f;
      assert AdjustIndex(j, n) == i;
      assert ks[j] == Key(i);
    }
  }

  // ------------------------------------------------------------------
  // From key order to list order
  // ------------------------------------------------------------------

  /** `hydrate`'s move of the item with index 0 to the front. */
  function FirstToFront<T>(xs: seq<T>): (r: seq<T>)
    ensures |r| == |xs|
  {
    if xs == [] then xs
    else
      var at := if |xs| <= EMPTY_STRING_CODE then |xs| - 1 else EMPTY_STRING_CODE - 1;
      [xs[at]] + xs[..at] + xs[at + 1..]
  }

  /** The move undoes the key order: position `i` then holds the item with index `i`. */
  lemma FirstToFrontRestores<T>(xs: seq<T>, items: seq<T>)
    requires |xs| == |items|
    requires forall j :: 0 <= j < |xs| ==> xs[j] == items[AdjustIndex(j, |items|)]
    ensures FirstToFront(xs) == items
  {
    forall i | 0 <= i < |items| ensures FirstToFront(xs)[i] == items[i] {
      var j := if i > 0x7f then i else if i > 0 then i - 1 else if |xs| <= 0x80 then |xs| - 1 else 0x7f;
      assert FirstToFront(xs)[i] == xs[j];
    }
  }

  /** The trie under `root` holds exactly `items`, each under the RLP of its index. */
  ghost predicate Indexes(store: Store, root: TrieNode, items: seq<bytes>) {
    && |items| <= TWO64
    && forall key, v ::
         Lookup(store, root, key) == Some(v)
         <==> exists i :: 0 <= i < |items| && key == Key(i) && v == items[i]
  }

  function Paths(es: seq<Entry>): (r: seq<Nibbles>)
    ensures |r| == |es|
  {
    seq(|es|, i requires 0 <= i < |es| => es[i].path)
  }

  function Values(xs: seq<(Nibbles, bytes)>): (r: seq<bytes>)
    ensures |r| == |xs|
  {
    seq(|xs|, i requires 0 <= i < |xs| => xs[i].1)
  }

  /** Each path of the walk is the key of an item. */
  lemma PathIsKey(store: Store, root: TrieNode, items: seq<bytes>, es: seq<Entry>, j: nat) returns (i: nat)
    requires Indexes(store, root, items) && Lists(store, root, [], es) && j < |es|
    ensures i < |items| && es[j].path == Key(i) && es[j].value == items[i]
  {
    assert es[j].path[0..] == es[j].path;
    assert Lookup(store, root, es[j].path) == Some(es[j].value);
    i :| 0 <= i < |items| && es[j].path == Key(i) && es[j].value == items[i];
  }

  /** The key of each item is a path of the walk. */
  lemma KeyIsPath(store: Store, root: TrieNode, items: seq<bytes>, es: seq<Entry>, i: nat)
    requires Indexes(store, root, items) && Lists(store, root, [], es) && i < |items|
    ensures Key(i) in Paths(es)
  {
    assert Lookup(store, root, Key(i)) == Some(items[i]);
    assert [] + Key(i) == Key(i);
    var j :| 0 <= j < |es| && es[j].path == Key(i);
    assert Paths(es)[j] == Key(i);
  }

  lemma PathOrKey(store: Store, root: TrieNode, items: seq<bytes>, es: seq<Entry>, x: Nibbles)
    requires Indexes(store, root, items) && Lists(store, root, [], es)
    requires forall i: nat :: i < |items| ==> Key(i) in KeysInOrder(|items|)
    ensures x in Paths(es) <==> x in KeysInOrder(|items|)
  {
    if x in Paths(es) {
      var j :| 0 <= j < |es| && Paths(es)[j] == x;
      var i := PathIsKey(store, root, items, es, j);
    }
    if x in KeysInOrder(|items|) {
      var j :| 0 <= j < |items| && KeysInOrder(|items|)[j] == x;
      KeyIsPath(store, root, items, es, AdjustIndex(j, |items|));
    }
  }

  lemma PathsSorted(es: seq<Entry>)
    requires Ordered(es)
    ensures Sorted(Paths(es))
  {
  }

  /** The paths of the walk are the keys of all items, in the adjusted order. */
  lemma PathsAreKeys(store: Store, root: TrieNode, items: seq<bytes>, es: seq<Entry>)
    requires Indexes(store, root, items) && Lists(store, root, [], es)
    ensures Paths(es) == KeysInOrder(|items|)
  {
    AdjustOrder(|items|);
    forall x ensures x in Paths(es) <==> x in KeysInOrder(|items|) {
      PathOrKey(store, root, items, es, x);
    }
    PathsSorted(es);
    SortedUnique(Paths(es), KeysInOrder(|items|));
  }

  /** Distinct indices have distinct keys. */
  lemma KeyInjective(i: u64, j: u64)
    requires Key(i) == Key(j)
    ensures i == j
  {
    if KeyBefore(i, j) {
      KeyLess(i, j);
      Asymmetric(Key(i), Key(j));
    } else if KeyBefore(j, i) {
      KeyLess(j, i);
      Asymmetric(Key(j), Key(i));
    }
  }

  lemma EntryValue(store: Store, root: TrieNode, items: seq<bytes>, es: seq<Entry>, j: nat)
    requires Indexes(store, root, items) && Lists(store, root, [], es)
    requires Paths(es) == KeysInOrder(|items|) && j < |items|
    ensures |es| == |items| && es[j].value == items[AdjustIndex(j, |items|)]
  {
    var i := PathIsKey(store, root, items, es, j);
    assert Paths(es)[j] == KeysInOrder(|items|)[j] == Key(AdjustIndex(j, |items|));
    KeyInjective(i, AdjustIndex(j, |items|));
  }

  /** Entry `j` of a walk carries the item whose key is `j`-th. */
  ghost predicate InKeyOrder(es: seq<Entry>, items: seq<bytes>) {
    |es| == |items| && forall j :: 0 <= j < |es| ==> es[j].value == items[AdjustIndex(j, |items|)]
  }

  lemma KeyOrderRestores(es: seq<Entry>, items: seq<bytes>)
    requires InKeyOrder(es, items)
    ensures Values(FirstToFront(Pairs(es))) == items
  {
    var vs := Values(Pairs(es));
    FirstToFrontRestores(vs, items);
    assert Values(FirstToFront(Pairs(es))) == FirstToFront(vs);
  }

  lemma ListedInKeyOrder(store: Store, root: TrieNode, items: seq<bytes>, es: seq<Entry>)
    requires Indexes(store, root, items) && Lists(store, root, [], es)
    ensures InKeyOrder(es, items)
  {
    PathsAreKeys(store, root, items, es);
    assert |es| == |Paths(es)| == |items|;
    forall j | 0 <= j < |es| ensures es[j].value == items[AdjustIndex(j, |items|)] {
      EntryValue(store, root, items, es, j);
    }
  }

  /** The walker restores the list: whatever the shape of a well-formed trie that holds
      the items under the RLP of their indices, the walk and the move give the items in order. */
  lemma WalkRestoresList(store: Store, rank: map<Hash, nat>, root: Hash, items: seq<bytes>)
    requires WellFormed(store, rank) && root in rank
    requires Indexes(store, store[root], items)
    ensures var w := Walk(store, rank, rank[root], [], store[root]);
            w.Ok? && Values(FirstToFront(Pairs(w.value))) == items
  {
    WalkLists(store, rank, rank[root], [], store[root]);
    var es := Walk(store, rank, rank[root], [], store[root]).value;
    ListedInKeyOrder(store, store[root], items, es);
    KeyOrderRestores(es, items);
  }

  // ------------------------------------------------------------------
  // The walker
  // ------------------------------------------------------------------

  class OrderedListWalker {
    const root: Hash
    var inner: Option<seq<(Nibbles, bytes)>>

    constructor (root: Hash)
      ensures this.root == root && inner == None
    {
      this.root := root;
      inner := None;
    }

    /** Refuses to start again while items are left; a failed walk leaves the walker as it was. */
    method Hydrate(store: Store, ghost rank: map<Hash, nat>) returns (r: Result<(), WalkError>)
      requires Acyclic(store, rank) && root in rank
      modifies this
      ensures old(inner.Some? && inner.value != []) ==> r == Err(AlreadyHydrated) && inner == old(inner)
      ensures old(inner == None || inner.value == []) ==>
        if root !in store then r == Err(Provider) && inner == old(inner)
        else
          var w := Walk(store, rank, rank[root], [], store[root]);
          if w.Err? then r == Err(w.error) && inner == old(inner)
          else r == Ok(()) && inner == Some(FirstToFront(Pairs(w.value)))
    {
      if inner.Some? && |inner.value| > 0 {
        return Err(AlreadyHydrated);
      }
      if root !in store {
        return Err(Provider);
      }
      var leaves := FetchLeaves(store, store[root], rank, rank[root], []);
      if leaves.Err? {
        return Err(leaves.error);
      }
      var list := leaves.value;
      if list != [] {
        if |list| <= EMPTY_STRING_CODE {
          var first := list[|list| - 1];
          list := list[..|list| - 1];
          list := [first] + list;
        } else {
          var first := list[EMPTY_STRING_CODE - 1];
          list := list[..EMPTY_STRING_CODE - 1] + list[EMPTY_STRING_CODE..];
          list := [first] + list;
        }
      }
      assert list == FirstToFront(leaves.value);
      inner := Some(list);
      r := Ok(());
    }

    method TakeInner() returns (taken: Option<seq<(Nibbles, bytes)>>)
      modifies this
      ensures taken == old(inner) && inner == None
    {
      taken := inner;
      inner := None;
    }

    /** Pops the front; the walker forgets its list with the last item. */
    method Next() returns (item: Option<(Nibbles, bytes)>)
      modifies this
      ensures old(inner == None || inner.value == []) ==> item == None && inner == None
      ensures old(inner.Some? && inner.value != []) ==>
        && item == Some(old(inner).value[0])
        && inner == if |old(inner).value| == 1 then None else Some(old(inner).value[1..])
    {
      if inner.Some? {
        var leaves := inner.value;
        if leaves == [] {
          item := None;
        } else {
          item := Some(leaves[0]);
          leaves := leaves[1..];
        }
        inner := if leaves == [] then None else Some(leaves);
      } else {
        item := None;
      }
    }
  }

  /** Iterating a walker to the end. */
  method Collect(walker: OrderedListWalker) returns (values: seq<bytes>)
    modifies walker
    ensures walker.inner == None
    ensures values == if old(walker.inner).Some? then Values(old(walker.inner).value) else []
  {
    ghost var all := if walker.inner.Some? then walker.inner.value else [];
    values := [];
    var item := walker.Next();
    while item.Some?
      invariant |values| <= |all|
      invariant values == Values(all)[..|values|]
      invariant item == (if |values| < |all| then Some(all[|values|]) else None)
      invariant walker.inner == (if |values| + 1 < |all| then Some(all[|values| + 1..]) else None)
      decreases |all| - |values|
    {
      values := values + [item.value.1];
      item := walker.Next();
    }
  }

  /** Hydrating a fresh walker and iterating it to the end gives back the list. */
  method ListOf(root: Hash, store: Store, ghost rank: map<Hash, nat>, ghost items: seq<bytes>)
    returns (values: seq<bytes>)
    requires WellFormed(store, rank) && root in rank
    requires Indexes(store, store[root], items)
    ensures values == items
  {
    WalkRestoresList(store, rank, root, items);
    var walker := new OrderedListWalker(root);
    var r := walker.Hydrate(store, rank);
    values := Collect(walker);
  }
}
