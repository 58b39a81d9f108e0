/** For every list there is a trie that holds its items under the RLP of their indices, so that the
    laws of module OrderedList are about something for every length. */
module TrieBuilder {
  import opened Bytes
  import opened Blocks
  import opened Lexicographic
  import opened ListWalker
  import opened OrderedList

  /** Keys are made of nibbles, at most `depth` of them. */
  predicate IsKey(k: Nibbles, depth: nat) {
    |k| <= depth && forall j :: 0 <= j < |k| ==> k[j] < 16
  }

  /** No key is a prefix of another. */
  predicate PrefixFree(ks: seq<Nibbles>, depth: nat) {
    && (forall i :: 0 <= i < |ks| ==> IsKey(ks[i], depth))
    && (forall i, j :: 0 <= i < |ks| && 0 <= j < |ks| && ks[i] <= ks[j] ==> i == j)
  }

  /** The node at `path` of a trie with branches all the way down to the leaves. */
  ghost function Build(ks: seq<Nibbles>, vs: seq<bytes>, path: Nibbles, depth: nat): TrieNode
    requires |ks| == |vs|
    decreases depth
  {
    if path in ks then
      var i :| 0 <= i < |ks| && ks[i] == path;
      Leaf([], vs[i])
    else if depth == 0 then Empty
    else Branch(seq(17, n requires 0 <= n < 17 => if n < 16 then Build(ks, vs, path + [n], depth - 1) else Empty))
  }

  lemma {:induction false} BuildShaped(ks: seq<Nibbles>, vs: seq<bytes>, path: Nibbles, depth: nat,
                                       rank: map<Hash, nat>, bound: nat)
    requires |ks| == |vs|
    ensures var t := Build(ks, vs, path, depth);
            Shaped(t) && !t.Blinded? && Below(rank, t, bound)
    decreases depth
  {
    if path !in ks && depth > 0 {
      var stack := Build(ks, vs, path, depth).stack;
      forall n | 0 <= n < 17 ensures Shaped(stack[n]) && Below(rank, stack[n], bound) {
        if n < 16 { BuildShaped(ks, vs, path + [n], depth - 1, rank, bound); }
      }
    }
  }

  /** `key` is bound to `v`. */
  ghost predicate Binds(ks: seq<Nibbles>, vs: seq<bytes>, key: Nibbles, v: bytes)
    requires |ks| == |vs|
  {
    exists i :: 0 <= i < |ks| && ks[i] == key && vs[i] == v
  }

  lemma LeafHolds(store: Store, ks: seq<Nibbles>, vs: seq<bytes>, path: Nibbles, depth: nat, rest: Nibbles, v: bytes)
    requires |ks| == |vs| && PrefixFree(ks, |path| + depth) && path in ks
    ensures Lookup(store, Build(ks, vs, path, depth), rest) == Some(v) <==> Binds(ks, vs, path + rest, v)
  {
    var i :| 0 <= i < |ks| && ks[i] == path && Build(ks, vs, path, depth) == Leaf([], vs[i]);
    assert path <= path + rest;
    if rest == [] { assert path + rest == path; }
    if Binds(ks, vs, path + rest, v) {
      var j :| 0 <= j < |ks| && ks[j] == path + rest && vs[j] == v;
      assert i == j;
      assert |path + rest| == |path|;
    }
  }

  /** The trie holds exactly the bindings it was built from. */
  lemma {:induction false} BuildHolds(store: Store, ks: seq<Nibbles>, vs: seq<bytes>, path: Nibbles, depth: nat,
                                      rest: Nibbles, v: bytes)
    requires |ks| == |vs| && PrefixFree(ks, |path| + depth)
    ensures Lookup(store, Build(ks, vs, path, depth), rest) == Some(v) <==> Binds(ks, vs, path + rest, v)
    decreases depth
  {
    if path in ks {
      LeafHolds(store, ks, vs, path, depth, rest, v);
    } else if depth == 0 || rest == [] || rest[0] >= 16 {
      if Binds(ks, vs, path + rest, v) {
        NotBelow(ks, path, depth, rest);
      }
    } else {
      assert path + rest == (path + [rest[0]]) + rest[1..];
      BuildHolds(store, ks, vs, path + [rest[0]], depth - 1, rest[1..], v);
    }
  }

  lemma NotBelow(ks: seq<Nibbles>, path: Nibbles, depth: nat, rest: Nibbles)
    requires PrefixFree(ks, |path| + depth) && path !in ks
    requires depth == 0 || rest == [] || rest[0] >= 16
    ensures path + rest !in ks
  {
    assert rest == [] ==> path + rest == path;
    assert rest != [] ==> (path + rest)[|path|] == rest[0];
    forall i | 0 <= i < |ks| ensures ks[i] != path + rest {
      assert IsKey(ks[i], |path| + depth);
    }
  }

  // ---- The keys of a list --------------------------------------------------

  /** The first byte of an index's RLP says how long it is. */
  lemma RlpLengths(i: u64)
    ensures var b := RlpIndex(i);
            && 1 <= |b| <= 9
            && |b| == (if b[0] <= EMPTY_STRING_CODE then 1 else 1 + b[0] - EMPTY_STRING_CODE)
  {
    if i >= EMPTY_STRING_CODE {
      Widths();
      WidthBound(i, 8);
      assert Width(i) > 0;
    }
  }

  lemma KeysPrefixFree(i: u64, j: u64)
    requires Key(i) <= Key(j)
    ensures i == j
  {
    RlpLengths(i);
    RlpLengths(j);
    var a, b := RlpIndex(i), RlpIndex(j);
    assert Key(i)[0] == Key(j)[0] && Key(i)[1] == Key(j)[1];
    assert a[0] == b[0];
    assert |Key(i)| == |Key(j)|;
    KeyInjective(i, j);
  }

  lemma {:induction false} UnpackNibbles(s: bytes)
    ensures forall j :: 0 <= j < |Unpack(s)| ==> Unpack(s)[j] < 16
  {
    if s != [] { UnpackNibbles(s[1..]); }
  }

  lemma KeyIsKey(i: u64)
    ensures IsKey(Key(i), 18)
  {
    RlpLengths(i);
    UnpackNibbles(RlpIndex(i));
  }

  function Keys(n: nat): (ks: seq<Nibbles>)
    requires n <= TWO64
    ensures |ks| == n
  {
    seq(n, i requires 0 <= i < n => Key(i))
  }

  lemma KeysFree(n: nat)
    requires n <= TWO64
    ensures PrefixFree(Keys(n), 18)
  {
    var ks := Keys(n);
    forall i | 0 <= i < n ensures IsKey(ks[i], 18) { KeyIsKey(i); }
    forall i, j | 0 <= i < n && 0 <= j < n && ks[i] <= ks[j] ensures i == j { KeysPrefixFree(i, j); }
  }

  lemma KeysBind(items: seq<bytes>, key: Nibbles, v: bytes)
    requires |items| <= TWO64
    ensures Binds(Keys(|items|), items, key, v) <==> exists i :: 0 <= i < |items| && key == Key(i) && v == items[i]
  {
    var ks := Keys(|items|);
    if Binds(ks, items, key, v) {
      var i :| 0 <= i < |ks| && ks[i] == key && items[i] == v;
      assert key == Key(i) && v == items[i];
    }
    if i :| 0 <= i < |items| && key == Key(i) && v == items[i] {
      assert ks[i] == key;
    }
  }

  lemma BuiltIndexes(store: Store, items: seq<bytes>)
    requires |items| <= TWO64
    ensures Indexes(store, Build(Keys(|items|), items, [], 18), items)
  {
    KeysFree(|items|);
    var node := Build(Keys(|items|), items, [], 18);
    forall key, v ensures Lookup(store, node, key) == Some(v)
                          <==> exists i :: 0 <= i < |items| && key == Key(i) && v == items[i] {
      BuildHolds(store, Keys(|items|), items, [], 18, key, v);
      assert [] + key == key;
      KeysBind(items, key, v);
    }
  }

  /** Every list has a well-formed trie that holds its items under the RLP of their indices. */
  lemma ListHasTrie(items: seq<bytes>, root: Hash)
    requires |items| <= TWO64
    ensures exists node :: WellFormed(map[root := node], map[root := 0]) && Indexes(map[root := node], node, items)
  {
    var node := Build(Keys(|items|), items, [], 18);
    var store, rank := map[root := node], map[root := 0];
    BuildShaped(Keys(|items|), items, [], 18, rank, 0);
    BuiltIndexes(store, items);
    assert WellFormed(store, rank);
  }
}
