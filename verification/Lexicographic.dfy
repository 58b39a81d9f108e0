/** The order of trie keys, and the fact that a strictly sorted list is determined by its elements. */
module Lexicographic {
  import opened Bytes

  /** `a` comes before `b` at the first position where they differ. */
  predicate Less(a: seq<nat>, b: seq<nat>) {
    a != [] && b != [] && (a[0] < b[0] || (a[0] == b[0] && Less(a[1..], b[1..])))
  }

  predicate Sorted(xs: seq<seq<nat>>) {
    forall i, j :: 0 <= i < j < |xs| ==> Less(xs[i], xs[j])
  }

  lemma {:induction false} Asymmetric(a: seq<nat>, b: seq<nat>)
    requires Less(a, b)
    ensures !Less(b, a) && a != b
  {
    if a[0] == b[0] {
      Asymmetric(a[1..], b[1..]);
    }
  }

  /** Two keys that agree up to a position and differ there. */
  lemma {:induction false} LessAt(a: seq<nat>, b: seq<nat>, k: nat)
    requires k < |a| && k < |b| && a[..k] == b[..k] && a[k] < b[k]
    ensures Less(a, b)
  {
    if k > 0 {
      assert a[0] == a[..k][0] == b[..k][0] == b[0];
      assert a[1..][..k - 1] == a[..k][1..] == b[..k][1..] == b[1..][..k - 1];
      LessAt(a[1..], b[1..], k - 1);
    }
  }

  lemma {:induction false} LessAppend(a: seq<nat>, b: seq<nat>, c: seq<nat>, d: seq<nat>)
    requires Less(a, b)
    ensures Less(a + c, b + d)
  {
    assert (a + c)[1..] == a[1..] + c && (b + d)[1..] == b[1..] + d;
    if a[0] == b[0] {
      LessAppend(a[1..], b[1..], c, d);
    }
  }

  lemma HeadsAgree(xs: seq<seq<nat>>, ys: seq<seq<nat>>)
    requires Sorted(xs) && Sorted(ys) && xs != [] && ys != []
    requires xs[0] in ys && ys[0] in xs
    ensures xs[0] == ys[0]
  {
    if xs[0] != ys[0] {
      var i :| 0 <= i < |ys| && ys[i] == xs[0];
      var j :| 0 <= j < |xs| && xs[j] == ys[0];
      assert Less(ys[0], ys[i]) && Less(xs[0], xs[j]);
      Asymmetric(xs[0], ys[0]);
    }
  }

  lemma TailMember(xs: seq<seq<nat>>, x: seq<nat>)
    requires Sorted(xs) && xs != []
    ensures x in xs[1..] <==> x in xs && x != xs[0]
  {
    if x in xs[1..] {
      var i :| 0 <= i < |xs| - 1 && xs[1..][i] == x;
      assert Less(xs[0], xs[i + 1]);
      Asymmetric(xs[0], xs[i + 1]);
    }
  }

  /** Two strictly sorted lists with the same elements are the same list. */
  lemma {:induction false} SortedUnique(xs: seq<seq<nat>>, ys: seq<seq<nat>>)
    requires Sorted(xs) && Sorted(ys)
    requires forall x :: x in xs <==> x in ys
    ensures xs == ys
  {
    if ys != [] {
      assert ys[0] in xs;
    }
    if xs != [] {
      assert xs[0] in ys;
      HeadsAgree(xs, ys);
      forall x ensures x in xs[1..] <==> x in ys[1..] {
        TailMember(xs, x);
        TailMember(ys, x);
      }
      SortedUnique(xs[1..], ys[1..]);
      assert xs == [xs[0]] + xs[1..] && ys == [ys[0]] + ys[1..];
    }
  }

  // ------------------------------------------------------------------
  // Numbers and bytes
  // ------------------------------------------------------------------

  /** Big-endian bytes of one width compare as the numbers do. */
  lemma {:induction false} BigEndianLess(n: nat, a: nat, b: nat)
    requires a < b < Pow256(n)
    ensures Less(ToBE(n, a), ToBE(n, b))
  {
    if n > 0 {
      if a / 256 < b / 256 {
        BigEndianLess(n - 1, a / 256, b / 256);
        LessAppend(ToBE(n - 1, a / 256), ToBE(n - 1, b / 256), [a % 256], [b % 256]);
      } else {
        LessAt(ToBE(n, a), ToBE(n, b), n - 1);
      }
    }
  }

  /** A byte string as nibbles, high half first. */
  function Unpack(s: bytes): (r: seq<nat>)
    ensures |r| == 2 * |s|
  {
    if s == [] then [] else [s[0] / 16, s[0] % 16] + Unpack(s[1..])
  }

  /** Unpacking keeps the order. */
  lemma {:induction false} UnpackLess(a: bytes, b: bytes)
    requires Less(a, b)
    ensures Less(Unpack(a), Unpack(b))
  {
    if a[0] == b[0] {
      UnpackLess(a[1..], b[1..]);
      assert Unpack(a)[1..][1..] == Unpack(a[1..]) && Unpack(b)[1..][1..] == Unpack(b[1..]);
    } else if a[0] / 16 < b[0] / 16 {
      LessAt(Unpack(a), Unpack(b), 0);
    } else {
      assert a[0] / 16 == b[0] / 16 && a[0] % 16 < b[0] % 16;
      LessAt(Unpack(a), Unpack(b), 1);
    }
  }
}
