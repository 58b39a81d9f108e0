/** Machine integers, byte strings and the fixed-width integer codecs that every
    wire format of the system is built from. */
module Bytes {

  type u8 = x: int | 0 <= x < 0x100
  type u16 = x: int | 0 <= x < 0x1_0000
  type u64 = x: int | 0 <= x < 0x1_0000_0000_0000_0000
  type u128 = x: int | 0 <= x < 0x1_0000_0000_0000_0000_0000_0000_0000_0000

  const TWO64 := 0x1_0000_0000_0000_0000

  type bytes = seq<u8>

  datatype Option<+T> = None | Some(value: T)
  datatype Result<+T, +E> = Ok(value: T) | Err(error: E)

  /** Wrapping first or last is the same. */
  lemma WrapOnce(a: nat, b: nat)
    ensures (a % TWO64 + b) % TWO64 == (a + b) % TWO64
  {
  }

  /** The number of values that fit in `n` bytes. */
  function Pow256(n: nat): (r: nat)
    ensures r > 0
  {
    if n == 0 then 1 else 256 * Pow256(n - 1)
  }

  function Zeros(n: nat): (r: bytes)
    ensures |r| == n
    ensures forall i :: 0 <= i < n ==> r[i] == 0
  {
    seq(n, _ => 0)
  }

  /** `v.to_be_bytes()` for an integer of `n` bytes. */
  function ToBE(n: nat, v: nat): (r: bytes)
    ensures |r| == n
  {
    if n == 0 then [] else ToBE(n - 1, v / 256) + [v % 256]
  }

  /** `from_be_bytes` */
  function FromBE(s: bytes): (r: nat)
    ensures r < Pow256(|s|)
  {
    if s == [] then 0
    else
      FromBE(s[..|s| - 1]) * 256 + s[|s| - 1]
  }

  /** `v.to_le_bytes()` for an integer of `n` bytes. */
  function ToLE(n: nat, v: nat): (r: bytes)
    ensures |r| == n
  {
    if n == 0 then [] else [v % 256] + ToLE(n - 1, v / 256)
  }

  /** `from_le_bytes` */
  function FromLE(s: bytes): (r: nat)
    ensures r < Pow256(|s|)
  {
    if s == [] then 0 else s[0] + 256 * FromLE(s[1..])
  }

  lemma {:induction false} BERoundTrip(n: nat, v: nat)
    requires v < Pow256(n)
    ensures FromBE(ToBE(n, v)) == v
  {
    if n > 0 {
      BERoundTrip(n - 1, v / 256);
      assert ToBE(n, v)[..n - 1] == ToBE(n - 1, v / 256);
    }
  }

  lemma {:induction false} BERoundTripBytes(s: bytes)
    ensures ToBE(|s|, FromBE(s)) == s
  {
    if s != [] {
      BERoundTripBytes(s[..|s| - 1]);
      assert s == s[..|s| - 1] + [s[|s| - 1]];
    }
  }

  lemma {:induction false} LERoundTrip(n: nat, v: nat)
    requires v < Pow256(n)
    ensures FromLE(ToLE(n, v)) == v
  {
    if n > 0 {
      LERoundTrip(n - 1, v / 256);
      assert ToLE(n, v)[1..] == ToLE(n - 1, v / 256);
    }
  }

  lemma {:induction false} LERoundTripBytes(s: bytes)
    ensures ToLE(|s|, FromLE(s)) == s
  {
    if s != [] {
      LERoundTripBytes(s[1..]);
      assert s == [s[0]] + s[1..];
    }
  }

  /** Big-endian: the first byte has the highest weight. */
  lemma {:induction false} BigEndian(s: bytes)
    requires s != []
    ensures FromBE(s) == s[0] * Pow256(|s| - 1) + FromBE(s[1..])
  {
    if |s| > 1 {
      BigEndian(s[..|s| - 1]);
      assert s[..|s| - 1][1..] == s[1..][..|s| - 2];
      WeightUp(s[0], Pow256(|s| - 2), FromBE(s[1..][..|s| - 2]));
    }
  }

  lemma WeightUp(b: nat, w: nat, v: nat)
    ensures (b * w + v) * 256 == b * (256 * w) + v * 256
  {
  }

  /** Little-endian: the last byte has. */
  lemma {:induction false} LittleEndian(s: bytes)
    requires s != []
    ensures FromLE(s) == FromLE(s[..|s| - 1]) + s[|s| - 1] * Pow256(|s| - 1)
  {
    if |s| > 1 {
      LittleEndian(s[1..]);
      assert s[1..][..|s| - 2] == s[..|s| - 1][1..];
      WeightUp(s[|s| - 1], Pow256(|s| - 2), FromLE(s[1..][..|s| - 2]));
    }
  }

  /** The widths in use, as literals. */
  lemma Widths()
    ensures Pow256(2) == 0x1_0000
    ensures Pow256(3) == 0x100_0000
    ensures Pow256(4) == 0x1_0000_0000
    ensures Pow256(8) == 0x1_0000_0000_0000_0000
    ensures Pow256(16) == 0x1_0000_0000_0000_0000_0000_0000_0000_0000
  {
    assert Pow256(2) == 256 * Pow256(1);
    assert Pow256(3) == 256 * Pow256(2);
    assert Pow256(4) == 256 * Pow256(3);
    assert Pow256(5) == 256 * Pow256(4);
    assert Pow256(6) == 256 * Pow256(5);
    assert Pow256(7) == 256 * Pow256(6);
    assert Pow256(8) == 256 * Pow256(7);
    assert Pow256(9) == 256 * Pow256(8);
    assert Pow256(10) == 256 * Pow256(9);
    assert Pow256(11) == 256 * Pow256(10);
    assert Pow256(12) == 256 * Pow256(11);
    assert Pow256(13) == 256 * Pow256(12);
    assert Pow256(14) == 256 * Pow256(13);
    assert Pow256(15) == 256 * Pow256(14);
    assert Pow256(16) == 256 * Pow256(15);
  }
}
