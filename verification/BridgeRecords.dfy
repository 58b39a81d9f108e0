/** Account layouts of the bridge program: `crates/programs/bridge-program/src/state.rs`. */
module BridgeRecords {
  import opened Bytes
  import opened Blocks

  const ETH_CALLDATA_LEN := 420
  const SPL_CALLDATA_LEN := 484
  const RECORD_HEADER_LEN := 148

  const WORD := 0x1_0000_0000_0000_0000_0000_0000_0000_0000

  type u256 = x: int | 0 <= x < WORD * WORD

  /** A withdrawal record. The ETH and SPL kinds differ only in the length of the calldata. */
  datatype Withdrawal = Withdrawal(
    nonce: u256, sender: Pubkey, target: Address, value: u256, gasLimit: u256, calldata: bytes)

  /** High word, then low word, each big-endian. */
  function PackU256(v: u256): (b: bytes)
    ensures |b| == 32
  {
    ToBE(16, v / WORD) + ToBE(16, v % WORD)
  }

  function UnpackU256(b: bytes): u256
    requires |b| == 32
  {
    Widths();
    FromBE(b[..16]) * WORD + FromBE(b[16..])
  }

  lemma U256RoundTrip(v: u256)
    ensures UnpackU256(PackU256(v)) == v
  {
    Widths();
    BERoundTrip(16, v / WORD);
    BERoundTrip(16, v % WORD);
    var b := PackU256(v);
    assert b[..16] == ToBE(16, v / WORD) && b[16..] == ToBE(16, v % WORD);
  }

  lemma WordParts(hi: nat, lo: nat)
    requires lo < WORD
    ensures (hi * WORD + lo) / WORD == hi && (hi * WORD + lo) % WORD == lo
  {
  }

  lemma U256RoundTripBytes(b: bytes)
    requires |b| == 32
    ensures PackU256(UnpackU256(b)) == b
  {
    var hi, lo := FromBE(b[..16]), FromBE(b[16..]);
    assert lo < WORD by { Widths(); }
    var v := UnpackU256(b);
    assert v / WORD == hi && v % WORD == lo by { WordParts(hi, lo); }
    assert ToBE(16, hi) == b[..16] by { BERoundTripBytes(b[..16]); }
    assert ToBE(16, lo) == b[16..] by { BERoundTripBytes(b[16..]); }
    assert b == b[..16] + b[16..];
  }

  function Packed(w: Withdrawal): (b: bytes)
    ensures |b| == RECORD_HEADER_LEN + |w.calldata|
  {
    PackU256(w.nonce) + w.sender + w.target + PackU256(w.value) + PackU256(w.gasLimit) + w.calldata
  }

  /** `unpack_from_slice` of a record with `n` bytes of calldata; the length check is `Pack::unpack`'s. */
  function Unpacked(b: bytes, n: nat): Option<Withdrawal> {
    if |b| != RECORD_HEADER_LEN + n then None
    else
      Some(Withdrawal(UnpackU256(b[..32]), b[32..64], b[64..84], UnpackU256(b[84..116]), UnpackU256(b[116..148]),
                      b[148..]))
  }

  lemma PackedParts(w: Withdrawal)
    ensures var b := Packed(w);
            && b[..32] == PackU256(w.nonce) && b[32..64] == w.sender && b[64..84] == w.target
            && b[84..116] == PackU256(w.value) && b[116..148] == PackU256(w.gasLimit) && b[148..] == w.calldata
  {
  }

  /** A stored record reads back as what was stored. */
  lemma RecordRoundTrip(w: Withdrawal)
    ensures Unpacked(Packed(w), |w.calldata|) == Some(w)
  {
    PackedParts(w);
    U256RoundTrip(w.nonce);
    U256RoundTrip(w.value);
    U256RoundTrip(w.gasLimit);
  }

  /** And every account of the right size is the packing of some record. */
  lemma RecordRoundTripBytes(b: bytes, n: nat)
    requires |b| == RECORD_HEADER_LEN + n
    ensures Packed(Unpacked(b, n).value) == b
  {
    U256RoundTripBytes(b[..32]);
    U256RoundTripBytes(b[84..116]);
    U256RoundTripBytes(b[116..148]);
    assert b == b[..32] + b[32..64] + b[64..84] + b[84..116] + b[116..148] + b[148..];
  }

  /** `dst[at..at + |src|].copy_from_slice(src)` */
  method CopyInto(dst: array<u8>, at: nat, src: bytes)
    requires at + |src| <= dst.Length
    modifies dst
    ensures dst[..] == old(dst[..at]) + src + old(dst[at + |src|..])
  {
    forall i | 0 <= i < |src| { dst[at + i] := src[i]; }
  }

  /** `pack_into_slice`, writing the fields of a record in place. */
  method PackIntoSlice(w: Withdrawal, dst: array<u8>)
    requires dst.Length == RECORD_HEADER_LEN + |w.calldata|
    modifies dst
    ensures dst[..] == Packed(w)
  {
    CopyInto(dst, 0, PackU256(w.nonce));
    assert dst[..32] == PackU256(w.nonce);
    CopyInto(dst, 32, w.sender);
    assert dst[..64] == PackU256(w.nonce) + w.sender;
    CopyInto(dst, 64, w.target);
    assert dst[..84] == PackU256(w.nonce) + w.sender + w.target;
    CopyInto(dst, 84, PackU256(w.value));
    assert dst[..116] == PackU256(w.nonce) + w.sender + w.target + PackU256(w.value);
    CopyInto(dst, 116, PackU256(w.gasLimit));
    assert dst[..148] == PackU256(w.nonce) + w.sender + w.target + PackU256(w.value) + PackU256(w.gasLimit);
    CopyInto(dst, 148, w.calldata);
  }

  // ---- Counters and PDA seeds ----------------------------------------------

  function PackedCounter(counter: u64): (b: bytes)
    ensures |b| == 8
  {
    ToLE(8, counter)
  }

  function UnpackedCounter(b: bytes): Option<u64> {
    Widths();
    if |b| != 8 then None else Some(FromLE(b))
  }

  lemma CounterRoundTrip(counter: u64)
    ensures UnpackedCounter(PackedCounter(counter)) == Some(counter)
  {
    Widths();
    LERoundTrip(8, counter);
  }
}
