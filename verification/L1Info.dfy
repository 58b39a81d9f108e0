/** The L1-info transaction on the wire: how a derived block carries its L1 origin, sequence number and
    batcher, and how the L2 provider reads them back. `crates/primitives/src/derive.rs`,
    `crates/primitives/src/deposit.rs`, `crates/programs/l1-block-info-program/src/instruction.rs` and
    `crates/l2provider/src/chain_provider.rs`. */
module L1Info {
  import opened Bytes
  import opened Blocks
  import opened Fields
  import opened SystemConfig
  import opened Batch
  import opened DerivedChain

  datatype L1BlockInfoInstruction =
    | CreateL1BlockInfoAccount
    | UpdateL1BlockInfo(number: u64, timestamp: u64, baseFee: u128, hash: Hash, sequenceNumber: u64, batcherHash: Hash,
                        feeOverhead: u128, feeScalar: u128, gas: u64, isSystemTx: bool)

  function FieldsOf(i: L1BlockInfoInstruction): seq<Field> {
    match i
    case CreateL1BlockInfoAccount => []
    case UpdateL1BlockInfo(number, timestamp, baseFee, hash, sequenceNumber, batcherHash, feeOverhead, feeScalar, gas,
                           isSystemTx) =>
      [Num(8, number), Num(8, timestamp), Num(16, baseFee), Raw(hash), Num(8, sequenceNumber), Raw(batcherHash),
       Num(16, feeOverhead), Num(16, feeScalar), Num(8, gas), Flag(isSystemTx)]
  }

  const UPDATE_KINDS: seq<Kind> :=
    [NumKind(8), NumKind(8), NumKind(16), RawKind(32), NumKind(8), RawKind(32), NumKind(16), NumKind(16), NumKind(8),
     FlagKind]

  predicate NoText(b: bytes) { false }

  function Packed(i: L1BlockInfoInstruction): (b: bytes)
    ensures b != []
  {
    WrittenUnlessTooLong(FieldsOf(i));
    [if i.CreateL1BlockInfoAccount? then 0 else 1] + WrittenAll(FieldsOf(i)).value
  }

  /** `pack` */
  method Pack(i: L1BlockInfoInstruction) returns (b: bytes)
    ensures b == Packed(i)
  {
    WrittenUnlessTooLong(FieldsOf(i));
    var buf := Append([if i.CreateL1BlockInfoAccount? then 0 else 1], FieldsOf(i));
    b := buf.value;
  }

  lemma UpdateFields(fs: seq<Field>)
    requires AllFit(fs, UPDATE_KINDS, NoText)
    ensures |fs| == 10
    ensures fs[0].Num? && fs[0].width == 8 && fs[0].value < Pow256(8)
    ensures fs[1].Num? && fs[1].width == 8 && fs[1].value < Pow256(8)
    ensures fs[2].Num? && fs[2].width == 16 && fs[2].value < Pow256(16) && fs[3].Raw? && |fs[3].raw| == 32
    ensures fs[4].Num? && fs[4].width == 8 && fs[4].value < Pow256(8) && fs[5].Raw? && |fs[5].raw| == 32
    ensures fs[6].Num? && fs[6].width == 16 && fs[6].value < Pow256(16)
    ensures fs[7].Num? && fs[7].width == 16 && fs[7].value < Pow256(16)
    ensures fs[8].Num? && fs[8].width == 8 && fs[8].value < Pow256(8) && fs[9].Flag?
  {
    FirstFields(fs);
    LastFields(fs);
  }

  lemma FirstFields(fs: seq<Field>)
    requires AllFit(fs, UPDATE_KINDS, NoText)
    ensures |fs| == 10
    ensures fs[0].Num? && fs[0].width == 8 && fs[0].value < Pow256(8)
    ensures fs[1].Num? && fs[1].width == 8 && fs[1].value < Pow256(8)
    ensures fs[2].Num? && fs[2].width == 16 && fs[2].value < Pow256(16) && fs[3].Raw? && |fs[3].raw| == 32
    ensures fs[4].Num? && fs[4].width == 8 && fs[4].value < Pow256(8)
  {
    var ks := UPDATE_KINDS;
    assert Fits(fs[0], ks[0], NoText) && Fits(fs[1], ks[1], NoText) && Fits(fs[2], ks[2], NoText);
    assert Fits(fs[3], ks[3], NoText) && Fits(fs[4], ks[4], NoText);
  }

  lemma LastFields(fs: seq<Field>)
    requires AllFit(fs, UPDATE_KINDS, NoText)
    ensures |fs| == 10 && fs[5].Raw? && |fs[5].raw| == 32
    ensures fs[6].Num? && fs[6].width == 16 && fs[6].value < Pow256(16)
    ensures fs[7].Num? && fs[7].width == 16 && fs[7].value < Pow256(16)
    ensures fs[8].Num? && fs[8].width == 8 && fs[8].value < Pow256(8) && fs[9].Flag?
  {
    var ks := UPDATE_KINDS;
    assert Fits(fs[5], ks[5], NoText) && Fits(fs[6], ks[6], NoText) && Fits(fs[7], ks[7], NoText);
    assert Fits(fs[8], ks[8], NoText) && Fits(fs[9], ks[9], NoText);
  }

  function Built(fs: seq<Field>): (i: L1BlockInfoInstruction)
    requires AllFit(fs, UPDATE_KINDS, NoText)
    ensures i.UpdateL1BlockInfo? && FieldsOf(i) == fs
  {
    Widths();
    UpdateFields(fs);
    UpdateL1BlockInfo(fs[0].value, fs[1].value, fs[2].value, fs[3].raw, fs[4].value, fs[5].raw, fs[6].value,
                      fs[7].value, fs[8].value, fs[9].on)
  }

  /** `unpack`; None stands for InvalidInstruction. */
  function Unpacked(input: bytes): Option<L1BlockInfoInstruction> {
    if input == [] || input[0] > 1 then None
    else if input[0] == 0 then Some(CreateL1BlockInfoAccount)
    else
      var read := ReadAll(UPDATE_KINDS, input[1..], NoText);
      if read.None? then None
      else
        ReadIsWritten(UPDATE_KINDS, input[1..], read.value.0, read.value.1, NoText);
        Some(Built(read.value.0))
  }

  lemma FieldsFit(i: L1BlockInfoInstruction)
    requires i.UpdateL1BlockInfo?
    ensures AllFit(FieldsOf(i), UPDATE_KINDS, NoText) && Built(FieldsOf(i)) == i
  {
    Widths();
  }

  /** The bytes that unpack to `i` are its packing with anything behind it, and nothing else. */
  lemma UnpacksExactly(input: bytes, i: L1BlockInfoInstruction)
    ensures Unpacked(input) == Some(i) <==> Packed(i) <= input
  {
    WrittenUnlessTooLong(FieldsOf(i));
    if i.CreateL1BlockInfoAccount? {
      assert Packed(i) == [0];
    } else {
      if Unpacked(input) == Some(i) {
        var (fs, rest) := ReadAll(UPDATE_KINDS, input[1..], NoText).value;
        BehindTag(input, UPDATE_KINDS, fs, rest, NoText);
      }
      if Packed(i) <= input { PackedUnpacks(input, i); }
    }
  }

  lemma PackedUnpacks(input: bytes, i: L1BlockInfoInstruction)
    requires i.UpdateL1BlockInfo? && Packed(i) <= input
    ensures Unpacked(input) == Some(i)
  {
    WrittenUnlessTooLong(FieldsOf(i));
    var body := WrittenAll(FieldsOf(i)).value;
    var rest := input[1 + |body|..];
    assert input == ([1] + body) + rest;
    assert input[0] == 1 && input[1..] == body + rest;
    FieldsFit(i);
    WrittenIsRead(UPDATE_KINDS, FieldsOf(i), rest, NoText);
  }

  /** The wire form: tag 1 and the ten fields in order, integers little-endian; tag 0 alone to create. */
  lemma InfoOnWire(i: L1BlockInfoInstruction)
    ensures Packed(i)
            == if i.CreateL1BlockInfoAccount? then [0]
               else [1] + Concat([ToLE(8, i.number), ToLE(8, i.timestamp), ToLE(16, i.baseFee), i.hash,
                                  ToLE(8, i.sequenceNumber), i.batcherHash, ToLE(16, i.feeOverhead),
                                  ToLE(16, i.feeScalar), ToLE(8, i.gas), [if i.isSystemTx then 1 else 0]])
  {
    if i.UpdateL1BlockInfo? {
      WrittenParts(FieldsOf(i), [ToLE(8, i.number), ToLE(8, i.timestamp), ToLE(16, i.baseFee), i.hash,
                                 ToLE(8, i.sequenceNumber), i.batcherHash, ToLE(16, i.feeOverhead),
                                 ToLE(16, i.feeScalar), ToLE(8, i.gas), [if i.isSystemTx then 1 else 0]]);
    } else {
      WrittenParts([], []);
    }
  }

  // ---- The batcher address -------------------------------------------------

  /** `address_to_hash`: the address as the low 20 bytes of a big-endian word. */
  function AddressToHash(a: Address): nat {
    FromBE(Zeros(12) + a)
  }

  /** What the L2 provider makes of the 32 bytes it finds: the first 20, little-endian. */
  function HashToAddress(b: Hash): Address {
    ToBE(20, FromLE(b[..20]))
  }

  lemma {:induction false} LeadingZeros(n: nat, s: bytes)
    ensures FromBE(Zeros(n) + s) == FromBE(s)
  {
    if s == [] {
      assert Zeros(n) + s == Zeros(n);
      ZeroIsZero(n);
    } else {
      LeadingZeros(n, s[..|s| - 1]);
      assert (Zeros(n) + s)[..n + |s| - 1] == Zeros(n) + s[..|s| - 1];
    }
  }

  lemma {:induction false} ZeroIsZero(n: nat)
    ensures FromBE(Zeros(n)) == 0
  {
    if n > 0 {
      assert Zeros(n)[..n - 1] == Zeros(n - 1);
      ZeroIsZero(n - 1);
    }
  }

  lemma {:induction false} LowBytes(n: nat, k: nat, v: nat)
    requires k <= n
    ensures ToLE(n, v)[..k] == ToLE(k, v)
  {
    if k > 0 {
      LowBytes(n - 1, k - 1, v / 256);
      assert ToLE(n, v)[..k] == [v % 256] + ToLE(n - 1, v / 256)[..k - 1];
    }
  }

  /** Padding to a big-endian word, writing it little-endian, cutting it to 20 bytes and reading them
      little-endian gives back every address. */
  lemma AddressRecovered(a: Address)
    ensures HashToAddress(ToLE(32, AddressToHash(a))) == a
  {
    LeadingZeros(12, a);
    LowBytes(32, 20, FromBE(a));
    LERoundTrip(20, FromBE(a));
    BERoundTripBytes(a);
  }

  lemma {:induction false} Mirrored(n: nat, v: nat, k: nat)
    requires k < n
    ensures ToLE(n, v)[k] == ToBE(n, v)[n - 1 - k]
  {
    if k > 0 { Mirrored(n - 1, v / 256, k - 1); }
  }

  lemma {:induction false} NothingAbove(n: nat, m: nat, v: nat)
    requires v < Pow256(n)
    ensures ToLE(n + m, v) == ToLE(n, v) + Zeros(m)
  {
    if n > 0 {
      NothingAbove(n - 1, m, v / 256);
    } else if m > 0 {
      NothingAbove(0, m - 1, 0);
      assert Zeros(m) == [0] + Zeros(m - 1);
    }
  }

  /** The 32 bytes that stand for a batcher: the address backwards, and zeros. */
  lemma BatcherOnWire(a: Address)
    ensures var b := ToLE(32, AddressToHash(a));
            (forall k :: 0 <= k < 20 ==> b[k] == a[19 - k]) && forall k :: 20 <= k < 32 ==> b[k] == 0
  {
    LeadingZeros(12, a);
    BERoundTripBytes(a);
    NothingAbove(20, 12, FromBE(a));
    forall k | 0 <= k < 20 ensures ToLE(20, FromBE(a))[k] == a[19 - k] { Mirrored(20, FromBE(a), k); }
  }

  // ---- What the L2 provider reads back -------------------------------------

  /** `AttributesDeposited::to_sanitized_transaction`: the instruction of an L1-info transaction. */
  function InfoInstruction(tx: L2Tx): L1BlockInfoInstruction
    requires tx.L1InfoTx?
  {
    UpdateL1BlockInfo(tx.l1Number, tx.l1Timestamp, 0, tx.l1Hash, tx.seqNum, ToLE(32, AddressToHash(tx.batcher)), 0, 0,
                      0, true)
  }

  /** `l2_block_info_by_number` and `system_config_by_number`, from the instruction data of a block's
      first transaction: origin, sequence number and config. */
  function Recovered(data: bytes): Option<(BlockId, u64, SystemConfig)> {
    match Unpacked(data)
    case Some(UpdateL1BlockInfo(number, _, _, hash, sequenceNumber, batcherHash, _, _, _, _)) =>
      Some((BlockId(number, hash), sequenceNumber, SystemConfig(HashToAddress(batcherHash))))
    case _ => None
  }

  /** The wire carries everything the next derivation step reads of its parent: whatever the batch,
      the head the provider recovers from the derived block is the head the run continues with. */
  lemma HeadRecovered(h: Head, x: Input, world: World, r: Rollup)
    requires Extend(h, x, world, r).Some?
    ensures var (u, a) := Extend(h, x, world, r).value;
            && a.transactions != [] && a.transactions[0].L1InfoTx?
            && Recovered(Packed(InfoInstruction(a.transactions[0]))) == Some((u.info.l1Origin, u.info.seqNum, u.config))
  {
    FirstIsInfo(x.batch, h, world, r);
    var tx := Extend(h, x, world, r).value.1.transactions[0];
    InfoRecovered(tx);
  }

  /** The bytes of an L1-info transaction: no fees, no gas, and the system flag. */
  lemma InfoTxOnWire(tx: L2Tx)
    requires tx.L1InfoTx?
    ensures Packed(InfoInstruction(tx))
            == [1] + Concat([ToLE(8, tx.l1Number), ToLE(8, tx.l1Timestamp), ToLE(16, 0), tx.l1Hash, ToLE(8, tx.seqNum),
                             ToLE(32, AddressToHash(tx.batcher)), ToLE(16, 0), ToLE(16, 0), ToLE(8, 0), [1]])
  {
    InfoOnWire(InfoInstruction(tx));
  }

  lemma InfoRecovered(tx: L2Tx)
    requires tx.L1InfoTx?
    ensures Recovered(Packed(InfoInstruction(tx)))
            == Some((BlockId(tx.l1Number, tx.l1Hash), tx.seqNum, SystemConfig(tx.batcher)))
  {
    UnpacksExactly(Packed(InfoInstruction(tx)), InfoInstruction(tx));
    AddressRecovered(tx.batcher);
  }
}
