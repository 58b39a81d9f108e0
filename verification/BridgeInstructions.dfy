/** The instruction codec of the bridge program: `crates/programs/bridge-program/src/instruction.rs`. */
module BridgeInstructions {
  import opened Bytes
  import opened Blocks
  import opened Fields

  datatype BridgeError = InvalidInstruction | StringLengthTooLong

  datatype BridgeInstruction =
    | CreateVaultAccount
    | DepositETH(from: Address, to: Address, mint: u128, value: u128, gas: u64, isCreation: bool, l1BlockNum: u64,
                 l1BlockHash: Hash, logIndex: u128, depositType: u8, depositFrom: Address, depositTo: Pubkey,
                 depositAmount: u128, depositExtraData: Hash, depositL2Contract: Pubkey, depositL1Contract: Address)
    | CreateWithdrawalCounterAccount
    | WithdrawETH(target: Address, ethValue: u128, ethGasLimit: u128)
    | CreateSPL(splToken: Address, name: bytes, symbol: bytes, uri: bytes, decimals: u8)
    | DepositERC20(localToken: Pubkey, erc20: Address, sender: Address, recipient: Pubkey, amount: u128)
    | WithdrawSPL(token: Address, receiver: Address, splAmount: u128, splGasLimit: u128)
    | CreateBridgeConfigAccount(messenger: Address, bridge: Address)
    | ChangeBridgeAdmin(newAdmin: Pubkey)
    | CreateUserWithdrawalCounterAccount
    | UpdateSPLMetadata(updated: Address, newName: bytes, newSymbol: bytes, newUri: bytes)

  function Tag(i: BridgeInstruction): u8 {
    match i
    case CreateVaultAccount => 0
    case DepositETH(_, _, _, _, _, _, _, _, _, _, _, _, _, _, _, _) => 1
    case CreateWithdrawalCounterAccount => 2
    case WithdrawETH(_, _, _) => 3
    case CreateSPL(_, _, _, _, _) => 4
    case DepositERC20(_, _, _, _, _) => 5
    case WithdrawSPL(_, _, _, _) => 6
    case CreateBridgeConfigAccount(_, _) => 7
    case ChangeBridgeAdmin(_) => 8
    case CreateUserWithdrawalCounterAccount => 9
    case UpdateSPLMetadata(_, _, _, _) => 10
  }

  /** The fields of an instruction in the order `pack` appends them. */
  function FieldsOf(i: BridgeInstruction): seq<Field> {
    match i
    case DepositETH(from, to, mint, value, gas, isCreation, l1BlockNum, l1BlockHash, logIndex, depositType, depositFrom,
                    depositTo, depositAmount, depositExtraData, depositL2Contract, depositL1Contract) =>
      [Raw(from), Raw(to), Num(16, mint), Num(16, value), Num(8, gas), Flag(isCreation), Num(8, l1BlockNum),
       Raw(l1BlockHash), Num(16, logIndex), Byte(depositType), Raw(depositFrom), Raw(depositTo),
       Num(16, depositAmount), Raw(depositExtraData), Raw(depositL2Contract), Raw(depositL1Contract)]
    case WithdrawETH(target, value, gasLimit) => [Raw(target), Num(16, value), Num(16, gasLimit)]
    case CreateSPL(token, name, symbol, uri, decimals) =>
      [Raw(token), Text(name), Text(symbol), Text(uri), Byte(decimals)]
    case DepositERC20(local, remote, from, to, amount) => [Raw(local), Raw(remote), Raw(from), Raw(to), Num(16, amount)]
    case WithdrawSPL(token, to, amount, gasLimit) => [Raw(token), Raw(to), Num(16, amount), Num(16, gasLimit)]
    case CreateBridgeConfigAccount(messenger, bridge) => [Raw(messenger), Raw(bridge)]
    case ChangeBridgeAdmin(newAdmin) => [Raw(newAdmin)]
    case UpdateSPLMetadata(token, name, symbol, uri) => [Raw(token), Text(name), Text(symbol), Text(uri)]
    case _ => []
  }

  /** Read number `k` behind the tag of DepositETH. */
  function DepositKind(k: nat): Kind {
    match k
    case 0 => RawKind(20)
    case 1 => RawKind(20)
    case 2 => NumKind(16)
    case 3 => NumKind(16)
    case 4 => NumKind(8)
    case 5 => FlagKind
    case 6 => NumKind(8)
    case 7 => RawKind(32)
    case 8 => NumKind(16)
    case 9 => ByteKind
    case 10 => RawKind(20)
    case 11 => RawKind(32)
    case 12 => NumKind(16)
    case 13 => RawKind(32)
    case 14 => RawKind(32)
    case _ => RawKind(20)
  }

  function DepositKinds(): seq<Kind> {
    seq(16, k requires 0 <= k < 16 => DepositKind(k))
  }

  /** The reads `unpack` makes behind each tag. */
  function KindsOf(tag: u8): Option<seq<Kind>> {
    match tag
    case 0 => Some([])
    case 1 => Some(DepositKinds())
    case 2 => Some([])
    case 3 => Some([RawKind(20), NumKind(16), NumKind(16)])
    case 4 => Some([RawKind(20), TextKind, TextKind, TextKind, ByteKind])
    case 5 => Some([RawKind(32), RawKind(20), RawKind(20), RawKind(32), NumKind(16)])
    case 6 => Some([RawKind(20), RawKind(20), NumKind(16), NumKind(16)])
    case 7 => Some([RawKind(20), RawKind(20)])
    case 8 => Some([RawKind(32)])
    case 9 => Some([])
    case 10 => Some([RawKind(20), TextKind, TextKind, TextKind])
    case _ => None
  }

  lemma DepositFields(fs: seq<Field>, utf8: bytes -> bool)
    requires AllFit(fs, DepositKinds(), utf8)
    ensures |fs| == 16
    ensures fs[0].Raw? && |fs[0].raw| == 20 && fs[1].Raw? && |fs[1].raw| == 20
    ensures fs[2].Num? && fs[2].width == 16 && fs[2].value < Pow256(16)
    ensures fs[3].Num? && fs[3].width == 16 && fs[3].value < Pow256(16)
    ensures fs[4].Num? && fs[4].width == 8 && fs[4].value < Pow256(8) && fs[5].Flag?
    ensures fs[6].Num? && fs[6].width == 8 && fs[6].value < Pow256(8) && fs[7].Raw? && |fs[7].raw| == 32
    ensures fs[8].Num? && fs[8].width == 16 && fs[8].value < Pow256(16) && fs[9].Byte?
    ensures fs[10].Raw? && |fs[10].raw| == 20 && fs[11].Raw? && |fs[11].raw| == 32
    ensures fs[12].Num? && fs[12].width == 16 && fs[12].value < Pow256(16)
    ensures fs[13].Raw? && |fs[13].raw| == 32 && fs[14].Raw? && |fs[14].raw| == 32
    ensures fs[15].Raw? && |fs[15].raw| == 20
  {
    RawAt(fs, 0, utf8); RawAt(fs, 1, utf8); NumAt(fs, 2, utf8); NumAt(fs, 3, utf8);
    NumAt(fs, 4, utf8); OneAt(fs, 5, utf8); NumAt(fs, 6, utf8); RawAt(fs, 7, utf8);
    NumAt(fs, 8, utf8); OneAt(fs, 9, utf8); RawAt(fs, 10, utf8); RawAt(fs, 11, utf8);
    NumAt(fs, 12, utf8); RawAt(fs, 13, utf8); RawAt(fs, 14, utf8); RawAt(fs, 15, utf8);
  }

  lemma RawAt(fs: seq<Field>, k: nat, utf8: bytes -> bool)
    requires AllFit(fs, DepositKinds(), utf8) && k < 16 && DepositKind(k).RawKind?
    ensures |fs| == 16 && fs[k].Raw? && |fs[k].raw| == DepositKind(k).len
  {
    assert Fits(fs[k], DepositKinds()[k], utf8);
  }

  lemma NumAt(fs: seq<Field>, k: nat, utf8: bytes -> bool)
    requires AllFit(fs, DepositKinds(), utf8) && k < 16 && DepositKind(k).NumKind?
    ensures |fs| == 16 && fs[k].Num? && fs[k].width == DepositKind(k).width && fs[k].value < Pow256(fs[k].width)
  {
    assert Fits(fs[k], DepositKinds()[k], utf8);
  }

  lemma OneAt(fs: seq<Field>, k: nat, utf8: bytes -> bool)
    requires AllFit(fs, DepositKinds(), utf8) && k < 16
    ensures |fs| == 16 && (DepositKind(k).FlagKind? ==> fs[k].Flag?) && (DepositKind(k).ByteKind? ==> fs[k].Byte?)
  {
    assert Fits(fs[k], DepositKinds()[k], utf8);
  }

  function BuiltDeposit(fs: seq<Field>, utf8: bytes -> bool): (i: BridgeInstruction)
    requires AllFit(fs, DepositKinds(), utf8)
    ensures Tag(i) == 1 && FieldsOf(i) == fs
  {
    Widths();
    DepositFields(fs, utf8);
    var i :=
      DepositETH(fs[0].raw, fs[1].raw, fs[2].value, fs[3].value, fs[4].value, fs[5].on, fs[6].value, fs[7].raw,
                 fs[8].value, fs[9].b, fs[10].raw, fs[11].raw, fs[12].value, fs[13].raw, fs[14].raw, fs[15].raw);
    assert FieldsOf(i) == fs;
    i
  }

  /** The instruction made of the fields that were read. */
  function Built(tag: u8, fs: seq<Field>, utf8: bytes -> bool): BridgeInstruction
    requires KindsOf(tag).Some? && AllFit(fs, KindsOf(tag).value, utf8)
  {
    Widths();
    assert forall i :: 0 <= i < |fs| ==> Fits(fs[i], KindsOf(tag).value[i], utf8);
    match tag
    case 0 => CreateVaultAccount
    case 1 => BuiltDeposit(fs, utf8)
    case 2 => CreateWithdrawalCounterAccount
    case 3 => WithdrawETH(fs[0].raw, fs[1].value, fs[2].value)
    case 4 => CreateSPL(fs[0].raw, fs[1].text, fs[2].text, fs[3].text, fs[4].b)
    case 5 => DepositERC20(fs[0].raw, fs[1].raw, fs[2].raw, fs[3].raw, fs[4].value)
    case 6 => WithdrawSPL(fs[0].raw, fs[1].raw, fs[2].value, fs[3].value)
    case 7 => CreateBridgeConfigAccount(fs[0].raw, fs[1].raw)
    case 8 => ChangeBridgeAdmin(fs[0].raw)
    case 9 => CreateUserWithdrawalCounterAccount
    case 10 => UpdateSPLMetadata(fs[0].raw, fs[1].text, fs[2].text, fs[3].text)
  }

  /** `BridgeInstruction::unpack`; bytes behind the last field are ignored. */
  function Unpacked(input: bytes, utf8: bytes -> bool): Result<BridgeInstruction, BridgeError> {
    if input == [] || KindsOf(input[0]).None? then Err(InvalidInstruction)
    else
      var read := ReadAll(KindsOf(input[0]).value, input[1..], utf8);
      if read.None? then Err(InvalidInstruction)
      else
        var (fs, rest) := read.value;
        assert AllFit(fs, KindsOf(input[0]).value, utf8) by {
          ReadAllExactly(KindsOf(input[0]).value, input[1..], fs, rest, utf8);
        }
        Ok(Built(input[0], fs, utf8))
  }

  function Packed(i: BridgeInstruction): Result<bytes, BridgeError> {
    match WrittenAll(FieldsOf(i))
    case None => Err(StringLengthTooLong)
    case Some(body) => Ok([Tag(i)] + body)
  }

  /** `BridgeInstruction::pack` */
  method Pack(i: BridgeInstruction) returns (r: Result<bytes, BridgeError>)
    ensures r == Packed(i)
    ensures r.Err? <==> exists s :: s in TextsOf(i) && |s| > MAX_TEXT
  {
    PackFailsOnLongText(i);
    var buf := Append([Tag(i)], FieldsOf(i));
    r := if buf.None? then Err(StringLengthTooLong) else Ok(buf.value);
  }

  /** The strings of an instruction. */
  function TextsOf(i: BridgeInstruction): seq<bytes> {
    match i
    case CreateSPL(_, name, symbol, uri, _) => [name, symbol, uri]
    case UpdateSPLMetadata(_, name, symbol, uri) => [name, symbol, uri]
    case _ => []
  }

  /** Strings are valid UTF-8, as every `&str` is. */
  predicate Valid(i: BridgeInstruction, utf8: bytes -> bool) {
    forall s :: s in TextsOf(i) ==> utf8(s)
  }

  lemma FieldsFit(i: BridgeInstruction, utf8: bytes -> bool)
    ensures KindsOf(Tag(i)).Some?
    ensures AllFit(FieldsOf(i), KindsOf(Tag(i)).value, utf8) <==> Valid(i, utf8)
  {
    if i.CreateSPL? || i.UpdateSPLMetadata? {
      TextsFit(i, utf8);
    } else if i.DepositETH? {
      DepositFits(i, utf8);
    } else {
      Widths();
    }
  }

  lemma TextsFit(i: BridgeInstruction, utf8: bytes -> bool)
    requires i.CreateSPL? || i.UpdateSPLMetadata?
    ensures AllFit(FieldsOf(i), KindsOf(Tag(i)).value, utf8) <==> Valid(i, utf8)
  {
    var fs, ks, ts := FieldsOf(i), KindsOf(Tag(i)).value, TextsOf(i);
    assert fs[1] == Text(ts[0]) && fs[2] == Text(ts[1]) && fs[3] == Text(ts[2]);
    assert Fits(fs[0], ks[0], utf8);
    assert Fits(fs[1], ks[1], utf8) == utf8(ts[0]) && Fits(fs[2], ks[2], utf8) == utf8(ts[1]);
    assert Fits(fs[3], ks[3], utf8) == utf8(ts[2]);
    assert |ks| > 4 ==> Fits(fs[4], ks[4], utf8);
    assert forall s :: s in ts <==> s == ts[0] || s == ts[1] || s == ts[2];
  }

  lemma DepositFits(i: BridgeInstruction, utf8: bytes -> bool)
    requires i.DepositETH?
    ensures AllFit(FieldsOf(i), DepositKinds(), utf8)
  {
    Widths();
  }

  lemma BuiltFromFields(i: BridgeInstruction, utf8: bytes -> bool)
    requires Valid(i, utf8)
    ensures KindsOf(Tag(i)).Some? && AllFit(FieldsOf(i), KindsOf(Tag(i)).value, utf8)
    ensures Built(Tag(i), FieldsOf(i), utf8) == i
  {
    FieldsFit(i, utf8);
  }

  lemma FieldsOfBuilt(tag: u8, fs: seq<Field>, utf8: bytes -> bool)
    requires KindsOf(tag).Some? && AllFit(fs, KindsOf(tag).value, utf8)
    ensures var i := Built(tag, fs, utf8);
            Tag(i) == tag && FieldsOf(i) == fs && Valid(i, utf8)
  {
    var i := Built(tag, fs, utf8);
    if tag != 1 { SmallBuilt(tag, fs, utf8); }
    FieldsFit(i, utf8);
  }

  lemma SmallBuilt(tag: u8, fs: seq<Field>, utf8: bytes -> bool)
    requires KindsOf(tag).Some? && AllFit(fs, KindsOf(tag).value, utf8) && tag != 1
    ensures Tag(Built(tag, fs, utf8)) == tag && FieldsOf(Built(tag, fs, utf8)) == fs
  {
    match tag
    case 3 => WithdrawEthBuilt(fs, utf8);
    case 4 => CreateSplBuilt(fs, utf8);
    case 5 => DepositErc20Built(fs, utf8);
    case 6 => WithdrawSplBuilt(fs, utf8);
    case 7 => CreateConfigBuilt(fs, utf8);
    case 8 => ChangeAdminBuilt(fs, utf8);
    case 10 => UpdateMetadataBuilt(fs, utf8);
    case _ =>
  }

  lemma WithdrawEthBuilt(fs: seq<Field>, utf8: bytes -> bool)
    requires AllFit(fs, KindsOf(3).value, utf8)
    ensures FieldsOf(Built(3, fs, utf8)) == fs
  {
    var ks := KindsOf(3).value;
    RawOf(fs[0], ks[0], utf8);
    NumOf(fs[1], ks[1], utf8);
    NumOf(fs[2], ks[2], utf8);
  }

  lemma CreateSplBuilt(fs: seq<Field>, utf8: bytes -> bool)
    requires AllFit(fs, KindsOf(4).value, utf8)
    ensures FieldsOf(Built(4, fs, utf8)) == fs
  {
    var ks := KindsOf(4).value;
    assert Fits(fs[0], ks[0], utf8) && Fits(fs[1], ks[1], utf8) && Fits(fs[2], ks[2], utf8);
    assert Fits(fs[3], ks[3], utf8) && Fits(fs[4], ks[4], utf8);
  }

  lemma DepositErc20Built(fs: seq<Field>, utf8: bytes -> bool)
    requires AllFit(fs, KindsOf(5).value, utf8)
    ensures FieldsOf(Built(5, fs, utf8)) == fs
  {
    var ks := KindsOf(5).value;
    RawOf(fs[0], ks[0], utf8);
    RawOf(fs[1], ks[1], utf8);
    RawOf(fs[2], ks[2], utf8);
    RawOf(fs[3], ks[3], utf8);
    NumOf(fs[4], ks[4], utf8);
  }

  lemma WithdrawSplBuilt(fs: seq<Field>, utf8: bytes -> bool)
    requires AllFit(fs, KindsOf(6).value, utf8)
    ensures FieldsOf(Built(6, fs, utf8)) == fs
  {
    var ks := KindsOf(6).value;
    RawOf(fs[0], ks[0], utf8);
    RawOf(fs[1], ks[1], utf8);
    NumOf(fs[2], ks[2], utf8);
    NumOf(fs[3], ks[3], utf8);
  }

  lemma CreateConfigBuilt(fs: seq<Field>, utf8: bytes -> bool)
    requires AllFit(fs, KindsOf(7).value, utf8)
    ensures FieldsOf(Built(7, fs, utf8)) == fs
  {
    var ks := KindsOf(7).value;
    assert Fits(fs[0], ks[0], utf8) && Fits(fs[1], ks[1], utf8);
  }

  lemma ChangeAdminBuilt(fs: seq<Field>, utf8: bytes -> bool)
    requires AllFit(fs, KindsOf(8).value, utf8)
    ensures FieldsOf(Built(8, fs, utf8)) == fs
  {
    var ks := KindsOf(8).value;
    assert Fits(fs[0], ks[0], utf8);
  }

  lemma UpdateMetadataBuilt(fs: seq<Field>, utf8: bytes -> bool)
    requires AllFit(fs, KindsOf(10).value, utf8)
    ensures FieldsOf(Built(10, fs, utf8)) == fs
  {
    var ks := KindsOf(10).value;
    assert Fits(fs[0], ks[0], utf8) && Fits(fs[1], ks[1], utf8) && Fits(fs[2], ks[2], utf8);
    assert Fits(fs[3], ks[3], utf8);
  }

  /** The codec is exact: the bytes that unpack to `i` are its packing with anything behind it, and
      nothing else. In particular `unpack(pack(i) ++ rest)` is `i`. */
  lemma UnpacksExactly(input: bytes, i: BridgeInstruction, utf8: bytes -> bool)
    ensures Unpacked(input, utf8) == Ok(i) <==> Valid(i, utf8) && Packed(i).Ok? && Packed(i).value <= input
  {
    if Unpacked(input, utf8) == Ok(i) { UnpackedIsPacked(input, i, utf8); }
    if Valid(i, utf8) && Packed(i).Ok? && Packed(i).value <= input { PackedUnpacks(input, i, utf8); }
  }

  lemma UnpackedIsPacked(input: bytes, i: BridgeInstruction, utf8: bytes -> bool)
    requires Unpacked(input, utf8) == Ok(i)
    ensures Valid(i, utf8) && Packed(i).Ok? && Packed(i).value <= input
  {
    var (fs, rest) := ReadAll(KindsOf(input[0]).value, input[1..], utf8).value;
    BehindTag(input, KindsOf(input[0]).value, fs, rest, utf8);
    FieldsOfBuilt(input[0], fs, utf8);
  }

  lemma PackedUnpacks(input: bytes, i: BridgeInstruction, utf8: bytes -> bool)
    requires Valid(i, utf8) && Packed(i).Ok? && Packed(i).value <= input
    ensures Unpacked(input, utf8) == Ok(i)
  {
    var body := WrittenAll(FieldsOf(i)).value;
    var rest := input[1 + |body|..];
    assert input == ([Tag(i)] + body) + rest;
    assert input[0] == Tag(i) && input[1..] == body + rest;
    BuiltFromFields(i, utf8);
    ReadAllExactly(KindsOf(Tag(i)).value, input[1..], FieldsOf(i), rest, utf8);
  }

  /** Packing fails exactly when a string does not fit 255 bytes. */
  lemma PackFailsOnLongText(i: BridgeInstruction)
    ensures Packed(i).Err? <==> exists s :: s in TextsOf(i) && |s| > MAX_TEXT
  {
    var fs := FieldsOf(i);
    WrittenUnlessTooLong(fs);
    match i
    case CreateSPL(_, name, symbol, uri, _) =>
      assert TextsOf(i)[0] == name && TextsOf(i)[1] == symbol && TextsOf(i)[2] == uri;
      assert fs[1] == Text(name) && fs[2] == Text(symbol) && fs[3] == Text(uri);
    case UpdateSPLMetadata(_, name, symbol, uri) =>
      assert TextsOf(i)[0] == name && TextsOf(i)[1] == symbol && TextsOf(i)[2] == uri;
      assert fs[1] == Text(name) && fs[2] == Text(symbol) && fs[3] == Text(uri);
    case _ =>
  }

  /** No two instructions share an encoding, and none is a prefix of another's. */
  lemma PrefixFree(i: BridgeInstruction, j: BridgeInstruction)
    requires Packed(i).Ok? && Packed(j).Ok? && Packed(i).value <= Packed(j).value
    ensures i == j
  {
    var any := (_: bytes) => true;
    UnpacksExactly(Packed(j).value, i, any);
    UnpacksExactly(Packed(j).value, j, any);
  }

  /** The bytes between the tag and the end are those of the fields. */
  lemma PackedParts(i: BridgeInstruction, parts: seq<bytes>)
    requires |parts| == |FieldsOf(i)| && forall k :: 0 <= k < |parts| ==> Written(FieldsOf(i)[k]) == Some(parts[k])
    ensures Packed(i) == Ok([Tag(i)] + Concat(parts))
  {
    WrittenParts(FieldsOf(i), parts);
  }

  lemma PackedAlone(i: BridgeInstruction)
    requires FieldsOf(i) == []
    ensures Packed(i) == Ok([Tag(i)])
  {
    PackedParts(i, []);
    assert [Tag(i)] + Concat([]) == [Tag(i)];
  }

  /** The wire form of the two withdrawals. */
  lemma WithdrawalsOnWire(token: Address, to: Address, amount: u128, gasLimit: u128)
    ensures Packed(WithdrawETH(to, amount, gasLimit)) == Ok([3] + Concat([to, ToLE(16, amount), ToLE(16, gasLimit)]))
    ensures Packed(WithdrawSPL(token, to, amount, gasLimit))
            == Ok([6] + Concat([token, to, ToLE(16, amount), ToLE(16, gasLimit)]))
  {
    PackedParts(WithdrawETH(to, amount, gasLimit), [to, ToLE(16, amount), ToLE(16, gasLimit)]);
    PackedParts(WithdrawSPL(token, to, amount, gasLimit), [token, to, ToLE(16, amount), ToLE(16, gasLimit)]);
  }

  /** That of the two deposits. */
  lemma DepositsOnWire(i: BridgeInstruction)
    ensures i.DepositETH? ==>
              Packed(i) == Ok([1] + Concat([i.from, i.to, ToLE(16, i.mint), ToLE(16, i.value), ToLE(8, i.gas),
                                            [if i.isCreation then 1 else 0], ToLE(8, i.l1BlockNum), i.l1BlockHash,
                                            ToLE(16, i.logIndex), [i.depositType], i.depositFrom, i.depositTo,
                                            ToLE(16, i.depositAmount), i.depositExtraData, i.depositL2Contract,
                                            i.depositL1Contract]))
    ensures i.DepositERC20? ==>
              Packed(i) == Ok([5] + Concat([i.localToken, i.erc20, i.sender, i.recipient, ToLE(16, i.amount)]))
  {
    if i.DepositETH? {
      PackedParts(i, [i.from, i.to, ToLE(16, i.mint), ToLE(16, i.value), ToLE(8, i.gas),
                      [if i.isCreation then 1 else 0], ToLE(8, i.l1BlockNum), i.l1BlockHash, ToLE(16, i.logIndex),
                      [i.depositType], i.depositFrom, i.depositTo, ToLE(16, i.depositAmount), i.depositExtraData,
                      i.depositL2Contract, i.depositL1Contract]);
    }
    if i.DepositERC20? { PackedParts(i, [i.localToken, i.erc20, i.sender, i.recipient, ToLE(16, i.amount)]); }
  }

  /** And that of the others; a text has its length in front. */
  lemma OthersOnWire(i: BridgeInstruction)
    ensures i.CreateVaultAccount? ==> Packed(i) == Ok([0])
    ensures i.CreateWithdrawalCounterAccount? ==> Packed(i) == Ok([2])
    ensures i.CreateUserWithdrawalCounterAccount? ==> Packed(i) == Ok([9])
    ensures i.CreateBridgeConfigAccount? ==> Packed(i) == Ok([7] + Concat([i.messenger, i.bridge]))
    ensures i.ChangeBridgeAdmin? ==> Packed(i) == Ok([8] + Concat([i.newAdmin]))
    ensures i.CreateSPL? && |i.name| < 256 && |i.symbol| < 256 && |i.uri| < 256 ==>
              Packed(i) == Ok([4] + Concat([i.splToken, [|i.name|] + i.name, [|i.symbol|] + i.symbol, [|i.uri|] + i.uri,
                                            [i.decimals]]))
    ensures i.UpdateSPLMetadata? && |i.newName| < 256 && |i.newSymbol| < 256 && |i.newUri| < 256 ==>
              Packed(i) == Ok([10] + Concat([i.updated, [|i.newName|] + i.newName, [|i.newSymbol|] + i.newSymbol,
                                             [|i.newUri|] + i.newUri]))
  {
    match i
    case CreateBridgeConfigAccount(messenger, bridge) => PackedParts(i, [messenger, bridge]);
    case ChangeBridgeAdmin(newAdmin) => PackedParts(i, [newAdmin]);
    case CreateSPL(token, name, symbol, uri, decimals) =>
      if |name| < 256 && |symbol| < 256 && |uri| < 256 {
        PackedParts(i, [token, [|name|] + name, [|symbol|] + symbol, [|uri|] + uri, [decimals]]);
      }
    case UpdateSPLMetadata(token, name, symbol, uri) =>
      if |name| < 256 && |symbol| < 256 && |uri| < 256 {
        PackedParts(i, [token, [|name|] + name, [|symbol|] + symbol, [|uri|] + uri]);
      }
    case CreateVaultAccount => PackedAlone(i);
    case CreateWithdrawalCounterAccount => PackedAlone(i);
    case CreateUserWithdrawalCounterAccount => PackedAlone(i);
    case _ =>
  }
}
