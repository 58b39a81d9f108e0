/** Reading a deposit log: `crates/primitives/src/deposit.rs:138-301`. Slices outside their bytes
    panic in the source; here they come out as Panic. */
module DepositData {
  import opened Bytes
  import opened Blocks
  import opened OrderedList
  import opened Outcomes
  import opened SystemConfig

  datatype DepositError =
    | InvalidDomainMessenger
    | InvalidL2CrossDomainMessenger
    | InvalidDataLength
    | InvalidRelaySelector
    | InvalidDepositSelector
    | InvalidL1StandardBridge
    | InvalidL2StandardBridge

  type Reading<+T> = Outcome<T, DepositError>

  function Slice(b: bytes, lo: nat, hi: nat): (r: Reading<bytes>)
    requires lo <= hi
    ensures r == if hi <= |b| then Value(b[lo..hi]) else Panic
  {
    if hi <= |b| then Value(b[lo..hi]) else Panic
  }

  const ETH_DEPOSIT_SELECTOR: bytes := [0x59, 0x6a, 0x37, 0xc5]
  const ERC20_DEPOSIT_SELECTOR: bytes := [0xf7, 0x3f, 0xb3, 0x9c]
  const RELAY_SELECTOR: bytes := [0xe5, 0xd0, 0xa3, 0xd7]
  const SOON_BRIDGE_PUBKEY: Hash := [
    0x02, 0xc8, 0x06, 0x31, 0x2c, 0xb8, 0x59, 0xf1, 0xbc, 0x25, 0x44, 0x8e, 0x39, 0xf8, 0x7a, 0xa0,
    0x98, 0x57, 0xd8, 0x3c, 0xcb, 0x4a, 0x83, 0x7d, 0xf5, 0x56, 0x48, 0xe0, 0x00, 0x00, 0x00, 0x00
  ]

  // ---- Address aliasing ----------------------------------------------------

  /** `BigUint::to_bytes_be`, which has one byte for 0. */
  function Minimal(v: nat): bytes {
    if v == 0 then [0] else ToBE(Width(v), v)
  }

  function Padded(b: bytes): bytes {
    Zeros(if |b| < 20 then 20 - |b| else 0) + b
  }

  const ALIAS_OFFSET := 0x1111_0000_0000_0000_0000_0000_0000_0000_0000_1111
  const MAX_ADDRESS := 0xffff_ffff_ffff_ffff_ffff_ffff_ffff_ffff_ffff_ffff

  function AliasNumber(v: nat): nat {
    var w := v + ALIAS_OFFSET;
    if w > MAX_ADDRESS then w - MAX_ADDRESS - 1 else w
  }

  function UndoneNumber(v: nat): nat {
    (if v < ALIAS_OFFSET then v + MAX_ADDRESS + 1 else v) - ALIAS_OFFSET
  }

  lemma {:induction false} ZeroFront(n: nat, v: nat)
    requires v < Pow256(n)
    ensures ToBE(n + 1, v) == [0] + ToBE(n, v)
  {
    if n > 0 {
      ZeroFront(n - 1, v / 256);
      assert ToBE(n + 1, v) == ToBE(n, v / 256) + [v % 256];
    } else {
      assert ToBE(1, v) == ToBE(0, v / 256) + [v % 256];
    }
  }

  lemma {:induction false} PadToBE(n: nat, k: nat, v: nat)
    requires v < Pow256(n)
    ensures ToBE(n + k, v) == Zeros(k) + ToBE(n, v)
  {
    if k == 0 {
      assert Zeros(0) + ToBE(n, v) == ToBE(n, v);
    } else {
      PadToBE(n, k - 1, v);
      PowMonotone(n, n + k - 1);
      ZeroFront(n + k - 1, v);
      assert Zeros(k) == [0] + Zeros(k - 1);
      assert [0] + (Zeros(k - 1) + ToBE(n, v)) == Zeros(k) + ToBE(n, v);
    }
  }

  lemma {:induction false} PowMonotone(m: nat, n: nat)
    requires m <= n
    ensures Pow256(m) <= Pow256(n)
  {
    if m < n { PowMonotone(m, n - 1); }
  }

  lemma AddressRange()
    ensures Pow256(20) == MAX_ADDRESS + 1
  {
    assert Pow256(4) == 0x1_0000_0000;
    assert Pow256(8) == 0x1_0000_0000_0000_0000;
    assert Pow256(12) == 0x1_0000_0000_0000_0000_0000_0000;
    assert Pow256(16) == 0x1_0000_0000_0000_0000_0000_0000_0000_0000;
  }

  /** Shortest bytes padded to 20 are the 20-byte big-endian form. */
  lemma PaddedIsAddress(v: nat)
    requires v <= MAX_ADDRESS
    ensures Padded(Minimal(v)) == ToBE(20, v)
  {
    AddressRange();
    if v == 0 {
      PadToBE(1, 19, 0);
      assert ToBE(1, 0) == ToBE(0, 0) + [0] == [0];
    } else {
      WidthFits(v);
      WidthBound(v, 20);
      PadToBE(Width(v), 20 - Width(v), v);
    }
  }

  function ApplyAlias(a: Address): Address {
    AddressRange();
    PaddedIsAddress(AliasNumber(FromBE(a)));
    Padded(Minimal(AliasNumber(FromBE(a))))
  }

  function UndoAlias(a: Address): Address {
    AddressRange();
    PaddedIsAddress(UndoneNumber(FromBE(a)));
    Padded(Minimal(UndoneNumber(FromBE(a))))
  }

  lemma ApplyIs(a: Address)
    ensures FromBE(a) <= MAX_ADDRESS && AliasNumber(FromBE(a)) <= MAX_ADDRESS
    ensures ApplyAlias(a) == ToBE(20, AliasNumber(FromBE(a))) && FromBE(ApplyAlias(a)) == AliasNumber(FromBE(a))
  {
    AddressRange();
    PaddedIsAddress(AliasNumber(FromBE(a)));
    BERoundTrip(20, AliasNumber(FromBE(a)));
  }

  lemma UndoIs(a: Address)
    ensures FromBE(a) <= MAX_ADDRESS && UndoneNumber(FromBE(a)) <= MAX_ADDRESS
    ensures UndoAlias(a) == ToBE(20, UndoneNumber(FromBE(a))) && FromBE(UndoAlias(a)) == UndoneNumber(FromBE(a))
  {
    AddressRange();
    PaddedIsAddress(UndoneNumber(FromBE(a)));
    BERoundTrip(20, UndoneNumber(FromBE(a)));
  }

  lemma NumbersUndo(v: nat)
    requires v <= MAX_ADDRESS
    ensures UndoneNumber(AliasNumber(v)) == v && AliasNumber(UndoneNumber(v)) == v
  {}

  /** Aliasing and undoing it are inverse on every address, across the wrap at 2^160. */
  lemma AliasRoundTrip(a: Address)
    ensures UndoAlias(ApplyAlias(a)) == a && ApplyAlias(UndoAlias(a)) == a
  {
    ApplyIs(a);
    UndoIs(ApplyAlias(a));
    UndoIs(a);
    ApplyIs(UndoAlias(a));
    NumbersUndo(FromBE(a));
    BERoundTripBytes(a);
  }

  // ---- extract and the two payloads ----------------------------------------

  /** Length of the RLP of a byte string (Yellow Paper, appendix B), which is what `length()` is. */
  function RlpLength(b: bytes): nat {
    if |b| == 1 && b[0] < EMPTY_STRING_CODE then 1
    else |b| + if |b| < 56 then 1 else 1 + Width(|b|)
  }

  datatype External = External(from: bytes, to: bytes, mint: nat, value: nat, gas: nat, isCreation: bool)

  /** `ExternalData::extract` */
  function ExtractExternal(b: bytes): Reading<(External, bytes)> {
    if RlpLength(b) < 305 then Fail(InvalidDataLength)
    else
      var mint :- Slice(b, 0, 32);
      var value :- Slice(b, 32, 64);
      var gas :- Slice(b, 64, 72);
      var creation :- Slice(b, 72, 73);
      var relaySelector :- Slice(b, 73, 77);
      if relaySelector != RELAY_SELECTOR then Fail(InvalidRelaySelector)
      else
        var from :- Slice(b, 121, 141);
        var to :- Slice(b, 141, 173);
        var bridgeData :- Slice(b, 173, 301);
        var selector :- Slice(b, 301, 305);
        if selector != ETH_DEPOSIT_SELECTOR && selector != ERC20_DEPOSIT_SELECTOR then Fail(InvalidDepositSelector)
        else
          Value((External(from, to, FromBE(mint), FromBE(value), FromBE(gas), creation[0] != 0), b[301..]))
  }

  datatype DepositType =
    | Eth(from: bytes, to: bytes, amount: nat, extraData: bytes)
    | Erc20(l2Contract: bytes, l1Contract: bytes, from: bytes, to: bytes, amount: nat, extraData: bytes)

  /** `resize(32, 0)` */
  function Resized(b: bytes): bytes {
    if |b| >= 32 then b[..32] else b + Zeros(32 - |b|)
  }

  function ReadEth(b: bytes): Reading<DepositType> {
    var from :- Slice(b, 12, 32);
    var to :- Slice(b, 32, 64);
    var amount :- Slice(b, 64, 96);
    Value(Eth(from, to, FromBE(amount), Resized(b[96..])))
  }

  function ReadErc20(b: bytes): Reading<DepositType> {
    var l2Contract :- Slice(b, 0, 32);
    var l1Contract :- Slice(b, 44, 64);
    var from :- Slice(b, 76, 96);
    var to :- Slice(b, 96, 128);
    var amount :- Slice(b, 128, 160);
    Value(Erc20(l2Contract, l1Contract, from, to, FromBE(amount), b[160..]))
  }

  /** `DepositType::try_from`, on data whose selector `extract` has let through. */
  function ReadDeposit(b: bytes): Reading<DepositType> {
    var selector :- Slice(b, 0, 4);
    if selector == ETH_DEPOSIT_SELECTOR then ReadEth(b[4..]) else ReadErc20(b[4..])
  }

  /** The opaque data, from the L1 bridge to the bridge program. */
  function ReadOpaque(b: bytes, bridge: Address): Reading<(External, DepositType)> {
    var (ext, data) :- ExtractExternal(b);
    if ext.from != bridge then Fail(InvalidL1StandardBridge)
    else if ext.to != SOON_BRIDGE_PUBKEY then Fail(InvalidL2StandardBridge)
    else
      var deposit :- ReadDeposit(data);
      Value((ext, deposit))
  }

  /** `parse_from_log`, with the messenger and the L1 bridge it expects. */
  function ParseFromLog(log: Log, messenger: Address, bridge: Address): Reading<(External, DepositType)> {
    if |log.data| < 64 || |log.topics| < 2 then Panic
    else if UndoAlias(log.topics[1][12..]) != messenger then Fail(InvalidDomainMessenger)
    else if |log.topics| < 3 then Panic
    else if log.topics[2] != SOON_BRIDGE_PUBKEY then Fail(InvalidL2CrossDomainMessenger)
    else ReadOpaque(log.data[64..], bridge)
  }

  /** The guard compares the length of the RLP, not of the data: it lets 302 bytes through where the
      slices behind it need 305. */
  lemma GuardIs302(b: bytes)
    ensures RlpLength(b) < 305 <==> |b| < 302
  {
    assert Pow256(1) == 256 && Pow256(2) == 65536;
    if |b| < 302 {
      WidthBound(|b|, 2);
    } else {
      WidthFits(|b|);
      assert Width(|b|) >= 2;
    }
  }

  /** The opaque data gets past the guard and the relay selector. */
  predicate Relayed(b: bytes) {
    |b| >= 302 && b[73..77] == RELAY_SELECTOR
  }

  lemma ExtractPanicsExactly(b: bytes)
    ensures ExtractExternal(b).Panic? <==> Relayed(b) && |b| < 305
    ensures ExtractExternal(b) == Fail(InvalidDataLength) <==> |b| < 302
    ensures ExtractExternal(b).Value? <==>
              && Relayed(b) && |b| >= 305
              && (b[301..305] == ETH_DEPOSIT_SELECTOR || b[301..305] == ERC20_DEPOSIT_SELECTOR)
  {
    GuardIs302(b);
  }

  /** The bytes a deposit of this kind needs behind the selector at 301. */
  function Needed(b: bytes): nat
    requires |b| >= 305
  {
    if b[301..305] == ETH_DEPOSIT_SELECTOR then 401 else 465
  }

  /** The opaque data is read past its end: 302 to 304 bytes behind a good relay selector; or a known
      deposit selector from the expected bridge, and fewer than 401 bytes for ETH or 465 for ERC20. */
  predicate ReadsPastEnd(b: bytes, bridge: Address) {
    && Relayed(b)
    && (|b| >= 305 ==>
          && (b[301..305] == ETH_DEPOSIT_SELECTOR || b[301..305] == ERC20_DEPOSIT_SELECTOR)
          && b[121..141] == bridge && b[141..173] == SOON_BRIDGE_PUBKEY && |b| < Needed(b))
  }

  lemma DepositPanics(b: bytes)
    requires |b| >= 4
    ensures ReadDeposit(b).Panic? <==> |b| < if b[0..4] == ETH_DEPOSIT_SELECTOR then 100 else 164
  {
    assert |b[4..]| == |b| - 4;
  }

  /** What `extract` gives when it does. */
  lemma Extracted(b: bytes)
    requires ExtractExternal(b).Value?
    ensures |b| >= 305
    ensures ExtractExternal(b).value.1 == b[301..]
    ensures var ext := ExtractExternal(b).value.0;
            && ext.from == b[121..141] && ext.to == b[141..173] && ext.mint == FromBE(b[0..32])
            && ext.value == FromBE(b[32..64]) && ext.gas == FromBE(b[64..72]) && (ext.isCreation <==> b[72] != 0)
  {
    ExtractPanicsExactly(b);
    assert b[72..73][0] == b[72];
  }

  /** Reading the opaque data, in two steps. */
  lemma OpaqueSteps(b: bytes, bridge: Address)
    ensures !ExtractExternal(b).Value? ==>
              (ReadOpaque(b, bridge).Panic? <==> ExtractExternal(b).Panic?) && !ReadOpaque(b, bridge).Value?
    ensures ExtractExternal(b).Value? ==>
              var (ext, data) := ExtractExternal(b).value;
              var ours := ext.from == bridge && ext.to == SOON_BRIDGE_PUBKEY;
              && (ReadOpaque(b, bridge).Panic? <==> ours && ReadDeposit(data).Panic?)
              && forall d :: ReadOpaque(b, bridge) == Value((ext, d)) <==> ours && ReadDeposit(data) == Value(d)
    ensures ReadOpaque(b, bridge).Value? ==>
              ExtractExternal(b).Value? && ReadOpaque(b, bridge).value.0 == ExtractExternal(b).value.0
  {
  }

  lemma OpaquePanicsExactly(b: bytes, bridge: Address)
    ensures ReadOpaque(b, bridge).Panic? <==> ReadsPastEnd(b, bridge)
  {
    OpaqueSteps(b, bridge);
    ExtractPanicsExactly(b);
    if ExtractExternal(b).Value? {
      Extracted(b);
      var data := b[301..];
      assert data[0..4] == b[301..305] && |data| == |b| - 301;
      DepositPanics(data);
    }
  }

  /** The logs that panic: the two length words or the sender's topic are missing; or the sender is the
      messenger, and the target's topic is missing or is the bridge and the opaque data is read past
      its end. */
  predicate LogPanics(log: Log, messenger: Address, bridge: Address) {
    || |log.data| < 64 || |log.topics| < 2
    || (&& UndoAlias(log.topics[1][12..]) == messenger
        && (|log.topics| < 3 || (log.topics[2] == SOON_BRIDGE_PUBKEY && ReadsPastEnd(log.data[64..], bridge))))
  }

  /** Parsing panics on exactly these logs, whatever the log; so on none that has three topics and 529
      bytes of data. */
  lemma ParsePanicsExactly(log: Log, messenger: Address, bridge: Address)
    ensures ParseFromLog(log, messenger, bridge).Panic? <==> LogPanics(log, messenger, bridge)
    ensures |log.topics| >= 3 && |log.data| >= 529 ==> !ParseFromLog(log, messenger, bridge).Panic?
  {
    if |log.data| >= 64 { OpaquePanicsExactly(log.data[64..], bridge); }
  }

  /** A log from the messenger to the bridge with 302 bytes of opaque data: it passes the guard, and the
      slice for the deposit selector panics. */
  lemma ShortLogPanics(contract: Address, signature: Hash, messenger: Address, bridge: Address)
    ensures var data := Zeros(64) + Zeros(73) + RELAY_SELECTOR + Zeros(225);
            var log := Log(contract, [signature, Zeros(12) + ApplyAlias(messenger), SOON_BRIDGE_PUBKEY], data);
            && |data[64..]| == 302 && RlpLength(data[64..]) == 305
            && ParseFromLog(log, messenger, bridge).Panic?
  {
    var data := Zeros(64) + Zeros(73) + RELAY_SELECTOR + Zeros(225);
    var log := Log(contract, [signature, Zeros(12) + ApplyAlias(messenger), SOON_BRIDGE_PUBKEY], data);
    assert log.topics[1][12..] == ApplyAlias(messenger);
    AliasRoundTrip(messenger);
    assert data[64..] == Zeros(73) + RELAY_SELECTOR + Zeros(225);
    assert data[64..][73..77] == RELAY_SELECTOR;
    assert Width(302) == 1 + Width(1) && Width(1) == 1 + Width(0);
    ParsePanicsExactly(log, messenger, bridge);
  }

  // ---- What an accepted log says -------------------------------------------

  /** The log goes from the messenger to the bridge program, and carries a relayed message of the L1 bridge. */
  predicate Addressed(log: Log, messenger: Address, bridge: Address) {
    && |log.topics| >= 3 && log.topics[1][12..] == ApplyAlias(messenger) && log.topics[2] == SOON_BRIDGE_PUBKEY
    && |log.data| >= 369 && log.data[137..141] == RELAY_SELECTOR
    && log.data[185..205] == bridge && log.data[205..237] == SOON_BRIDGE_PUBKEY
  }

  predicate SaysExternal(data: bytes, ext: External) {
    && |data| >= 369 && ext.from == data[185..205] && ext.to == data[205..237]
    && ext.mint == FromBE(data[64..96]) && ext.value == FromBE(data[96..128]) && ext.gas == FromBE(data[128..136])
    && (ext.isCreation <==> data[136] != 0)
  }

  /** The extra data has 32 bytes, cut off or filled up with zeros. */
  predicate SaysEth(data: bytes, d: DepositType) {
    && d.Eth? && |data| >= 465 && data[365..369] == ETH_DEPOSIT_SELECTOR
    && d.from == data[381..401] && d.to == data[401..433] && d.amount == FromBE(data[433..465])
    && |d.extraData| == 32
    && forall k :: 0 <= k < 32 ==> d.extraData[k] == if 465 + k < |data| then data[465 + k] else 0
  }

  predicate SaysErc20(data: bytes, d: DepositType) {
    && d.Erc20? && |data| >= 529 && data[365..369] == ERC20_DEPOSIT_SELECTOR
    && d.l2Contract == data[369..401] && d.l1Contract == data[413..433] && d.from == data[445..465]
    && d.to == data[465..497] && d.amount == FromBE(data[497..529]) && d.extraData == data[529..]
  }

  /** Every field of a deposit, by where it lies in the log. */
  predicate Says(log: Log, messenger: Address, bridge: Address, ext: External, d: DepositType) {
    Addressed(log, messenger, bridge) && SaysExternal(log.data, ext) && (SaysEth(log.data, d) || SaysErc20(log.data, d))
  }

  /** `b` is what lies in `data` behind its first `n` bytes. */
  lemma Behind(data: bytes, n: nat, b: bytes, lo: nat, hi: nat)
    requires n <= |data| && b == data[n..] && lo <= hi <= |b|
    ensures b[lo..hi] == data[n + lo..n + hi] && b[lo..] == data[n + lo..]
  {
  }

  /** The external data of an opaque part, by where it lies in the log. */
  lemma ExtractedFields(data: bytes)
    requires |data| >= 64 && ExtractExternal(data[64..]).Value?
    ensures |data| >= 369 && ExtractExternal(data[64..]).value.1 == data[365..]
    ensures SaysExternal(data, ExtractExternal(data[64..]).value.0)
  {
    var b := data[64..];
    Extracted(b);
    Behind(data, 64, b, 0, 32);
    Behind(data, 64, b, 32, 64);
    Behind(data, 64, b, 64, 72);
    Behind(data, 64, b, 121, 141);
    Behind(data, 64, b, 141, 173);
    Behind(data, 64, b, 301, 305);
    assert b[72] == data[136];
  }

  lemma ExtractsExactly(data: bytes)
    requires |data| >= 64
    ensures ExtractExternal(data[64..]).Value? <==>
              && |data| >= 369 && data[137..141] == RELAY_SELECTOR
              && (data[365..369] == ETH_DEPOSIT_SELECTOR || data[365..369] == ERC20_DEPOSIT_SELECTOR)
  {
    var b := data[64..];
    ExtractPanicsExactly(b);
    if |b| >= 305 {
      Behind(data, 64, b, 73, 77);
      Behind(data, 64, b, 301, 305);
    }
  }

  lemma ReadFields(data: bytes, d: DepositType)
    requires |data| >= 369
    requires data[365..369] == ETH_DEPOSIT_SELECTOR || data[365..369] == ERC20_DEPOSIT_SELECTOR
    ensures ReadDeposit(data[365..]) == Value(d) <==> SaysEth(data, d) || SaysErc20(data, d)
  {
    var b := data[365..][4..];
    assert data[365..][0..4] == data[365..369] && b == data[369..];
    if data[365..369] == ETH_DEPOSIT_SELECTOR {
      if |b| >= 96 {
        Behind(data, 369, b, 12, 32);
        Behind(data, 369, b, 32, 64);
        Behind(data, 369, b, 64, 96);
        assert d.Eth? && |d.extraData| == 32 ==> (d.extraData == Resized(b[96..])
          <==> forall k :: 0 <= k < 32 ==> d.extraData[k] == if 465 + k < |data| then data[465 + k] else 0);
      }
    } else if |b| >= 160 {
      Behind(data, 369, b, 0, 32);
      Behind(data, 369, b, 44, 64);
      Behind(data, 369, b, 76, 96);
      Behind(data, 369, b, 96, 128);
      Behind(data, 369, b, 128, 160);
    }
  }

  lemma OpaqueExactly(data: bytes, bridge: Address, ext: External, d: DepositType)
    requires |data| >= 64
    ensures ReadOpaque(data[64..], bridge) == Value((ext, d)) <==>
              && SaysExternal(data, ext) && data[137..141] == RELAY_SELECTOR
              && data[185..205] == bridge && data[205..237] == SOON_BRIDGE_PUBKEY
              && (SaysEth(data, d) || SaysErc20(data, d))
  {
    OpaqueSteps(data[64..], bridge);
    ExtractsExactly(data);
    if ExtractExternal(data[64..]).Value? {
      ExtractedFields(data);
      ReadFields(data, d);
    }
  }

  lemma ParseSteps(log: Log, messenger: Address, bridge: Address, x: (External, DepositType))
    ensures ParseFromLog(log, messenger, bridge) == Value(x) <==>
              && |log.data| >= 64 && |log.topics| >= 3 && UndoAlias(log.topics[1][12..]) == messenger
              && log.topics[2] == SOON_BRIDGE_PUBKEY && ReadOpaque(log.data[64..], bridge) == Value(x)
  {
  }

  lemma SenderIs(sender: Address, messenger: Address)
    ensures UndoAlias(sender) == messenger <==> sender == ApplyAlias(messenger)
  {
    AliasRoundTrip(messenger);
    AliasRoundTrip(sender);
  }

  /** A log parses to exactly the deposit that its bytes say, and to none if they say none. */
  lemma ParsesExactly(log: Log, messenger: Address, bridge: Address, ext: External, d: DepositType)
    ensures ParseFromLog(log, messenger, bridge) == Value((ext, d)) <==> Says(log, messenger, bridge, ext, d)
  {
    ParseSteps(log, messenger, bridge, (ext, d));
    if |log.topics| >= 2 { SenderIs(log.topics[1][12..], messenger); }
    if |log.data| >= 64 { OpaqueExactly(log.data, bridge, ext, d); }
  }

  lemma NumberAdds(v: nat)
    requires v <= MAX_ADDRESS
    ensures AliasNumber(v) == (v + ALIAS_OFFSET) % (MAX_ADDRESS + 1)
  {
  }

  /** The alias is the address plus 0x1111000000000000000000000000000000001111, modulo 2^160. */
  lemma AliasAdds(a: Address)
    ensures FromBE(ApplyAlias(a))
            == (FromBE(a) + 0x1111_0000_0000_0000_0000_0000_0000_0000_0000_1111)
               % 0x1_0000_0000_0000_0000_0000_0000_0000_0000_0000_0000
  {
    ApplyIs(a);
    NumberAdds(FromBE(a));
  }
}
