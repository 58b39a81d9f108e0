/** System config updates found in L1 receipts: `crates/primitives/src/system/`.
    Only the batcher address is ever changed; the other update kinds are parsed and ignored. */
module SystemConfig {
  import opened Bytes
  import opened Blocks

  datatype Log = Log(address: Address, topics: seq<Hash>, data: bytes)
  datatype Receipt = Receipt(success: bool, logs: seq<Log>)

  datatype SystemConfig = SystemConfig(batcher: Address)

  /** `otherUpdateOk` stands for the parsers of the update kinds that are ignored when applied. */
  datatype UpdateRules = UpdateRules(l1SystemConfigAddress: Address, otherUpdateOk: Log -> bool)

  const CONFIG_UPDATE_TOPIC: Hash := [
    0x1d, 0x2b, 0x0b, 0xda, 0x21, 0xd5, 0x6b, 0x8b, 0xd1, 0x2d, 0x4f, 0x94, 0xeb, 0xac, 0xff, 0xdf,
    0xb3, 0x5f, 0x5e, 0x22, 0x6f, 0x84, 0xb4, 0x61, 0x10, 0x3b, 0xb8, 0xbe, 0xab, 0x63, 0x53, 0xbe]

  predicate IsUpdate(log: Log, rules: UpdateRules) {
    log.address == rules.l1SystemConfigAddress && log.topics != [] && log.topics[0] == CONFIG_UPDATE_TOPIC
  }

  /** A batcher update carries (pointer 32, length 32, address padded to a word). */
  function ParseBatcher(data: bytes): Option<Address> {
    if |data| != 96 then None
    else if FromBE(data[0..32]) != 32 || FromBE(data[32..64]) != 32 || FromBE(data[64..76]) != 0 then None
    else
      var address := data[76..96];
      Some(address)
  }

  datatype Update = Malformed | Ignored | Batcher(address: Address)

  /** `SystemConfigLog::build` */
  function ParseUpdate(log: Log, rules: UpdateRules): Update {
    if |log.topics| < 3 || log.topics[1] != ZERO_HASH then Malformed
    else
      var kind := FromBE(log.topics[2][24..]);
      if kind == 0 then
        match ParseBatcher(log.data)
        case Some(a) => Batcher(a)
        case None => Malformed
      else if kind <= 5 && rules.otherUpdateOk(log) then Ignored
      else Malformed
  }

  /** What one log does to a config: nothing, an error, or a new batcher. */
  function Effect(log: Log, rules: UpdateRules): Update {
    if IsUpdate(log, rules) then ParseUpdate(log, rules) else Ignored
  }

  /** The log is an update event of the system config contract, version 0, of the given kind. */
  predicate UpdateOf(log: Log, rules: UpdateRules, kind: nat) {
    && log.address == rules.l1SystemConfigAddress && |log.topics| >= 3
    && log.topics[0] == CONFIG_UPDATE_TOPIC && log.topics[1] == Zeros(32) && FromBE(log.topics[2][24..]) == kind
  }

  /** The data is the words 32 and 32 and the address padded to a word. */
  predicate CarriesAddress(data: bytes, a: Address) {
    data == Zeros(31) + [32] + Zeros(31) + [32] + Zeros(12) + a
  }

  lemma {:induction false} ZeroNumber(b: bytes)
    ensures FromBE(b) == 0 <==> b == Zeros(|b|)
  {
    if b != [] {
      var n := |b| - 1;
      ZeroNumber(b[..n]);
      assert b == b[..n] + [b[n]] && Zeros(|b|) == Zeros(n) + [0];
    }
  }

  lemma LastByte(b: bytes, front: bytes, v: u8)
    requires b != [] && |front| == |b| - 1
    ensures b == front + [v] <==> b[..|b| - 1] == front && b[|b| - 1] == v
  {
    assert b == b[..|b| - 1] + [b[|b| - 1]];
  }

  lemma SmallNumber(b: bytes, v: u8)
    requires b != []
    ensures FromBE(b) == v <==> b == Zeros(|b| - 1) + [v]
  {
    LastByte(b, Zeros(|b| - 1), v);
    ZeroNumber(b[..|b| - 1]);
  }

  lemma BatcherData(data: bytes, a: Address)
    ensures ParseBatcher(data) == Some(a) <==> CarriesAddress(data, a)
  {
    if |data| == 96 {
      SmallNumber(data[0..32], 32);
      SmallNumber(data[32..64], 32);
      ZeroNumber(data[64..76]);
      assert data == data[0..32] + data[32..64] + data[64..76] + data[76..96];
      if CarriesAddress(data, a) { AddressParts(data, a); }
    }
  }

  lemma AddressParts(data: bytes, a: Address)
    requires CarriesAddress(data, a)
    ensures data[0..32] == Zeros(31) + [32] && data[32..64] == Zeros(31) + [32]
    ensures data[64..76] == Zeros(12) && data[76..96] == a
  {
  }

  /** Which logs set which batcher, and which stop the scan. Kinds 1 to 5 are parsed and ignored. */
  lemma EffectExactly(log: Log, rules: UpdateRules, a: Address)
    ensures Effect(log, rules) == Batcher(a) <==> UpdateOf(log, rules, 0) && CarriesAddress(log.data, a)
    ensures Effect(log, rules).Malformed? <==>
              && log.address == rules.l1SystemConfigAddress && log.topics != [] && log.topics[0] == CONFIG_UPDATE_TOPIC
              && !(UpdateOf(log, rules, 0) && exists b: Address :: CarriesAddress(log.data, b))
              && !(rules.otherUpdateOk(log) && exists kind :: 1 <= kind <= 5 && UpdateOf(log, rules, kind))
  {
    BatcherData(log.data, a);
    if ParseBatcher(log.data).Some? { BatcherData(log.data, ParseBatcher(log.data).value); }
    forall b: Address | CarriesAddress(log.data, b) ensures ParseBatcher(log.data).Some? { BatcherData(log.data, b); }
    if |log.topics| >= 3 {
      var kind := FromBE(log.topics[2][24..]);
      assert UpdateOf(log, rules, kind) <==>
             log.address == rules.l1SystemConfigAddress && log.topics[0] == CONFIG_UPDATE_TOPIC
             && log.topics[1] == Zeros(32);
    }
  }

  /** The config after `logs` and whether all of them applied; an error stops the scan and keeps
      the changes made before it. */
  function ApplyLogs(cfg: SystemConfig, logs: seq<Log>, rules: UpdateRules): (SystemConfig, bool)
    decreases |logs|
  {
    if logs == [] then (cfg, true)
    else
      match Effect(logs[0], rules)
      case Malformed => (cfg, false)
      case Ignored => ApplyLogs(cfg, logs[1..], rules)
      case Batcher(a) => ApplyLogs(SystemConfig(a), logs[1..], rules)
  }

  function ApplyReceipts(cfg: SystemConfig, receipts: seq<Receipt>, rules: UpdateRules): (SystemConfig, bool)
    decreases |receipts|
  {
    if receipts == [] then (cfg, true)
    else if !receipts[0].success then ApplyReceipts(cfg, receipts[1..], rules)
    else
      var (c, ok) := ApplyLogs(cfg, receipts[0].logs, rules);
      if ok then ApplyReceipts(c, receipts[1..], rules) else (c, false)
  }

  /** `SystemConfig::update_with_receipts`; the config is a copied value, so the updated one is
      returned. */
  method UpdateWithReceipts(cfg: SystemConfig, receipts: seq<Receipt>, rules: UpdateRules)
    returns (updated: SystemConfig, ok: bool)
    ensures (updated, ok) == ApplyReceipts(cfg, receipts, rules)
  {
    updated, ok := cfg, true;
    var i := 0;
    while i < |receipts|
      invariant 0 <= i <= |receipts|
      invariant ApplyReceipts(cfg, receipts, rules) == ApplyReceipts(updated, receipts[i..], rules)
    {
      assert receipts[i..][1..] == receipts[i + 1..];
      if receipts[i].success {
        updated, ok := UpdateWithLogs(updated, receipts[i].logs, rules);
        if !ok { return; }
      }
      i := i + 1;
    }
    ok := true;
  }

  method UpdateWithLogs(cfg: SystemConfig, logs: seq<Log>, rules: UpdateRules)
    returns (updated: SystemConfig, ok: bool)
    ensures (updated, ok) == ApplyLogs(cfg, logs, rules)
  {
    updated := cfg;
    var i := 0;
    while i < |logs|
      invariant 0 <= i <= |logs|
      invariant ApplyLogs(cfg, logs, rules) == ApplyLogs(updated, logs[i..], rules)
    {
      assert logs[i..][1..] == logs[i + 1..];
      if IsUpdate(logs[i], rules) {
        match ParseUpdate(logs[i], rules)
        case Malformed => return updated, false;
        case Ignored =>
        case Batcher(a) => updated := SystemConfig(a);
      }
      i := i + 1;
    }
    return updated, true;
  }

  // ---- What the scan amounts to -------------------------------------------

  /** All logs of the receipts that did not fail, in order. */
  function LogsOf(receipts: seq<Receipt>): seq<Log> {
    if receipts == [] then []
    else (if receipts[0].success then receipts[0].logs else []) + LogsOf(receipts[1..])
  }

  /** The address set by the last batcher update among `logs`, if there is one. */
  function LastBatcher(logs: seq<Log>, rules: UpdateRules): Option<Address> {
    if logs == [] then None
    else
      var last := Effect(logs[|logs| - 1], rules);
      if last.Batcher? then Some(last.address) else LastBatcher(logs[..|logs| - 1], rules)
  }

  function OrElse(o: Option<Address>, a: Address): Address {
    match o case Some(b) => b case None => a
  }

  lemma {:induction false} LastBatcherAppend(a: seq<Log>, b: seq<Log>, rules: UpdateRules)
    ensures LastBatcher(a + b, rules)
            == if LastBatcher(b, rules).Some? then LastBatcher(b, rules) else LastBatcher(a, rules)
  {
    if b == [] {
      assert a + b == a;
    } else {
      var n := |b| - 1;
      LastBatcherAppend(a, b[..n], rules);
      assert (a + b)[..|a + b| - 1] == a + b[..n];
    }
  }

  lemma {:induction false} ApplyLogsMeaning(cfg: SystemConfig, logs: seq<Log>, rules: UpdateRules)
    ensures var (c, ok) := ApplyLogs(cfg, logs, rules);
            && (ok <==> forall k :: 0 <= k < |logs| ==> !Effect(logs[k], rules).Malformed?)
            && (ok ==> c.batcher == OrElse(LastBatcher(logs, rules), cfg.batcher))
    decreases |logs|
  {
    if logs != [] {
      assert logs == [logs[0]] + logs[1..];
      assert LastBatcher([logs[0]], rules) ==
             (match Effect(logs[0], rules) case Batcher(a) => Some(a) case _ => None);
      LastBatcherAppend([logs[0]], logs[1..], rules);
      match Effect(logs[0], rules)
      case Malformed =>
      case Ignored => ApplyLogsMeaning(cfg, logs[1..], rules);
      case Batcher(a) => ApplyLogsMeaning(SystemConfig(a), logs[1..], rules);
    }
  }

  /** A successful update leaves the batcher of the last update log, or the old one if there is
      none; and success does not depend on the config it starts from. */
  lemma {:induction false} ApplyReceiptsMeaning(cfg: SystemConfig, receipts: seq<Receipt>, rules: UpdateRules)
    ensures var (c, ok) := ApplyReceipts(cfg, receipts, rules);
            && (ok <==> forall log :: log in LogsOf(receipts) ==> !Effect(log, rules).Malformed?)
            && (ok ==> c.batcher == OrElse(LastBatcher(LogsOf(receipts), rules), cfg.batcher))
    decreases |receipts|
  {
    if receipts != [] {
      var head := if receipts[0].success then receipts[0].logs else [];
      ApplyLogsMeaning(cfg, head, rules);
      LastBatcherAppend(head, LogsOf(receipts[1..]), rules);
      if receipts[0].success {
        var (c, ok) := ApplyLogs(cfg, head, rules);
        if ok { ApplyReceiptsMeaning(c, receipts[1..], rules); }
      } else {
        assert head + LogsOf(receipts[1..]) == LogsOf(receipts[1..]);
        ApplyReceiptsMeaning(cfg, receipts[1..], rules);
      }
    }
  }

  /** The logs before the first malformed update: those that are applied. */
  function Applied(logs: seq<Log>, rules: UpdateRules): seq<Log> {
    if logs == [] || Effect(logs[0], rules).Malformed? then []
    else
      [logs[0]] + Applied(logs[1..], rules)
  }

  lemma {:induction false} AppliedAppend(a: seq<Log>, b: seq<Log>, rules: UpdateRules)
    ensures Applied(a + b, rules) == if Applied(a, rules) == a then a + Applied(b, rules) else Applied(a, rules)
    ensures Applied(a, rules) == a <==> forall log :: log in a ==> !Effect(log, rules).Malformed?
    ensures |Applied(a, rules)| <= |a|
  {
    if a == [] {
      assert a + b == b && [] + Applied(b, rules) == Applied(b, rules);
    } else {
      AppliedAppend(a[1..], b, rules);
      assert (a + b)[1..] == a[1..] + b;
      assert a == [a[0]] + a[1..];
      assert [a[0]] + (a[1..] + Applied(b, rules)) == a + Applied(b, rules);
    }
  }

  lemma {:induction false} LogsBatcher(cfg: SystemConfig, logs: seq<Log>, rules: UpdateRules)
    ensures ApplyLogs(cfg, logs, rules).0.batcher == OrElse(LastBatcher(Applied(logs, rules), rules), cfg.batcher)
    decreases |logs|
  {
    if logs != [] && !Effect(logs[0], rules).Malformed? {
      LastBatcherAppend([logs[0]], Applied(logs[1..], rules), rules);
      assert LastBatcher([logs[0]], rules) ==
             (match Effect(logs[0], rules) case Batcher(a) => Some(a) case _ => None);
      match Effect(logs[0], rules)
      case Ignored => LogsBatcher(cfg, logs[1..], rules);
      case Batcher(a) => LogsBatcher(SystemConfig(a), logs[1..], rules);
    }
  }

  /** Whether the receipts apply or not, the batcher they leave is that of the last update applied. */
  lemma {:induction false} ReceiptsBatcher(cfg: SystemConfig, receipts: seq<Receipt>, rules: UpdateRules)
    ensures ApplyReceipts(cfg, receipts, rules).0.batcher
            == OrElse(LastBatcher(Applied(LogsOf(receipts), rules), rules), cfg.batcher)
    decreases |receipts|
  {
    if receipts != [] {
      var head, rest := if receipts[0].success then receipts[0].logs else [], LogsOf(receipts[1..]);
      AppliedAppend(head, rest, rules);
      LogsBatcher(cfg, head, rules);
      ApplyLogsMeaning(cfg, head, rules);
      LastBatcherAppend(head, Applied(rest, rules), rules);
      if receipts[0].success {
        var (c, ok) := ApplyLogs(cfg, head, rules);
        if ok { ReceiptsBatcher(c, receipts[1..], rules); }
      } else {
        assert head + rest == rest && [] + Applied(rest, rules) == Applied(rest, rules);
        ReceiptsBatcher(cfg, receipts[1..], rules);
      }
    }
  }
}
