/** Deposits found in L1 receipts, and source hashes: `crates/primitives/src/deposit.rs`. */
module Deposits {
  import opened Bytes
  import opened Blocks
  import opened DepositData
  import opened Outcomes
  import opened SystemConfig

  /** What a deposit log says: its external data and the deposit in it. */
  type DepositBody = (External, DepositType)

  datatype UserDeposited = UserDeposited(body: DepositBody, l1BlockNum: u64, l1BlockHash: Hash, logIndex: nat)

  /** `parse` reads a deposit log's payload, with its address checks; it may panic. */
  datatype DepositRules = DepositRules(depositContract: Address, eventSignature: Hash,
                                       parse: Log -> Outcome<DepositBody, DepositError>)

  /** The rules of the source: its own parser, for a messenger and an L1 bridge. */
  function SourceRules(contract: Address, signature: Hash, messenger: Address, bridge: Address): DepositRules {
    DepositRules(contract, signature, log => ParseFromLog(log, messenger, bridge))
  }

  /** The log is an event of the deposit contract, so it is parsed. */
  predicate IsDeposit(log: Log, rules: DepositRules) {
    log.topics != [] && log.topics[0] == rules.eventSignature && log.address == rules.depositContract
  }

  /** What a log is worth: a deposit, or nothing. */
  function DepositOf(log: Log, rules: DepositRules): Option<DepositBody> {
    if !IsDeposit(log, rules) then None
    else
      match rules.parse(log)
      case Value(body) => Some(body)
      case _ => None
  }

  /** Reading the log panics. */
  predicate Panics(log: Log, rules: DepositRules) {
    IsDeposit(log, rules) && rules.parse(log).Panic?
  }

  predicate AnyPanics(logs: seq<Log>, rules: DepositRules) {
    logs != [] && (Panics(logs[0], rules) || AnyPanics(logs[1..], rules))
  }

  lemma {:induction false} PanicsMember(logs: seq<Log>, rules: DepositRules)
    ensures AnyPanics(logs, rules) <==> exists log :: log in logs && Panics(log, rules)
  {
    if logs != [] {
      PanicsMember(logs[1..], rules);
      assert logs == [logs[0]] + logs[1..];
    }
  }

  /** What one log adds. */
  function Found(num: u64, hash: Hash, log: Log, index: nat, rules: DepositRules): seq<UserDeposited> {
    match DepositOf(log, rules)
    case Some(body) => [UserDeposited(body, num, hash, index)]
    case None => []
  }

  function DepositsFrom(num: u64, hash: Hash, logs: seq<Log>, first: nat, rules: DepositRules): seq<UserDeposited> {
    if logs == [] then []
    else
      Found(num, hash, logs[0], first, rules) + DepositsFrom(num, hash, logs[1..], first + 1, rules)
  }

  function DepositsIn(num: u64, hash: Hash, receipts: seq<Receipt>, rules: DepositRules): seq<UserDeposited> {
    DepositsFrom(num, hash, LogsOf(receipts), 0, rules)
  }

  lemma {:induction false} PanicsAppend(a: seq<Log>, b: seq<Log>, rules: DepositRules)
    ensures AnyPanics(a + b, rules) <==> AnyPanics(a, rules) || AnyPanics(b, rules)
  {
    if a == [] {
      assert a + b == b;
    } else {
      assert (a + b)[1..] == a[1..] + b;
      PanicsAppend(a[1..], b, rules);
    }
  }

  lemma {:induction false} DepositsAppend(num: u64, hash: Hash, a: seq<Log>, b: seq<Log>, first: nat,
                                          rules: DepositRules)
    ensures DepositsFrom(num, hash, a + b, first, rules)
            == DepositsFrom(num, hash, a, first, rules) + DepositsFrom(num, hash, b, first + |a|, rules)
  {
    if a == [] {
      assert a + b == b;
    } else {
      assert (a + b)[1..] == a[1..] + b;
      DepositsAppend(num, hash, a[1..], b, first + 1, rules);
    }
  }

  lemma {:induction false} LogsAppend(a: seq<Receipt>, b: seq<Receipt>)
    ensures LogsOf(a + b) == LogsOf(a) + LogsOf(b)
  {
    if a == [] {
      assert a + b == b;
    } else {
      assert (a + b)[1..] == a[1..] + b;
      LogsAppend(a[1..], b);
    }
  }

  /** The logs of one more receipt. */
  lemma LogsUpTo(receipts: seq<Receipt>, i: nat) returns (rest: seq<Log>)
    requires i < |receipts|
    ensures LogsOf(receipts[..i + 1])
            == if receipts[i].success then LogsOf(receipts[..i]) + receipts[i].logs else LogsOf(receipts[..i])
    ensures LogsOf(receipts) == LogsOf(receipts[..i + 1]) + rest
  {
    rest := LogsOf(receipts[i + 1..]);
    assert receipts == receipts[..i + 1] + receipts[i + 1..];
    LogsAppend(receipts[..i + 1], receipts[i + 1..]);
    LogsOfOne(receipts[i]);
    assert receipts[..i + 1] == receipts[..i] + [receipts[i]];
    LogsAppend(receipts[..i], [receipts[i]]);
  }

  lemma LogsOfOne(receipt: Receipt)
    ensures LogsOf([receipt]) == if receipt.success then receipt.logs else []
  {
    assert [receipt][1..] == [];
  }

  /** `derive_deposits`: logs of failed receipts are skipped and not counted; a log that does not parse
      is skipped, and one whose parsing panics ends it all. */
  method DeriveDeposits(num: u64, hash: Hash, receipts: seq<Receipt>, rules: DepositRules)
    returns (r: Outcome<seq<UserDeposited>, DepositError>)
    ensures r == if AnyPanics(LogsOf(receipts), rules) then Panic else Value(DepositsIn(num, hash, receipts, rules))
  {
    var globalIndex := 0;
    var res: seq<UserDeposited> := [];
    var i := 0;
    while i < |receipts|
      invariant 0 <= i <= |receipts|
      invariant globalIndex == |LogsOf(receipts[..i])| && !AnyPanics(LogsOf(receipts[..i]), rules)
      invariant res == DepositsFrom(num, hash, LogsOf(receipts[..i]), 0, rules)
    {
      var receipt := receipts[i];
      ghost var rest := LogsUpTo(receipts, i);
      if receipt.success {
        ghost var before := LogsOf(receipts[..i]);
        PanicsAppend(before, receipt.logs, rules);
        DepositsAppend(num, hash, before, receipt.logs, 0, rules);
        var found;
        found, globalIndex := DeriveFromLogs(num, hash, receipt.logs, globalIndex, rules);
        if found.Panic? {
          PanicsAppend(LogsOf(receipts[..i + 1]), rest, rules);
          return Panic;
        }
        res := res + found.value;
      }
      i := i + 1;
    }
    assert receipts[..i] == receipts;
    return Value(res);
  }

  /** The logs of one receipt, numbered from `first`. */
  method DeriveFromLogs(num: u64, hash: Hash, logs: seq<Log>, first: nat, rules: DepositRules)
    returns (r: Outcome<seq<UserDeposited>, DepositError>, next: nat)
    ensures r == if AnyPanics(logs, rules) then Panic else Value(DepositsFrom(num, hash, logs, first, rules))
    ensures r.Value? ==> next == first + |logs|
  {
    next := first;
    var res: seq<UserDeposited> := [];
    var k := 0;
    while k < |logs|
      invariant 0 <= k <= |logs| && next == first + k
      invariant !AnyPanics(logs[..k], rules) && res == DepositsFrom(num, hash, logs[..k], first, rules)
    {
      ghost var before := res;
      OneMore(num, hash, logs, k, first, rules);
      var currIndex := next;
      next := next + 1;
      if IsDeposit(logs[k], rules) {
        var d := rules.parse(logs[k]);
        if d.Panic? { return Panic, next; }
        if d.Value? { res := res + [UserDeposited(d.value, num, hash, currIndex)]; }
      }
      assert !Panics(logs[k], rules) && res == before + Found(num, hash, logs[k], currIndex, rules);
      k := k + 1;
    }
    assert logs[..k] == logs;
    return Value(res), next;
  }

  /** One more log. */
  lemma OneMore(num: u64, hash: Hash, logs: seq<Log>, k: nat, first: nat, rules: DepositRules)
    requires k < |logs|
    ensures DepositsFrom(num, hash, logs[..k + 1], first, rules)
            == DepositsFrom(num, hash, logs[..k], first, rules) + Found(num, hash, logs[k], first + k, rules)
    ensures AnyPanics(logs[..k + 1], rules) <==> AnyPanics(logs[..k], rules) || Panics(logs[k], rules)
    ensures Panics(logs[k], rules) ==> AnyPanics(logs, rules)
  {
    assert logs[..k + 1] == logs[..k] + [logs[k]] && logs == logs[..k + 1] + logs[k + 1..];
    DepositsAppend(num, hash, logs[..k], [logs[k]], first, rules);
    PanicsAppend(logs[..k], [logs[k]], rules);
    PanicsAppend(logs[..k + 1], logs[k + 1..], rules);
    assert DepositsFrom(num, hash, [logs[k]], first + k, rules) == Found(num, hash, logs[k], first + k, rules) + [];
  }

  /** With the source's parser: deriving the deposits of a block panics if and only if some successful
      receipt holds an event of the deposit contract that is too short to be read. */
  lemma DerivePanicsExactly(receipts: seq<Receipt>, contract: Address, signature: Hash, messenger: Address,
                            bridge: Address)
    ensures AnyPanics(LogsOf(receipts), SourceRules(contract, signature, messenger, bridge))
            <==> exists n: nat, k: nat :: && n < |receipts| && receipts[n].success && k < |receipts[n].logs|
                                          && var log := receipts[n].logs[k];
                                          && log.address == contract && log.topics != []
                                          && log.topics[0] == signature && LogPanics(log, messenger, bridge)
  {
    var rules := SourceRules(contract, signature, messenger, bridge);
    forall log ensures Panics(log, rules) <==> (&& log.address == contract && log.topics != []
                                                && log.topics[0] == signature && LogPanics(log, messenger, bridge)) {
      ParsePanicsExactly(log, messenger, bridge);
    }
    PanicsMember(LogsOf(receipts), rules);
    if AnyPanics(LogsOf(receipts), rules) {
      var log :| log in LogsOf(receipts) && Panics(log, rules);
      var n, k := LogFrom(receipts, log);
      assert receipts[n].logs[k] == log;
    }
    if n: nat, k: nat :| && n < |receipts| && receipts[n].success && k < |receipts[n].logs|
                         && var log := receipts[n].logs[k];
                         && log.address == contract && log.topics != []
                         && log.topics[0] == signature && LogPanics(log, messenger, bridge) {
      LogIn(receipts, n, k);
      assert Panics(receipts[n].logs[k], rules);
    }
  }

  lemma {:induction false} LogFrom(receipts: seq<Receipt>, log: Log) returns (n: nat, k: nat)
    requires log in LogsOf(receipts)
    ensures n < |receipts| && receipts[n].success && k < |receipts[n].logs| && receipts[n].logs[k] == log
  {
    if receipts[0].success && log in receipts[0].logs {
      n := 0;
      k :| k < |receipts[0].logs| && receipts[0].logs[k] == log;
    } else {
      n, k := LogFrom(receipts[1..], log);
      n := n + 1;
    }
  }

  lemma {:induction false} LogIn(receipts: seq<Receipt>, n: nat, k: nat)
    requires n < |receipts| && receipts[n].success && k < |receipts[n].logs|
    ensures receipts[n].logs[k] in LogsOf(receipts)
  {
    if n > 0 { LogIn(receipts[1..], n - 1, k); }
  }

  // ---- What the result is --------------------------------------------------

  /** Strictly increasing log indices, all of the same block. */
  predicate Ordered(ds: seq<UserDeposited>, num: u64, hash: Hash, lo: nat, hi: nat) {
    && (forall a :: 0 <= a < |ds| ==> ds[a].l1BlockNum == num && ds[a].l1BlockHash == hash && lo <= ds[a].logIndex < hi)
    && (forall a, b :: 0 <= a < b < |ds| ==> ds[a].logIndex < ds[b].logIndex)
  }

  lemma {:induction false} DepositsOrdered(num: u64, hash: Hash, logs: seq<Log>, first: nat, rules: DepositRules)
    ensures Ordered(DepositsFrom(num, hash, logs, first, rules), num, hash, first, first + |logs|)
  {
    if logs != [] { DepositsOrdered(num, hash, logs[1..], first + 1, rules); }
  }

  /** A deposit is derived exactly when its log says so, and is stamped with that log's index. */
  lemma {:induction false} DepositsComplete(num: u64, hash: Hash, logs: seq<Log>, first: nat, rules: DepositRules,
                                            d: UserDeposited)
    ensures d in DepositsFrom(num, hash, logs, first, rules) <==>
            && first <= d.logIndex < first + |logs| && d.l1BlockNum == num && d.l1BlockHash == hash
            && DepositOf(logs[d.logIndex - first], rules) == Some(d.body)
  {
    if logs != [] {
      DepositsComplete(num, hash, logs[1..], first + 1, rules, d);
      var rest := DepositsFrom(num, hash, logs[1..], first + 1, rules);
      match DepositOf(logs[0], rules)
      case Some(body) =>
        var ds := [UserDeposited(body, num, hash, first)] + rest;
        assert ds == DepositsFrom(num, hash, logs, first, rules);
        assert d in ds <==> d == ds[0] || d in rest;
      case None =>
        assert [] + rest == rest;
    }
  }

  lemma DepositSays(log: Log, contract: Address, signature: Hash, messenger: Address, bridge: Address,
                    body: DepositBody)
    ensures DepositOf(log, SourceRules(contract, signature, messenger, bridge)) == Some(body) <==>
            && log.address == contract && log.topics != [] && log.topics[0] == signature
            && Says(log, messenger, bridge, body.0, body.1)
  {
    ParsesExactly(log, messenger, bridge, body.0, body.1);
  }

  /** With the source's parser: a deposit is derived exactly when the log at its index is an event of the
      deposit contract whose bytes say it, field by field. */
  lemma DepositsSay(num: u64, hash: Hash, receipts: seq<Receipt>, contract: Address, signature: Hash,
                    messenger: Address, bridge: Address, d: UserDeposited)
    ensures d in DepositsIn(num, hash, receipts, SourceRules(contract, signature, messenger, bridge)) <==>
            && d.logIndex < |LogsOf(receipts)| && d.l1BlockNum == num && d.l1BlockHash == hash
            && var log := LogsOf(receipts)[d.logIndex];
            && log.address == contract && log.topics != [] && log.topics[0] == signature
            && Says(log, messenger, bridge, d.body.0, d.body.1)
  {
    var logs, rules := LogsOf(receipts), SourceRules(contract, signature, messenger, bridge);
    DepositsComplete(num, hash, logs, 0, rules, d);
    if d.logIndex < |logs| { DepositSays(logs[d.logIndex], contract, signature, messenger, bridge, d.body); }
  }

  /** A deposit fits a native transaction when its amounts fit 128 bits; extra data has its 32 bytes. */
  predicate Encodable(d: UserDeposited) {
    match d.body.1
    case Eth(_, _, amount, extraData) => d.body.0.mint < Pow256(16) && amount < Pow256(16) && |extraData| == 32
    case Erc20(_, _, _, _, amount, _) => amount < Pow256(16)
  }

  /** No deposit of the log stands in the way of a payload: it is not parsed, or it is refused, or its
      amounts fit. */
  predicate Carriable(log: Log, rules: DepositRules) {
    log.address == rules.depositContract && log.topics != [] && log.topics[0] == rules.eventSignature ==>
      match rules.parse(log)
      case Panic => false
      case Fail(_) => true
      case Value((ext, Eth(_, _, amount, extraData))) =>
        ext.mint < 0x1_0000_0000_0000_0000_0000_0000_0000_0000 && amount < 0x1_0000_0000_0000_0000_0000_0000_0000_0000
        && |extraData| == 32
      case Value((_, Erc20(_, _, _, _, amount, _))) => amount < 0x1_0000_0000_0000_0000_0000_0000_0000_0000
  }

  predicate AllEncodable(ds: seq<UserDeposited>) {
    forall i :: 0 <= i < |ds| ==> Encodable(ds[i])
  }

  lemma EncodableExactly(num: u64, hash: Hash, log: Log, index: nat, rules: DepositRules)
    ensures Carriable(log, rules) <==> !Panics(log, rules) && AllEncodable(Found(num, hash, log, index, rules))
  {
    Widths();
    if DepositOf(log, rules).Some? {
      assert Found(num, hash, log, index, rules)[0].body == DepositOf(log, rules).value;
    }
  }

  /** The logs go into a payload, none panicking and every deposit fitting, exactly when each of them does. */
  lemma {:induction false} CarriableExactly(num: u64, hash: Hash, logs: seq<Log>, first: nat, rules: DepositRules)
    ensures !AnyPanics(logs, rules) && AllEncodable(DepositsFrom(num, hash, logs, first, rules))
            <==> forall log :: log in logs ==> Carriable(log, rules)
  {
    if logs != [] {
      EncodableExactly(num, hash, logs[0], first, rules);
      CarriableExactly(num, hash, logs[1..], first + 1, rules);
      assert logs == [logs[0]] + logs[1..];
      EncodableAppend(Found(num, hash, logs[0], first, rules), DepositsFrom(num, hash, logs[1..], first + 1, rules));
    }
  }

  lemma EncodableAppend(a: seq<UserDeposited>, b: seq<UserDeposited>)
    ensures AllEncodable(a + b) <==> AllEncodable(a) && AllEncodable(b)
  {
    if AllEncodable(a + b) {
      forall i | 0 <= i < |a| ensures Encodable(a[i]) { assert (a + b)[i] == a[i]; }
      forall i | 0 <= i < |b| ensures Encodable(b[i]) { assert (a + b)[|a| + i] == b[i]; }
    }
  }

  // ---- Source hashes -------------------------------------------------------

  const USER_DEPOSIT_SOURCE_DOMAIN := 0
  const L1_INFO_DEPOSIT_SOURCE_DOMAIN := 1

  /** l1BlockHash ++ bytes32(index) */
  function SourceId(l1BlockHash: Hash, index: nat): (b: bytes)
    ensures |b| == 64
  {
    l1BlockHash + Zeros(24) + ToBE(8, index)
  }

  /** bytes32(domain) ++ id hash */
  function DomainId(domain: nat, idHash: Hash): (b: bytes)
    ensures |b| == 64
  {
    Zeros(28) + ToBE(4, domain) + idHash
  }

  /** keccak256( bytes32(domain) ++ keccak256( l1BlockHash ++ bytes32(index) ) ) */
  function SourceHash(keccak: bytes -> Hash, domain: nat, l1BlockHash: Hash, index: nat): Hash {
    keccak(DomainId(domain, keccak(SourceId(l1BlockHash, index))))
  }

  /** `hashed` holds the strings a source hash is computed from. */
  ghost predicate Hashes(hashed: set<bytes>, keccak: bytes -> Hash, domain: nat, l1BlockHash: Hash, index: nat) {
    SourceId(l1BlockHash, index) in hashed && DomainId(domain, keccak(SourceId(l1BlockHash, index))) in hashed
  }

  /** No collision among the strings that are hashed. */
  ghost predicate CollisionFree(keccak: bytes -> Hash, hashed: set<bytes>) {
    forall a, b :: a in hashed && b in hashed && keccak(a) == keccak(b) ==> a == b
  }

  lemma SameTail(a: bytes, b: bytes, p: bytes, q: bytes)
    requires |a| == |b| && a + p == b + q
    ensures a == b && p == q
  {
    assert (a + p)[..|a|] == a && (b + q)[..|b|] == b;
    assert (a + p)[|a|..] == p && (b + q)[|b|..] == q;
  }

  lemma SourceIdInjective(hash: Hash, index: nat, hash': Hash, index': nat)
    requires index < Pow256(8) && index' < Pow256(8) && SourceId(hash, index) == SourceId(hash', index')
    ensures hash == hash' && index == index'
  {
    SameTail(hash + Zeros(24), hash' + Zeros(24), ToBE(8, index), ToBE(8, index'));
    SameTail(hash, hash', Zeros(24), Zeros(24));
    BERoundTrip(8, index);
    BERoundTrip(8, index');
  }

  lemma DomainIdInjective(domain: nat, h: Hash, domain': nat, h': Hash)
    requires domain < Pow256(4) && domain' < Pow256(4) && DomainId(domain, h) == DomainId(domain', h')
    ensures domain == domain' && h == h'
  {
    SameTail(Zeros(28) + ToBE(4, domain), Zeros(28) + ToBE(4, domain'), h, h');
    SameTail(Zeros(28), Zeros(28), ToBE(4, domain), ToBE(4, domain'));
    BERoundTrip(4, domain);
    BERoundTrip(4, domain');
  }

  /** Equal source hashes mean equal domain, block and index. */
  lemma SourceHashInjective(keccak: bytes -> Hash, hashed: set<bytes>, domain: nat, hash: Hash, index: nat,
                            domain': nat, hash': Hash, index': nat)
    requires CollisionFree(keccak, hashed)
    requires Hashes(hashed, keccak, domain, hash, index) && Hashes(hashed, keccak, domain', hash', index')
    requires domain < Pow256(4) && domain' < Pow256(4) && index < Pow256(8) && index' < Pow256(8)
    requires SourceHash(keccak, domain, hash, index) == SourceHash(keccak, domain', hash', index')
    ensures domain == domain' && hash == hash' && index == index'
  {
    DomainIdInjective(domain, keccak(SourceId(hash, index)), domain', keccak(SourceId(hash', index')));
    SourceIdInjective(hash, index, hash', index');
  }
}
