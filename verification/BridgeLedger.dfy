/** What every run of the bridge keeps. */
module BridgeLedger {
  import opened Bytes
  import opened Blocks
  import opened BridgeRecords
  import opened Bridge
  import opened Sums

  // ---- Solvency ------------------------------------------------------------

  function Rate(m: Mint): nat
    requires m.decimals <= SPL_SHARE_DECIMAL
  {
    Pow10(SPL_SHARE_DECIMAL - m.decimals)
  }

  /** Every share deposited is withdrawn, backed by a token unit that exists or was burned outside
      the bridge, or truncated dust. */
  ghost predicate Balanced(m: Mint, k: Books) {
    m.decimals <= SPL_SHARE_DECIMAL && k.deposited == k.withdrawn + (m.supply + k.burned) * Rate(m) + k.dust
  }

  ghost predicate AllBalanced(s: State) {
    && (forall t :: t in s.mints ==> Balanced(s.mints[t], BooksOf(s, t)))
    && (forall t :: t !in s.mints ==> BooksOf(s, t) == Books(0, 0, 0, 0))
  }

  lemma Truncated(amount: nat, rate: nat)
    requires rate > 0
    ensures amount == amount / rate * rate + amount % rate
  {
  }

  lemma Distribute(a: nat, b: nat, r: nat)
    ensures (a + b) * r == a * r + b * r
  {
  }

  lemma DepositBalanced(m: Mint, k: Books, shares: nat)
    requires Balanced(m, k)
    ensures var units := ConvertDecimal(shares, SPL_SHARE_DECIMAL, m.decimals);
            m.supply + units < TWO64 ==>
              Balanced(m.(supply := m.supply + units),
                       k.(deposited := k.deposited + shares, dust := k.dust + Dust(shares, m.decimals)))
  {
    var r := Rate(m);
    var units := ConvertDecimal(shares, SPL_SHARE_DECIMAL, m.decimals);
    Truncated(shares, r);
    assert units == shares / r && Dust(shares, m.decimals) == shares % r;
    Distribute(m.supply + k.burned, units, r);
  }

  lemma WithdrawBalanced(m: Mint, k: Books, units: nat)
    requires Balanced(m, k) && units <= m.supply
    ensures Balanced(m.(supply := m.supply - units),
                     k.(withdrawn := k.withdrawn + ConvertDecimal(units, m.decimals, SPL_SHARE_DECIMAL)))
  {
    var r := Rate(m);
    assert ConvertDecimal(units, m.decimals, SPL_SHARE_DECIMAL) == units * r;
    assert (m.supply - units + k.burned) * r + units * r == (m.supply + k.burned) * r;
  }

  lemma BurnBalanced(m: Mint, k: Books, units: nat)
    requires Balanced(m, k) && units <= m.supply
    ensures Balanced(m.(supply := m.supply - units), k.(burned := k.burned + units))
  {
  }

  /** A mint is only created where there was none, so its books start empty. */
  ghost predicate MintsInUse(s: State) {
    forall t :: t in s.mints ==> Get(s.accounts, MintKey(t)).owner == TokenProgram
  }

  // The token side of the instructions that touch it, read off their definitions.

  lemma WithdrawSplTokens(s: State, i: Instruction, env: Env)
    requires i.WithdrawSpl? && DoWithdrawSpl(s, i, env).Some? && i.token in s.mints
    requires s.mints[i.token].decimals <= SPL_SHARE_DECIMAL
    ensures var u := DoWithdrawSpl(s, i, env).value;
            var m, k := s.mints[i.token], BooksOf(s, i.token);
            var shares := ConvertDecimal(i.amount, m.decimals, SPL_SHARE_DECIMAL);
            && i.amount <= m.supply
            && u.mints == s.mints[i.token := m.(supply := m.supply - i.amount)]
            && u.books == s.books[i.token := k.(withdrawn := k.withdrawn + shares)]
  {
  }

  lemma DepositErc20Tokens(s: State, i: Instruction, env: Env)
    requires i.DepositErc20? && DoDepositErc20(s, i, env).Some? && i.token in s.mints
    ensures var u := DoDepositErc20(s, i, env).value;
            var m, k := s.mints[i.token], BooksOf(s, i.token);
            var units := ConvertDecimal(i.amount, SPL_SHARE_DECIMAL, m.decimals);
            && m.supply + units < TWO64
            && u.mints == s.mints[i.token := m.(supply := m.supply + units)]
            && u.books == s.books[i.token := k.(deposited := k.deposited + i.amount,
                                                dust := k.dust + Dust(i.amount, m.decimals))]
  {
  }

  lemma CreateSplTokens(s: State, i: Instruction, env: Env)
    requires i.CreateSpl? && DoCreateSpl(s, i, env).Some? && MintsInUse(s)
    ensures var u := DoCreateSpl(s, i, env).value;
            && i.token !in s.mints && i.decimals <= MAX_TOKEN_DECIMAL
            && u.mints == s.mints[i.token := Mint(i.decimals, 0)] && u.books == s.books
  {
    CreateFrame(s.accounts, env.rent, VaultKey, MintKey(i.token), 82, TokenProgram);
  }

  /** Updating one token's mint and books keeps all tokens balanced if it keeps that one. */
  lemma BalancedUpdate(s: State, u: State, t: Address, m: Mint, k: Books)
    requires AllBalanced(s) && Balanced(m, k)
    requires u.mints == s.mints[t := m] && u.books == s.books[t := k]
    ensures AllBalanced(u)
  {
    forall x | x in u.mints ensures Balanced(u.mints[x], BooksOf(u, x)) {
      if x != t { assert BooksOf(u, x) == BooksOf(s, x); }
    }
    forall x | x !in u.mints ensures BooksOf(u, x) == Books(0, 0, 0, 0) {
      assert BooksOf(u, x) == BooksOf(s, x);
    }
  }

  lemma SameTokens(s: State, u: State)
    requires AllBalanced(s) && u.mints == s.mints && u.books == s.books
    ensures AllBalanced(u)
  {
    assert forall x :: BooksOf(u, x) == BooksOf(s, x);
  }

  lemma WithdrawSplBalanced(s: State, i: Instruction, env: Env)
    requires AllBalanced(s) && i.WithdrawSpl? && DoWithdrawSpl(s, i, env).Some?
    ensures AllBalanced(DoWithdrawSpl(s, i, env).value)
  {
    var u, t := DoWithdrawSpl(s, i, env).value, i.token;
    assert t in s.mints;
    WithdrawSplTokens(s, i, env);
    WithdrawBalanced(s.mints[t], BooksOf(s, t), i.amount);
    BalancedUpdate(s, u, t, u.mints[t], u.books[t]);
  }

  lemma DepositErc20Balanced(s: State, i: Instruction, env: Env)
    requires AllBalanced(s) && i.DepositErc20? && DoDepositErc20(s, i, env).Some?
    ensures AllBalanced(DoDepositErc20(s, i, env).value)
  {
    var u, t := DoDepositErc20(s, i, env).value, i.token;
    assert t in s.mints;
    DepositErc20Tokens(s, i, env);
    DepositBalanced(s.mints[t], BooksOf(s, t), i.amount);
    BalancedUpdate(s, u, t, u.mints[t], u.books[t]);
  }

  lemma CreateSplBalanced(s: State, i: Instruction, env: Env)
    requires AllBalanced(s) && MintsInUse(s) && i.CreateSpl? && DoCreateSpl(s, i, env).Some?
    ensures AllBalanced(DoCreateSpl(s, i, env).value)
  {
    var u := DoCreateSpl(s, i, env).value;
    CreateSplTokens(s, i, env);
    assert forall x :: BooksOf(u, x) == BooksOf(s, x);
  }

  lemma TokenBurnBalanced(s: State, i: Instruction, env: Env)
    requires AllBalanced(s) && i.TokenBurn? && Process(s, i, env).Some?
    ensures AllBalanced(Process(s, i, env).value)
  {
    var u, t := Process(s, i, env).value, i.token;
    BurnBalanced(s.mints[t], BooksOf(s, t), i.units);
    BalancedUpdate(s, u, t, u.mints[t], u.books[t]);
  }

  lemma OthersLeaveTokens(s: State, i: Instruction, env: Env)
    requires !i.WithdrawSpl? && !i.DepositErc20? && !i.CreateSpl? && !i.TokenBurn?
    ensures Apply(s, i, env).mints == s.mints && Apply(s, i, env).books == s.books
  {
  }

  lemma BalancedStep(s: State, i: Instruction, env: Env)
    requires AllBalanced(s) && MintsInUse(s)
    ensures AllBalanced(Apply(s, i, env))
  {
    if Process(s, i, env).Some? {
      match i
      case WithdrawSpl(_, _, _, _, _, _, _, _, _, _) => WithdrawSplBalanced(s, i, env);
      case DepositErc20(_, _, _, _, _, _) => DepositErc20Balanced(s, i, env);
      case CreateSpl(_, _, _, _, _) => CreateSplBalanced(s, i, env);
      case TokenBurn(_, _, _) => TokenBurnBalanced(s, i, env);
      case _ =>
        OthersLeaveTokens(s, i, env);
        SameTokens(s, Apply(s, i, env));
    }
  }

  /** Withdrawals never overflow 128 bits: at most nine decimals are added to a 64-bit amount. */
  lemma NoOverflow(units: u64, decimals: nat)
    requires decimals <= MAX_TOKEN_DECIMAL
    ensures ConvertDecimal(units, decimals, SPL_SHARE_DECIMAL) < Pow256(16)
  {
    Widths();
    Pow10AtMost(SPL_SHARE_DECIMAL - decimals);
    assert units * Pow10(SPL_SHARE_DECIMAL - decimals) <= units * 1_000_000_000;
  }

  lemma {:induction false} Pow10AtMost(n: nat)
    requires n <= 9
    ensures Pow10(n) <= 1_000_000_000
  {
    assert Pow10(9) == 10 * Pow10(8) && Pow10(8) == 10 * Pow10(7) && Pow10(7) == 10 * Pow10(6);
    assert Pow10(6) == 10 * Pow10(5) && Pow10(5) == 10 * Pow10(4) && Pow10(4) == 10 * Pow10(3);
    assert Pow10(3) == 10 * Pow10(2) && Pow10(2) == 10 * Pow10(1) && Pow10(1) == 10 * Pow10(0);
  }

  // ---- Frames --------------------------------------------------------------

  /** Owner and data of an account; lamports may come and go. */
  predicate SameBody(a: Accounts, b: Accounts, k: Key) {
    Get(a, k).owner == Get(b, k).owner && Get(a, k).data == Get(b, k).data
  }

  ghost predicate SameBodies(a: Accounts, b: Accounts) {
    forall k :: SameBody(a, b, k)
  }

  ghost predicate SameBodiesExcept(a: Accounts, b: Accounts, x: Key) {
    forall k :: k != x ==> SameBody(a, b, k)
  }

  lemma TransferFrame(a: Accounts, from: Key, to: Key, amount: u64)
    requires Transfer(a, from, to, amount).Some?
    ensures SameBodies(a, Transfer(a, from, to, amount).value)
  {
  }

  lemma CreateFrame(a: Accounts, rent: nat -> u64, payer: Key, target: Key, len: nat, owner: Owner)
    requires CreateAccount(a, rent, payer, target, len, owner).Some?
    ensures var b := CreateAccount(a, rent, payer, target, len, owner).value;
            && Get(a, target).owner == System && Get(a, target).data == []
            && target in b && b[target].owner == owner && b[target].data == Zeros(len)
            && SameBodiesExcept(a, b, target)
  {
    var required := if rent(len) > Get(a, target).lamports then rent(len) - Get(a, target).lamports else 0;
    if required > 0 { TransferFrame(a, payer, target, required); }
  }

  // ---- Counters and records ------------------------------------------------

  predicate CounterShape(a: Accounts, u: Pubkey) {
    var c := Get(a, CounterKey(u));
    (c.owner == System && c.data == []) || (c.owner == BridgeProgram && |c.data| == 8)
  }

  function Count(a: Accounts, u: Pubkey): u64 {
    match UnpackedCounter(Get(a, CounterKey(u)).data)
    case Some(n) => n
    case None => 0
  }

  /** A record with nonce `n` is stored under nonce `n`. */
  ghost predicate Stored(a: Accounts, u: Pubkey, n: u64) {
    var r := Get(a, RecordKey(u, n));
    && r.owner == BridgeProgram
    && exists w: Withdrawal :: IsRecord(r.data, w) && w.nonce == n
  }

  /** The account data is an ETH or an SPL withdrawal record. */
  ghost predicate IsRecord(data: bytes, w: Withdrawal) {
    || (|w.calldata| == ETH_CALLDATA_LEN && Unpacked(data, ETH_CALLDATA_LEN) == Some(w))
    || (|w.calldata| == SPL_CALLDATA_LEN && Unpacked(data, SPL_CALLDATA_LEN) == Some(w))
  }

  predicate Unused(a: Accounts, u: Pubkey, n: u64) {
    Get(a, RecordKey(u, n)).owner == System && Get(a, RecordKey(u, n)).data == []
  }

  /** The records of a user are exactly those with nonces below the counter. */
  ghost predicate RecordsOf(a: Accounts, u: Pubkey) {
    && CounterShape(a, u)
    && (forall n: u64 :: n < Count(a, u) ==> Stored(a, u, n))
    && (forall n: u64 :: n >= Count(a, u) ==> Unused(a, u, n))
  }

  ghost predicate AllRecords(a: Accounts) {
    forall u :: RecordsOf(a, u)
  }

  lemma SameRecords(a: Accounts, b: Accounts, u: Pubkey)
    requires RecordsOf(a, u) && SameBody(a, b, CounterKey(u))
    requires forall n: u64 :: SameBody(a, b, RecordKey(u, n))
    ensures RecordsOf(b, u)
  {
    forall n: u64 | n < Count(b, u)
      ensures Stored(b, u, n)
    {
      assert Stored(a, u, n) && SameBody(a, b, RecordKey(u, n));
    }
    forall n: u64 | n >= Count(b, u)
      ensures Unused(b, u, n)
    {
      assert Unused(a, u, n) && SameBody(a, b, RecordKey(u, n));
    }
  }

  /** What a withdrawal does to the accounts: count up, store `w` under the old count, and leave
      the owner and data of everything else alone. */
  ghost predicate Withdrawn(a: Accounts, b: Accounts, u: Pubkey, n: u64, w: Withdrawal) {
    && UnpackedCounter(Get(a, CounterKey(u)).data) == Some(n) && n + 1 < TWO64
    && Get(b, CounterKey(u)).owner == Get(a, CounterKey(u)).owner
    && Get(b, CounterKey(u)).data == PackedCounter(n + 1)
    && Get(b, RecordKey(u, n)).owner == BridgeProgram
    && Get(b, RecordKey(u, n)).data == Packed(w)
    && (|w.calldata| == ETH_CALLDATA_LEN || |w.calldata| == SPL_CALLDATA_LEN)
    && w.nonce == n
    && forall k :: k != CounterKey(u) && k != RecordKey(u, n) ==> SameBody(a, b, k)
  }

  lemma StoreFrame(a: Accounts, env: Env, payer: Pubkey, n: u64, w: Withdrawal)
    requires StoreRecord(a, env, payer, n, w).Some?
    ensures var b := StoreRecord(a, env, payer, n, w).value;
            && Get(b, RecordKey(payer, n)).owner == BridgeProgram && Get(b, RecordKey(payer, n)).data == Packed(w)
            && SameBodiesExcept(a, b, RecordKey(payer, n))
  {
    var k := RecordKey(payer, n);
    CreateFrame(a, env.rent, Wallet(payer), k, RECORD_HEADER_LEN + |w.calldata|, BridgeProgram);
    var c := CreateAccount(a, env.rent, Wallet(payer), k, RECORD_HEADER_LEN + |w.calldata|, BridgeProgram).value;
    var b := StoreRecord(a, env, payer, n, w).value;
    forall x | x != k ensures SameBody(a, b, x) { assert SameBody(a, c, x); }
  }

  /** Counting up, then steps that keep all bodies, then storing. */
  lemma WithdrawnByParts(a: Accounts, a1: Accounts, a2: Accounts, b: Accounts, u: Pubkey, n: u64, w: Withdrawal)
    requires NextCount(a, u) == Some((a1, n)) && SameBodies(a1, a2)
    requires Get(b, RecordKey(u, n)).owner == BridgeProgram && Get(b, RecordKey(u, n)).data == Packed(w)
    requires SameBodiesExcept(a2, b, RecordKey(u, n))
    requires (|w.calldata| == ETH_CALLDATA_LEN || |w.calldata| == SPL_CALLDATA_LEN) && w.nonce == n
    ensures Withdrawn(a, b, u, n, w)
  {
    assert SameBody(a1, a2, CounterKey(u)) && SameBody(a2, b, CounterKey(u));
    forall k | k != CounterKey(u) && k != RecordKey(u, n) ensures SameBody(a, b, k) {
      assert SameBody(a1, a2, k) && SameBody(a2, b, k);
    }
  }

  /** The record of an ETH withdrawal number `n`, field by field: sent by the program to the messenger, which
      the first 20 bytes of the config name, with a call of the bridge that the last 20 name. */
  function EthWithdrawal(a: Accounts, env: Env, i: Instruction, n: u64): Withdrawal
    requires i.WithdrawEth? && i.value < TWO64 && |Get(a, ConfigKey).data| == 40
  {
    var config := Get(a, ConfigKey).data;
    Withdrawal(n, env.programId, config[..20], i.value, i.gasLimit,
               env.ethCalldata(config[20..], i.payer, i.target, i.value, n))
  }

  /** A successful ETH withdrawal stores exactly the record the L1 side will see, under the old count. */
  lemma WithdrawEthEffect(s: State, i: Instruction, env: Env)
    requires i.WithdrawEth? && DoWithdrawEth(s, i, env).Some?
    ensures |Get(s.accounts, CounterKey(i.payer)).data| == 8
    ensures FromLE(Get(s.accounts, CounterKey(i.payer)).data) < TWO64
    ensures i.value < TWO64 && |Get(s.accounts, ConfigKey).data| == 40
    ensures var n := FromLE(Get(s.accounts, CounterKey(i.payer)).data);
            var w := EthWithdrawal(s.accounts, env, i, n);
            var b := DoWithdrawEth(s, i, env).value.accounts;
            && Withdrawn(s.accounts, b, i.payer, n, w)
            && |w.calldata| == ETH_CALLDATA_LEN
            && Unpacked(Get(b, RecordKey(i.payer, n)).data, ETH_CALLDATA_LEN) == Some(w)
  {
    var (a, n) := NextCount(s.accounts, i.payer).value;
    TransferFrame(a, Wallet(i.payer), VaultKey, i.value);
    var b := Transfer(a, Wallet(i.payer), VaultKey, i.value).value;
    assert SameBody(a, b, ConfigKey);
    assert ConfigOf(b) == ConfigOf(s.accounts);
    var w := EthWithdrawal(s.accounts, env, i, n);
    assert Get(s.accounts, ConfigKey).data[20..40] == Get(s.accounts, ConfigKey).data[20..];
    assert w == EthRecord(env, ConfigOf(b).value, i.payer, i.target, i.value, i.gasLimit, n);
    StoreFrame(b, env, i.payer, n, w);
    WithdrawnByParts(s.accounts, a, b, StoreRecord(b, env, i.payer, n, w).value, i.payer, n, w);
    RecordRoundTrip(w);
  }

  /** The shares that an SPL withdrawal records: what is left of the amount without dust, in share decimals. */
  function SharesOf(s: State, i: Instruction): nat
    requires i.WithdrawSpl? && i.token in s.mints
  {
    var d := s.mints[i.token].decimals;
    ConvertDecimal(RemoveDust(i.amount, d, SPL_SHARE_DECIMAL), d, SPL_SHARE_DECIMAL)
  }

  /** The record of an SPL withdrawal: no value, and a call of the bridge that names the shares burned. */
  function SplWithdrawal(a: Accounts, env: Env, i: Instruction, n: u64, shares: nat): Withdrawal
    requires i.WithdrawSpl? && |Get(a, ConfigKey).data| == 40
  {
    var config := Get(a, ConfigKey).data;
    Withdrawal(n, env.programId, config[..20], 0, i.gasLimit,
               env.splCalldata(config[20..], i.token, i.payer, i.receiver, shares, n))
  }

  /** A successful SPL withdrawal burns what it records: the recorded shares are the burned units
      at the share decimals. */
  lemma WithdrawSplEffect(s: State, i: Instruction, env: Env)
    requires i.WithdrawSpl? && DoWithdrawSpl(s, i, env).Some?
    ensures |Get(s.accounts, CounterKey(i.payer)).data| == 8
    ensures FromLE(Get(s.accounts, CounterKey(i.payer)).data) < TWO64
    ensures |Get(s.accounts, ConfigKey).data| == 40 && i.token in s.mints
    ensures var n := FromLE(Get(s.accounts, CounterKey(i.payer)).data);
            var w := SplWithdrawal(s.accounts, env, i, n, SharesOf(s, i));
            var b := DoWithdrawSpl(s, i, env).value.accounts;
            && Withdrawn(s.accounts, b, i.payer, n, w)
            && |w.calldata| == SPL_CALLDATA_LEN
            && Unpacked(Get(b, RecordKey(i.payer, n)).data, SPL_CALLDATA_LEN) == Some(w)
  {
    var (a, n) := NextCount(s.accounts, i.payer).value;
    assert ConfigOf(a) == ConfigOf(s.accounts);
    var shares := SharesOf(s, i);
    var w := SplWithdrawal(s.accounts, env, i, n, shares);
    assert Get(s.accounts, ConfigKey).data[20..40] == Get(s.accounts, ConfigKey).data[20..];
    assert w == SplRecord(env, ConfigOf(a).value, i.token, i.payer, i.receiver, shares, i.gasLimit, n);
    StoreFrame(a, env, i.payer, n, w);
    WithdrawnByParts(s.accounts, a, a, StoreRecord(a, env, i.payer, n, w).value, i.payer, n, w);
    RecordRoundTrip(w);
  }

  /** Conversion keeps the value where it goes up in decimals, and rounds down where it goes down; removing
      dust goes down and up again. */
  lemma ConversionExactly(amount: nat, from: nat, to: nat)
    ensures from <= to ==> ConvertDecimal(amount, from, to) == amount * Pow10(to - from)
    ensures from > to ==>
              var units := ConvertDecimal(amount, from, to);
              units * Pow10(from - to) <= amount < (units + 1) * Pow10(from - to)
    ensures RemoveDust(amount, from, to)
            == if from <= to then amount else ConvertDecimal(amount, from, to) * Pow10(from - to)
  {
    if from > to { RoundedDown(amount, Pow10(from - to)); }
  }

  lemma RoundedDown(amount: nat, p: nat)
    requires p > 0
    ensures Quotient(amount, p) * p <= amount < (Quotient(amount, p) + 1) * p
  {
    var q := amount / p;
    Truncated(amount, p);
    Distribute(q, 1, p);
  }

  lemma WithdrawnCount(a: Accounts, b: Accounts, u: Pubkey, n: u64, w: Withdrawal)
    requires Withdrawn(a, b, u, n, w)
    ensures Count(a, u) == n && Count(b, u) == n + 1
  {
    CounterRoundTrip(n + 1);
  }

  lemma WithdrawnRecords(a: Accounts, b: Accounts, u: Pubkey, n: u64, w: Withdrawal, v: Pubkey)
    requires Withdrawn(a, b, u, n, w) && RecordsOf(a, v)
    ensures RecordsOf(b, v)
  {
    if v != u {
      assert SameBody(a, b, CounterKey(v));
      forall x: u64 ensures SameBody(a, b, RecordKey(v, x)) {}
      SameRecords(a, b, v);
    } else {
      WithdrawnCount(a, b, u, n, w);
      forall x: u64 | x < n + 1 ensures Stored(b, u, x) {
        if x < n { StoredKept(a, b, u, x); } else { NewStored(b, u, n, w); }
      }
      forall x: u64 | x >= n + 1 ensures Unused(b, u, x) {
        assert Unused(a, u, x) && SameBody(a, b, RecordKey(u, x));
      }
    }
  }

  lemma StoredKept(a: Accounts, b: Accounts, u: Pubkey, n: u64)
    requires Stored(a, u, n) && SameBody(a, b, RecordKey(u, n))
    ensures Stored(b, u, n)
  {
  }

  lemma NewStored(b: Accounts, u: Pubkey, n: u64, w: Withdrawal)
    requires Get(b, RecordKey(u, n)).owner == BridgeProgram && Get(b, RecordKey(u, n)).data == Packed(w) && w.nonce == n
    requires |w.calldata| == ETH_CALLDATA_LEN || |w.calldata| == SPL_CALLDATA_LEN
    ensures Stored(b, u, n)
  {
    RecordRoundTrip(w);
    assert IsRecord(Get(b, RecordKey(u, n)).data, w);
  }

  /** Instructions other than the withdrawals create at most one account, where none was. */
  ghost predicate CreatesOnly(a: Accounts, b: Accounts, x: Key) {
    && SameBodiesExcept(a, b, x)
    && (SameBody(a, b, x) || (Get(a, x).owner == System && Get(a, x).data == [] && Get(b, x).owner != System))
  }

  lemma OthersCreateOnly(s: State, i: Instruction, env: Env) returns (x: Key)
    requires !i.WithdrawEth? && !i.WithdrawSpl? && Process(s, i, env).Some?
    ensures CreatesOnly(s.accounts, Process(s, i, env).value.accounts, x)
    ensures !x.RecordKey?
    ensures var c := Get(Process(s, i, env).value.accounts, x);
            && (x.CounterKey? ==> c.owner == BridgeProgram && c.data == PackedCounter(0))
            && (x.MintKey? ==> c.owner == TokenProgram)
  {
    x := VaultKey;
    match i
    case CreateUserCounter(payer, counter) =>
      x := counter;
      CreateFrame(s.accounts, env.rent, Wallet(payer), counter, 8, BridgeProgram);
      var c := CreateAccount(s.accounts, env.rent, Wallet(payer), counter, 8, BridgeProgram).value;
      var b := Process(s, i, env).value.accounts;
      forall k | k != x ensures SameBody(s.accounts, b, k) { assert SameBody(s.accounts, c, k); }
    case DepositEth(_, _, _, to, value) =>
      TransferFrame(s.accounts, VaultKey, to, value);
    case DepositErc20(_, _, _, token, to, _) =>
      if Get(s.accounts, TokenAccountKey(to, token)).owner != TokenProgram {
        x := TokenAccountKey(to, token);
        CreateFrame(s.accounts, env.rent, VaultKey, x, 165, TokenProgram);
      }
    case CreateSpl(_, _, _, token, _) =>
      x := MintKey(token);
      CreateFrame(s.accounts, env.rent, VaultKey, x, 82, TokenProgram);
    case SystemTransfer(source, dest, lamports) =>
      TransferFrame(s.accounts, Wallet(source), dest, lamports);
    case _ =>
  }

  lemma CreatedRecords(a: Accounts, b: Accounts, x: Key, v: Pubkey)
    requires CreatesOnly(a, b, x) && RecordsOf(a, v) && !x.RecordKey?
    requires x == CounterKey(v) ==> Get(b, x).owner == BridgeProgram && Get(b, x).data == PackedCounter(0)
    ensures RecordsOf(b, v)
  {
    forall n: u64 ensures SameBody(a, b, RecordKey(v, n)) {}
    if x != CounterKey(v) || SameBody(a, b, x) {
      assert SameBody(a, b, CounterKey(v));
      SameRecords(a, b, v);
    } else {
      CounterRoundTrip(0);
      assert Count(a, v) == 0 && Count(b, v) == 0;
      forall n: u64 ensures Unused(b, v, n) { assert Unused(a, v, n) && SameBody(a, b, RecordKey(v, n)); }
    }
  }

  /** Everything the bridge keeps. */
  ghost predicate Inv(s: State) {
    AllBalanced(s) && MintsInUse(s) && AllRecords(s.accounts)
  }

  lemma FreshInv(s: State)
    requires Fresh(s)
    ensures Inv(s)
  {
    forall u ensures RecordsOf(s.accounts, u) {
      forall n: u64 ensures Unused(s.accounts, u, n) {}
    }
  }

  lemma WithdrawEffect(s: State, i: Instruction, env: Env) returns (n: u64, w: Withdrawal)
    requires (i.WithdrawEth? || i.WithdrawSpl?) && Process(s, i, env).Some?
    ensures Withdrawn(s.accounts, Apply(s, i, env).accounts, i.payer, n, w)
  {
    if i.WithdrawEth? {
      WithdrawEthEffect(s, i, env);
      n := FromLE(Get(s.accounts, CounterKey(i.payer)).data);
      w := EthWithdrawal(s.accounts, env, i, n);
    } else {
      WithdrawSplEffect(s, i, env);
      n := FromLE(Get(s.accounts, CounterKey(i.payer)).data);
      w := SplWithdrawal(s.accounts, env, i, n, SharesOf(s, i));
    }
  }

  lemma RecordsStep(s: State, i: Instruction, env: Env)
    requires AllRecords(s.accounts)
    ensures AllRecords(Apply(s, i, env).accounts)
  {
    var a, b := s.accounts, Apply(s, i, env).accounts;
    if Process(s, i, env).Some? {
      if i.WithdrawEth? || i.WithdrawSpl? {
        var n, w := WithdrawEffect(s, i, env);
        forall v ensures RecordsOf(b, v) { WithdrawnRecords(a, b, i.payer, n, w, v); }
      } else {
        var x := OthersCreateOnly(s, i, env);
        forall v ensures RecordsOf(b, v) { CreatedRecords(a, b, x, v); }
      }
    }
  }

  lemma WithdrawnKeepsMint(a: Accounts, b: Accounts, u: Pubkey, n: u64, w: Withdrawal, t: Address)
    requires Withdrawn(a, b, u, n, w)
    ensures Get(b, MintKey(t)).owner == Get(a, MintKey(t)).owner
  {
    assert SameBody(a, b, MintKey(t));
  }

  lemma CreatedKeepsMint(a: Accounts, b: Accounts, x: Key, t: Address)
    requires CreatesOnly(a, b, x) && (x.MintKey? ==> Get(b, x).owner == TokenProgram)
    requires Get(a, MintKey(t)).owner == TokenProgram
    ensures Get(b, MintKey(t)).owner == TokenProgram
  {
    if x != MintKey(t) { assert SameBody(a, b, MintKey(t)); }
  }

  /** No instruction changes the owner of a mint account that is in use. */
  lemma MintKept(s: State, i: Instruction, env: Env, t: Address)
    requires Get(s.accounts, MintKey(t)).owner == TokenProgram
    ensures Get(Apply(s, i, env).accounts, MintKey(t)).owner == TokenProgram
  {
    if Process(s, i, env).Some? {
      if i.WithdrawEth? || i.WithdrawSpl? {
        var n, w := WithdrawEffect(s, i, env);
        WithdrawnKeepsMint(s.accounts, Apply(s, i, env).accounts, i.payer, n, w, t);
      } else {
        var x := OthersCreateOnly(s, i, env);
        CreatedKeepsMint(s.accounts, Process(s, i, env).value.accounts, x, t);
      }
    }
  }

  lemma MintsKnown(s: State, i: Instruction, env: Env, t: Address)
    requires t in Apply(s, i, env).mints && t !in s.mints
    ensures Get(Apply(s, i, env).accounts, MintKey(t)).owner == TokenProgram
  {
    if !i.CreateSpl? && !i.WithdrawSpl? && !i.DepositErc20? && !i.TokenBurn? {
      OthersLeaveTokens(s, i, env);
    } else if i.CreateSpl? {
      CreateFrame(s.accounts, env.rent, VaultKey, MintKey(t), 82, TokenProgram);
    }
  }

  lemma MintsStep(s: State, i: Instruction, env: Env)
    requires MintsInUse(s)
    ensures MintsInUse(Apply(s, i, env))
  {
    forall t | t in Apply(s, i, env).mints ensures Get(Apply(s, i, env).accounts, MintKey(t)).owner == TokenProgram {
      if t in s.mints { MintKept(s, i, env, t); } else { MintsKnown(s, i, env, t); }
    }
  }

  /** Solvency and the record discipline hold in every reachable state. */
  lemma {:induction false} Reachable(s: State, run: seq<Instruction>, env: Env)
    requires Fresh(s)
    ensures Inv(Run(s, run, env))
  {
    if run == [] {
      FreshInv(s);
    } else {
      var n := |run| - 1;
      Reachable(s, run[..n], env);
      var t := Run(s, run[..n], env);
      BalancedStep(t, run[n], env);
      RecordsStep(t, run[n], env);
      MintsStep(t, run[n], env);
    }
  }

  /** Withdrawn shares plus the shares behind the supply never exceed the shares deposited; what is
      missing is exactly the truncated dust and what was burned outside the bridge. */
  lemma Solvent(s: State, run: seq<Instruction>, env: Env, t: Address)
    requires Fresh(s) && t in Run(s, run, env).mints
    ensures var u := Run(s, run, env);
            var m, k := u.mints[t], BooksOf(u, t);
            && m.decimals <= SPL_SHARE_DECIMAL
            && k.withdrawn + m.supply * Rate(m) <= k.deposited
            && k.deposited - (k.withdrawn + m.supply * Rate(m)) == k.dust + k.burned * Rate(m)
  {
    Reachable(s, run, env);
    BalancedIsSolvent(Run(s, run, env).mints[t], BooksOf(Run(s, run, env), t));
  }

  lemma BalancedIsSolvent(m: Mint, k: Books)
    requires Balanced(m, k)
    ensures k.withdrawn + m.supply * Rate(m) <= k.deposited
    ensures k.deposited - (k.withdrawn + m.supply * Rate(m)) == k.dust + k.burned * Rate(m)
  {
    var r := Rate(m);
    assert (m.supply + k.burned) * r == m.supply * r + Times(k.burned, r);
  }

  // ---- Nonces --------------------------------------------------------------

  ghost function Nonces(a: Accounts, u: Pubkey): set<u64> {
    set k | k in a && k.RecordKey? && k.user == u && a[k].owner == BridgeProgram :: k.nonce
  }

  ghost function Below(n: nat): (r: set<u64>)
    requires n < TWO64
    ensures forall x: u64 :: x in r <==> x < n
    ensures |r| == n
  {
    if n == 0 then {} else Below(n - 1) + {n - 1}
  }

  /** A user's counter is the number of that user's records, ETH and SPL together, and their nonces
      are 0 to counter - 1, each once. */
  lemma CounterCountsRecords(s: State, run: seq<Instruction>, env: Env, u: Pubkey)
    requires Fresh(s)
    ensures var a := Run(s, run, env).accounts;
            && |Nonces(a, u)| == Count(a, u)
            && forall n: u64 :: n in Nonces(a, u) <==> n < Count(a, u)
  {
    Reachable(s, run, env);
    var a := Run(s, run, env).accounts;
    assert RecordsOf(a, u);
    forall n: u64 ensures n in Nonces(a, u) <==> n < Count(a, u) {
      var k := RecordKey(u, n);
      if n < Count(a, u) {
        assert Stored(a, u, n);
        assert k in a;
      } else {
        assert Unused(a, u, n);
      }
    }
    assert Nonces(a, u) == Below(Count(a, u));
  }

  lemma WithdrawnKeeps(a: Accounts, b: Accounts, payer: Pubkey, c: u64, w: Withdrawal, u: Pubkey, n: u64)
    requires Withdrawn(a, b, payer, c, w) && n < Count(a, u)
    ensures SameBody(a, b, RecordKey(u, n)) && n < Count(b, u)
  {
    WithdrawnCount(a, b, payer, c, w);
    if u != payer { assert SameBody(a, b, CounterKey(u)); }
  }

  lemma CreatedKeeps(a: Accounts, b: Accounts, x: Key, u: Pubkey, n: u64)
    requires CreatesOnly(a, b, x) && !x.RecordKey? && n < Count(a, u)
    ensures SameBody(a, b, RecordKey(u, n)) && n < Count(b, u)
  {
    assert SameBody(a, b, CounterKey(u));
  }

  /** One step never touches a record that is there. */
  lemma RecordKept(s: State, i: Instruction, env: Env, u: Pubkey, n: u64)
    requires n < Count(s.accounts, u)
    ensures SameBody(s.accounts, Apply(s, i, env).accounts, RecordKey(u, n))
    ensures n < Count(Apply(s, i, env).accounts, u)
  {
    if Process(s, i, env).Some? {
      if i.WithdrawEth? || i.WithdrawSpl? {
        var c, w := WithdrawEffect(s, i, env);
        WithdrawnKeeps(s.accounts, Apply(s, i, env).accounts, i.payer, c, w, u, n);
      } else {
        var x := OthersCreateOnly(s, i, env);
        CreatedKeeps(s.accounts, Apply(s, i, env).accounts, x, u, n);
      }
    }
  }

  /** No record is ever overwritten or lost, over any run. */
  lemma {:induction false} RecordsForever(s: State, run: seq<Instruction>, env: Env, u: Pubkey, n: u64)
    requires n < Count(s.accounts, u)
    ensures SameBody(s.accounts, Run(s, run, env).accounts, RecordKey(u, n))
    ensures n < Count(Run(s, run, env).accounts, u)
  {
    if run != [] {
      var k := |run| - 1;
      RecordsForever(s, run[..k], env, u, n);
      RecordKept(Run(s, run[..k], env), run[k], env, u, n);
    }
  }

  // ---- Lamports ------------------------------------------------------------

  function Lamports(a: Accounts): map<Key, nat> {
    map k | k in a :: a[k].lamports
  }

  ghost function Total(a: Accounts, keys: set<Key>): nat {
    Sum(Lamports(a), keys)
  }

  /** Same lamports everywhere. */
  lemma SameTotal(a: Accounts, b: Accounts, keys: set<Key>)
    requires forall k :: Get(a, k).lamports == Get(b, k).lamports
    ensures Total(a, keys) == Total(b, keys)
  {
    forall k ensures At(Lamports(a), k) == At(Lamports(b), k) {
      assert Get(a, k).lamports == Get(b, k).lamports;
    }
    SumSame(Lamports(a), Lamports(b), keys);
  }

  lemma PutTotal(a: Accounts, k: Key, x: Account, keys: set<Key>)
    requires k in keys
    ensures Total(a[k := x], keys) + Get(a, k).lamports == Total(a, keys) + x.lamports
  {
    assert Lamports(a[k := x]) == Lamports(a)[k := x.lamports];
    SumUpdate(Lamports(a), keys, k, x.lamports);
  }

  lemma TransferTotal(a: Accounts, from: Key, to: Key, amount: u64, keys: set<Key>)
    requires Transfer(a, from, to, amount).Some? && Transfer(a, from, to, amount).value.Keys <= keys
    ensures a.Keys <= Transfer(a, from, to, amount).value.Keys
    ensures Total(Transfer(a, from, to, amount).value, keys) == Total(a, keys)
  {
    if from != to {
      var f, t := Get(a, from), Get(a, to);
      var b := a[from := f.(lamports := f.lamports - amount)];
      assert {from, to} <= Transfer(a, from, to, amount).value.Keys;
      PutTotal(a, from, f.(lamports := f.lamports - amount), keys);
      PutTotal(b, to, t.(lamports := t.lamports + amount), keys);
    }
  }

  lemma CreateTotal(a: Accounts, rent: nat -> u64, payer: Key, target: Key, len: nat, owner: Owner, keys: set<Key>)
    requires CreateAccount(a, rent, payer, target, len, owner).Some?
    requires CreateAccount(a, rent, payer, target, len, owner).value.Keys <= keys
    ensures a.Keys <= CreateAccount(a, rent, payer, target, len, owner).value.Keys
    ensures Total(CreateAccount(a, rent, payer, target, len, owner).value, keys) == Total(a, keys)
  {
    var required := if rent(len) > Get(a, target).lamports then rent(len) - Get(a, target).lamports else 0;
    var b := if required > 0 then Transfer(a, payer, target, required).value else a;
    var c := CreateAccount(a, rent, payer, target, len, owner).value;
    assert c == b[target := c[target]];
    if required > 0 { TransferTotal(a, payer, target, required, keys); }
    PutTotal(b, target, c[target], keys);
  }

  lemma StoreTotal(a: Accounts, env: Env, payer: Pubkey, n: u64, w: Withdrawal, keys: set<Key>)
    requires StoreRecord(a, env, payer, n, w).Some? && StoreRecord(a, env, payer, n, w).value.Keys <= keys
    ensures a.Keys <= StoreRecord(a, env, payer, n, w).value.Keys
    ensures Total(StoreRecord(a, env, payer, n, w).value, keys) == Total(a, keys)
  {
    var k, len := RecordKey(payer, n), RECORD_HEADER_LEN + |w.calldata|;
    var b := CreateAccount(a, env.rent, Wallet(payer), k, len, BridgeProgram).value;
    CreateFrame(a, env.rent, Wallet(payer), k, len, BridgeProgram);
    assert StoreRecord(a, env, payer, n, w).value.Keys == b.Keys;
    CreateTotal(a, env.rent, Wallet(payer), k, len, BridgeProgram, keys);
    SameTotal(b, StoreRecord(a, env, payer, n, w).value, keys);
  }

  lemma CountTotal(a: Accounts, u: Pubkey, keys: set<Key>)
    requires NextCount(a, u).Some?
    ensures Total(NextCount(a, u).value.0, keys) == Total(a, keys) && a.Keys <= NextCount(a, u).value.0.Keys
  {
    SameTotal(a, NextCount(a, u).value.0, keys);
  }

  lemma WithdrawEthTotal(s: State, i: Instruction, env: Env, keys: set<Key>)
    requires i.WithdrawEth? && DoWithdrawEth(s, i, env).Some? && DoWithdrawEth(s, i, env).value.accounts.Keys <= keys
    ensures Total(DoWithdrawEth(s, i, env).value.accounts, keys) == Total(s.accounts, keys)
  {
    var (a, n) := NextCount(s.accounts, i.payer).value;
    var b := Transfer(a, Wallet(i.payer), VaultKey, i.value).value;
    var w := EthRecord(env, ConfigOf(b).value, i.payer, i.target, i.value, i.gasLimit, n);
    StoreTotal(b, env, i.payer, n, w, keys);
    TransferTotal(a, Wallet(i.payer), VaultKey, i.value, keys);
    CountTotal(s.accounts, i.payer, keys);
  }

  lemma WithdrawSplTotal(s: State, i: Instruction, env: Env, keys: set<Key>)
    requires i.WithdrawSpl? && DoWithdrawSpl(s, i, env).Some? && DoWithdrawSpl(s, i, env).value.accounts.Keys <= keys
    ensures Total(DoWithdrawSpl(s, i, env).value.accounts, keys) == Total(s.accounts, keys)
  {
    var (a, n) := NextCount(s.accounts, i.payer).value;
    var d := s.mints[i.token].decimals;
    var shares := ConvertDecimal(RemoveDust(i.amount, d, SPL_SHARE_DECIMAL), d, SPL_SHARE_DECIMAL);
    var w := SplRecord(env, ConfigOf(a).value, i.token, i.payer, i.receiver, shares, i.gasLimit, n);
    StoreTotal(a, env, i.payer, n, w, keys);
    CountTotal(s.accounts, i.payer, keys);
  }

  lemma CreateCounterTotal(s: State, i: Instruction, env: Env, keys: set<Key>)
    requires i.CreateUserCounter? && DoCreateUserCounter(s, i, env).Some?
    requires DoCreateUserCounter(s, i, env).value.accounts.Keys <= keys
    ensures Total(DoCreateUserCounter(s, i, env).value.accounts, keys) == Total(s.accounts, keys)
  {
    var a := CreateAccount(s.accounts, env.rent, Wallet(i.payer), i.counter, 8, BridgeProgram).value;
    var b := DoCreateUserCounter(s, i, env).value.accounts;
    CreateFrame(s.accounts, env.rent, Wallet(i.payer), i.counter, 8, BridgeProgram);
    assert a.Keys == b.Keys;
    CreateTotal(s.accounts, env.rent, Wallet(i.payer), i.counter, 8, BridgeProgram, keys);
    SameTotal(a, b, keys);
  }

  /** No instruction makes or destroys lamports: the total over any set of accounts that holds all
      the accounts in existence is the same before and after. */
  lemma LamportsConserved(s: State, i: Instruction, env: Env, keys: set<Key>)
    requires Apply(s, i, env).accounts.Keys <= keys
    ensures Total(Apply(s, i, env).accounts, keys) == Total(s.accounts, keys)
  {
    if Process(s, i, env).Some? {
      match i
      case CreateUserCounter(_, _) => CreateCounterTotal(s, i, env, keys);
      case WithdrawEth(_, _, _, _, _, _, _, _, _) => WithdrawEthTotal(s, i, env, keys);
      case WithdrawSpl(_, _, _, _, _, _, _, _, _, _) => WithdrawSplTotal(s, i, env, keys);
      case DepositEth(_, _, _, to, value) => TransferTotal(s.accounts, VaultKey, to, value, keys);
      case DepositErc20(_, _, _, token, to, _) =>
        if Get(s.accounts, TokenAccountKey(to, token)).owner != TokenProgram {
          CreateTotal(s.accounts, env.rent, VaultKey, TokenAccountKey(to, token), 165, TokenProgram, keys);
        }
      case CreateSpl(_, _, _, token, _) =>
        CreateTotal(s.accounts, env.rent, VaultKey, MintKey(token), 82, TokenProgram, keys);
      case SystemTransfer(source, dest, lamports) => TransferTotal(s.accounts, Wallet(source), dest, lamports, keys);
      case _ =>
    }
  }

  // ---- Seeds ---------------------------------------------------------------

  const COUNTER_SEED: bytes := [115, 118, 109, 45, 119, 105, 116, 104, 100, 114, 97, 119, 45, 99, 111, 117, 110, 116,
                                101, 114]
  const VAULT_SEED: bytes := [118, 97, 117, 108, 116]
  const CONFIG_SEED: bytes := [98, 114, 105, 100, 103, 101, 45, 99, 111, 110, 102, 105, 103]
  const MINT_SEED: bytes := [115, 112, 108, 45, 109, 105, 110, 116]
  const SPL_OWNER_SEED: bytes := [115, 112, 108, 45, 111, 119, 110, 101, 114]
  const BRIDGE_OWNER_SEED: bytes := [98, 114, 105, 100, 103, 101, 45, 111, 119, 110, 101, 114]

  predicate IsDerived(k: Key) {
    !k.Wallet? && !k.TokenAccountKey?
  }

  /** The concatenated seeds an address of the bridge program is derived from. */
  function Seeds(k: Key): bytes
    requires IsDerived(k)
  {
    match k
    case VaultKey => VAULT_SEED
    case ConfigKey => CONFIG_SEED
    case CounterKey(user) => COUNTER_SEED + user
    case RecordKey(user, nonce) => user + ToLE(8, nonce)
    case MintKey(token) => MINT_SEED + token
    case SplOwnerKey(token) => SPL_OWNER_SEED + token
    case BridgeOwnerKey => BRIDGE_OWNER_SEED
  }

  /** Different accounts have different seeds, although the derivation only sees the concatenation. */
  lemma SeedsApart(k: Key, k': Key)
    requires IsDerived(k) && IsDerived(k') && Seeds(k) == Seeds(k')
    ensures k == k'
  {
    var a, b := Seeds(k), Seeds(k');
    if k.CounterKey? && k'.CounterKey? {
      assert a[20..] == k.user && b[20..] == k'.user;
    } else if k.RecordKey? && k'.RecordKey? {
      Widths();
      assert a[..32] == k.user && b[..32] == k'.user;
      assert a[32..] == ToLE(8, k.nonce) && b[32..] == ToLE(8, k'.nonce);
      LERoundTrip(8, k.nonce);
      LERoundTrip(8, k'.nonce);
    } else if k.MintKey? && k'.MintKey? {
      assert a[8..] == k.token && b[8..] == k'.token;
    } else if k.SplOwnerKey? && k'.SplOwnerKey? {
      assert a[9..] == k.token && b[9..] == k'.token;
    }
  }
}
