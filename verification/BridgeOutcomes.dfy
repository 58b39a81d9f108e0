/** When the instructions of the bridge program succeed, in terms of the state they find:
    `crates/programs/bridge-program/src/processor.rs` and `utils.rs`. */
module BridgeOutcomes {
  import opened Bytes
  import opened Blocks
  import opened BridgeRecords
  import opened Bridge
  import opened BridgeLedger
  import opened Sums

  // ---- The system program's part -------------------------------------------

  /** A system account without data that has the lamports. */
  predicate CanPay(a: Accounts, from: Key, amount: nat) {
    Get(a, from).owner == System && Get(a, from).data == [] && amount <= Get(a, from).lamports
  }

  predicate IsFree(a: Accounts, k: Key) {
    Get(a, k).owner == System && Get(a, k).data == []
  }

  /** What is missing for the rent of an account of `len` bytes. */
  function RentDue(a: Accounts, rent: nat -> u64, k: Key, len: nat): nat {
    if Get(a, k).lamports < rent(len) then rent(len) - Get(a, k).lamports else 0
  }

  lemma TransferExactly(a: Accounts, from: Key, to: Key, amount: u64)
    ensures Transfer(a, from, to, amount).Some? <==>
              CanPay(a, from, amount) && (from == to || Get(a, to).lamports + amount < TWO64)
  {
  }

  lemma CreateExactly(a: Accounts, rent: nat -> u64, payer: Key, target: Key, len: nat, owner: Owner)
    ensures CreateAccount(a, rent, payer, target, len, owner).Some? <==>
              var due := RentDue(a, rent, target, len);
              IsFree(a, target) && (due > 0 ==> CanPay(a, payer, due))
  {
    var due := RentDue(a, rent, target, len);
    if due > 0 {
      TransferExactly(a, payer, target, due);
      if Transfer(a, payer, target, due).Some? { TransferFrame(a, payer, target, due); }
    }
  }

  // ---- Withdrawals ---------------------------------------------------------

  /** The accounts both withdrawals name are the payer's counter, with a count that has a successor, the
      record under that count, which is not in use, and the config. */
  predicate NamesItsAccounts(a: Accounts, payer: Pubkey, counter: Key, record: Key, config: Key) {
    var count := Get(a, CounterKey(payer)).data;
    && counter == CounterKey(payer) && |count| == 8 && FromLE(count) + 1 < TWO64
    && record == RecordKey(payer, FromLE(count)) && IsFree(a, record)
    && config == ConfigKey && |Get(a, ConfigKey).data| == 40
  }

  /** An ETH withdrawal goes through exactly if it names its accounts, is signed, has gas, a value of 1 to
      2^64 - 1, calldata of the record's size, and a payer with the value and the record's rent. */
  predicate EthGoesThrough(a: Accounts, i: Instruction, env: Env)
    requires i.WithdrawEth?
  {
    && i.gasLimit >= 500_000 && i.signed && 0 < i.value < TWO64 && i.vault == VaultKey
    && NamesItsAccounts(a, i.payer, i.counter, i.record, i.config)
    && CanPay(a, Wallet(i.payer), i.value + RentDue(a, env.rent, i.record, 148 + 420))
    && Get(a, VaultKey).lamports + i.value < TWO64
    && |EthWithdrawal(a, env, i, FromLE(Get(a, i.counter).data)).calldata| == 420
  }

  /** The parts of the state that a withdrawal cannot do without. */
  lemma EthNeeds(s: State, i: Instruction, env: Env)
    requires i.WithdrawEth? && Process(s, i, env).Some?
    ensures NextCount(s.accounts, i.payer).Some? && i.value < TWO64 && |Get(s.accounts, ConfigKey).data| == 40
    ensures Transfer(NextCount(s.accounts, i.payer).value.0, Wallet(i.payer), VaultKey, i.value).Some?
  {
    var (a, n) := NextCount(s.accounts, i.payer).value;
    AfterPaying(s.accounts, a, Transfer(a, Wallet(i.payer), VaultKey, i.value).value, i, n);
  }

  lemma WithdrawEthExactly(s: State, i: Instruction, env: Env)
    requires i.WithdrawEth?
    ensures Process(s, i, env).Some? <==> EthGoesThrough(s.accounts, i, env)
  {
    CountExactly(s.accounts, i.payer);
    if Process(s, i, env).Some? { EthNeeds(s, i, env); }
    if NextCount(s.accounts, i.payer).Some? && i.value < TWO64 && |Get(s.accounts, ConfigKey).data| == 40 {
      var (a, n) := NextCount(s.accounts, i.payer).value;
      TransferExactly(a, Wallet(i.payer), VaultKey, i.value);
      if Transfer(a, Wallet(i.payer), VaultKey, i.value).Some? {
        var b := Transfer(a, Wallet(i.payer), VaultKey, i.value).value;
        AfterPaying(s.accounts, a, b, i, n);
        PaidAndStored(s, a, b, i, env, n);
      }
    }
  }

  /** The counter of a user is good for a withdrawal. */
  lemma CountExactly(a: Accounts, payer: Pubkey)
    ensures var count := Get(a, CounterKey(payer)).data;
            && (NextCount(a, payer).Some? <==> |count| == 8 && FromLE(count) + 1 < TWO64)
            && (NextCount(a, payer).Some? ==>
                  && NextCount(a, payer).value.1 == FromLE(count)
                  && forall k :: k != CounterKey(payer) ==> Get(NextCount(a, payer).value.0, k) == Get(a, k))
  {
    Widths();
  }

  /** After the payment: what is left to ask for is the record. */
  lemma PaidAndStored(s: State, a: Accounts, b: Accounts, i: Instruction, env: Env, n: u64)
    requires i.WithdrawEth? && i.value < TWO64 && |Get(s.accounts, ConfigKey).data| == 40
    requires NextCount(s.accounts, i.payer) == Some((a, n))
    requires Transfer(a, Wallet(i.payer), VaultKey, i.value) == Some(b)
    requires Get(b, ConfigKey).data == Get(s.accounts, ConfigKey).data
    requires Get(b, RecordKey(i.payer, n)) == Get(s.accounts, RecordKey(i.payer, n))
    requires var from := Get(s.accounts, Wallet(i.payer));
             from.lamports >= i.value && Get(b, Wallet(i.payer)) == from.(lamports := from.lamports - i.value)
    ensures var w := EthWithdrawal(s.accounts, env, i, n);
            var k := RecordKey(i.payer, n);
            var due := RentDue(s.accounts, env.rent, k, 148 + |w.calldata|);
            Process(s, i, env).Some? <==>
              && i.gasLimit >= 500_000 && i.signed && 0 < i.value && i.vault == VaultKey
              && i.config == ConfigKey && i.counter == CounterKey(i.payer) && i.record == k
              && |w.calldata| == 420 && IsFree(s.accounts, k)
              && (due > 0 ==> CanPay(b, Wallet(i.payer), due))
  {
    var config := Get(s.accounts, ConfigKey).data;
    assert config[20..40] == config[20..];
    var w := EthWithdrawal(s.accounts, env, i, n);
    assert w == EthRecord(env, ConfigOf(b).value, i.payer, i.target, i.value, i.gasLimit, n);
    StoreExactly(b, env, i.payer, n, w);
  }

  /** What the payment leaves for the rest of the instruction. */
  lemma AfterPaying(s: Accounts, a: Accounts, b: Accounts, i: Instruction, n: u64)
    requires i.WithdrawEth? && i.value < TWO64 && NextCount(s, i.payer) == Some((a, n))
    requires Transfer(a, Wallet(i.payer), VaultKey, i.value) == Some(b)
    ensures Get(b, ConfigKey).data == Get(s, ConfigKey).data
    ensures Get(b, RecordKey(i.payer, n)) == Get(s, RecordKey(i.payer, n))
    ensures var from := Wallet(i.payer);
            Get(b, from) == Get(s, from).(lamports := Get(s, from).lamports - i.value)
  {
  }

  lemma StoreExactly(a: Accounts, env: Env, payer: Pubkey, n: u64, w: Withdrawal)
    ensures StoreRecord(a, env, payer, n, w).Some? <==>
              var k := RecordKey(payer, n);
              var due := RentDue(a, env.rent, k, 148 + |w.calldata|);
              IsFree(a, k) && (due > 0 ==> CanPay(a, Wallet(payer), due))
  {
    CreateExactly(a, env.rent, Wallet(payer), RecordKey(payer, n), 148 + |w.calldata|, BridgeProgram);
  }

  /** An SPL withdrawal goes through exactly if it names its accounts and a token the bridge knows, is signed,
      has gas, burns 1 to 2^64 - 1 units that the holder has, and its payer has the record's rent. */
  predicate SplGoesThrough(s: State, i: Instruction, env: Env)
    requires i.WithdrawSpl?
  {
    && i.gasLimit >= 500_000 && i.signed && i.mint == MintKey(i.token) && i.token in s.mints
    && NamesItsAccounts(s.accounts, i.payer, i.counter, i.record, i.config)
    && var m := s.mints[i.token];
    && var units := RemoveDust(i.amount, m.decimals, SPL_SHARE_DECIMAL);
    && 0 < units < TWO64 && units <= m.supply
    && (i.payer, i.token) in s.balances && units <= s.balances[(i.payer, i.token)]
    && var due := RentDue(s.accounts, env.rent, i.record, 148 + 484);
    && (due > 0 ==> CanPay(s.accounts, Wallet(i.payer), due))
    && |SplWithdrawal(s.accounts, env, i, FromLE(Get(s.accounts, i.counter).data), SharesOf(s, i)).calldata| == 484
  }

  lemma WithdrawSplExactly(s: State, i: Instruction, env: Env)
    requires i.WithdrawSpl?
    ensures Process(s, i, env).Some? <==> SplGoesThrough(s, i, env)
  {
    CountExactly(s.accounts, i.payer);
    if NextCount(s.accounts, i.payer).Some? && i.token in s.mints && |Get(s.accounts, ConfigKey).data| == 40 {
      var (a, n) := NextCount(s.accounts, i.payer).value;
      var config := Get(s.accounts, ConfigKey).data;
      assert config[20..40] == config[20..];
      var w := SplWithdrawal(s.accounts, env, i, n, SharesOf(s, i));
      assert w == SplRecord(env, ConfigOf(a).value, i.token, i.payer, i.receiver, SharesOf(s, i), i.gasLimit, n);
      StoreExactly(a, env, i.payer, n, w);
    }
  }

  // ---- The other instructions ----------------------------------------------

  /** An ETH deposit goes through exactly if the caller is the deposit payer, the accounts are the vault and
      the recipient named, the value is above the rent of an empty account and the vault can pay it. */
  lemma DepositEthExactly(s: State, i: Instruction, env: Env)
    requires i.DepositEth?
    ensures Process(s, i, env).Some? <==>
              && i.authorized && i.vault == VaultKey && i.depositor == i.recipient
              && env.rent(0) < i.value < TWO64 && CanPay(s.accounts, VaultKey, i.value)
              && (i.recipient == VaultKey || Get(s.accounts, i.recipient).lamports + i.value < TWO64)
  {
    if i.value < TWO64 { TransferExactly(s.accounts, VaultKey, i.recipient, i.value); }
  }

  /** A token deposit goes through exactly if the token is known, its units and the new supply fit 64 bits, and
      the holder's token account is there, or free and the vault can pay what it lacks in rent. */
  lemma DepositErc20Exactly(s: State, i: Instruction, env: Env)
    requires i.DepositErc20?
    ensures Process(s, i, env).Some? <==>
              && i.authorized && i.vault == VaultKey && i.mint == MintKey(i.token) && i.token in s.mints
              && var holder := TokenAccountKey(i.to, i.token);
              && var due := RentDue(s.accounts, env.rent, holder, 165);
              && (|| Get(s.accounts, holder).owner == TokenProgram
                  || (IsFree(s.accounts, holder) && (due > 0 ==> CanPay(s.accounts, VaultKey, due))))
              && var m := s.mints[i.token];
              && m.supply + ConvertDecimal(i.amount, SPL_SHARE_DECIMAL, m.decimals) < TWO64
  {
    CreateExactly(s.accounts, env.rent, VaultKey, TokenAccountKey(i.to, i.token), 165, TokenProgram);
  }

  lemma CreateSplExactly(s: State, i: Instruction, env: Env)
    requires i.CreateSpl?
    ensures Process(s, i, env).Some? <==>
              && i.authorized && i.vault == VaultKey && i.mint == MintKey(i.token) && i.decimals <= 9
              && IsFree(s.accounts, MintKey(i.token))
              && var due := RentDue(s.accounts, env.rent, MintKey(i.token), 82);
              && (due > 0 ==> CanPay(s.accounts, VaultKey, due))
  {
    CreateExactly(s.accounts, env.rent, VaultKey, MintKey(i.token), 82, TokenProgram);
  }

  lemma CreateUserCounterExactly(s: State, i: Instruction, env: Env)
    requires i.CreateUserCounter?
    ensures Process(s, i, env).Some? <==>
              && i.counter == CounterKey(i.payer) && IsFree(s.accounts, i.counter)
              && var due := RentDue(s.accounts, env.rent, i.counter, 8);
              && (due > 0 ==> CanPay(s.accounts, Wallet(i.payer), due))
  {
    CreateExactly(s.accounts, env.rent, Wallet(i.payer), i.counter, 8, BridgeProgram);
  }

  /** A counter account starts at 0 and belongs to the program. */
  lemma CreateUserCounterEffect(s: State, i: Instruction, env: Env)
    requires i.CreateUserCounter? && Process(s, i, env).Some?
    ensures var c := Get(Process(s, i, env).value.accounts, i.counter);
            c.owner == BridgeProgram && UnpackedCounter(c.data) == Some(0)
  {
    CounterRoundTrip(0);
    CreateFrame(s.accounts, env.rent, Wallet(i.payer), i.counter, 8, BridgeProgram);
  }

  /** Nothing but the accounts and the books named changes hands. */
  lemma DepositErc20Effect(s: State, i: Instruction, env: Env)
    requires i.DepositErc20? && Process(s, i, env).Some?
    ensures var t := Process(s, i, env).value;
            var m := s.mints[i.token];
            var units := ConvertDecimal(i.amount, SPL_SHARE_DECIMAL, m.decimals);
            && t.mints == s.mints[i.token := Mint(m.decimals, m.supply + units)]
            && t.balances == s.balances[(i.to, i.token) := At(s.balances, (i.to, i.token)) + units]
  {
  }

  /** What the system and token programs do with the same accounts. */
  lemma OthersExactly(s: State, i: Instruction, env: Env)
    ensures i.SystemTransfer? ==>
              (Process(s, i, env).Some? <==>
                 && CanPay(s.accounts, Wallet(i.source), i.lamports)
                 && (i.dest == Wallet(i.source) || Get(s.accounts, i.dest).lamports + i.lamports < TWO64))
    ensures i.TokenTransfer? ==> (Process(s, i, env).Some? <==> i.units <= At(s.balances, (i.sender, i.token)))
    ensures i.TokenBurn? ==>
              (Process(s, i, env).Some? <==>
                 && i.token in s.mints && i.units <= s.mints[i.token].supply
                 && i.units <= At(s.balances, (i.holder, i.token)))
  {
    if i.SystemTransfer? { TransferExactly(s.accounts, Wallet(i.source), i.dest, i.lamports); }
  }
}
