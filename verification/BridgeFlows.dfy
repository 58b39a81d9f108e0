/** Where the money is: the lamports of the bridge vault and the token balances, over every run. */
module BridgeFlows {
  import opened Bytes
  import opened Blocks
  import opened BridgeRecords
  import opened Bridge
  import opened BridgeLedger
  import opened Sums

  // ---- The vault -----------------------------------------------------------

  /** Lamports that went into and out of the vault. */
  datatype Flow = Flow(withdrawn: nat, given: nat, deposited: nat, rent: nat)

  function TopUp(a: Accounts, rent: nat -> u64, target: Key, len: nat): nat {
    if rent(len) > Get(a, target).lamports then rent(len) - Get(a, target).lamports else 0
  }

  /** What one instruction moves: ETH withdrawals and gifts in; ETH deposits, and the rent of mints and
      token accounts, out. A deposit to the vault itself moves nothing. */
  function FlowOf(s: State, i: Instruction, env: Env): Flow {
    if Process(s, i, env).None? then Flow(0, 0, 0, 0)
    else
      match i
      case WithdrawEth(_, _, _, _, _, _, _, value, _) => Flow(value, 0, 0, 0)
      case SystemTransfer(_, dest, lamports) => Flow(0, if dest == VaultKey then lamports else 0, 0, 0)
      case DepositEth(_, _, _, to, value) => Flow(0, 0, if to == VaultKey then 0 else value, 0)
      case CreateSpl(_, _, _, token, _) => Flow(0, 0, 0, TopUp(s.accounts, env.rent, MintKey(token), 82))
      case DepositErc20(_, _, _, token, to, _) =>
        var holder := TokenAccountKey(to, token);
        var there := Get(s.accounts, holder).owner == TokenProgram;
        Flow(0, 0, 0, if there then 0 else TopUp(s.accounts, env.rent, holder, 165))
      case _ => Flow(0, 0, 0, 0)
  }

  function Plus(f: Flow, g: Flow): Flow {
    Flow(f.withdrawn + g.withdrawn, f.given + g.given, f.deposited + g.deposited, f.rent + g.rent)
  }

  function RunFlow(s: State, run: seq<Instruction>, env: Env): Flow {
    if run == [] then Flow(0, 0, 0, 0)
    else
      var n := |run| - 1;
      Plus(RunFlow(s, run[..n], env), FlowOf(Run(s, run[..n], env), run[n], env))
  }

  lemma TransferMoves(a: Accounts, from: Key, to: Key, amount: u64, k: Key)
    requires Transfer(a, from, to, amount).Some?
    ensures var b := Transfer(a, from, to, amount).value;
            Get(b, k).lamports == Get(a, k).lamports
                                  + (if k == to then amount else 0) - (if k == from then amount else 0)
  {
  }

  lemma CreateMoves(a: Accounts, rent: nat -> u64, payer: Key, target: Key, len: nat, owner: Owner, k: Key)
    requires CreateAccount(a, rent, payer, target, len, owner).Some?
    ensures var b := CreateAccount(a, rent, payer, target, len, owner).value;
            Get(b, k).lamports == Get(a, k).lamports
                                  + (if k == target then TopUp(a, rent, target, len) else 0)
                                  - (if k == payer then TopUp(a, rent, target, len) else 0)
  {
    var required := TopUp(a, rent, target, len);
    if required > 0 { TransferMoves(a, payer, target, required, k); }
  }

  lemma StoreMoves(a: Accounts, env: Env, payer: Pubkey, n: u64, w: Withdrawal, k: Key)
    requires StoreRecord(a, env, payer, n, w).Some?
    ensures var b := StoreRecord(a, env, payer, n, w).value;
            var rent := TopUp(a, env.rent, RecordKey(payer, n), RECORD_HEADER_LEN + |w.calldata|);
            Get(b, k).lamports == Get(a, k).lamports
                                  + (if k == RecordKey(payer, n) then rent else 0)
                                  - (if k == Wallet(payer) then rent else 0)
  {
    CreateMoves(a, env.rent, Wallet(payer), RecordKey(payer, n), RECORD_HEADER_LEN + |w.calldata|, BridgeProgram, k);
  }

  /** An ETH withdrawal moves its value from the payer to the vault, and the record's rent from the payer
      to the record; no other account gains or loses. */
  lemma WithdrawEthMoves(s: State, i: Instruction, env: Env, k: Key)
    requires i.WithdrawEth? && DoWithdrawEth(s, i, env).Some?
    ensures NextCount(s.accounts, i.payer).Some?
    ensures var n := NextCount(s.accounts, i.payer).value.1;
            var rent := TopUp(s.accounts, env.rent, RecordKey(i.payer, n), RECORD_HEADER_LEN + ETH_CALLDATA_LEN);
            Get(DoWithdrawEth(s, i, env).value.accounts, k).lamports
            == Get(s.accounts, k).lamports
               + (if k == VaultKey then i.value else 0) + (if k == RecordKey(i.payer, n) then rent else 0)
               - (if k == Wallet(i.payer) then i.value + rent else 0)
  {
    var (a, n) := NextCount(s.accounts, i.payer).value;
    var b := Transfer(a, Wallet(i.payer), VaultKey, i.value).value;
    TransferMoves(a, Wallet(i.payer), VaultKey, i.value, k);
    TransferMoves(a, Wallet(i.payer), VaultKey, i.value, RecordKey(i.payer, n));
    var w := EthRecord(env, ConfigOf(b).value, i.payer, i.target, i.value, i.gasLimit, n);
    StoreMoves(b, env, i.payer, n, w, k);
  }

  lemma WithdrawSplMoves(s: State, i: Instruction, env: Env, k: Key)
    requires i.WithdrawSpl? && DoWithdrawSpl(s, i, env).Some? && k == VaultKey
    ensures Get(DoWithdrawSpl(s, i, env).value.accounts, k).lamports == Get(s.accounts, k).lamports
  {
    var (a, n) := NextCount(s.accounts, i.payer).value;
    var d := s.mints[i.token].decimals;
    var shares := ConvertDecimal(RemoveDust(i.amount, d, SPL_SHARE_DECIMAL), d, SPL_SHARE_DECIMAL);
    var w := SplRecord(env, ConfigOf(a).value, i.token, i.payer, i.receiver, shares, i.gasLimit, n);
    StoreMoves(a, env, i.payer, n, w, k);
  }

  /** An ETH deposit moves its value from the vault to the recipient, whichever account that is, and
      nothing else; nothing at all if it is the vault. */
  lemma DepositEthMoves(s: State, i: Instruction, env: Env, k: Key)
    requires i.DepositEth? && DoDepositEth(s, i, env).Some?
    ensures Get(DoDepositEth(s, i, env).value.accounts, k).lamports
            == Get(s.accounts, k).lamports
              + (if k == i.recipient then i.value else 0) - (if k == VaultKey then i.value else 0)
  {
    TransferMoves(s.accounts, VaultKey, i.recipient, i.value, k);
  }

  lemma VaultStep(s: State, i: Instruction, env: Env)
    ensures var f := FlowOf(s, i, env);
            Get(Apply(s, i, env).accounts, VaultKey).lamports + f.deposited + f.rent
            == Get(s.accounts, VaultKey).lamports + f.withdrawn + f.given
  {
    if Process(s, i, env).Some? {
      match i
      case CreateUserCounter(payer, counter) =>
        CreateMoves(s.accounts, env.rent, Wallet(payer), counter, 8, BridgeProgram, VaultKey);
      case WithdrawEth(_, _, _, _, _, _, _, _, _) => WithdrawEthMoves(s, i, env, VaultKey);
      case WithdrawSpl(_, _, _, _, _, _, _, _, _, _) => WithdrawSplMoves(s, i, env, VaultKey);
      case DepositEth(_, _, _, _, _) => DepositEthMoves(s, i, env, VaultKey);
      case DepositErc20(_, _, _, token, to, _) =>
        if Get(s.accounts, TokenAccountKey(to, token)).owner != TokenProgram {
          CreateMoves(s.accounts, env.rent, VaultKey, TokenAccountKey(to, token), 165, TokenProgram, VaultKey);
        }
      case CreateSpl(_, _, _, token, _) =>
        CreateMoves(s.accounts, env.rent, VaultKey, MintKey(token), 82, TokenProgram, VaultKey);
      case SystemTransfer(source, dest, lamports) =>
        TransferMoves(s.accounts, Wallet(source), dest, lamports, VaultKey);
      case _ =>
    }
  }

  /** Over every run, the vault holds what it held at first, plus the ETH withdrawn into it and given to it,
      less the ETH deposited out of it and the rent it paid. */
  lemma {:induction false} VaultAccount(s: State, run: seq<Instruction>, env: Env)
    ensures var f := RunFlow(s, run, env);
            Get(Run(s, run, env).accounts, VaultKey).lamports + f.deposited + f.rent
            == Get(s.accounts, VaultKey).lamports + f.withdrawn + f.given
  {
    if run != [] {
      var n := |run| - 1;
      VaultAccount(s, run[..n], env);
      VaultStep(Run(s, run[..n], env), run[n], env);
    }
  }

  // ---- The vault and the stored records ------------------------------------

  /** The value in an ETH withdrawal record; data of another length holds none. */
  function EthValue(data: bytes): nat {
    match Unpacked(data, ETH_CALLDATA_LEN)
    case Some(w) => w.value
    case None => 0
  }

  ghost function EthValues(a: Accounts): map<Key, nat> {
    map k | k in a && k.RecordKey? && a[k].owner == BridgeProgram :: EthValue(a[k].data)
  }

  /** The values of all stored ETH records. */
  ghost function StoredEth(a: Accounts): nat {
    Sum(EthValues(a), EthValues(a).Keys)
  }

  lemma SumInsert<K(!new)>(m: map<K, nat>, k: K, v: nat)
    requires k !in m
    ensures Sum(m[k := v], m[k := v].Keys) == Sum(m, m.Keys) + v
  {
    var c := m[k := v];
    SumPick(c, c.Keys, k);
    assert c.Keys - {k} == m.Keys;
    SumSame(m, c, m.Keys);
  }

  lemma RecordAdds(a: Accounts, b: Accounts, u: Pubkey, n: u64, w: Withdrawal)
    requires Withdrawn(a, b, u, n, w) && RecordsOf(a, u)
    ensures StoredEth(b) == StoredEth(a) + (if |w.calldata| == ETH_CALLDATA_LEN then w.value else 0)
  {
    var k := RecordKey(u, n);
    var v := if |w.calldata| == ETH_CALLDATA_LEN then w.value else 0;
    WithdrawnCount(a, b, u, n, w);
    assert Unused(a, u, n);
    RecordRoundTrip(w);
    assert EthValue(Get(b, k).data) == v;
    ValuesAfter(a, b, k, v);
    SumInsert(EthValues(a), k, v);
  }

  lemma ValuesAfter(a: Accounts, b: Accounts, k: Key, v: nat)
    requires k.RecordKey? && Get(a, k).owner != BridgeProgram && Get(b, k).owner == BridgeProgram
    requires EthValue(Get(b, k).data) == v && forall x: Key :: x.RecordKey? && x != k ==> SameBody(a, b, x)
    ensures k !in EthValues(a) && EthValues(b) == EthValues(a)[k := v]
  {
  }

  lemma CreatedAddsNone(a: Accounts, b: Accounts, x: Key)
    requires CreatesOnly(a, b, x) && !x.RecordKey?
    ensures StoredEth(b) == StoredEth(a)
  {
    forall k: Key | k.RecordKey? ensures k in EthValues(a) <==> k in EthValues(b)
      ensures k in EthValues(a) ==> EthValues(a)[k] == EthValues(b)[k]
    {
      assert SameBody(a, b, k);
    }
    assert EthValues(b) == EthValues(a);
  }

  lemma StoredStep(s: State, i: Instruction, env: Env)
    requires AllRecords(s.accounts)
    ensures StoredEth(Apply(s, i, env).accounts) == StoredEth(s.accounts) + FlowOf(s, i, env).withdrawn
  {
    var a, b := s.accounts, Apply(s, i, env).accounts;
    if Process(s, i, env).Some? {
      if i.WithdrawEth? {
        WithdrawEthEffect(s, i, env);
        var n := FromLE(Get(a, CounterKey(i.payer)).data);
        RecordAdds(a, b, i.payer, n, EthWithdrawal(a, env, i, n));
      } else if i.WithdrawSpl? {
        WithdrawSplEffect(s, i, env);
        var n := FromLE(Get(a, CounterKey(i.payer)).data);
        RecordAdds(a, b, i.payer, n, SplWithdrawal(a, env, i, n, SharesOf(s, i)));
      } else {
        var x := OthersCreateOnly(s, i, env);
        CreatedAddsNone(a, b, x);
      }
    }
  }

  /** Over every run from a fresh state, the values of the ETH records stored add up to the lamports
      withdrawn into the vault; so the vault holds what it held at first, plus what the records say and
      what it was given, less what was deposited and the rent it paid. */
  lemma {:induction false} RecordsBackTheVault(s: State, run: seq<Instruction>, env: Env)
    requires Fresh(s)
    ensures StoredEth(Run(s, run, env).accounts) == RunFlow(s, run, env).withdrawn
    ensures var f := RunFlow(s, run, env);
            Get(Run(s, run, env).accounts, VaultKey).lamports + f.deposited + f.rent
            == Get(s.accounts, VaultKey).lamports + StoredEth(Run(s, run, env).accounts) + f.given
  {
    if run == [] {
      assert EthValues(s.accounts) == map[];
    } else {
      var n := |run| - 1;
      RecordsBackTheVault(s, run[..n], env);
      Reachable(s, run[..n], env);
      StoredStep(Run(s, run[..n], env), run[n], env);
    }
    VaultAccount(s, run, env);
  }

  // ---- Token balances ------------------------------------------------------

  type Balances = map<(Pubkey, Address), nat>

  ghost function Holders(b: Balances, t: Address): set<(Pubkey, Address)> {
    set k | k in b && k.1 == t
  }

  /** All the units of a token that somebody holds. */
  ghost function Held(b: Balances, t: Address): nat {
    Sum(b, Holders(b, t))
  }

  lemma HeldUpdate(b: Balances, u: Pubkey, t: Address, v: nat)
    ensures Held(b[(u, t) := v], t) + At(b, (u, t)) == Held(b, t) + v
  {
    var k, c, old' := (u, t), b[(u, t) := v], Holders(b, t);
    assert Holders(c, t) == old' + {k};
    SumPick(c, old' + {k}, k);
    assert (old' + {k}) - {k} == old' - {k};
    SumSame(b, c, old' - {k});
    if k in old' {
      SumPick(b, old', k);
    } else {
      assert old' - {k} == old';
    }
  }

  lemma HeldFrame(b: Balances, u: Pubkey, t: Address, v: nat, x: Address)
    requires x != t
    ensures Held(b[(u, t) := v], x) == Held(b, x)
  {
    var c := b[(u, t) := v];
    assert Holders(c, x) == Holders(b, x);
    SumSame(b, c, Holders(b, x));
  }

  /** One holder is part of all holders. */
  lemma HeldAtLeast(b: Balances, u: Pubkey, t: Address)
    ensures At(b, (u, t)) <= Held(b, t)
  {
    if (u, t) in b { SumPick(b, Holders(b, t), (u, t)); }
  }

  function Supply(s: State, t: Address): nat {
    if t in s.mints then s.mints[t].supply else 0
  }

  /** Every unit in circulation is in somebody's balance, and nobody holds a unit that is not. */
  ghost predicate AllHeld(s: State) {
    forall t :: Held(s.balances, t) == Supply(s, t)
  }

  /** One balance and one supply change by the same amount. */
  lemma HeldStep(s: State, r: State, u: Pubkey, t: Address)
    requires AllHeld(s) && t in s.mints && t in r.mints
    requires r.mints == s.mints[t := r.mints[t]] && r.balances == s.balances[(u, t) := At(r.balances, (u, t))]
    requires At(r.balances, (u, t)) + Supply(s, t) == At(s.balances, (u, t)) + Supply(r, t)
    ensures AllHeld(r)
  {
    forall x ensures Held(r.balances, x) == Supply(r, x) {
      if x == t {
        HeldUpdate(s.balances, u, t, At(r.balances, (u, t)));
      } else {
        HeldFrame(s.balances, u, t, At(r.balances, (u, t)), x);
        assert Supply(r, x) == Supply(s, x);
      }
    }
  }

  lemma TransferHeld(b: Balances, from: Pubkey, to: Pubkey, t: Address, units: nat, x: Address)
    requires units <= At(b, (from, t))
    ensures var c := b[(from, t) := At(b, (from, t)) - units];
            Held(c[(to, t) := At(c, (to, t)) + units], x) == Held(b, x)
  {
    var c := b[(from, t) := At(b, (from, t)) - units];
    if x == t {
      HeldUpdate(b, from, t, At(b, (from, t)) - units);
      HeldUpdate(c, to, t, At(c, (to, t)) + units);
    } else {
      HeldFrame(b, from, t, At(b, (from, t)) - units, x);
      HeldFrame(c, to, t, At(c, (to, t)) + units, x);
    }
  }

  /** A deposit credits the depositor, and only the depositor, with the units it mints. */
  lemma DepositErc20Credits(s: State, i: Instruction, env: Env)
    requires i.DepositErc20? && DoDepositErc20(s, i, env).Some?
    ensures i.token in s.mints
    ensures var r := DoDepositErc20(s, i, env).value;
            var units := ConvertDecimal(i.amount, SPL_SHARE_DECIMAL, s.mints[i.token].decimals);
            && r.balances == s.balances[(i.to, i.token) := At(s.balances, (i.to, i.token)) + units]
            && Supply(r, i.token) == Supply(s, i.token) + units
  {
  }

  /** A withdrawal takes the units it burns from the payer, and only from the payer. */
  lemma WithdrawSplDebits(s: State, i: Instruction, env: Env)
    requires i.WithdrawSpl? && DoWithdrawSpl(s, i, env).Some?
    ensures i.token in s.mints
    ensures var r := DoWithdrawSpl(s, i, env).value;
            var units := RemoveDust(i.amount, s.mints[i.token].decimals, SPL_SHARE_DECIMAL);
            && 0 < units <= At(s.balances, (i.payer, i.token))
            && r.balances == s.balances[(i.payer, i.token) := At(s.balances, (i.payer, i.token)) - units]
            && Supply(r, i.token) == Supply(s, i.token) - units
  {
  }

  lemma CreateSplHeld(s: State, i: Instruction, env: Env)
    requires AllHeld(s) && MintsInUse(s) && i.CreateSpl? && DoCreateSpl(s, i, env).Some?
    ensures AllHeld(DoCreateSpl(s, i, env).value)
  {
    CreateSplTokens(s, i, env);
    var r := DoCreateSpl(s, i, env).value;
    forall x ensures Held(r.balances, x) == Supply(r, x) {
      assert Supply(r, x) == Supply(s, x);
    }
  }

  lemma TokenTransferHeld(s: State, i: Instruction, env: Env)
    requires AllHeld(s) && i.TokenTransfer? && Process(s, i, env).Some?
    ensures AllHeld(Process(s, i, env).value)
  {
    var r := Process(s, i, env).value;
    forall x ensures Held(r.balances, x) == Supply(r, x) {
      TransferHeld(s.balances, i.sender, i.heir, i.token, i.units, x);
      assert Supply(r, x) == Supply(s, x);
    }
  }

  lemma OthersHeld(s: State, i: Instruction, env: Env)
    requires AllHeld(s) && Process(s, i, env).Some?
    requires !i.WithdrawSpl? && !i.DepositErc20? && !i.CreateSpl? && !i.TokenBurn? && !i.TokenTransfer?
    ensures AllHeld(Process(s, i, env).value)
  {
    var r := Process(s, i, env).value;
    OthersLeaveTokens(s, i, env);
    assert r.balances == s.balances;
    forall x ensures Held(r.balances, x) == Supply(r, x) { assert Supply(r, x) == Supply(s, x); }
  }

  lemma AllHeldStep(s: State, i: Instruction, env: Env)
    requires AllHeld(s) && MintsInUse(s)
    ensures AllHeld(Apply(s, i, env))
  {
    if Process(s, i, env).Some? {
      var r := Process(s, i, env).value;
      match i
      case WithdrawSpl(payer, _, _, _, _, _, token, _, _, _) =>
        WithdrawSplDebits(s, i, env);
        HeldStep(s, r, payer, token);
      case DepositErc20(_, _, _, token, to, _) =>
        DepositErc20Credits(s, i, env);
        HeldStep(s, r, to, token);
      case TokenBurn(holder, token, _) => HeldStep(s, r, holder, token);
      case CreateSpl(_, _, _, _, _) => CreateSplHeld(s, i, env);
      case TokenTransfer(_, _, _, _) => TokenTransferHeld(s, i, env);
      case _ => OthersHeld(s, i, env);
    }
  }

  /** In every reachable state the supply of each token is exactly what its holders have. */
  lemma {:induction false} SupplyIsHeld(s: State, run: seq<Instruction>, env: Env)
    requires Fresh(s)
    ensures AllHeld(Run(s, run, env))
  {
    if run == [] {
      forall t ensures Held(s.balances, t) == 0 { assert Holders(s.balances, t) == {}; }
    } else {
      var n := |run| - 1;
      SupplyIsHeld(s, run[..n], env);
      Reachable(s, run[..n], env);
      AllHeldStep(Run(s, run[..n], env), run[n], env);
    }
  }

  /** So nobody can withdraw more than the deposits of that token back: a holder's balance at the share
      decimals, with everything withdrawn before, is covered by the shares deposited. */
  lemma HoldersAreCovered(s: State, run: seq<Instruction>, env: Env, u: Pubkey, t: Address)
    requires Fresh(s) && t in Run(s, run, env).mints
    ensures var r := Run(s, run, env);
            var m, k := r.mints[t], BooksOf(r, t);
            && m.decimals <= SPL_SHARE_DECIMAL
            && ConvertDecimal(At(r.balances, (u, t)), m.decimals, SPL_SHARE_DECIMAL) + k.withdrawn <= k.deposited
  {
    var r := Run(s, run, env);
    var m := r.mints[t];
    Solvent(s, run, env, t);
    SupplyIsHeld(s, run, env);
    assert Held(r.balances, t) == Supply(r, t) == m.supply;
    HeldAtLeast(r.balances, u, t);
    CoveredPart(m, BooksOf(r, t), At(r.balances, (u, t)));
  }

  lemma CoveredPart(m: Mint, k: Books, units: nat)
    requires m.decimals <= SPL_SHARE_DECIMAL && k.withdrawn + m.supply * Rate(m) <= k.deposited && units <= m.supply
    ensures ConvertDecimal(units, m.decimals, SPL_SHARE_DECIMAL) + k.withdrawn <= k.deposited
  {
    assert ConvertDecimal(units, m.decimals, SPL_SHARE_DECIMAL) == units * Rate(m);
    assert units * Rate(m) <= m.supply * Rate(m);
  }
}
