/** The bridge program as a transition system: `crates/programs/bridge-program/src/processor.rs`
    and `utils.rs`. A failing instruction leaves the state unchanged, as the runtime does. */
module Bridge {
  import opened Bytes
  import opened Blocks
  import opened BridgeRecords
  import opened Sums

  const SPL_SHARE_DECIMAL := 9
  const MAX_TOKEN_DECIMAL := 9
  const MINIMAL_GAS_LIMIT := 500_000

  // ---- Accounts ------------------------------------------------------------

  /** Account addresses. Program-derived addresses are kept apart by what they are derived from;
      `SeedsApart` shows that their seeds are. */
  datatype Key =
    | Wallet(pubkey: Pubkey)
    | VaultKey
    | ConfigKey
    | CounterKey(user: Pubkey)
    | RecordKey(user: Pubkey, nonce: u64)
    | MintKey(token: Address)
    | SplOwnerKey(token: Address)
    | BridgeOwnerKey
    | TokenAccountKey(holder: Pubkey, mint: Address)

  datatype Owner = System | BridgeProgram | TokenProgram

  datatype Account = Account(lamports: u64, owner: Owner, data: bytes)

  type Accounts = map<Key, Account>

  function Get(a: Accounts, k: Key): Account {
    if k in a then a[k] else Account(0, System, [])
  }

  /** System program transfer: only from a system account without data. */
  function Transfer(a: Accounts, from: Key, to: Key, amount: u64): Option<Accounts> {
    var f, t := Get(a, from), Get(a, to);
    if f.owner != System || f.data != [] || f.lamports < amount then None
    else if from == to then Some(a)
    else if t.lamports + amount >= TWO64 then None
    else Some(a[from := f.(lamports := f.lamports - amount)][to := t.(lamports := t.lamports + amount)])
  }

  /** `create_account`: top up to the rent, allocate, assign. Allocation fails on an account that is
      in use, so no account is ever created twice. */
  function CreateAccount(a: Accounts, rent: nat -> u64, payer: Key, target: Key, len: nat,
                         owner: Owner): Option<Accounts>
  {
    var required := if rent(len) > Get(a, target).lamports then rent(len) - Get(a, target).lamports else 0;
    var paid := if required > 0 then Transfer(a, payer, target, required) else Some(a);
    if paid.None? then None
    else
      var t := Get(paid.value, target);
      if t.data != [] || t.owner != System then None
      else Some(paid.value[target := Account(t.lamports, owner, Zeros(len))])
  }

  // ---- Decimals ------------------------------------------------------------

  function Pow10(n: nat): (r: nat)
    ensures r > 0
  {
    if n == 0 then 1 else 10 * Pow10(n - 1)
  }

  function Times(a: nat, b: nat): (r: nat)
    ensures r == a * b
  {
    a * b
  }

  function Quotient(a: nat, b: nat): nat
    requires b > 0
  {
    a / b
  }

  function RemoveDust(amount: nat, from: nat, to: nat): nat {
    if from <= to then amount else Times(Quotient(amount, Pow10(from - to)), Pow10(from - to))
  }

  function ConvertDecimal(amount: nat, from: nat, to: nat): nat {
    if from > to then Quotient(amount, Pow10(from - to)) else Times(amount, Pow10(to - from))
  }

  /** What converting shares to a token's decimals truncates. */
  function Dust(shares: nat, decimals: nat): nat {
    if decimals < SPL_SHARE_DECIMAL then shares % Pow10(SPL_SHARE_DECIMAL - decimals) else 0
  }

  // ---- State ---------------------------------------------------------------

  datatype Mint = Mint(decimals: nat, supply: u64)

  /** History of one token that no instruction reads: shares deposited and withdrawn, shares lost to
      truncation, and token units burned outside the bridge. */
  datatype Books = Books(deposited: nat, withdrawn: nat, dust: nat, burned: nat)

  datatype State = State(
    accounts: Accounts,
    mints: map<Address, Mint>,
    balances: map<(Pubkey, Address), nat>,
    books: map<Address, Books>)

  /** What the program is deployed with, and the calldata encoders, which are foreign code. */
  datatype Env = Env(
    programId: Pubkey,
    rent: nat -> u64,
    ethCalldata: (Address, Pubkey, Address, u64, u64) -> bytes,
    splCalldata: (Address, Address, Pubkey, Address, nat, u64) -> bytes)

  datatype Instruction =
    | CreateUserCounter(payer: Pubkey, counter: Key)
    | WithdrawEth(payer: Pubkey, signed: bool, counter: Key, record: Key, vault: Key, config: Key,
                  target: Address, value: u128, gasLimit: u128)
    | WithdrawSpl(payer: Pubkey, signed: bool, counter: Key, record: Key, mint: Key, config: Key,
                  token: Address, receiver: Address, amount: u128, gasLimit: u128)
    | DepositEth(authorized: bool, vault: Key, depositor: Key, recipient: Key, value: u128)
    | DepositErc20(authorized: bool, vault: Key, mint: Key, token: Address, to: Pubkey, amount: u128)
    | CreateSpl(authorized: bool, vault: Key, mint: Key, token: Address, decimals: u8)
    // what other programs may do to the same accounts
    | SystemTransfer(source: Pubkey, dest: Key, lamports: u64)
    | TokenTransfer(sender: Pubkey, heir: Pubkey, token: Address, units: u64)
    | TokenBurn(holder: Pubkey, token: Address, units: u64)

  /** The two addresses of the config account, 40 bytes in all: messenger, then bridge. */
  function ConfigOf(a: Accounts): Option<(Address, Address)> {
    var d := Get(a, ConfigKey).data;
    if |d| != 40 then None else Some((d[..20], d[20..40]))
  }

  /** The steps both withdrawals share: count up, and then store a record under the old count. */
  function NextCount(a: Accounts, payer: Pubkey): Option<(Accounts, u64)> {
    match UnpackedCounter(Get(a, CounterKey(payer)).data)
    case None => None
    case Some(n) =>
      if n + 1 >= TWO64 then None
      else Some((a[CounterKey(payer) := Get(a, CounterKey(payer)).(data := PackedCounter(n + 1))], n))
  }

  function StoreRecord(a: Accounts, env: Env, payer: Pubkey, n: u64, w: Withdrawal): Option<Accounts> {
    var k := RecordKey(payer, n);
    match CreateAccount(a, env.rent, Wallet(payer), k, RECORD_HEADER_LEN + |w.calldata|, BridgeProgram)
    case None => None
    case Some(b) => Some(b[k := b[k].(data := Packed(w))])
  }

  function EthRecord(env: Env, config: (Address, Address), payer: Pubkey, target: Address, value: u64, gasLimit: u128,
                     n: u64): Withdrawal
  {
    Withdrawal(n, env.programId, config.0, value, gasLimit, env.ethCalldata(config.1, payer, target, value, n))
  }

  function SplRecord(env: Env, config: (Address, Address), token: Address, payer: Pubkey, to: Address, shares: nat,
                     gasLimit: u128, n: u64): Withdrawal
  {
    Withdrawal(n, env.programId, config.0, 0, gasLimit, env.splCalldata(config.1, token, payer, to, shares, n))
  }

  function DoWithdrawEth(s: State, i: Instruction, env: Env): Option<State>
    requires i.WithdrawEth?
  {
    if i.gasLimit < MINIMAL_GAS_LIMIT || i.config != ConfigKey || i.counter != CounterKey(i.payer) then None
    else
      match NextCount(s.accounts, i.payer)
      case None => None
      case Some((a, n)) =>
        if i.record != RecordKey(i.payer, n) || i.vault != VaultKey then None
        else if i.value >= TWO64 || i.value == 0 || !i.signed then None
        else
          match Transfer(a, Wallet(i.payer), VaultKey, i.value)
          case None => None
          case Some(b) =>
            var config := ConfigOf(b);
            if config.None? then None
            else
              var w := EthRecord(env, config.value, i.payer, i.target, i.value, i.gasLimit, n);
              if |w.calldata| != ETH_CALLDATA_LEN then None
              else
                match StoreRecord(b, env, i.payer, n, w)
                case None => None
                case Some(c) => Some(s.(accounts := c))
  }

  function DoWithdrawSpl(s: State, i: Instruction, env: Env): Option<State>
    requires i.WithdrawSpl?
  {
    if i.gasLimit < MINIMAL_GAS_LIMIT || i.config != ConfigKey || i.counter != CounterKey(i.payer) then None
    else
      match NextCount(s.accounts, i.payer)
      case None => None
      case Some((a, n)) =>
        if i.record != RecordKey(i.payer, n) || i.mint != MintKey(i.token) || i.token !in s.mints then None
        else
          var m := s.mints[i.token];
          var amount := RemoveDust(i.amount, m.decimals, SPL_SHARE_DECIMAL);
          if amount >= TWO64 || amount == 0 || !i.signed then None
          else if At(s.balances, (i.payer, i.token)) < amount || m.supply < amount then None
          else
            var shares := ConvertDecimal(amount, m.decimals, SPL_SHARE_DECIMAL);
            var config := ConfigOf(a);
            if config.None? then None
            else
              var w := SplRecord(env, config.value, i.token, i.payer, i.receiver, shares, i.gasLimit, n);
              if |w.calldata| != SPL_CALLDATA_LEN then None
              else
                match StoreRecord(a, env, i.payer, n, w)
                case None => None
                case Some(c) =>
                  var k := BooksOf(s, i.token);
                  Some(State(c,
                             s.mints[i.token := m.(supply := m.supply - amount)],
                             s.balances[(i.payer, i.token) := At(s.balances, (i.payer, i.token)) - amount],
                             s.books[i.token := k.(withdrawn := k.withdrawn + shares)]))
  }

  function BooksOf(s: State, token: Address): Books {
    if token in s.books then s.books[token] else Books(0, 0, 0, 0)
  }

  /** The recipient is chosen on L1 and may be any account, the vault's own and other derived ones
      included. */
  function DoDepositEth(s: State, i: Instruction, env: Env): Option<State>
    requires i.DepositEth?
  {
    if !i.authorized || i.vault != VaultKey || i.depositor != i.recipient then None
    else if i.value >= TWO64 || i.value <= env.rent(0) then None
    else
      match Transfer(s.accounts, VaultKey, i.recipient, i.value)
      case None => None
      case Some(a) => Some(s.(accounts := a))
  }

  /** The depositor's token account is created at the vault's expense if it is not there. */
  function DoDepositErc20(s: State, i: Instruction, env: Env): Option<State>
    requires i.DepositErc20?
  {
    if !i.authorized || i.vault != VaultKey || i.mint != MintKey(i.token) || i.token !in s.mints then None
    else
      var holder := TokenAccountKey(i.to, i.token);
      var ready := if Get(s.accounts, holder).owner == TokenProgram then Some(s.accounts)
                   else CreateAccount(s.accounts, env.rent, VaultKey, holder, 165, TokenProgram);
      if ready.None? then None
      else
        var m := s.mints[i.token];
        var amount := ConvertDecimal(i.amount, SPL_SHARE_DECIMAL, m.decimals);
        if amount >= TWO64 || m.supply + amount >= TWO64 then None
        else
          var k := BooksOf(s, i.token);
          Some(State(ready.value,
                     s.mints[i.token := m.(supply := m.supply + amount)],
                     s.balances[(i.to, i.token) := At(s.balances, (i.to, i.token)) + amount],
                     s.books[i.token := k.(deposited := k.deposited + i.amount,
                                           dust := k.dust + Dust(i.amount, m.decimals))]))
  }

  function DoCreateSpl(s: State, i: Instruction, env: Env): Option<State>
    requires i.CreateSpl?
  {
    if i.decimals > MAX_TOKEN_DECIMAL || !i.authorized || i.vault != VaultKey || i.mint != MintKey(i.token) then None
    else
      match CreateAccount(s.accounts, env.rent, VaultKey, MintKey(i.token), 82, TokenProgram)
      case None => None
      case Some(a) => Some(State(a, s.mints[i.token := Mint(i.decimals, 0)], s.balances, s.books))
  }

  function DoCreateUserCounter(s: State, i: Instruction, env: Env): Option<State>
    requires i.CreateUserCounter?
  {
    if i.counter != CounterKey(i.payer) then None
    else
      match CreateAccount(s.accounts, env.rent, Wallet(i.payer), i.counter, 8, BridgeProgram)
      case None => None
      case Some(a) => Some(s.(accounts := a[i.counter := a[i.counter].(data := PackedCounter(0))]))
  }

  function Process(s: State, i: Instruction, env: Env): Option<State> {
    match i
    case CreateUserCounter(_, _) => DoCreateUserCounter(s, i, env)
    case WithdrawEth(_, _, _, _, _, _, _, _, _) => DoWithdrawEth(s, i, env)
    case WithdrawSpl(_, _, _, _, _, _, _, _, _, _) => DoWithdrawSpl(s, i, env)
    case DepositEth(_, _, _, _, _) => DoDepositEth(s, i, env)
    case DepositErc20(_, _, _, _, _, _) => DoDepositErc20(s, i, env)
    case CreateSpl(_, _, _, _, _) => DoCreateSpl(s, i, env)
    case SystemTransfer(from, to, amount) =>
      (match Transfer(s.accounts, Wallet(from), to, amount)
       case None => None
       case Some(a) => Some(s.(accounts := a)))
    case TokenTransfer(from, to, token, amount) =>
      if At(s.balances, (from, token)) < amount then None
      else
        var b := s.balances[(from, token) := At(s.balances, (from, token)) - amount];
        Some(s.(balances := b[(to, token) := At(b, (to, token)) + amount]))
    case TokenBurn(holder, token, amount) =>
      if token !in s.mints || At(s.balances, (holder, token)) < amount || s.mints[token].supply < amount then None
      else
        var m, k := s.mints[token], BooksOf(s, token);
        Some(State(s.accounts,
                   s.mints[token := m.(supply := m.supply - amount)],
                   s.balances[(holder, token) := At(s.balances, (holder, token)) - amount],
                   s.books[token := k.(burned := k.burned + amount)]))
  }

  function Apply(s: State, i: Instruction, env: Env): State {
    match Process(s, i, env)
    case Some(t) => t
    case None => s
  }

  function Run(s: State, instructions: seq<Instruction>, env: Env): State {
    if instructions == [] then s
    else Apply(Run(s, instructions[..|instructions| - 1], env), instructions[|instructions| - 1], env)
  }

  /** A deployed bridge that nobody has used: no counters, records or mints yet. */
  predicate Fresh(s: State) {
    && s.mints == map[] && s.books == map[] && s.balances == map[]
    && forall k :: k in s.accounts && (k.CounterKey? || k.RecordKey? || k.MintKey?) ==>
         s.accounts[k].owner == System && s.accounts[k].data == []
  }
}
