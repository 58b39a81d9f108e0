/** The fee path of block execution: `crates/executor/svm/src/lib.rs` over the account overlay
    of `crates/executor/svm/src/accounts_db.rs`. The virtual machine is a parameter. */
module Fees {
  import opened Bytes
  import opened Blocks
  import opened Sums

  /** What the fee check asks of an account: a plain system account, a nonce, or neither. */
  datatype AccountKind = System | Nonce | Other

  datatype Account = Account(lamports: u64, kind: AccountKind)

  datatype DbError = MissingAccount | ArithmeticOverflow | InsufficientLamports

  // ------------------------------------------------------------------
  // The overlay of accounts
  // ------------------------------------------------------------------

  /** Accounts changed in this block, over those the chain had before it. */
  datatype Db = Db(base: map<Pubkey, Account>, diff: map<Pubkey, Account>)

  function GetAccount(db: Db, key: Pubkey): Option<Account> {
    if key in db.diff then Some(db.diff[key])
    else if key in db.base then Some(db.base[key])
    else None
  }

  function Lamports(db: Db, key: Pubkey): nat {
    var a := GetAccount(db, key);
    if a.Some? then a.value.lamports else 0
  }

  function Put(db: Db, key: Pubkey, account: Account): Db {
    db.(diff := db.diff[key := account])
  }

  /** `add_diff_account`: refused only if asked to check a minimum balance that is not met. */
  function AddDiff(db: Db, minimum: Option<u64>, key: Pubkey, account: Account): Result<Db, DbError> {
    if minimum.Some? && account.lamports < minimum.value then Err(InsufficientLamports)
    else Ok(Put(db, key, account))
  }

  function Mint(db: Db, minimum: Option<u64>, key: Pubkey, amount: u64): Result<Db, DbError> {
    match GetAccount(db, key)
    case Some(a) =>
      if a.lamports + amount >= TWO64 then Err(ArithmeticOverflow)
      else AddDiff(db, minimum, key, a.(lamports := a.lamports + amount))
    case None =>
      AddDiff(db, minimum, key, Account(amount, System))
  }

  function Burn(db: Db, minimum: Option<u64>, key: Pubkey, amount: u64): Result<Db, DbError> {
    match GetAccount(db, key)
    case Some(a) =>
      if a.lamports < amount then Err(ArithmeticOverflow)
      else AddDiff(db, minimum, key, a.(lamports := a.lamports - amount))
    case None => Err(MissingAccount)
  }

  /** All balances, seen through the overlay. */
  ghost function Balances(db: Db): map<Pubkey, nat> {
    map k | k in db.base.Keys + db.diff.Keys :: Lamports(db, k)
  }

  ghost function Total(db: Db, keys: set<Pubkey>): nat {
    Sum(Balances(db), keys)
  }

  lemma PutTotal(db: Db, key: Pubkey, account: Account, keys: set<Pubkey>)
    requires key in keys
    ensures Total(Put(db, key, account), keys) + Lamports(db, key) == Total(db, keys) + account.lamports
  {
    SumUpdate(Balances(db), keys, key, account.lamports);
    assert Balances(Put(db, key, account)) == Balances(db)[key := account.lamports];
    assert At(Balances(db), key) == Lamports(db, key);
  }

  // ------------------------------------------------------------------
  // One transaction
  // ------------------------------------------------------------------

  /** A transaction as the fee path sees it. `admitted` is false if it fails sanitizing, the
      blockhash check or the compute budget; `skips[i]` if key `i` is only an invoked program. */
  datatype Tx = Tx(keys: seq<Pubkey>, writable: seq<bool>, skips: seq<bool>, fee: u64, admitted: bool)

  datatype VmResult = VmResult(ok: bool, accounts: seq<Account>)

  /** The code around the fee path: program loading, rent rules, and the virtual machine
      together with the rent check after it. */
  datatype Runtime = Runtime(
    instructionsId: Pubkey,
    loads: (Pubkey, Account) -> bool,
    nonceMinimum: u64,
    rentAllows: (Account, Account) -> bool,
    resolves: (Tx, seq<Account>) -> bool,
    run: (Tx, seq<Account>) -> VmResult
  )

  const DEFAULT_ACCOUNT := Account(0, System)

  /** What stands for the instructions sysvar in every transaction, whatever the overlay holds. */
  const INSTRUCTIONS_ACCOUNT := Account(0, Other)

  datatype TxError = AccountNotFound | InvalidAccountForFee | InsufficientFundsForFee | InsufficientFundsForRent

  /** Takes the fee from the payer's loaded account. */
  function ValidateFeePayer(rt: Runtime, payer: Account, fee: u64): Result<Account, TxError> {
    if payer.lamports == 0 then Err(AccountNotFound)
    else if payer.kind == Other then Err(InvalidAccountForFee)
    else
      var minimum := if payer.kind == System then 0 else rt.nonceMinimum;
      if payer.lamports < minimum || payer.lamports - minimum < fee then Err(InsufficientFundsForFee)
      else
        var charged := payer.(lamports := payer.lamports - fee);
        if rt.rentAllows(payer, charged) then Ok(charged) else Err(InsufficientFundsForRent)
  }

  /** Which payers are accepted: a system or nonce account that is left, after the fee, with what a nonce
      account has to keep, in a rent state it may be in. Which error the others get, in this order. */
  lemma PayerExactly(rt: Runtime, payer: Account, fee: u64)
    ensures var keeps := if payer.kind == Nonce then rt.nonceMinimum else 0;
            var v := ValidateFeePayer(rt, payer, fee);
            && (v.Ok? <==>
                  && payer.lamports > 0 && payer.kind != Other && fee + keeps <= payer.lamports
                  && rt.rentAllows(payer, Account(payer.lamports - fee, payer.kind)))
            && (v.Ok? ==> v.value == Account(payer.lamports - fee, payer.kind))
            && (v == Err(AccountNotFound) <==> payer.lamports == 0)
            && (v == Err(InvalidAccountForFee) <==> payer.lamports > 0 && payer.kind == Other)
            && (v == Err(InsufficientFundsForFee) <==>
                  payer.lamports > 0 && payer.kind != Other && payer.lamports < fee + keeps)
  {
  }

  datatype Loading = Loading(accounts: seq<Account>, payer: Option<Pubkey>)

  /** What sanitizing enforces: keys are distinct, and the first one signs, is writable and is not
      called as a program. The set of reserved keys is empty, so a sysvar may be writable, and may
      come first. */
  predicate WellFormed(tx: Tx) {
    && 0 < |tx.keys| == |tx.writable| == |tx.skips|
    && (forall i, j :: 0 <= i < j < |tx.keys| ==> tx.keys[i] != tx.keys[j])
    && tx.writable[0] && !tx.skips[0]
  }

  /** One key of the loading loop. */
  function LoadNext(rt: Runtime, db: Db, tx: Tx, so: Loading, i: nat): Result<Loading, TxError>
    requires WellFormed(tx) && i < |tx.keys|
  {
    var key := tx.keys[i];
    if key == rt.instructionsId then Ok(so.(accounts := so.accounts + [INSTRUCTIONS_ACCOUNT]))
    else
      var found := GetAccount(db, key);
      var account := if found.Some? then found.value else DEFAULT_ACCOUNT;
      if !rt.loads(key, account) then Err(AccountNotFound)
      else if so.payer.None? && !tx.skips[i] then
        var charged := ValidateFeePayer(rt, account, tx.fee);
        if charged.Err? then Err(charged.error)
        else Ok(Loading(so.accounts + [charged.value], Some(key)))
      else Ok(so.(accounts := so.accounts + [account]))
  }

  function LoadFirst(rt: Runtime, db: Db, tx: Tx, n: nat): (r: Result<Loading, TxError>)
    requires WellFormed(tx) && n <= |tx.keys|
    ensures r.Ok? ==> |r.value.accounts| == n
  {
    if n == 0 then Ok(Loading([], None))
    else
      var before := LoadFirst(rt, db, tx, n - 1);
      if before.Err? then before else LoadNext(rt, db, tx, before.value, n - 1)
  }

  /** `process_transaction`: a context, if the transaction gets as far as the virtual machine. */
  datatype Context = Context(result: VmResult, payer: Pubkey)

  function Process(rt: Runtime, db: Db, tx: Tx): Option<Context>
    requires WellFormed(tx)
  {
    var loaded := LoadFirst(rt, db, tx, |tx.keys|);
    if loaded.Err? || loaded.value.payer.None? || !rt.resolves(tx, loaded.value.accounts) then None
    else Some(Context(rt.run(tx, loaded.value.accounts), loaded.value.payer.value))
  }

  /** Writes back the writable accounts among the first `n`. */
  function Commit(db: Db, tx: Tx, accounts: seq<Account>, n: nat): Db
    requires n <= |tx.keys| == |tx.writable| == |accounts|
  {
    if n == 0 then db
    else
      var before := Commit(db, tx, accounts, n - 1);
      if tx.writable[n - 1] then Put(before, tx.keys[n - 1], accounts[n - 1]) else before
  }

  datatype TxResult = TxResult(ok: bool, fee: u64)
  datatype Sent = Sent(db: Db, result: TxResult)

  /** The virtual machine returns as many accounts as it was given. */
  ghost predicate KeepsLength(rt: Runtime) {
    forall tx: Tx, accounts: seq<Account> :: |rt.run(tx, accounts).accounts| == |accounts|
  }

  /** `send_transaction`. A failed transaction with a context burns its fee; when that
      succeeds the outcome is Ok, and the context is written back all the same. */
  function Send(rt: Runtime, db: Db, tx: Tx): Sent
    requires WellFormed(tx) && KeepsLength(rt)
  {
    if !tx.admitted then Sent(db, TxResult(false, 0))
    else
      var context := Process(rt, db, tx);
      if context.None? then Sent(db, TxResult(false, tx.fee))
      else
        var ctx := context.value;
        var charged := if ctx.result.ok then Ok(db) else Burn(db, None, ctx.payer, tx.fee);
        if charged.Err? then Sent(db, TxResult(false, tx.fee))
        else Sent(Commit(charged.value, tx, ctx.result.accounts, |tx.keys|), TxResult(true, tx.fee))
  }

  /** The key that pays: the first that is neither the instructions sysvar nor only an invoked
      program. It may be read-only. */
  function PayerAmong(rt: Runtime, tx: Tx, n: nat): (p: Option<nat>)
    requires n <= |tx.keys| == |tx.skips|
    ensures p.Some? ==> p.value < n && tx.keys[p.value] != rt.instructionsId
  {
    if n == 0 then None
    else
      var before := PayerAmong(rt, tx, n - 1);
      if before.Some? then before
      else if tx.keys[n - 1] != rt.instructionsId && !tx.skips[n - 1] then Some(n - 1)
      else None
  }

  function Payer(rt: Runtime, tx: Tx): Option<nat>
    requires WellFormed(tx)
  {
    PayerAmong(rt, tx, |tx.keys|)
  }

  ghost predicate Reaches(rt: Runtime, db: Db, tx: Tx)
    requires WellFormed(tx)
  {
    tx.admitted && Process(rt, db, tx).Some?
  }

  ghost predicate Fails(rt: Runtime, db: Db, tx: Tx)
    requires WellFormed(tx)
  {
    Reaches(rt, db, tx) && !Process(rt, db, tx).value.result.ok
  }

  /** The fee goes: the payer's account is written back, or the fee is burned after a failure. */
  ghost predicate Pays(rt: Runtime, db: Db, tx: Tx)
    requires WellFormed(tx)
  {
    Reaches(rt, db, tx) && (Fails(rt, db, tx) || (Payer(rt, tx).Some? && tx.writable[Payer(rt, tx).value]))
  }

  /** The fee a transaction actually takes out of the accounts. */
  ghost function Paid(rt: Runtime, db: Db, tx: Tx): nat
    requires WellFormed(tx)
  {
    if Pays(rt, db, tx) then tx.fee else 0
  }

  ghost predicate Within(tx: Tx, keys: set<Pubkey>) {
    forall i :: 0 <= i < |tx.keys| ==> tx.keys[i] in keys
  }

  ghost predicate AllWithin(txs: seq<Tx>, keys: set<Pubkey>) {
    forall i :: 0 <= i < |txs| ==> Within(txs[i], keys)
  }

  // ------------------------------------------------------------------
  // What a transaction does to the total
  // ------------------------------------------------------------------

  /** The lamports of the writable accounts among the first `n`. */
  ghost function WritableSum(tx: Tx, accounts: seq<Account>, n: nat): nat
    requires n <= |tx.writable| && n <= |accounts|
  {
    if n == 0 then 0
    else WritableSum(tx, accounts, n - 1) + if tx.writable[n - 1] then accounts[n - 1].lamports else 0
  }

  ghost function WritableLamports(db: Db, tx: Tx, n: nat): nat
    requires n <= |tx.writable| && n <= |tx.keys|
  {
    if n == 0 then 0
    else WritableLamports(db, tx, n - 1) + if tx.writable[n - 1] then Lamports(db, tx.keys[n - 1]) else 0
  }

  ghost function AllSum(accounts: seq<Account>, n: nat): nat
    requires n <= |accounts|
  {
    if n == 0 then 0 else AllSum(accounts, n - 1) + accounts[n - 1].lamports
  }

  /** One run moves lamports between the writable accounts it is given, and creates or
      destroys none. */
  ghost predicate Balanced(tx: Tx, pre: seq<Account>, post: seq<Account>) {
    && |post| == |pre|
    && AllSum(post, |post|) == AllSum(pre, |pre|)
    && forall i :: 0 <= i < |pre| && i < |tx.writable| && !tx.writable[i] ==> post[i] == pre[i]
  }

  /** Every successful run of the virtual machine is balanced. A failing one need not be: the
      balance is what some of them fail on, after their accounts have been written. */
  ghost predicate Conserves(rt: Runtime) {
    forall tx: Tx, accounts: seq<Account> ::
      rt.run(tx, accounts).ok ==> Balanced(tx, accounts, rt.run(tx, accounts).accounts)
  }

  /** What the run of a transaction adds to the accounts that are written back, or takes from them. */
  ghost function Drift(rt: Runtime, db: Db, tx: Tx): int
    requires WellFormed(tx) && KeepsLength(rt)
  {
    if Reaches(rt, db, tx) then
      var n, loaded := |tx.keys|, LoadFirst(rt, db, tx, |tx.keys|).value.accounts;
      WritableSum(tx, Process(rt, db, tx).value.result.accounts, n) - WritableSum(tx, loaded, n)
    else 0
  }

  /** What the overlay holds of the instructions sysvar, if it is writable among the first `n` keys. */
  ghost function SysvarLamports(rt: Runtime, db: Db, tx: Tx, n: nat): nat
    requires n <= |tx.keys| == |tx.writable|
  {
    if n == 0 then 0
    else
      SysvarLamports(rt, db, tx, n - 1)
      + if tx.writable[n - 1] && tx.keys[n - 1] == rt.instructionsId then Lamports(db, tx.keys[n - 1]) else 0
  }

  /** What a transaction erases: a writable instructions sysvar is loaded empty and written back. */
  ghost function Erased(rt: Runtime, db: Db, tx: Tx): nat
    requires WellFormed(tx)
  {
    if Reaches(rt, db, tx) then SysvarLamports(rt, db, tx, |tx.keys|) else 0
  }

  /** Only a failing run drifts. */
  lemma NoDrift(rt: Runtime, db: Db, tx: Tx)
    requires WellFormed(tx) && KeepsLength(rt) && Conserves(rt) && !Fails(rt, db, tx)
    ensures Drift(rt, db, tx) == 0
  {
    if Reaches(rt, db, tx) {
      var loaded := LoadFirst(rt, db, tx, |tx.keys|).value.accounts;
      assert Balanced(tx, loaded, rt.run(tx, loaded).accounts);
      WritableDifference(tx, rt.run(tx, loaded).accounts, loaded, |tx.keys|);
    }
  }

  /** Read-only accounts being equal, the writable ones have the same sum. */
  lemma {:induction false} WritableDifference(tx: Tx, a: seq<Account>, b: seq<Account>, n: nat)
    requires n <= |a| && n <= |b| && n <= |tx.writable|
    requires forall i :: 0 <= i < n && !tx.writable[i] ==> a[i] == b[i]
    ensures WritableSum(tx, a, n) + AllSum(b, n) == WritableSum(tx, b, n) + AllSum(a, n)
  {
    if n > 0 {
      WritableDifference(tx, a, b, n - 1);
    }
  }

  /** Loading takes the fee out of the writable accounts if the payer is one of them, and loses what
      the overlay holds of a writable instructions sysvar. */
  lemma {:induction false} LoadedSum(rt: Runtime, db: Db, tx: Tx, n: nat)
    requires WellFormed(tx) && n <= |tx.keys| && LoadFirst(rt, db, tx, n).Ok?
    ensures var so, p := LoadFirst(rt, db, tx, n).value, PayerAmong(rt, tx, n);
            && so.payer == (if p.Some? then Some(tx.keys[p.value]) else None)
            && WritableSum(tx, so.accounts, n) + SysvarLamports(rt, db, tx, n)
               + (if p.Some? && tx.writable[p.value] then tx.fee else 0)
               == WritableLamports(db, tx, n)
            && (p.Some? ==> GetAccount(db, tx.keys[p.value]).Some? && tx.fee <= Lamports(db, tx.keys[p.value]))
  {
    if n > 0 {
      var so := LoadFirst(rt, db, tx, n).value;
      var before := LoadFirst(rt, db, tx, n - 1).value;
      assert so.accounts[..n - 1] == before.accounts;
      WritablePrefix(tx, so.accounts, before.accounts, n - 1);
      LoadedSum(rt, db, tx, n - 1);
    }
  }

  lemma {:induction false} WritablePrefix(tx: Tx, a: seq<Account>, b: seq<Account>, n: nat)
    requires n <= |a| && n <= |b| && n <= |tx.writable|
    requires a[..n] == b[..n]
    ensures WritableSum(tx, a, n) == WritableSum(tx, b, n)
  {
    if n > 0 {
      assert a[..n][n - 1] == b[..n][n - 1];
      assert a[..n - 1] == a[..n][..n - 1] == b[..n][..n - 1] == b[..n - 1];
      WritablePrefix(tx, a, b, n - 1);
    }
  }

  /** Writing back leaves other accounts alone. */
  lemma {:induction false} CommitFrame(db: Db, tx: Tx, accounts: seq<Account>, n: nat, key: Pubkey)
    requires n <= |tx.keys| == |tx.writable| == |accounts|
    requires forall i :: 0 <= i < n ==> tx.keys[i] != key
    ensures Lamports(Commit(db, tx, accounts, n), key) == Lamports(db, key)
  {
    if n > 0 {
      CommitFrame(db, tx, accounts, n - 1, key);
    }
  }

  lemma {:induction false} CommitTotal(db: Db, tx: Tx, accounts: seq<Account>, n: nat, keys: set<Pubkey>)
    requires n <= |tx.keys| == |tx.writable| == |accounts|
    requires forall i, j :: 0 <= i < j < |tx.keys| ==> tx.keys[i] != tx.keys[j]
    requires Within(tx, keys)
    ensures Total(Commit(db, tx, accounts, n), keys) + WritableLamports(db, tx, n)
            == Total(db, keys) + WritableSum(tx, accounts, n)
  {
    if n > 0 {
      CommitTotal(db, tx, accounts, n - 1, keys);
      CommitFrame(db, tx, accounts, n - 1, tx.keys[n - 1]);
      PutTotal(Commit(db, tx, accounts, n - 1), tx.keys[n - 1], accounts[n - 1], keys);
    }
  }

  lemma {:induction false} WritableLamportsPut(db: Db, tx: Tx, p: nat, account: Account, n: nat)
    requires p < |tx.keys| == |tx.writable| && n <= |tx.keys|
    requires forall i, j :: 0 <= i < j < |tx.keys| ==> tx.keys[i] != tx.keys[j]
    ensures WritableLamports(Put(db, tx.keys[p], account), tx, n)
            + (if p < n && tx.writable[p] then Lamports(db, tx.keys[p]) else 0)
            == WritableLamports(db, tx, n) + (if p < n && tx.writable[p] then account.lamports else 0)
  {
    if n > 0 { WritableLamportsPut(db, tx, p, account, n - 1); }
  }

  /** The fee was in the payer's account when it was checked, so burning it cannot fail. */
  lemma BurnSucceeds(rt: Runtime, db: Db, tx: Tx)
    requires WellFormed(tx) && LoadFirst(rt, db, tx, |tx.keys|).Ok? && Payer(rt, tx).Some?
    ensures var payer := tx.keys[Payer(rt, tx).value];
            var burned := Burn(db, None, payer, tx.fee);
            && LoadFirst(rt, db, tx, |tx.keys|).value.payer == Some(payer)
            && burned.Ok?
            && GetAccount(db, payer).Some?
            && var a := GetAccount(db, payer).value;
            && tx.fee <= a.lamports
            && burned.value == Put(db, payer, a.(lamports := a.lamports - tx.fee))
  {
    LoadedSum(rt, db, tx, |tx.keys|);
  }

  /** Writing back a run over a database that has lost `taken`, of which `fromWritable` from accounts
      that are written back. */
  lemma CommitRun(rt: Runtime, db: Db, tx: Tx, charged: Db, taken: nat, fromWritable: nat, keys: set<Pubkey>)
    requires WellFormed(tx) && KeepsLength(rt) && Within(tx, keys) && Reaches(rt, db, tx)
    requires Total(charged, keys) + taken == Total(db, keys)
    requires WritableLamports(charged, tx, |tx.keys|) + fromWritable == WritableLamports(db, tx, |tx.keys|)
    ensures var post := Process(rt, db, tx).value.result.accounts;
            var payer := Payer(rt, tx);
            var written := if payer.Some? && tx.writable[payer.value] then tx.fee else 0;
            Total(Commit(charged, tx, post, |tx.keys|), keys) + taken + Erased(rt, db, tx) + written
            == Total(db, keys) + Drift(rt, db, tx) + fromWritable
  {
    var n := |tx.keys|;
    LoadedSum(rt, db, tx, n);
    CommitTotal(charged, tx, Process(rt, db, tx).value.result.accounts, n, keys);
  }

  /** A transaction takes out of the accounts the fee it pays and what it erases of a writable
      instructions sysvar, and adds what its run adds to the accounts written back, which is nothing
      unless it fails. It reports its fee whenever it reaches the virtual machine. */
  lemma SendTotal(rt: Runtime, db: Db, tx: Tx, keys: set<Pubkey>)
    requires WellFormed(tx) && KeepsLength(rt) && Within(tx, keys)
    ensures Total(Send(rt, db, tx).db, keys) + Paid(rt, db, tx) + Erased(rt, db, tx)
            == Total(db, keys) + Drift(rt, db, tx)
    ensures Conserves(rt) && !Fails(rt, db, tx) ==> Drift(rt, db, tx) == 0
    ensures Reaches(rt, db, tx) ==> Send(rt, db, tx).result == TxResult(true, tx.fee)
  {
    if Conserves(rt) && !Fails(rt, db, tx) { NoDrift(rt, db, tx); }
    if Reaches(rt, db, tx) {
      LoadedSum(rt, db, tx, |tx.keys|);
      if Fails(rt, db, tx) {
        SendFailing(rt, db, tx, keys);
      } else {
        CommitRun(rt, db, tx, db, 0, 0, keys);
      }
    }
  }

  /** A failed run: the fee is burned, and the context is written back all the same. */
  lemma FailingIs(rt: Runtime, db: Db, tx: Tx)
    requires WellFormed(tx) && KeepsLength(rt) && Fails(rt, db, tx)
    ensures Payer(rt, tx).Some? && GetAccount(db, tx.keys[Payer(rt, tx).value]).Some?
    ensures var payer := tx.keys[Payer(rt, tx).value];
            var a := GetAccount(db, payer).value;
            && tx.fee <= a.lamports
            && Send(rt, db, tx)
               == Sent(Commit(Put(db, payer, a.(lamports := a.lamports - tx.fee)), tx,
                              Process(rt, db, tx).value.result.accounts, |tx.keys|),
                       TxResult(true, tx.fee))
  {
    LoadedSum(rt, db, tx, |tx.keys|);
    BurnSucceeds(rt, db, tx);
  }

  lemma SendFailing(rt: Runtime, db: Db, tx: Tx, keys: set<Pubkey>)
    requires WellFormed(tx) && KeepsLength(rt) && Within(tx, keys) && Fails(rt, db, tx)
    ensures Total(Send(rt, db, tx).db, keys) + tx.fee + Erased(rt, db, tx) == Total(db, keys) + Drift(rt, db, tx)
    ensures Send(rt, db, tx).result == TxResult(true, tx.fee)
  {
    FailingIs(rt, db, tx);
    var p := Payer(rt, tx).value;
    var a := GetAccount(db, tx.keys[p]).value;
    var burnt := a.(lamports := a.lamports - tx.fee);
    PutTotal(db, tx.keys[p], burnt, keys);
    WritableLamportsPut(db, tx, p, burnt, |tx.keys|);
    CommitRun(rt, db, tx, Put(db, tx.keys[p], burnt), tx.fee, if tx.writable[p] then tx.fee else 0, keys);
  }

  // ------------------------------------------------------------------
  // A block
  // ------------------------------------------------------------------

  datatype Ran = Ran(db: Db, results: seq<TxResult>)

  ghost predicate AllWellFormed(txs: seq<Tx>) {
    forall i :: 0 <= i < |txs| ==> WellFormed(txs[i])
  }

  function RunAll(rt: Runtime, db: Db, txs: seq<Tx>): Ran
    requires AllWellFormed(txs) && KeepsLength(rt)
  {
    if txs == [] then Ran(db, [])
    else
      var before := RunAll(rt, db, txs[..|txs| - 1]);
      var sent := Send(rt, before.db, txs[|txs| - 1]);
      Ran(sent.db, before.results + [sent.result])
  }

  /** What the transactions of a block pay, and what they report. */
  ghost function PaidAll(rt: Runtime, db: Db, txs: seq<Tx>): nat
    requires AllWellFormed(txs) && KeepsLength(rt)
  {
    if txs == [] then 0
    else
      var init := txs[..|txs| - 1];
      PaidAll(rt, db, init) + Paid(rt, RunAll(rt, db, init).db, txs[|txs| - 1])
  }

  /** What the runs of a block add to the total. */
  ghost function DriftAll(rt: Runtime, db: Db, txs: seq<Tx>): int
    requires AllWellFormed(txs) && KeepsLength(rt)
  {
    if txs == [] then 0
    else
      var init := txs[..|txs| - 1];
      DriftAll(rt, db, init) + Drift(rt, RunAll(rt, db, init).db, txs[|txs| - 1])
  }

  /** What the transactions of a block erase. */
  ghost function ErasedAll(rt: Runtime, db: Db, txs: seq<Tx>): nat
    requires AllWellFormed(txs) && KeepsLength(rt)
  {
    if txs == [] then 0
    else
      var init := txs[..|txs| - 1];
      ErasedAll(rt, db, init) + Erased(rt, RunAll(rt, db, init).db, txs[|txs| - 1])
  }

  /** No run fails. */
  ghost predicate AllRun(rt: Runtime, db: Db, txs: seq<Tx>)
    requires AllWellFormed(txs) && KeepsLength(rt)
  {
    txs != [] ==>
      var init := txs[..|txs| - 1];
      AllRun(rt, db, init) && !Fails(rt, RunAll(rt, db, init).db, txs[|txs| - 1])
  }

  lemma {:induction false} NoDriftAll(rt: Runtime, db: Db, txs: seq<Tx>)
    requires AllWellFormed(txs) && KeepsLength(rt) && Conserves(rt) && AllRun(rt, db, txs)
    ensures DriftAll(rt, db, txs) == 0
  {
    if txs != [] {
      var init := txs[..|txs| - 1];
      NoDriftAll(rt, db, init);
      NoDrift(rt, RunAll(rt, db, init).db, txs[|txs| - 1]);
    }
  }

  ghost function ReportedAll(results: seq<TxResult>): nat {
    if results == [] then 0 else ReportedAll(results[..|results| - 1]) + results[|results| - 1].fee
  }

  /** The fees that `seal_block` adds up, in a `u64` that wraps. */
  function FeeCount(results: seq<TxResult>): u64 {
    if results == [] then 0
    else (FeeCount(results[..|results| - 1]) + results[|results| - 1].fee) % TWO64
  }

  lemma {:induction false} FeeCountWraps(results: seq<TxResult>)
    ensures FeeCount(results) == ReportedAll(results) % TWO64
  {
    if results != [] {
      var init := results[..|results| - 1];
      FeeCountWraps(init);
      WrapOnce(ReportedAll(init), results[|results| - 1].fee);
    }
  }

  /** `seal_block`: the leader, if there is one, is credited with the counted fees. */
  function Seal(db: Db, leader: Option<Pubkey>, minimum: Option<u64>, results: seq<TxResult>): Result<Db, DbError> {
    if FeeCount(results) > 0 && leader.Some? then Mint(db, minimum, leader.value, FeeCount(results)) else Ok(db)
  }

  lemma {:induction false} RunAllTotal(rt: Runtime, db: Db, txs: seq<Tx>, keys: set<Pubkey>)
    requires AllWellFormed(txs) && KeepsLength(rt) && AllWithin(txs, keys)
    ensures Total(RunAll(rt, db, txs).db, keys) + PaidAll(rt, db, txs) + ErasedAll(rt, db, txs)
            == Total(db, keys) + DriftAll(rt, db, txs)
  {
    if txs != [] {
      var init, tx := txs[..|txs| - 1], txs[|txs| - 1];
      RunAllTotal(rt, db, init, keys);
      assert Within(tx, keys);
      var before := RunAll(rt, db, init);
      SendTotal(rt, before.db, tx, keys);
    }
  }

  /** What a sealed block does to the total, for every block: the accounts lose what the transactions
      paid and erased, the runs add what they add, and the leader gains the wrapped count of all
      reported fees. */
  lemma BlockTotal(rt: Runtime, db: Db, txs: seq<Tx>, leader: Option<Pubkey>, minimum: Option<u64>, keys: set<Pubkey>)
    requires AllWellFormed(txs) && KeepsLength(rt) && AllWithin(txs, keys)
    requires leader.Some? ==> leader.value in keys
    ensures var ran := RunAll(rt, db, txs);
            var sealed := Seal(ran.db, leader, minimum, ran.results);
            && (sealed.Ok? ==>
                  Total(sealed.value, keys) + PaidAll(rt, db, txs) + ErasedAll(rt, db, txs)
                  == Total(db, keys) + DriftAll(rt, db, txs)
                     + if leader.Some? then ReportedAll(ran.results) % TWO64 else 0)
            && (sealed.Err? ==>
                  Total(ran.db, keys) + PaidAll(rt, db, txs) + ErasedAll(rt, db, txs)
                  == Total(db, keys) + DriftAll(rt, db, txs))
  {
    var ran := RunAll(rt, db, txs);
    RunAllTotal(rt, db, txs, keys);
    FeeCountWraps(ran.results);
    var fees := FeeCount(ran.results);
    var sealed := Seal(ran.db, leader, minimum, ran.results);
    if sealed.Ok? && fees > 0 && leader.Some? {
      MintTotal(ran.db, minimum, leader.value, fees, keys);
    }
  }

  lemma MintTotal(db: Db, minimum: Option<u64>, key: Pubkey, amount: u64, keys: set<Pubkey>)
    requires key in keys && Mint(db, minimum, key, amount).Ok?
    ensures Total(Mint(db, minimum, key, amount).value, keys) == Total(db, keys) + amount
  {
    match GetAccount(db, key)
    case Some(a) => PutTotal(db, key, a.(lamports := a.lamports + amount), keys);
    case None => PutTotal(db, key, Account(amount, System), keys);
  }

  /** Transaction `i` pays its fee, or reports none. */
  ghost predicate Covered(rt: Runtime, db: Db, txs: seq<Tx>, i: nat)
    requires AllWellFormed(txs) && KeepsLength(rt) && i < |txs|
  {
    txs[i].admitted && txs[i].fee > 0 ==> Pays(rt, RunAll(rt, db, txs[..i]).db, txs[i])
  }

  ghost predicate AllCovered(rt: Runtime, db: Db, txs: seq<Tx>)
    requires AllWellFormed(txs) && KeepsLength(rt)
  {
    forall i :: 0 <= i < |txs| ==> Covered(rt, db, txs, i)
  }

  lemma CoveredSnoc(rt: Runtime, db: Db, txs: seq<Tx>)
    requires AllWellFormed(txs) && KeepsLength(rt) && txs != []
    ensures AllCovered(rt, db, txs)
            <==> AllCovered(rt, db, txs[..|txs| - 1]) && Covered(rt, db, txs, |txs| - 1)
  {
    var init := txs[..|txs| - 1];
    forall i | 0 <= i < |init| ensures Covered(rt, db, init, i) <==> Covered(rt, db, txs, i) {
      assert init[..i] == txs[..i];
    }
    if AllCovered(rt, db, init) && Covered(rt, db, txs, |txs| - 1) {
      forall i | 0 <= i < |txs| ensures Covered(rt, db, txs, i) {
        assert i < |init| ==> Covered(rt, db, init, i);
      }
    }
  }

  /** One transaction pays at most what it reports, and all of it iff it is covered. */
  lemma PaidOrNot(rt: Runtime, db: Db, tx: Tx)
    requires WellFormed(tx) && KeepsLength(rt)
    ensures Paid(rt, db, tx) <= Send(rt, db, tx).result.fee
    ensures Paid(rt, db, tx) == Send(rt, db, tx).result.fee
            <==> (tx.admitted && tx.fee > 0 ==> Pays(rt, db, tx))
  {
  }

  lemma {:induction false} PaidIsReported(rt: Runtime, db: Db, txs: seq<Tx>)
    requires AllWellFormed(txs) && KeepsLength(rt)
    ensures PaidAll(rt, db, txs) <= ReportedAll(RunAll(rt, db, txs).results)
    ensures PaidAll(rt, db, txs) == ReportedAll(RunAll(rt, db, txs).results) <==> AllCovered(rt, db, txs)
  {
    if txs != [] {
      var init := txs[..|txs| - 1];
      PaidIsReported(rt, db, init);
      var before := RunAll(rt, db, init);
      PaidOrNot(rt, before.db, txs[|txs| - 1]);
      var results := RunAll(rt, db, txs).results;
      assert results[..|results| - 1] == before.results;
      CoveredSnoc(rt, db, txs);
    }
  }

  lemma NoWrap(n: nat)
    requires n < TWO64
    ensures n % TWO64 == n
  {
  }

  /** No transaction lists the instructions sysvar as writable, so neither first. */
  ghost predicate SysvarReadOnly(rt: Runtime, txs: seq<Tx>) {
    forall t, i :: 0 <= t < |txs| && 0 <= i < |txs[t].keys| && i < |txs[t].writable| ==>
      txs[t].keys[i] == rt.instructionsId ==> !txs[t].writable[i]
  }

  lemma {:induction false} ReadOnlyHoldsNone(rt: Runtime, db: Db, tx: Tx, n: nat)
    requires n <= |tx.keys| == |tx.writable| && SysvarReadOnly(rt, [tx])
    ensures SysvarLamports(rt, db, tx, n) == 0
  {
    if n > 0 {
      ReadOnlyHoldsNone(rt, db, tx, n - 1);
      assert [tx][0] == tx;
    }
  }

  lemma {:induction false} FirstPays(rt: Runtime, tx: Tx, n: nat)
    requires WellFormed(tx) && tx.keys[0] != rt.instructionsId && 0 < n <= |tx.keys|
    ensures PayerAmong(rt, tx, n) == Some(0)
  {
    if n > 1 { FirstPays(rt, tx, n - 1); }
  }

  /** Where the sysvar is read-only nothing is erased, and a fee is paid iff the virtual machine is reached. */
  lemma {:induction false} ReadOnlyErasesNone(rt: Runtime, db: Db, txs: seq<Tx>)
    requires AllWellFormed(txs) && KeepsLength(rt) && SysvarReadOnly(rt, txs)
    ensures ErasedAll(rt, db, txs) == 0
    ensures forall i :: 0 <= i < |txs| ==>
              (Pays(rt, RunAll(rt, db, txs[..i]).db, txs[i]) <==> Reaches(rt, RunAll(rt, db, txs[..i]).db, txs[i]))
  {
    forall i | 0 <= i < |txs|
      ensures Pays(rt, RunAll(rt, db, txs[..i]).db, txs[i]) <==> Reaches(rt, RunAll(rt, db, txs[..i]).db, txs[i])
    {
      assert txs[i].writable[0];
      assert txs[i].keys[0] != rt.instructionsId;
      FirstPays(rt, txs[i], |txs[i].keys|);
    }
    if txs != [] {
      var init, tx := txs[..|txs| - 1], txs[|txs| - 1];
      ReadOnlyErasesNone(rt, db, init);
      assert SysvarReadOnly(rt, [tx]);
      ReadOnlyHoldsNone(rt, RunAll(rt, db, init).db, tx, |tx.keys|);
    }
  }

  /** With a leader, a sealed block conserves lamports iff reported fees and what the runs add make up
      for paid fees and what is erased. Where the runs add nothing, as when none fails, and nothing is
      erased, that is so iff every transaction with a fee pays it. And where the instructions sysvar is
      nowhere writable nothing is erased, and a transaction pays iff it reaches the virtual machine. */
  lemma BlockConserves(rt: Runtime, db: Db, txs: seq<Tx>, leader: Pubkey, minimum: Option<u64>, keys: set<Pubkey>)
    requires AllWellFormed(txs) && KeepsLength(rt)
    requires AllWithin(txs, keys)
    requires leader in keys
    requires ReportedAll(RunAll(rt, db, txs).results) < TWO64
    requires Seal(RunAll(rt, db, txs).db, Some(leader), minimum, RunAll(rt, db, txs).results).Ok?
    ensures var ran := RunAll(rt, db, txs);
            var kept := Total(Seal(ran.db, Some(leader), minimum, ran.results).value, keys) == Total(db, keys);
            && (kept <==> ReportedAll(ran.results) + DriftAll(rt, db, txs)
                          == PaidAll(rt, db, txs) + ErasedAll(rt, db, txs))
            && (DriftAll(rt, db, txs) == 0 && ErasedAll(rt, db, txs) == 0 ==> (kept <==> AllCovered(rt, db, txs)))
    ensures Conserves(rt) && AllRun(rt, db, txs) ==> DriftAll(rt, db, txs) == 0
    ensures SysvarReadOnly(rt, txs) ==>
              && ErasedAll(rt, db, txs) == 0
              && forall i :: 0 <= i < |txs| ==>
                   (Pays(rt, RunAll(rt, db, txs[..i]).db, txs[i])
                    <==> Reaches(rt, RunAll(rt, db, txs[..i]).db, txs[i]))
  {
    BlockTotal(rt, db, txs, Some(leader), minimum, keys);
    PaidIsReported(rt, db, txs);
    NoWrap(ReportedAll(RunAll(rt, db, txs).results));
    if Conserves(rt) && AllRun(rt, db, txs) { NoDriftAll(rt, db, txs); }
    if SysvarReadOnly(rt, txs) { ReadOnlyErasesNone(rt, db, txs); }
  }

  // ------------------------------------------------------------------
  // A fee nobody paid
  // ------------------------------------------------------------------

  lemma {:induction false} EmptyPayer(rt: Runtime, db: Db, tx: Tx, n: nat)
    requires WellFormed(tx) && n <= |tx.keys|
    requires PayerAmong(rt, tx, n).Some? && Lamports(db, tx.keys[PayerAmong(rt, tx, n).value]) == 0
    ensures LoadFirst(rt, db, tx, n).Err?
  {
    if LoadFirst(rt, db, tx, n).Ok? {
      LoadedSum(rt, db, tx, n - 1);
      if PayerAmong(rt, tx, n - 1).Some? { EmptyPayer(rt, db, tx, n - 1); }
    }
  }

  /** A payer that has nothing, or none at all: the transaction reports its fee without paying it, and
      the leader is credited with lamports nobody lost. */
  lemma UnpaidFeeMinted(rt: Runtime, db: Db, tx: Tx, leader: Pubkey, keys: set<Pubkey>)
    requires WellFormed(tx) && KeepsLength(rt) && Within(tx, keys) && leader in keys
    requires tx.admitted && tx.fee > 0
    requires Payer(rt, tx).Some? ==> Lamports(db, tx.keys[Payer(rt, tx).value]) == 0
    requires Lamports(db, leader) + tx.fee < TWO64
    ensures var ran := RunAll(rt, db, [tx]);
            var sealed := Seal(ran.db, Some(leader), None, ran.results);
            sealed.Ok? && Total(sealed.value, keys) == Total(db, keys) + tx.fee
  {
    if Payer(rt, tx).Some? {
      EmptyPayer(rt, db, tx, |tx.keys|);
    } else if LoadFirst(rt, db, tx, |tx.keys|).Ok? {
      LoadedSum(rt, db, tx, |tx.keys|);
    }
    assert [tx][..0] == [];
    assert Send(rt, db, tx) == Sent(db, TxResult(false, tx.fee));
    assert RunAll(rt, db, [tx]) == Ran(db, [] + [TxResult(false, tx.fee)]);
    assert [TxResult(false, tx.fee)][..0] == [];
    assert FeeCount([TxResult(false, tx.fee)]) == tx.fee;
    MintTotal(db, None, leader, tx.fee, keys);
  }
}
