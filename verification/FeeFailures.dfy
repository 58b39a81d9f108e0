/** Blocks in which every transaction succeeds and the lamports are not conserved, because nothing
    reserves the instructions sysvar: `crates/executor/svm/src/lib.rs:441-447` and 514-515. */
module FeeFailures {
  import opened Bytes
  import opened Blocks
  import opened Sums
  import opened Fees

  /** The transaction whose run moves lamports: the one with fee 1, on two writable accounts. */
  predicate Moves(tx: Tx, accounts: seq<Account>, amount: u64) {
    && tx.fee == 1 && tx.writable == [true, true] && |accounts| == 2
    && amount <= accounts[0].lamports && accounts[1].lamports + amount < TWO64
  }

  function Moved(tx: Tx, accounts: seq<Account>, amount: u64): (post: seq<Account>)
    ensures |post| == |accounts|
  {
    if Moves(tx, accounts, amount) then
      [accounts[0].(lamports := accounts[0].lamports - amount), accounts[1].(lamports := accounts[1].lamports + amount)]
    else accounts
  }

  /** A virtual machine with one transfer program, which never fails. */
  function Mover(sysvar: Pubkey, amount: u64): Runtime {
    Runtime(sysvar, (key: Pubkey, account: Account) => true, 0, (pre: Account, post: Account) => true,
            (tx: Tx, accounts: seq<Account>) => true,
            (tx: Tx, accounts: seq<Account>) => VmResult(true, Moved(tx, accounts, amount)))
  }

  lemma MoverConserves(sysvar: Pubkey, amount: u64)
    ensures KeepsLength(Mover(sysvar, amount)) && Conserves(Mover(sysvar, amount))
  {
    forall tx: Tx, accounts: seq<Account>
      ensures Balanced(tx, accounts, Mover(sysvar, amount).run(tx, accounts).accounts)
    {
      var post := Moved(tx, accounts, amount);
      if Moves(tx, accounts, amount) {
        assert AllSum(accounts, 2) == AllSum(accounts, 1) + accounts[1].lamports;
        assert AllSum(accounts, 1) == AllSum(accounts, 0) + accounts[0].lamports;
        assert AllSum(post, 2) == AllSum(post, 1) + post[1].lamports;
        assert AllSum(post, 1) == AllSum(post, 0) + post[0].lamports;
      }
    }
  }

  /** The payer and the sysvar, both writable. */
  function Pair(payer: Pubkey, sysvar: Pubkey, fee: u64): Tx {
    Tx([payer, sysvar], [true, true], [false, false], fee, true)
  }

  /** The payer is a system account that has the fee. */
  predicate CanPay(db: Db, payer: Pubkey, fee: u64) {
    && GetAccount(db, payer).Some? && GetAccount(db, payer).value.kind == System
    && 0 < fee <= Lamports(db, payer)
  }

  lemma PairLoads(rt: Runtime, db: Db, payer: Pubkey, fee: u64, amount: u64)
    requires rt == Mover(rt.instructionsId, amount) && payer != rt.instructionsId && CanPay(db, payer, fee)
    ensures var tx := Pair(payer, rt.instructionsId, fee);
            && WellFormed(tx) && Payer(rt, tx) == Some(0)
            && LoadFirst(rt, db, tx, 2)
               == Ok(Loading([Account(Lamports(db, payer) - fee, System), INSTRUCTIONS_ACCOUNT], Some(payer)))
  {
    var tx := Pair(payer, rt.instructionsId, fee);
    var charged := Account(Lamports(db, payer) - fee, System);
    assert [] + [charged] == [charged] && [charged] + [INSTRUCTIONS_ACCOUNT] == [charged, INSTRUCTIONS_ACCOUNT];
    assert LoadFirst(rt, db, tx, 0) == Ok(Loading([], None));
    assert ValidateFeePayer(rt, GetAccount(db, payer).value, fee) == Ok(charged);
    assert LoadFirst(rt, db, tx, 1) == Ok(Loading([charged], Some(payer)));
    assert PayerAmong(rt, tx, 1) == Some(0);
  }

  /** Sending a pair: the payer pays, and the sysvar ends with what was moved to it. */
  lemma PairSent(rt: Runtime, db: Db, payer: Pubkey, fee: u64, amount: u64)
    requires rt == Mover(rt.instructionsId, amount) && payer != rt.instructionsId && CanPay(db, payer, fee)
    requires KeepsLength(rt) && (fee == 1 ==> fee + amount <= Lamports(db, payer))
    ensures WellFormed(Pair(payer, rt.instructionsId, fee))
    ensures var tx := Pair(payer, rt.instructionsId, fee);
            var moved := if fee == 1 then amount else 0;
            var sent := Send(rt, db, tx);
            && Pays(rt, db, tx) && !Fails(rt, db, tx) && Erased(rt, db, tx) == Lamports(db, rt.instructionsId)
            && sent.result == TxResult(true, fee)
            && sent.db == Put(Put(db, payer, Account(Lamports(db, payer) - fee - moved, System)),
                              rt.instructionsId, Account(moved, Other))
  {
    PairLoads(rt, db, payer, fee, amount);
    var tx := Pair(payer, rt.instructionsId, fee);
    var loaded := [Account(Lamports(db, payer) - fee, System), INSTRUCTIONS_ACCOUNT];
    var post := Moved(tx, loaded, amount);
    assert Process(rt, db, tx) == Some(Context(VmResult(true, post), payer));
    assert SysvarLamports(rt, db, tx, 1) == 0;
    assert Commit(db, tx, post, 1) == Put(Commit(db, tx, post, 0), payer, post[0]);
    assert Commit(db, tx, post, 2) == Put(Put(db, payer, post[0]), rt.instructionsId, post[1]);
  }

  lemma RunTwo(rt: Runtime, db: Db, a: Tx, b: Tx)
    requires KeepsLength(rt) && WellFormed(a) && WellFormed(b)
    ensures AllWellFormed([a]) && AllWellFormed([a, b])
    ensures var x := Send(rt, db, a);
            var y := Send(rt, x.db, b);
            && RunAll(rt, db, [a]) == Ran(x.db, [x.result])
            && RunAll(rt, db, [a, b]) == Ran(y.db, [x.result, y.result])
  {
    assert [a][..0] == [] && [a, b][..1] == [a];
    assert RunAll(rt, db, []) == Ran(db, []);
  }

  /** What two transactions that pay and do not fail amount to. */
  lemma TwoSums(rt: Runtime, db: Db, a: Tx, b: Tx)
    requires KeepsLength(rt) && WellFormed(a) && WellFormed(b)
    requires Pays(rt, db, a) && !Fails(rt, db, a)
    requires Pays(rt, Send(rt, db, a).db, b) && !Fails(rt, Send(rt, db, a).db, b)
    ensures AllWellFormed([a, b]) && AllRun(rt, db, [a, b]) && AllCovered(rt, db, [a, b])
    ensures ErasedAll(rt, db, [a, b]) == Erased(rt, db, a) + Erased(rt, Send(rt, db, a).db, b)
  {
    RunTwo(rt, db, a, b);
    assert [a][..0] == [] && [a, b][..1] == [a] && [a, b][..0] == [];
    assert AllRun(rt, db, []) && AllRun(rt, db, [a]);
    assert ErasedAll(rt, db, []) == 0 && ErasedAll(rt, db, [a]) == Erased(rt, db, a);
    forall i | 0 <= i < 2 ensures Covered(rt, db, [a, b], i) {}
  }

  lemma FeesOfTwo(x: TxResult, y: TxResult)
    requires x.fee + y.fee < TWO64
    ensures FeeCount([x, y]) == ReportedAll([x, y]) == x.fee + y.fee
  {
    assert [x, y][..1] == [x] && [x][..0] == [];
    assert ReportedAll([x]) == x.fee && FeeCount([x]) == x.fee;
  }

  /** Two transactions list the sysvar as writable, and the first moves `amount` to it. Both succeed on
      a conserving virtual machine and pay their fees, and yet the block loses `amount`. */
  lemma WritableSysvarLoses(payer: Pubkey, sysvar: Pubkey, leader: Pubkey, amount: u64, held: u64)
    requires payer != sysvar && payer != leader && sysvar != leader && amount + 3 <= held
    ensures var rt, txs := Mover(sysvar, amount), [Pair(payer, sysvar, 1), Pair(payer, sysvar, 2)];
            var db := Db(map[payer := Account(held, System)], map[]);
            && KeepsLength(rt) && Conserves(rt) && AllWellFormed(txs) && AllWithin(txs, {payer, sysvar, leader})
            && AllRun(rt, db, txs) && AllCovered(rt, db, txs)
            && var ran := RunAll(rt, db, txs);
            && var sealed := Seal(ran.db, Some(leader), None, ran.results);
            && sealed.Ok?
            && Total(sealed.value, {payer, sysvar, leader}) + amount == Total(db, {payer, sysvar, leader})
  {
    MoverConserves(sysvar, amount);
    var rt, keys := Mover(sysvar, amount), {payer, sysvar, leader};
    var a, b := Pair(payer, sysvar, 1), Pair(payer, sysvar, 2);
    var db := Db(map[payer := Account(held, System)], map[]);
    PairSent(rt, db, payer, 1, amount);
    var x := Send(rt, db, a);
    PairSent(rt, x.db, payer, 2, amount);
    RunTwo(rt, db, a, b);
    TwoSums(rt, db, a, b);
    FeesOfTwo(TxResult(true, 1), TxResult(true, 2));
    BlockTotal(rt, db, [a, b], Some(leader), None, keys);
    PaidIsReported(rt, db, [a, b]);
    NoDriftAll(rt, db, [a, b]);
  }

  /** The sysvar, and then a read-only account. */
  function ReadOnlyPair(payer: Pubkey, sysvar: Pubkey, fee: u64): Tx {
    Tx([sysvar, payer], [true, false], [false, false], fee, true)
  }

  lemma ReadOnlySent(rt: Runtime, db: Db, payer: Pubkey, fee: u64)
    requires rt == Mover(rt.instructionsId, 0) && payer != rt.instructionsId && CanPay(db, payer, fee)
    requires KeepsLength(rt) && fee != 1
    ensures var tx := ReadOnlyPair(payer, rt.instructionsId, fee);
            && WellFormed(tx) && Reaches(rt, db, tx) && !Fails(rt, db, tx) && Payer(rt, tx) == Some(1)
            && Send(rt, db, tx) == Sent(Put(db, rt.instructionsId, INSTRUCTIONS_ACCOUNT), TxResult(true, fee))
  {
    var tx := ReadOnlyPair(payer, rt.instructionsId, fee);
    var charged := Account(Lamports(db, payer) - fee, System);
    var loaded := [INSTRUCTIONS_ACCOUNT, charged];
    assert [] + [INSTRUCTIONS_ACCOUNT] == [INSTRUCTIONS_ACCOUNT] && [INSTRUCTIONS_ACCOUNT] + [charged] == loaded;
    assert LoadFirst(rt, db, tx, 0) == Ok(Loading([], None));
    assert LoadFirst(rt, db, tx, 1) == Ok(Loading([INSTRUCTIONS_ACCOUNT], None));
    assert ValidateFeePayer(rt, GetAccount(db, payer).value, fee) == Ok(charged);
    assert LoadFirst(rt, db, tx, 2) == Ok(Loading(loaded, Some(payer)));
    assert PayerAmong(rt, tx, 1) == None;
    assert Process(rt, db, tx) == Some(Context(VmResult(true, loaded), payer));
    assert Commit(db, tx, loaded, 1) == Put(Commit(db, tx, loaded, 0), rt.instructionsId, INSTRUCTIONS_ACCOUNT);
  }

  lemma RunOne(rt: Runtime, db: Db, tx: Tx)
    requires KeepsLength(rt) && WellFormed(tx)
    ensures AllWellFormed([tx])
    ensures RunAll(rt, db, [tx]) == Ran(Send(rt, db, tx).db, [Send(rt, db, tx).result])
  {
    assert [tx][..0] == [];
    assert RunAll(rt, db, []) == Ran(db, []);
  }

  lemma FeesOfOne(x: TxResult)
    ensures FeeCount([x]) == x.fee
  {
    assert [x][..0] == [];
  }

  /** The sysvar first, and then a read-only account: that account is the payer that is checked, its
      fee is reported and credited, and the account is not written back. */
  lemma ReadOnlyPayerMints(rt: Runtime, db: Db, payer: Pubkey, leader: Pubkey, fee: u64, keys: set<Pubkey>)
    requires rt == Mover(rt.instructionsId, 0) && payer != rt.instructionsId && CanPay(db, payer, fee) && fee != 1
    requires leader in keys && payer in keys && rt.instructionsId in keys && leader != rt.instructionsId
    requires Lamports(db, rt.instructionsId) == 0 && Lamports(db, leader) + fee < TWO64
    ensures var tx := ReadOnlyPair(payer, rt.instructionsId, fee);
            && KeepsLength(rt) && Conserves(rt) && AllWellFormed([tx])
            && Reaches(rt, db, tx) && !Fails(rt, db, tx) && Paid(rt, db, tx) == 0
            && var ran := RunAll(rt, db, [tx]);
            && var sealed := Seal(ran.db, Some(leader), None, ran.results);
            && sealed.Ok? && Total(sealed.value, keys) == Total(db, keys) + fee
  {
    MoverConserves(rt.instructionsId, 0);
    var tx := ReadOnlyPair(payer, rt.instructionsId, fee);
    ReadOnlySent(rt, db, payer, fee);
    RunOne(rt, db, tx);
    FeesOfOne(TxResult(true, fee));
    PutTotal(db, rt.instructionsId, INSTRUCTIONS_ACCOUNT, keys);
    MintTotal(Send(rt, db, tx).db, None, leader, fee, keys);
  }
}
