/** Block execution as it updates the account overlay in place:
    `crates/executor/svm/src/lib.rs` and `crates/executor/svm/src/accounts_db.rs`. */
module Bank {
  import opened Bytes
  import opened Blocks
  import opened Fees
  import opened Labels

  lemma RunAllSnoc(rt: Runtime, db: Db, txs: seq<Tx>, tx: Tx)
    requires AllWellFormed(txs) && WellFormed(tx) && KeepsLength(rt)
    ensures AllWellFormed(txs + [tx])
    ensures var before := RunAll(rt, db, txs);
            var sent := Send(rt, before.db, tx);
            RunAll(rt, db, txs + [tx]) == Ran(sent.db, before.results + [sent.result])
  {
    assert (txs + [tx])[..|txs|] == txs;
  }

  /** `ran` followed by `more`. */
  function Then(ran: Ran, more: Ran): Ran {
    Ran(more.db, ran.results + more.results)
  }

  lemma {:induction false} RunAllSplit(rt: Runtime, db: Db, a: seq<Tx>, b: seq<Tx>)
    requires AllWellFormed(a) && AllWellFormed(b) && AllWellFormed(a + b) && KeepsLength(rt)
    ensures RunAll(rt, db, a + b) == Then(RunAll(rt, db, a), RunAll(rt, RunAll(rt, db, a).db, b))
  {
    var first := RunAll(rt, db, a);
    if b == [] {
      assert a + b == a;
      assert first.results + [] == first.results;
    } else {
      var init, last := b[..|b| - 1], b[|b| - 1];
      assert b == init + [last] && a + b == (a + init) + [last];
      RunAllSplit(rt, db, a, init);
      RunAllSnoc(rt, first.db, init, last);
      RunAllSnoc(rt, db, a + init, last);
      var second := RunAll(rt, first.db, init);
      var sent := Send(rt, second.db, last);
      assert (first.results + second.results) + [sent.result] == first.results + (second.results + [sent.result]);
    }
  }

  class LiteSvm {
    const base: map<Pubkey, Account>
    var diff: map<Pubkey, Account>

    constructor (base: map<Pubkey, Account>)
      ensures Accounts() == Db(base, map[])
    {
      this.base, diff := base, map[];
    }

    function Accounts(): Db
      reads this
    {
      Db(base, diff)
    }

    method AddDiffAccount(minimum: Option<u64>, key: Pubkey, account: Account) returns (r: Result<(), DbError>)
      modifies this
      ensures var next := AddDiff(old(Accounts()), minimum, key, account);
              if next.Err? then r == Err(next.error) && Accounts() == old(Accounts())
              else r == Ok(()) && Accounts() == next.value
    {
      if minimum.Some? && account.lamports < minimum.value {
        return Err(InsufficientLamports);
      }
      diff := diff[key := account];
      r := Ok(());
    }

    method MintTo(minimum: Option<u64>, key: Pubkey, amount: u64) returns (r: Result<(), DbError>)
      modifies this
      ensures var next := Mint(old(Accounts()), minimum, key, amount);
              if next.Err? then r == Err(next.error) && Accounts() == old(Accounts())
              else r == Ok(()) && Accounts() == next.value
    {
      var found := GetAccount(Accounts(), key);
      var account: Account;
      if found.Some? {
        if found.value.lamports + amount >= TWO64 {
          return Err(ArithmeticOverflow);
        }
        account := found.value.(lamports := found.value.lamports + amount);
      } else {
        account := Account(amount, System);
      }
      r := AddDiffAccount(minimum, key, account);
    }

    method BurnFrom(minimum: Option<u64>, key: Pubkey, amount: u64) returns (r: Result<(), DbError>)
      modifies this
      ensures var next := Burn(old(Accounts()), minimum, key, amount);
              if next.Err? then r == Err(next.error) && Accounts() == old(Accounts())
              else r == Ok(()) && Accounts() == next.value
    {
      var found := GetAccount(Accounts(), key);
      if found.None? {
        return Err(MissingAccount);
      }
      if found.value.lamports < amount {
        return Err(ArithmeticOverflow);
      }
      r := AddDiffAccount(minimum, key, found.value.(lamports := found.value.lamports - amount));
    }

    /** The loading loop; the first key that is not merely an invoked program pays. */
    method LoadAccounts(rt: Runtime, tx: Tx) returns (r: Result<Loading, TxError>)
      requires WellFormed(tx)
      ensures r == LoadFirst(rt, Accounts(), tx, |tx.keys|)
    {
      var accounts: seq<Account> := [];
      var payer := None;
      var i := 0;
      while i < |tx.keys|
        invariant 0 <= i <= |tx.keys|
        invariant LoadFirst(rt, Accounts(), tx, i) == Ok(Loading(accounts, payer))
      {
        var key := tx.keys[i];
        ghost var next := LoadNext(rt, Accounts(), tx, Loading(accounts, payer), i);
        assert LoadFirst(rt, Accounts(), tx, i + 1) == next;
        if key == rt.instructionsId {
          accounts := accounts + [INSTRUCTIONS_ACCOUNT];
        } else {
          var found := GetAccount(Accounts(), key);
          var account := if found.Some? then found.value else DEFAULT_ACCOUNT;
          if !rt.loads(key, account) {
            LoadFails(rt, Accounts(), tx, i + 1);
            return Err(AccountNotFound);
          }
          if payer.None? && !tx.skips[i] {
            var charged := ValidateFeePayer(rt, account, tx.fee);
            if charged.Err? {
              LoadFails(rt, Accounts(), tx, i + 1);
              return Err(charged.error);
            }
            account := charged.value;
            payer := Some(key);
          }
          accounts := accounts + [account];
        }
        assert next == Ok(Loading(accounts, payer));
        i := i + 1;
      }
      r := Ok(Loading(accounts, payer));
    }

    method SendTransaction(rt: Runtime, tx: Tx) returns (result: TxResult)
      requires WellFormed(tx) && KeepsLength(rt)
      modifies this
      ensures Sent(Accounts(), result) == Send(rt, old(Accounts()), tx)
    {
      if !tx.admitted {
        return TxResult(false, 0);
      }
      var loaded := LoadAccounts(rt, tx);
      if loaded.Err? || loaded.value.payer.None? || !rt.resolves(tx, loaded.value.accounts) {
        return TxResult(false, tx.fee);
      }
      var ran := rt.run(tx, loaded.value.accounts);
      if !ran.ok {
        var burned := BurnFrom(None, loaded.value.payer.value, tx.fee);
        if burned.Err? {
          return TxResult(false, tx.fee);
        }
      }
      WriteBack(tx, ran.accounts);
      result := TxResult(true, tx.fee);
    }

    method WriteBack(tx: Tx, accounts: seq<Account>)
      requires |tx.keys| == |tx.writable| == |accounts|
      modifies this
      ensures Accounts() == Commit(old(Accounts()), tx, accounts, |tx.keys|)
    {
      for i := 0 to |tx.keys|
        invariant Accounts() == Commit(old(Accounts()), tx, accounts, i)
      {
        if tx.writable[i] {
          diff := diff[tx.keys[i] := accounts[i]];
        }
      }
    }

    method SealBlock(leader: Option<Pubkey>, minimum: Option<u64>, results: seq<TxResult>)
      returns (r: Result<(), DbError>)
      modifies this
      ensures var next := Seal(old(Accounts()), leader, minimum, results);
              if next.Err? then r == Err(next.error) && Accounts() == old(Accounts())
              else r == Ok(()) && Accounts() == next.value
    {
      var fees: u64 := 0;
      for i := 0 to |results|
        invariant fees == FeeCount(results[..i])
      {
        assert results[..i + 1][..i] == results[..i];
        fees := (fees + results[i].fee) % TWO64;
      }
      assert results[..|results|] == results;
      if fees > 0 && leader.Some? {
        r := MintTo(minimum, leader.value, fees);
      } else {
        r := Ok(());
      }
    }

    method ExecuteBatch(rt: Runtime, batch: seq<Tx>) returns (results: seq<TxResult>)
      requires AllWellFormed(batch) && KeepsLength(rt)
      modifies this
      ensures Ran(Accounts(), results) == RunAll(rt, old(Accounts()), batch)
    {
      results := [];
      for i := 0 to |batch|
        invariant Ran(Accounts(), results) == RunAll(rt, old(Accounts()), batch[..i])
      {
        assert batch[..i + 1][..i] == batch[..i];
        var result := SendTransaction(rt, batch[i]);
        results := results + [result];
      }
      assert batch[..|batch|] == batch;
    }

    /** Runs the batches in order, then credits the leader; if crediting fails the block fails
        with the transactions already written. */
    method ExecuteBlock(rt: Runtime, batches: seq<seq<Tx>>, leader: Option<Pubkey>, minimum: Option<u64>)
      returns (r: Result<seq<TxResult>, DbError>)
      requires forall i :: 0 <= i < |batches| ==> AllWellFormed(batches[i])
      requires KeepsLength(rt)
      modifies this
      ensures AllWellFormed(Flattened(batches))
      ensures var ran := RunAll(rt, old(Accounts()), Flattened(batches));
              var sealed := Seal(ran.db, leader, minimum, ran.results);
              if sealed.Err? then r == Err(sealed.error) && Accounts() == ran.db
              else r == Ok(ran.results) && Accounts() == sealed.value
    {
      var results: seq<TxResult> := [];
      for i := 0 to |batches|
        invariant AllWellFormed(Flattened(batches[..i]))
        invariant Ran(Accounts(), results) == RunAll(rt, old(Accounts()), Flattened(batches[..i]))
      {
        assert batches[..i + 1][..i] == batches[..i];
        RunAllSplit(rt, old(Accounts()), Flattened(batches[..i]), batches[i]);
        var more := ExecuteBatch(rt, batches[i]);
        results := results + more;
      }
      assert batches[..|batches|] == batches;
      var sealed := SealBlock(leader, minimum, results);
      r := if sealed.Err? then Err(sealed.error) else Ok(results);
    }
  }

  lemma {:induction false} LoadFails(rt: Runtime, db: Db, tx: Tx, n: nat)
    requires WellFormed(tx) && n <= |tx.keys| && LoadFirst(rt, db, tx, n).Err?
    ensures LoadFirst(rt, db, tx, |tx.keys|) == LoadFirst(rt, db, tx, n)
    decreases |tx.keys| - n
  {
    if n < |tx.keys| {
      LoadFails(rt, db, tx, n + 1);
    }
  }
}
