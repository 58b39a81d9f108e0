/** What a transaction does to each account, and the results of minting, burning and loading:
    `crates/executor/svm/src/lib.rs` and `crates/executor/svm/src/accounts_db.rs`. */
module FeeAccounts {
  import opened Bytes
  import opened Blocks
  import opened Sums
  import opened Fees

  /** Every account but that of `key` is as before. */
  ghost predicate OnlyChanges(db: Db, next: Db, key: Pubkey) {
    forall k :: k != key ==> GetAccount(next, k) == GetAccount(db, k)
  }

  /** Minting adds to one account, which it may create; it fails exactly on an overflow, or below the
      minimum it is asked to check. */
  lemma MintExactly(db: Db, minimum: Option<u64>, key: Pubkey, amount: u64)
    ensures var m, lamports := Mint(db, minimum, key, amount), Lamports(db, key) + amount;
            && (m == Err(ArithmeticOverflow) <==> lamports >= TWO64)
            && (m == Err(InsufficientLamports) <==> lamports < TWO64 && minimum.Some? && lamports < minimum.value)
            && (m.Ok? <==> lamports < TWO64 && (minimum.Some? ==> minimum.value <= lamports))
            && (m.Ok? ==>
                  && OnlyChanges(db, m.value, key)
                  && var kind := if GetAccount(db, key).Some? then GetAccount(db, key).value.kind else System;
                  && GetAccount(m.value, key) == Some(Account(lamports, kind)))
  {
  }

  /** Burning takes from one account that is there and has it. */
  lemma BurnExactly(db: Db, minimum: Option<u64>, key: Pubkey, amount: u64)
    ensures var b, a := Burn(db, minimum, key, amount), GetAccount(db, key);
            && (b == Err(MissingAccount) <==> a.None?)
            && (b == Err(ArithmeticOverflow) <==> a.Some? && a.value.lamports < amount)
            && (b == Err(InsufficientLamports) <==>
                  a.Some? && amount <= a.value.lamports && minimum.Some? && a.value.lamports - amount < minimum.value)
            && (b.Ok? ==>
                  && OnlyChanges(db, b.value, key)
                  && GetAccount(b.value, key) == Some(Account(a.value.lamports - amount, a.value.kind)))
  {
  }

  /** Sealing credits the leader with what the results report, wrapped to 64 bits, and nobody else. */
  lemma SealExactly(db: Db, leader: Option<Pubkey>, minimum: Option<u64>, results: seq<TxResult>)
    ensures var s := Seal(db, leader, minimum, results);
            && (s.Ok? && leader.Some? ==>
                  && OnlyChanges(db, s.value, leader.value)
                  && Lamports(s.value, leader.value) == Lamports(db, leader.value) + ReportedAll(results) % TWO64)
            && (leader.None? ==> s == Ok(db))
  {
    FeeCountWraps(results);
    if leader.Some? { MintExactly(db, minimum, leader.value, FeeCount(results)); }
  }

  // ---- Loading -------------------------------------------------------------

  /** The account of a key as it is found: a missing one is an empty system account. */
  function Found(db: Db, key: Pubkey): Account {
    if GetAccount(db, key).Some? then GetAccount(db, key).value else Account(0, System)
  }

  /** What is loaded for key `i`: nothing of the instructions sysvar, the payer without the fee, and the
      others as they are. */
  ghost predicate LoadedAt(rt: Runtime, db: Db, tx: Tx, i: nat, account: Account)
    requires WellFormed(tx) && i < |tx.keys|
  {
    var found := Found(db, tx.keys[i]);
    if tx.keys[i] == rt.instructionsId then account == Account(0, Other)
    else if Payer(rt, tx) == Some(i) then
      tx.fee <= found.lamports && account == Account(found.lamports - tx.fee, found.kind)
    else account == found
  }

  /** Key `i` does not stop the loading. */
  ghost predicate Loads(rt: Runtime, db: Db, tx: Tx, i: nat)
    requires WellFormed(tx) && i < |tx.keys|
  {
    tx.keys[i] != rt.instructionsId ==>
      && rt.loads(tx.keys[i], Found(db, tx.keys[i]))
      && (Payer(rt, tx) == Some(i) ==> ValidateFeePayer(rt, Found(db, tx.keys[i]), tx.fee).Ok?)
  }

  /** The first key that may pay stays the payer. */
  lemma {:induction false} PayerStays(rt: Runtime, tx: Tx, m: nat, n: nat)
    requires m <= n <= |tx.keys| == |tx.skips|
    ensures PayerAmong(rt, tx, m).Some? ==> PayerAmong(rt, tx, n) == PayerAmong(rt, tx, m)
    ensures PayerAmong(rt, tx, m).None? && PayerAmong(rt, tx, n).Some? ==> m <= PayerAmong(rt, tx, n).value
    decreases n - m
  {
    if m < n { PayerStays(rt, tx, m, n - 1); }
  }

  /** Who pays: the first key that is neither the instructions sysvar nor only an invoked program. */
  lemma {:induction false} PayerIsFirst(rt: Runtime, tx: Tx, n: nat)
    requires n <= |tx.keys| == |tx.skips|
    ensures PayerAmong(rt, tx, n).None?
            <==> forall i :: 0 <= i < n ==> tx.keys[i] == rt.instructionsId || tx.skips[i]
    ensures PayerAmong(rt, tx, n).Some? ==>
              var p := PayerAmong(rt, tx, n).value;
              && tx.keys[p] != rt.instructionsId && !tx.skips[p]
              && forall i :: 0 <= i < p ==> tx.keys[i] == rt.instructionsId || tx.skips[i]
  {
    if n > 0 { PayerIsFirst(rt, tx, n - 1); }
  }

  lemma PayerHere(rt: Runtime, tx: Tx, i: nat)
    requires WellFormed(tx) && i < |tx.keys|
    ensures Payer(rt, tx) == Some(i)
            <==> PayerAmong(rt, tx, i).None? && tx.keys[i] != rt.instructionsId && !tx.skips[i]
  {
    PayerStays(rt, tx, i, |tx.keys|);
    PayerStays(rt, tx, i + 1, |tx.keys|);
  }

  /** Loading succeeds exactly if no key stops it, and this is what is loaded. */
  lemma {:induction false} LoadedExactly(rt: Runtime, db: Db, tx: Tx, n: nat)
    requires WellFormed(tx) && n <= |tx.keys|
    ensures LoadFirst(rt, db, tx, n).Ok? <==> forall i: nat :: i < n ==> Loads(rt, db, tx, i)
    ensures LoadFirst(rt, db, tx, n).Ok? ==>
              var so, p := LoadFirst(rt, db, tx, n).value, PayerAmong(rt, tx, n);
              && so.payer == (if p.Some? then Some(tx.keys[p.value]) else None)
              && forall i: nat :: i < n ==> LoadedAt(rt, db, tx, i, so.accounts[i])
  {
    if n > 0 {
      LoadedExactly(rt, db, tx, n - 1);
      var before := LoadFirst(rt, db, tx, n - 1);
      if before.Ok? {
        PayerHere(rt, tx, n - 1);
        PayerExactly(rt, Found(db, tx.keys[n - 1]), tx.fee);
        LoadedNext(rt, db, tx, before.value, n - 1);
      }
    }
  }

  lemma LoadedNext(rt: Runtime, db: Db, tx: Tx, so: Loading, i: nat)
    requires WellFormed(tx) && i < |tx.keys| == |tx.skips| && |so.accounts| == i
    requires so.payer.None? <==> PayerAmong(rt, tx, i).None?
    requires Payer(rt, tx) == Some(i)
             <==> PayerAmong(rt, tx, i).None? && tx.keys[i] != rt.instructionsId && !tx.skips[i]
    ensures LoadNext(rt, db, tx, so, i).Ok? <==> Loads(rt, db, tx, i)
    ensures LoadNext(rt, db, tx, so, i).Ok? ==>
              var next := LoadNext(rt, db, tx, so, i).value;
              && |next.accounts| == i + 1 && next.accounts[..i] == so.accounts
              && LoadedAt(rt, db, tx, i, next.accounts[i])
  {
    if tx.keys[i] != rt.instructionsId { PayerExactly(rt, Found(db, tx.keys[i]), tx.fee); }
  }

  // ---- Writing back --------------------------------------------------------

  /** Writing back sets exactly the writable accounts among the first `n`. */
  lemma {:induction false} CommittedExactly(db: Db, tx: Tx, accounts: seq<Account>, n: nat)
    requires n <= |tx.keys| == |tx.writable| == |accounts|
    requires forall i, j :: 0 <= i < j < |tx.keys| ==> tx.keys[i] != tx.keys[j]
    ensures var next := Commit(db, tx, accounts, n);
            && (forall i :: 0 <= i < n && tx.writable[i] ==> GetAccount(next, tx.keys[i]) == Some(accounts[i]))
            && forall k :: (forall i :: 0 <= i < n && tx.writable[i] ==> tx.keys[i] != k) ==>
                 GetAccount(next, k) == GetAccount(db, k)
  {
    if n > 0 { CommittedExactly(db, tx, accounts, n - 1); }
  }

  ghost predicate Writes(tx: Tx, k: Pubkey)
    requires |tx.keys| == |tx.writable|
  {
    exists i :: 0 <= i < |tx.keys| && tx.writable[i] && tx.keys[i] == k
  }

  /** What a transaction leaves: nothing changed, unless it reaches the virtual machine; then its writable
      accounts are what the run on the loaded accounts made of them, whether it failed or not, and no other
      account has changed, except that a read-only payer of a failed run has lost the fee. */
  lemma SendExactly(rt: Runtime, db: Db, tx: Tx)
    requires WellFormed(tx) && KeepsLength(rt)
    ensures var s := Send(rt, db, tx);
            && (!tx.admitted ==> s == Sent(db, TxResult(false, 0)))
            && (tx.admitted && !Reaches(rt, db, tx) ==> s == Sent(db, TxResult(false, tx.fee)))
            && (Reaches(rt, db, tx) <==>
                  && tx.admitted && LoadFirst(rt, db, tx, |tx.keys|).Ok? && Payer(rt, tx).Some?
                  && rt.resolves(tx, LoadFirst(rt, db, tx, |tx.keys|).value.accounts))
            && (Reaches(rt, db, tx) ==>
                  var loaded := LoadFirst(rt, db, tx, |tx.keys|).value.accounts;
                  var ran := rt.run(tx, loaded);
                  var payer := tx.keys[Payer(rt, tx).value];
                  && tx.fee <= Found(db, payer).lamports
                  && s.result == TxResult(true, tx.fee) && (Fails(rt, db, tx) <==> !ran.ok)
                  && (forall i :: 0 <= i < |tx.keys| && tx.writable[i] ==>
                        GetAccount(s.db, tx.keys[i]) == Some(ran.accounts[i]))
                  && forall k :: !Writes(tx, k) ==>
                       if Fails(rt, db, tx) && k == payer
                       then GetAccount(s.db, k) == Some(Account(Found(db, k).lamports - tx.fee, Found(db, k).kind))
                       else GetAccount(s.db, k) == GetAccount(db, k))
  {
    var n := |tx.keys|;
    LoadedExactly(rt, db, tx, n);
    if Reaches(rt, db, tx) {
      LoadedSum(rt, db, tx, n);
      BurnSucceeds(rt, db, tx);
      var payer := tx.keys[Payer(rt, tx).value];
      BurnExactly(db, None, payer, tx.fee);
      var charged := if Fails(rt, db, tx) then Burn(db, None, payer, tx.fee).value else db;
      CommittedExactly(charged, tx, Process(rt, db, tx).value.result.accounts, n);
    }
  }
}
