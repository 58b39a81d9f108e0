/** Head and Body labels of a block's transaction batches: `crates/executor/svm/src/block.rs` and
    `crates/primitives/src/l2blocks.rs`. */
module Labels {
  import opened Bytes

  /** A transaction that opens a batch of the given length, or continues one. */
  datatype L2Transaction<T> = Head(length: nat, headTx: T) | Body(bodyTx: T) {
    function Transaction(): T {
      if Head? then headTx else bodyTx
    }
  }

  // ---- Labelling and grouping ----------------------------------------------

  /** `from_tx_batch` */
  function FromTxBatch<T>(batch: seq<T>): (r: seq<L2Transaction<T>>)
    ensures |r| == |batch|
  {
    seq(|batch|, i requires 0 <= i < |batch| => if i == 0 then Head(|batch|, batch[0]) else Body(batch[i]))
  }

  /** `RawBlock` to `L2Block` */
  function ToL2Block<T>(raw: seq<seq<T>>): seq<L2Transaction<T>> {
    if raw == [] then [] else ToL2Block(raw[..|raw| - 1]) + FromTxBatch(raw[|raw| - 1])
  }

  /** Full batches, and the batch still open. */
  datatype Groups<T> = Groups(batches: seq<seq<T>>, open: seq<T>)

  function Grouped<T>(txs: seq<L2Transaction<T>>): Groups<T> {
    if txs == [] then Groups([], [])
    else
      var g := Grouped(txs[..|txs| - 1]);
      match txs[|txs| - 1]
      case Head(_, tx) => Groups(Flushed(g), [tx])
      case Body(tx) => Groups(g.batches, g.open + [tx])
  }

  function Flushed<T>(g: Groups<T>): seq<seq<T>> {
    if g.open == [] then g.batches else g.batches + [g.open]
  }

  /** The batches of a list, whatever its labels say of their lengths. */
  function ToRawBlock<T>(txs: seq<L2Transaction<T>>): seq<seq<T>> {
    Flushed(Grouped(txs))
  }

  /** How many values `usize` has, and for how many transactions a vector can be asked to have room. */
  datatype Machine = Machine(usize: nat, capacity: nat)

  /** `Vec::with_capacity` of a length cast to `usize` does not panic. */
  predicate HasRoom(m: Machine, length: nat)
    requires m.usize > 0
  {
    length % m.usize <= m.capacity
  }

  predicate RoomAt<T>(m: Machine, txs: seq<L2Transaction<T>>, i: nat)
    requires m.usize > 0 && i < |txs|
  {
    txs[i].Head? ==> HasRoom(m, txs[i].length)
  }

  predicate AllRoom<T>(m: Machine, txs: seq<L2Transaction<T>>)
    requires m.usize > 0
  {
    forall i :: 0 <= i < |txs| ==> RoomAt(m, txs, i)
  }

  datatype Conversion<T> = Converted(raw: seq<seq<T>>) | CapacityPanic

  /** What `L2Block` to `RawBlock` comes to: a panic if some Head asks for too much room, and otherwise
      the batches. */
  function ConversionOf<T>(m: Machine, txs: seq<L2Transaction<T>>): Conversion<T>
    requires m.usize > 0
  {
    if AllRoom(m, txs) then Converted(ToRawBlock(txs)) else CapacityPanic
  }

  /** `L2Block` to `RawBlock`. Room is asked for before a Head's batch is opened; the length has no
      other use. */
  method RawBlockFrom<T>(m: Machine, txs: seq<L2Transaction<T>>) returns (r: Conversion<T>)
    requires m.usize > 0
    ensures r == ConversionOf(m, txs)
  {
    var batches: seq<seq<T>> := [];
    var batch: seq<T> := [];
    for i := 0 to |txs|
      invariant Grouped(txs[..i]) == Groups(batches, batch)
      invariant forall j :: 0 <= j < i ==> RoomAt(m, txs, j)
    {
      assert txs[..i + 1][..i] == txs[..i];
      match txs[i]
      case Head(length, tx) =>
        if batch != [] {
          batches := batches + [batch];
        }
        if length % m.usize > m.capacity {
          assert !RoomAt(m, txs, i);
          return CapacityPanic;
        }
        batch := [tx];
      case Body(tx) =>
        batch := batch + [tx];
    }
    assert txs[..|txs|] == txs;
    if batch != [] {
      batches := batches + [batch];
    }
    return Converted(batches);
  }

  // ---- RawBlock to L2Block and back ----------------------------------------

  function NonEmpty<T>(raw: seq<seq<T>>): seq<seq<T>> {
    if raw == [] then []
    else
      var init, last := NonEmpty(raw[..|raw| - 1]), raw[|raw| - 1];
      if last == [] then init else init + [last]
  }

  /** Transactions with the batch structure left out. */
  function Transactions<T>(txs: seq<L2Transaction<T>>): (r: seq<T>)
    ensures |r| == |txs|
  {
    seq(|txs|, i requires 0 <= i < |txs| => txs[i].Transaction())
  }

  lemma {:induction false} GroupedBodies<T>(a: seq<L2Transaction<T>>, batch: seq<T>, n: nat)
    requires n <= |batch|
    ensures var g := Grouped(a);
            var h := Grouped(a + FromTxBatch(batch)[..n]);
            if n == 0 then h == g else h == Groups(Flushed(g), batch[..n])
  {
    var b := FromTxBatch(batch);
    if n == 0 {
      assert a + b[..0] == a;
    } else {
      GroupedBodies(a, batch, n - 1);
      assert (a + b[..n])[..|a| + n - 1] == a + b[..n - 1];
      assert (a + b[..n])[|a| + n - 1] == b[n - 1];
      assert batch[..n] == batch[..n - 1] + [batch[n - 1]];
    }
  }

  /** Grouping a labelled batch closes what was open and opens that batch. */
  lemma GroupedBatch<T>(a: seq<L2Transaction<T>>, batch: seq<T>)
    ensures ToRawBlock(a + FromTxBatch(batch)) == ToRawBlock(a) + (if batch == [] then [] else [batch])
  {
    GroupedBodies(a, batch, |batch|);
    assert FromTxBatch(batch)[..|batch|] == FromTxBatch(batch) && batch[..|batch|] == batch;
  }

  lemma {:induction false} LabelledGroups<T>(raw: seq<seq<T>>)
    ensures ToRawBlock(ToL2Block(raw)) == NonEmpty(raw)
  {
    if raw != [] {
      LabelledGroups(raw[..|raw| - 1]);
      GroupedBatch(ToL2Block(raw[..|raw| - 1]), raw[|raw| - 1]);
    }
  }

  lemma RoomAppend<T>(m: Machine, a: seq<L2Transaction<T>>, b: seq<L2Transaction<T>>)
    requires m.usize > 0
    ensures AllRoom(m, a + b) <==> AllRoom(m, a) && AllRoom(m, b)
  {
    forall i | 0 <= i < |a| ensures RoomAt(m, a + b, i) <==> RoomAt(m, a, i) {}
    forall i | 0 <= i < |b| ensures RoomAt(m, a + b, |a| + i) <==> RoomAt(m, b, i) {}
    if AllRoom(m, a) && AllRoom(m, b) {
      forall i | 0 <= i < |a + b| ensures RoomAt(m, a + b, i) {
        assert if i < |a| then RoomAt(m, a, i) else RoomAt(m, b, i - |a|);
      }
    }
  }

  lemma RoomOfBatch<T>(m: Machine, batch: seq<T>)
    requires m.usize > 0
    ensures AllRoom(m, FromTxBatch(batch)) <==> batch == [] || HasRoom(m, |batch|)
  {
    var txs := FromTxBatch(batch);
    if batch != [] {
      assert RoomAt(m, txs, 0) <==> HasRoom(m, |batch|);
    }
  }

  lemma {:induction false} RoomOfBlock<T>(m: Machine, raw: seq<seq<T>>)
    requires m.usize > 0
    ensures AllRoom(m, ToL2Block(raw)) <==> forall batch :: batch in raw && batch != [] ==> HasRoom(m, |batch|)
  {
    if raw != [] {
      var init, last := raw[..|raw| - 1], raw[|raw| - 1];
      RoomOfBlock(m, init);
      RoomAppend(m, ToL2Block(init), FromTxBatch(last));
      RoomOfBatch(m, last);
      assert raw == init + [last];
    }
  }

  /** Labelling and grouping again drops exactly the empty batches, if there is room for each batch, as
      there is for batches that were built; and panics if not. */
  lemma RawRoundTrip<T>(m: Machine, raw: seq<seq<T>>)
    requires m.usize > 0
    ensures ConversionOf(m, ToL2Block(raw))
            == if forall batch :: batch in raw && batch != [] ==> HasRoom(m, |batch|) then Converted(NonEmpty(raw))
               else CapacityPanic
  {
    LabelledGroups(raw);
    RoomOfBlock(m, raw);
  }

  // ---- L2Block to RawBlock and back ----------------------------------------

  /** The Head at `i` counts itself and the bodies up to the next Head or the end. */
  predicate CountsRun<T>(txs: seq<L2Transaction<T>>, i: nat)
    requires i < |txs|
  {
    txs[i].Head? ==>
      var end := i + txs[i].length;
      && i < end <= |txs|
      && (forall j :: i < j < end ==> txs[j].Body?)
      && (end < |txs| ==> txs[end].Head?)
  }

  /** Empty, or starting with a Head, and every Head counts its run. */
  predicate WellLabelled<T>(txs: seq<L2Transaction<T>>) {
    && (txs != [] ==> txs[0].Head?)
    && forall i: nat :: i < |txs| ==> CountsRun(txs, i)
  }

  /** Where the last Head stands. */
  function LastHead<T>(txs: seq<L2Transaction<T>>): (h: nat)
    requires txs != [] && txs[0].Head?
    ensures h < |txs| && txs[h].Head?
    ensures forall j :: h < j < |txs| ==> txs[j].Body?
  {
    if txs[|txs| - 1].Head? then |txs| - 1 else LastHead(txs[..|txs| - 1])
  }

  /** The last batch of a well-labelled list stands alone behind a well-labelled list. */
  lemma LastRun<T>(txs: seq<L2Transaction<T>>)
    requires txs != [] && WellLabelled(txs)
    ensures var h := LastHead(txs);
            && WellLabelled(txs[..h])
            && txs[h..] == FromTxBatch(Transactions(txs[h..]))
  {
    var h := LastHead(txs);
    assert CountsRun(txs, h);
    var init := txs[..h];
    forall i: nat | i < |init| ensures CountsRun(init, i) {
      assert CountsRun(txs, i);
    }
  }

  lemma {:induction false} WellLabelledRoundTrip<T>(txs: seq<L2Transaction<T>>)
    requires WellLabelled(txs)
    ensures ToL2Block(ToRawBlock(txs)) == txs
  {
    if txs != [] {
      var h := LastHead(txs);
      LastRun(txs);
      var init, batch := txs[..h], Transactions(txs[h..]);
      WellLabelledRoundTrip(init);
      assert txs == init + FromTxBatch(batch);
      GroupedBatch(init, batch);
      assert (ToRawBlock(init) + [batch])[..|ToRawBlock(init)|] == ToRawBlock(init);
    }
  }

  lemma WellLabelledAppend<T>(a: seq<L2Transaction<T>>, batch: seq<T>)
    requires WellLabelled(a)
    ensures WellLabelled(a + FromTxBatch(batch))
  {
    var b := FromTxBatch(batch);
    forall i: nat | i < |a + b| ensures CountsRun(a + b, i) {
      if i < |a| { assert CountsRun(a, i); }
    }
  }

  /** Whatever the batches, labelling them gives a well-labelled list with the transactions in order. */
  lemma {:induction false} LabelsWell<T>(raw: seq<seq<T>>)
    ensures WellLabelled(ToL2Block(raw))
  {
    if raw != [] {
      LabelsWell(raw[..|raw| - 1]);
      WellLabelledAppend(ToL2Block(raw[..|raw| - 1]), raw[|raw| - 1]);
    }
  }

  /** Grouping and labelling again is the identity exactly on well-labelled lists with room for their
      batches. */
  lemma L2RoundTrip<T>(m: Machine, txs: seq<L2Transaction<T>>)
    requires m.usize > 0
    ensures var r := ConversionOf(m, txs);
            r.Converted? && ToL2Block(r.raw) == txs <==> WellLabelled(txs) && AllRoom(m, txs)
  {
    if WellLabelled(txs) { WellLabelledRoundTrip(txs); }
    LabelsWell(ToRawBlock(txs));
  }

  /** The transactions of a block in execution order. */
  function Flattened<T>(raw: seq<seq<T>>): seq<T> {
    if raw == [] then [] else Flattened(raw[..|raw| - 1]) + raw[|raw| - 1]
  }

  lemma TransactionsAppend<T>(a: seq<L2Transaction<T>>, b: seq<L2Transaction<T>>)
    ensures Transactions(a + b) == Transactions(a) + Transactions(b)
  {
  }

  lemma TransactionsOfBatch<T>(batch: seq<T>)
    ensures Transactions(FromTxBatch(batch)) == batch
  {
  }

  /** Labelling keeps every transaction, in order. */
  lemma {:induction false} LabelsKeepOrder<T>(raw: seq<seq<T>>)
    ensures Transactions(ToL2Block(raw)) == Flattened(raw)
  {
    if raw != [] {
      LabelsKeepOrder(raw[..|raw| - 1]);
      TransactionsAppend(ToL2Block(raw[..|raw| - 1]), FromTxBatch(raw[|raw| - 1]));
      TransactionsOfBatch(raw[|raw| - 1]);
    }
  }

  lemma FlattenedSnoc<T>(raw: seq<seq<T>>, batch: seq<T>)
    ensures Flattened(raw + [batch]) == Flattened(raw) + batch
  {
    assert (raw + [batch])[..|raw|] == raw;
  }

  lemma {:induction false} GroupedKeepsOrder<T>(txs: seq<L2Transaction<T>>)
    ensures Flattened(Grouped(txs).batches) + Grouped(txs).open == Transactions(txs)
    ensures Flattened(ToRawBlock(txs)) == Transactions(txs)
  {
    var g := Grouped(txs);
    if txs != [] {
      var init := txs[..|txs| - 1];
      GroupedKeepsOrder(init);
      assert Transactions(txs) == Transactions(init) + [txs[|txs| - 1].Transaction()];
    }
    if g.open != [] { FlattenedSnoc(g.batches, g.open); }
  }

  /** Grouping panics if and only if some Head asks for more room than there can be, and otherwise keeps
      every transaction, in order, however wrong the lengths are. */
  lemma GroupingKeepsOrder<T>(m: Machine, txs: seq<L2Transaction<T>>)
    requires m.usize > 0
    ensures ConversionOf(m, txs).CapacityPanic?
            <==> exists i :: 0 <= i < |txs| && txs[i].Head? && txs[i].length % m.usize > m.capacity
    ensures ConversionOf(m, txs).Converted? ==> Flattened(ConversionOf(m, txs).raw) == Transactions(txs)
  {
    GroupedKeepsOrder(txs);
    if i :| 0 <= i < |txs| && txs[i].Head? && txs[i].length % m.usize > m.capacity {
      assert !RoomAt(m, txs, i);
    }
    if !AllRoom(m, txs) {
      var i :| 0 <= i < |txs| && !RoomAt(m, txs, i);
      assert txs[i].Head? && !HasRoom(m, txs[i].length);
    }
  }

  // ---- Labelling from entries ----------------------------------------------

  datatype EntrySummary = EntrySummary(numTransactions: nat, startingTransactionIndex: nat)

  datatype L2BlockError = InsufficientTransactions | UnmatchedEntriesAndTransactions

  /** `batch_from_entry_and_block_txs`. The end index saturates in the source, which is above any
      slice length, so it is compared unbounded here. */
  function BatchFromEntry<T>(entry: EntrySummary, txs: seq<T>): Result<seq<L2Transaction<T>>, L2BlockError> {
    var start, end := entry.startingTransactionIndex, entry.startingTransactionIndex + entry.numTransactions;
    if entry.numTransactions == 0 then Ok([])
    else if start >= |txs| || end > |txs| then Err(InsufficientTransactions)
    else Ok(FromTxBatch(txs[start..end]))
  }

  function BatchesFrom<T>(entries: seq<EntrySummary>, txs: seq<T>): Result<seq<L2Transaction<T>>, L2BlockError> {
    if entries == [] then Ok([])
    else
      match BatchesFrom(entries[..|entries| - 1], txs)
      case Err(e) => Err(e)
      case Ok(before) =>
        match BatchFromEntry(entries[|entries| - 1], txs)
        case Err(e) => Err(e)
        case Ok(batch) => Ok(before + batch)
  }

  function Labelled<T>(entries: seq<EntrySummary>, txs: seq<T>): Result<seq<L2Transaction<T>>, L2BlockError> {
    match BatchesFrom(entries, txs)
    case Err(e) => Err(e)
    case Ok(l2) => if |l2| != |txs| then Err(UnmatchedEntriesAndTransactions) else Ok(l2)
  }

  lemma {:induction false} BatchesFail<T>(entries: seq<EntrySummary>, txs: seq<T>, n: nat)
    requires n <= |entries| && BatchesFrom(entries[..n], txs).Err?
    ensures BatchesFrom(entries, txs) == BatchesFrom(entries[..n], txs)
    decreases |entries| - n
  {
    if n == |entries| {
      assert entries[..n] == entries;
    } else {
      assert entries[..n + 1][..n] == entries[..n];
      BatchesFail(entries, txs, n + 1);
    }
  }

  /** The transactions of `TryFrom<VersionedConfirmedBlockWithEntries> for L2Block`. */
  method LabelFromEntries<T>(entries: seq<EntrySummary>, txs: seq<T>)
    returns (r: Result<seq<L2Transaction<T>>, L2BlockError>)
    ensures r == Labelled(entries, txs)
    ensures r.Ok? ==> WellLabelled(r.value) && |r.value| == |txs|
  {
    EntriesLabelWell(entries, txs);
    var l2: seq<L2Transaction<T>> := [];
    for i := 0 to |entries|
      invariant BatchesFrom(entries[..i], txs) == Ok(l2)
    {
      assert entries[..i + 1][..i] == entries[..i];
      var batch := BatchFromEntry(entries[i], txs);
      if batch.Err? {
        BatchesFail(entries, txs, i + 1);
        return Err(batch.error);
      }
      l2 := l2 + batch.value;
    }
    assert entries[..|entries|] == entries;
    if |l2| != |txs| { return Err(UnmatchedEntriesAndTransactions); }
    return Ok(l2);
  }

  /** Every accepted labelling is well labelled, whatever the entries. */
  lemma {:induction false} EntriesLabelWell<T>(entries: seq<EntrySummary>, txs: seq<T>)
    ensures BatchesFrom(entries, txs).Ok? ==> WellLabelled(BatchesFrom(entries, txs).value)
  {
    if entries != [] {
      EntriesLabelWell(entries[..|entries| - 1], txs);
      var e := entries[|entries| - 1];
      if BatchesFrom(entries, txs).Ok? {
        var before := BatchesFrom(entries[..|entries| - 1], txs).value;
        var batch := if e.numTransactions == 0 then []
                     else txs[e.startingTransactionIndex..e.startingTransactionIndex + e.numTransactions];
        assert BatchFromEntry(e, txs).value == FromTxBatch(batch);
        WellLabelledAppend(before, batch);
      }
    }
  }

  function Count(entries: seq<EntrySummary>): nat {
    if entries == [] then 0 else Count(entries[..|entries| - 1]) + entries[|entries| - 1].numTransactions
  }

  /** Each entry that holds transactions starts where the ones before it end. */
  predicate Consecutive(entries: seq<EntrySummary>) {
    entries != [] ==>
      && Consecutive(entries[..|entries| - 1])
      && (entries[|entries| - 1].numTransactions > 0 ==>
            entries[|entries| - 1].startingTransactionIndex == Count(entries[..|entries| - 1]))
  }

  /** The entries tile the block's transactions. */
  predicate Tiles<T>(entries: seq<EntrySummary>, txs: seq<T>) {
    Consecutive(entries) && Count(entries) == |txs|
  }

  lemma {:induction false} ConsecutiveLabels<T>(entries: seq<EntrySummary>, txs: seq<T>)
    requires Consecutive(entries) && Count(entries) <= |txs|
    ensures BatchesFrom(entries, txs).Ok?
    ensures Transactions(BatchesFrom(entries, txs).value) == txs[..Count(entries)]
  {
    if entries != [] {
      var init, e := entries[..|entries| - 1], entries[|entries| - 1];
      ConsecutiveLabels(init, txs);
      var before, batch := BatchesFrom(init, txs).value, BatchFromEntry(e, txs).value;
      TransactionsAppend(before, batch);
      if e.numTransactions > 0 {
        var n, m := Count(init), Count(entries);
        TransactionsOfBatch(txs[n..m]);
        assert txs[..n] + txs[n..m] == txs[..m];
      } else {
        assert before + batch == before;
      }
    }
  }

  predicate Distinct<T(==)>(txs: seq<T>) {
    forall i, j :: 0 <= i < j < |txs| ==> txs[i] != txs[j]
  }

  lemma {:induction false} BatchesLength<T>(entries: seq<EntrySummary>, txs: seq<T>)
    requires BatchesFrom(entries, txs).Ok?
    ensures |BatchesFrom(entries, txs).value| == Count(entries)
  {
    if entries != [] { BatchesLength(entries[..|entries| - 1], txs); }
  }

  /** Distinct transactions that come out as a prefix of the block came from consecutive entries. */
  lemma {:induction false} InOrderIsConsecutive<T>(entries: seq<EntrySummary>, txs: seq<T>)
    requires BatchesFrom(entries, txs).Ok? && Distinct(txs)
    requires Transactions(BatchesFrom(entries, txs).value) <= txs
    ensures Consecutive(entries)
  {
    if entries != [] {
      var init, e := entries[..|entries| - 1], entries[|entries| - 1];
      var before, batch := BatchesFrom(init, txs).value, BatchFromEntry(e, txs).value;
      TransactionsAppend(before, batch);
      assert Transactions(before) <= txs;
      InOrderIsConsecutive(init, txs);
      BatchesLength(init, txs);
      if e.numTransactions > 0 {
        var all := Transactions(before + batch);
        assert all[|before|] == batch[0].Transaction() == txs[e.startingTransactionIndex];
        assert all[|before|] == txs[|before|];
      }
    }
  }

  /** What an accepted labelling says about the entries. Only the number of transactions is checked,
      so the entries need not tile the block; entries that tile it are always accepted with the
      transactions in order, and where transactions are distinct, only they give that order. */
  lemma EntriesInOrder<T>(entries: seq<EntrySummary>, txs: seq<T>)
    ensures Tiles(entries, txs) ==> Labelled(entries, txs).Ok? && Transactions(Labelled(entries, txs).value) == txs
    ensures Distinct(txs) && Labelled(entries, txs).Ok? && Transactions(Labelled(entries, txs).value) == txs ==>
              Tiles(entries, txs)
  {
    if Tiles(entries, txs) {
      ConsecutiveLabels(entries, txs);
      assert txs[..|txs|] == txs;
    }
    if Distinct(txs) && Labelled(entries, txs).Ok? && Transactions(Labelled(entries, txs).value) == txs {
      InOrderIsConsecutive(entries, txs);
      BatchesLength(entries, txs);
    }
  }

  /** An entry names transactions of the block, or none. */
  predicate InRange(e: EntrySummary, n: nat) {
    e.numTransactions > 0 ==> e.startingTransactionIndex + e.numTransactions <= n
  }

  predicate AllInRange(entries: seq<EntrySummary>, n: nat) {
    forall i :: 0 <= i < |entries| ==> InRange(entries[i], n)
  }

  /** The transactions that the entries name, one entry after the other. */
  function Named<T>(entries: seq<EntrySummary>, txs: seq<T>): seq<T>
    requires AllInRange(entries, |txs|)
  {
    if entries == [] then []
    else
      var e := entries[|entries| - 1];
      assert InRange(e, |txs|) && AllInRange(entries[..|entries| - 1], |txs|);
      Named(entries[..|entries| - 1], txs) + NamedBy(e, txs)
  }

  function NamedBy<T>(e: EntrySummary, txs: seq<T>): seq<T>
    requires InRange(e, |txs|)
  {
    if e.numTransactions == 0 then []
    else txs[e.startingTransactionIndex..e.startingTransactionIndex + e.numTransactions]
  }

  lemma BatchExactly<T>(e: EntrySummary, txs: seq<T>)
    ensures BatchFromEntry(e, txs) == Err(InsufficientTransactions) <==> !InRange(e, |txs|)
    ensures InRange(e, |txs|) ==>
              BatchFromEntry(e, txs).Ok? && Transactions(BatchFromEntry(e, txs).value) == NamedBy(e, txs)
  {
    if InRange(e, |txs|) { TransactionsOfBatch(NamedBy(e, txs)); }
  }

  lemma {:induction false} BatchesExactly<T>(entries: seq<EntrySummary>, txs: seq<T>)
    ensures BatchesFrom(entries, txs).Ok? <==> AllInRange(entries, |txs|)
    ensures BatchesFrom(entries, txs).Err? ==> BatchesFrom(entries, txs).error == InsufficientTransactions
    ensures BatchesFrom(entries, txs).Ok? ==> Transactions(BatchesFrom(entries, txs).value) == Named(entries, txs)
  {
    if entries != [] {
      var init, e := entries[..|entries| - 1], entries[|entries| - 1];
      BatchesExactly(init, txs);
      RangeSnoc(entries, |txs|);
      BatchExactly(e, txs);
      if BatchesFrom(init, txs).Ok? && InRange(e, |txs|) {
        TransactionsAppend(BatchesFrom(init, txs).value, BatchFromEntry(e, txs).value);
      }
    }
  }

  lemma RangeSnoc(entries: seq<EntrySummary>, n: nat)
    requires entries != []
    ensures AllInRange(entries, n) <==> AllInRange(entries[..|entries| - 1], n) && InRange(entries[|entries| - 1], n)
  {
    var init := entries[..|entries| - 1];
    if AllInRange(init, n) && InRange(entries[|entries| - 1], n) {
      forall i | 0 <= i < |entries| ensures InRange(entries[i], n) {
        if i < |init| { assert InRange(init[i], n); }
      }
    }
    if AllInRange(entries, n) {
      forall i | 0 <= i < |init| ensures InRange(init[i], n) { assert InRange(entries[i], n); }
    }
  }

  /** Which entries are accepted, with which transactions, and which error the others get. */
  lemma LabelledExactly<T>(entries: seq<EntrySummary>, txs: seq<T>)
    ensures Labelled(entries, txs) == Err(InsufficientTransactions) <==> !AllInRange(entries, |txs|)
    ensures Labelled(entries, txs) == Err(UnmatchedEntriesAndTransactions)
            <==> AllInRange(entries, |txs|) && |Named(entries, txs)| != |txs|
    ensures Labelled(entries, txs).Ok? ==>
              AllInRange(entries, |txs|) && Transactions(Labelled(entries, txs).value) == Named(entries, txs)
  {
    BatchesExactly(entries, txs);
  }

  /** Two entries for the same transaction pass the check: the block comes out with the first
      transaction twice and without the second. */
  lemma RepeatedEntryAccepted<T>(a: T, b: T)
    ensures var twice := [EntrySummary(1, 0), EntrySummary(1, 0)];
            && Labelled(twice, [a, b]) == Ok([Head(1, a), Head(1, a)])
            && !Tiles(twice, [a, b])
  {
    var one := EntrySummary(1, 0);
    var h: L2Transaction<T> := Head(1, a);
    assert [one, one][..1] == [one] && [one][..0] == [];
    assert [a, b][0..1] == [a] && FromTxBatch([a]) == [h];
    assert BatchFromEntry(one, [a, b]) == Ok([h]);
    assert BatchesFrom([one], [a, b]) == Ok([] + [h]);
    assert BatchesFrom([one, one], [a, b]) == Ok([] + [h] + [h]);
    assert [] + [h] + [h] == [h, h];
    assert Count([one]) == 1;
  }
}
