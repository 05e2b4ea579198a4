/** Whole runs: every sequence of block additions and pops, from the empty database. */
module ChainRuns {
  import opened Results
  import opened ChainTypes
  import opened ChainSpec
  import opened ChainUndo
  import opened ChainExact
  import opened ChainAccept
  import opened ChainInvariant

  /** The arguments of one `add_block`. */
  datatype Entry = Entry(blk: Block, meta: nat, txs: seq<Transaction>)

  datatype Op = Add(entry: Entry) | Pop

  function AddEntry(db: Db, e: Entry): Result<Db, Error> {
    AddBlock(db, e.blk, e.meta, e.txs)
  }

  /** A call that throws leaves the database as it was: the write transaction is aborted. */
  function Step(db: Db, op: Op): Db {
    match op
    case Add(e) =>
      (match AddEntry(db, e)
       case Ok(d) => d
       case Err(_) => db)
    case Pop =>
      match PopBlock(db)
      case Ok(p) => p.db
      case Err(_) => db
  }

  function Run(ops: seq<Op>): Db {
    if ops == [] then EMPTY_DB else Step(Run(ops[..|ops| - 1]), ops[|ops| - 1])
  }

  /** The stack of blocks that were added and not popped since; a call that throws does not change it. */
  function Live(ops: seq<Op>): seq<Entry> {
    if ops == [] then []
    else
      var before := ops[..|ops| - 1];
      var live := Live(before);
      match ops[|ops| - 1]
      case Add(e) => if AddEntry(Run(before), e).Ok? then live + [e] else live
      case Pop => if PopBlock(Run(before)).Ok? && live != [] then live[..|live| - 1] else live
  }

  /** Adding the given blocks to the empty database, one after the other. */
  function Replay(entries: seq<Entry>): Result<Db, Error> {
    if entries == [] then Ok(EMPTY_DB)
    else
      var d :- Replay(entries[..|entries| - 1]);
      AddEntry(d, entries[|entries| - 1])
  }

  ghost predicate RestorableEntry(e: Entry) {
    RestorableBlock(e.blk, e.txs)
  }

  // ---------------------------------------------------------------- the chain of blocks

  lemma AddTransactionChain(db: Db, h: Hash, tx: Transaction)
    requires AddTransaction(db, h, tx).Ok?
    ensures AddTransaction(db, h, tx).value.chain == db.chain
  {
  }

  lemma {:induction false} AddTxsChain(db: Db, hashes: seq<Hash>, txs: seq<Transaction>, n: nat)
    requires n <= |hashes| == |txs| && AddTxs(db, hashes, txs, n).Ok?
    ensures AddTxs(db, hashes, txs, n).value.chain == db.chain
  {
    if n > 0 {
      AddTxsChain(db, hashes, txs, n - 1);
      AddTransactionChain(AddTxs(db, hashes, txs, n - 1).value, hashes[n - 1], txs[n - 1]);
    }
  }

  lemma AddBlockChain(db: Db, e: Entry, d: Db)
    requires AddEntry(db, e) == Ok(d)
    ensures PutBlock(db.chain, e.blk, e.meta, CountedRct(e.blk, e.txs)) == Ok(d.chain)
  {
    AddTransactionChain(db, e.blk.minerTx.id, e.blk.minerTx);
    AddTxsChain(AddTransaction(db, e.blk.minerTx.id, e.blk.minerTx).value, e.blk.txHashes, e.txs, |e.txs|);
  }

  lemma PopBlockChain(db: Db, p: Popped)
    requires PopBlock(db) == Ok(p)
    ensures TakeBlock(db.chain) == Ok((p.db.chain, p.blk))
  {
  }

  /** The block tables hold the live blocks at their heights. */
  ghost predicate DescribesChain(c: Chain, entries: seq<Entry>) {
    && |c.blocks| == |entries|
    && (forall k :: 0 <= k < |entries| ==>
          && c.blocks[k].blk == entries[k].blk
          && c.blocks[k].meta == entries[k].meta
          && entries[k].blk.hash in c.heights
          && c.heights[entries[k].blk.hash] == k)
    && (forall h :: h in c.heights ==> c.heights[h] < |entries| && entries[c.heights[h]].blk.hash == h)
  }

  lemma PutBlockDescribes(c: Chain, entries: seq<Entry>, e: Entry, numRct: nat, c': Chain)
    requires DescribesChain(c, entries) && PutBlock(c, e.blk, e.meta, numRct) == Ok(c')
    ensures DescribesChain(c', entries + [e])
  {
  }

  lemma TakeBlockDescribes(c: Chain, entries: seq<Entry>, c': Chain, blk: Block)
    requires DescribesChain(c, entries) && TakeBlock(c) == Ok((c', blk))
    ensures entries != [] && entries[|entries| - 1].blk == blk
    ensures DescribesChain(c', entries[..|entries| - 1])
  {
  }

  lemma {:induction false} ReplayChain(entries: seq<Entry>, d: Db)
    requires Replay(entries) == Ok(d)
    ensures DescribesChain(d.chain, entries)
  {
    if entries != [] {
      var before, e := entries[..|entries| - 1], entries[|entries| - 1];
      var db := Replay(before).value;
      ReplayChain(before, db);
      AddBlockChain(db, e, d);
      PutBlockDescribes(db.chain, before, e, CountedRct(e.blk, e.txs), d.chain);
      assert entries == before + [e];
    }
  }

  /** After every run whatever, the block tables are those of the live blocks. */
  lemma {:induction false} RunChain(ops: seq<Op>)
    ensures DescribesChain(Run(ops).chain, Live(ops))
  {
    if ops != [] {
      var before := ops[..|ops| - 1];
      var db := Run(before);
      RunChain(before);
      match ops[|ops| - 1]
      case Add(e) =>
        if AddEntry(db, e).Ok? {
          AddBlockChain(db, e, AddEntry(db, e).value);
          PutBlockDescribes(db.chain, Live(before), e, CountedRct(e.blk, e.txs), AddEntry(db, e).value.chain);
        }
      case Pop =>
        if PopBlock(db).Ok? {
          var p := PopBlock(db).value;
          PopBlockChain(db, p);
          TakeBlockDescribes(db.chain, Live(before), p.db.chain, p.blk);
        }
    }
  }

  // ---------------------------------------------------------------- pops leave no trace

  lemma {:induction false} ReplayShape(entries: seq<Entry>)
    requires Replay(entries).Ok?
    ensures Shape(Replay(entries).value)
  {
    if entries != [] {
      var before, e := entries[..|entries| - 1], entries[|entries| - 1];
      ReplayShape(before);
      AddBlockKeepsShape(Replay(before).value, e.blk, e.meta, e.txs);
    }
  }

  /** Popping a replayed chain gives the chain without its last block if and only if that is restorable. */
  lemma PopReplayedExactly(entries: seq<Entry>, d: Db)
    requires entries != [] && Replay(entries) == Ok(d)
    ensures var before, e := entries[..|entries| - 1], entries[|entries| - 1];
            && Replay(before).Ok?
            && ((PopBlock(d).Ok? && PopBlock(d).value.db == Replay(before).value) <==> RestorableEntry(e))
            && (RestorableEntry(e) ==> PopBlock(d) == Ok(Popped(Replay(before).value, e.blk, Reversed(e.txs))))
  {
    var before, e := entries[..|entries| - 1], entries[|entries| - 1];
    ReplayShape(before);
    PopUndoesAddExactly(Replay(before).value, e.blk, e.meta, e.txs);
    if RestorableEntry(e) {
      AddBlockUndo(Replay(before).value, e.blk, e.meta, e.txs);
    }
  }

  /** Every pop that succeeds takes away a restorable block. */
  ghost predicate PopsRestorable(ops: seq<Op>) {
    ops != [] ==>
      var before := ops[..|ops| - 1];
      && PopsRestorable(before)
      && (ops[|ops| - 1].Pop? && PopBlock(Run(before)).Ok? && Live(before) != [] ==>
            RestorableEntry(Live(before)[|Live(before)| - 1]))
  }

  /** At every moment of the run the database is the one that adding only the live blocks gives. */
  ghost predicate AlwaysReplay(ops: seq<Op>) {
    && Replay(Live(ops)) == Ok(Run(ops))
    && (ops != [] ==> AlwaysReplay(ops[..|ops| - 1]))
  }

  /** An addition, accepted or not, does not part the database from the replay. */
  lemma {:induction false} AddReplays(ops: seq<Op>)
    requires ops != [] && ops[|ops| - 1].Add? && AlwaysReplay(ops[..|ops| - 1])
    ensures AlwaysReplay(ops)
  {
    var before, e := ops[..|ops| - 1], ops[|ops| - 1].entry;
    if AddEntry(Run(before), e).Ok? {
      assert Live(ops) == Live(before) + [e];
      assert Live(ops)[..|Live(ops)| - 1] == Live(before);
    }
  }

  /** A pop that succeeds takes away the last live block. */
  lemma PopStep(ops: seq<Op>, p: Popped)
    requires ops != [] && ops[|ops| - 1].Pop? && PopBlock(Run(ops[..|ops| - 1])) == Ok(p)
    ensures var live := Live(ops[..|ops| - 1]);
            live != [] && Live(ops) == live[..|live| - 1] && Run(ops) == p.db && p.blk == live[|live| - 1].blk
  {
    var before := ops[..|ops| - 1];
    RunChain(before);
    PopBlockChain(Run(before), p);
    TakeBlockDescribes(Run(before).chain, Live(before), p.db.chain, p.blk);
  }

  /** A pop keeps them together if and only if it fails or takes away a restorable block. */
  lemma PopReplays(ops: seq<Op>)
    requires ops != [] && ops[|ops| - 1].Pop? && AlwaysReplay(ops[..|ops| - 1])
    ensures var before := ops[..|ops| - 1];
            AlwaysReplay(ops) <==>
            (PopBlock(Run(before)).Ok? && Live(before) != [] ==> RestorableEntry(Live(before)[|Live(before)| - 1]))
  {
    var before := ops[..|ops| - 1];
    if PopBlock(Run(before)).Ok? {
      PopStep(ops, PopBlock(Run(before)).value);
      PopReplayedExactly(Live(before), Run(before));
    } else {
      assert Run(ops) == Run(before) && Live(ops) == Live(before);
    }
  }

  /**
   A run is at every moment in the database that replaying its live blocks gives if and only if every
   pop that succeeds takes away a restorable block, in whatever order additions, failures and pops come.
   */
  lemma {:induction false} RunIsReplayExactly(ops: seq<Op>)
    ensures AlwaysReplay(ops) <==> PopsRestorable(ops)
  {
    if ops != [] {
      RunIsReplayExactly(ops[..|ops| - 1]);
      if AlwaysReplay(ops[..|ops| - 1]) {
        if ops[|ops| - 1].Add? {
          AddReplays(ops);
        } else {
          PopReplays(ops);
        }
      }
    }
  }

  /** After every run a pop fails on an empty chain and never returns another block than the last live one. */
  lemma {:induction false} PopReturnsLastLive(ops: seq<Op>)
    ensures Live(ops) == [] ==> PopBlock(Run(ops)) == Err(BlockMissing)
    ensures PopBlock(Run(ops)).Ok? ==>
              Live(ops) != [] && PopBlock(Run(ops)).value.blk == Live(ops)[|Live(ops)| - 1].blk
  {
    RunChain(ops);
    if PopBlock(Run(ops)).Ok? {
      var p := PopBlock(Run(ops)).value;
      PopBlockChain(Run(ops), p);
      TakeBlockDescribes(Run(ops).chain, Live(ops), p.db.chain, p.blk);
    }
  }

  /** After a run of restorable pops a pop of a restorable block returns it, with its transactions in reverse. */
  lemma {:induction false} PopReturnsTransactions(ops: seq<Op>, e: Entry)
    requires PopsRestorable(ops) && Live(ops) != [] && e == Live(ops)[|Live(ops)| - 1] && RestorableEntry(e)
    ensures Replay(Live(ops)[..|Live(ops)| - 1]).Ok?
    ensures PopBlock(Run(ops)) == Ok(Popped(Replay(Live(ops)[..|Live(ops)| - 1]).value, e.blk, Reversed(e.txs)))
  {
    RunIsReplayExactly(ops);
    PopReplayedExactly(Live(ops), Run(ops));
  }

  // ---------------------------------------------------------------- live transactions

  /** What the first `n` listed transactions of a block at the given height leave stored. */
  function ListedTxs(hashes: seq<Hash>, txs: seq<Transaction>, height: nat, n: nat): seq<Stored>
    requires n <= |hashes| == |txs|
  {
    if n == 0 then [] else ListedTxs(hashes, txs, height, n - 1) + Kept(hashes[n - 1], txs[n - 1], height)
  }

  /** The stored transactions of the given blocks in the order of addition: per block, the miner's first. */
  function LiveTxs(entries: seq<Entry>): seq<Stored> {
    if entries == [] then []
    else
      var height := |entries| - 1;
      var e := entries[height];
      if |e.blk.txHashes| != |e.txs| then LiveTxs(entries[..height])
      else LiveTxs(entries[..height]) + Kept(e.blk.minerTx.id, e.blk.minerTx, height)
           + ListedTxs(e.blk.txHashes, e.txs, height, |e.txs|)
  }

  lemma {:induction false} AddTxsDescribes(db: Db, live: seq<Stored>, hashes: seq<Hash>, txs: seq<Transaction>,
                                           n: nat, d: Db)
    requires Describes(db, live) && AddedTo(db, hashes, txs, n, d)
    ensures Describes(d, live + ListedTxs(hashes, txs, |db.chain.blocks|, n))
    ensures d.chain == db.chain
    decreases n
  {
    if n == 0 {
      NothingAdded(db, hashes, txs, d);
      assert live + [] == live;
    } else {
      var before := AddTxsRound(db, hashes, txs, n, d);
      var height := |db.chain.blocks|;
      AddTxsDescribes(db, live, hashes, txs, n - 1, before);
      AddTransactionDescribes(before, live + ListedTxs(hashes, txs, height, n - 1), hashes[n - 1], txs[n - 1], d);
      ListedStep(live, hashes, txs, height, n);
    }
  }

  lemma ListedStep(live: seq<Stored>, hashes: seq<Hash>, txs: seq<Transaction>, height: nat, n: nat)
    requires 0 < n <= |hashes| == |txs|
    ensures live + ListedTxs(hashes, txs, height, n)
         == live + ListedTxs(hashes, txs, height, n - 1) + Kept(hashes[n - 1], txs[n - 1], height)
  {
  }

  lemma AddBlockDescribes(db: Db, live: seq<Stored>, e: Entry, d: Db)
    requires Describes(db, live) && AddEntry(db, e) == Ok(d)
    ensures |e.blk.txHashes| == |e.txs|
    ensures var height := |db.chain.blocks|;
            Describes(d, live + Kept(e.blk.minerTx.id, e.blk.minerTx, height)
                         + ListedTxs(e.blk.txHashes, e.txs, height, |e.txs|))
  {
    var height := |db.chain.blocks|;
    var d1 := AddTransaction(db, e.blk.minerTx.id, e.blk.minerTx).value;
    AddTransactionDescribes(db, live, e.blk.minerTx.id, e.blk.minerTx, d1);
    var d2 := AddTxs(d1, e.blk.txHashes, e.txs, |e.txs|).value;
    AddTxsDescribes(d1, live + Kept(e.blk.minerTx.id, e.blk.minerTx, height),
                    e.blk.txHashes, e.txs, |e.txs|, d2);
  }

  lemma EmptyDescribed()
    ensures Describes(EMPTY_DB, [])
  {
  }

  lemma {:induction false} ReplayDescribes(entries: seq<Entry>, d: Db)
    requires Replay(entries) == Ok(d)
    ensures Describes(d, LiveTxs(entries))
  {
    if entries == [] {
      EmptyDescribed();
    } else {
      var before, e := entries[..|entries| - 1], entries[|entries| - 1];
      var db := Replay(before).value;
      ReplayDescribes(before, db);
      ReplayChain(before, db);
      AddBlockDescribes(db, LiveTxs(before), e, d);
    }
  }

  /**
   After every run of restorable pops, whatever was added, all tables are the ones that the live
   transactions determine; by `RecordedIndexNamesItsOutput` every recorded index still names its own output.
   */
  lemma {:induction false} RunDescribed(ops: seq<Op>)
    requires PopsRestorable(ops)
    ensures Describes(Run(ops), LiveTxs(Live(ops)))
    ensures Shape(Run(ops))
  {
    RunIsReplayExactly(ops);
    ReplayDescribes(Live(ops), Run(ops));
    DescribedHasShape(Run(ops), LiveTxs(Live(ops)));
  }
}

/** The count of confidential outputs that each block record carries. */
module ChainRct {
  import opened Results
  import opened ChainTypes
  import opened ChainSpec
  import opened ChainInputs
  import opened ChainUndo
  import opened ChainExact
  import opened ChainAccept
  import opened ChainInvariant
  import opened ChainRuns

  // ---------------------------------------------------------------- one transaction

  /** How many outputs a transaction leaves under amount 0; an unsupported one leaves nothing. */
  function Grown(tx: Transaction): nat {
    if Supported(tx.vin) then StoredZeros(tx, |tx.vout|) else 0
  }

  predicate AllZero(vout: seq<TxOut>) {
    forall i :: 0 <= i < |vout| ==> vout[i].amount == 0
  }

  predicate NoneZero(vout: seq<TxOut>) {
    forall i :: 0 <= i < |vout| ==> vout[i].amount != 0
  }

  /** What `add_block` counts for the miner transaction. */
  function MinerCount(tx: Transaction): nat {
    if tx.version >= 2 then |tx.vout| else 0
  }

  /** The condition on a miner transaction under which its count is what is stored under amount 0. */
  predicate CountedMiner(tx: Transaction) {
    tx.version >= 2 ==> if Supported(tx.vin) then HasGen(tx.vin) || AllZero(tx.vout) else tx.vout == []
  }

  /** The same for a listed transaction. */
  predicate CountedListed(tx: Transaction) {
    if Supported(tx.vin) then tx.version >= 2 && HasGen(tx.vin) ==> AllZero(tx.vout) else NoneZero(tx.vout)
  }

  lemma {:induction false} StoredZerosCases(tx: Transaction, n: nat)
    requires n <= |tx.vout|
    ensures tx.version >= 2 && HasGen(tx.vin) ==> StoredZeros(tx, n) == n
    ensures !(tx.version >= 2 && HasGen(tx.vin)) ==> StoredZeros(tx, n) == ZeroAmounts(tx.vout[..n])
  {
    if n > 0 {
      StoredZerosCases(tx, n - 1);
      assert tx.vout[..n][..n - 1] == tx.vout[..n - 1];
    }
  }

  lemma {:induction false} ZeroAmountsBound(vout: seq<TxOut>)
    ensures ZeroAmounts(vout) <= |vout|
    ensures ZeroAmounts(vout) == |vout| <==> AllZero(vout)
    ensures ZeroAmounts(vout) == 0 <==> NoneZero(vout)
  {
    if vout != [] {
      ZeroAmountsBound(vout[..|vout| - 1]);
    }
  }

  lemma {:induction false} OldVersionStoresNoZero(o: Outputs, height: nat, h: Hash, tx: Transaction, n: nat)
    requires tx.version <= 1 && n <= |tx.vout| && AddOutputs(o, height, h, tx, HasGen(tx.vin), n).Ok?
    ensures ZeroAmounts(tx.vout[..n]) == 0
  {
    if n > 0 {
      OldVersionStoresNoZero(o, height, h, tx, n - 1);
      assert tx.vout[..n][..n - 1] == tx.vout[..n - 1];
    }
  }

  /** A version-1 output of amount 0 has no commitment and is refused. */
  lemma OldVersionGrowsNothing(db: Db, h: Hash, tx: Transaction, d: Db)
    requires Shape(db) && Supported(tx.vin) && tx.version <= 1 && AddTransaction(db, h, tx) == Ok(d)
    ensures ZeroAmounts(tx.vout) == 0
  {
    var indices := AddTransactionTables(db, h, tx, d);
    OldVersionStoresNoZero(db.outs, |db.chain.blocks|, h, tx, |tx.vout|);
    assert tx.vout[..|tx.vout|] == tx.vout;
  }

  lemma AddTransactionGrows(db: Db, h: Hash, tx: Transaction, d: Db)
    requires Shape(db) && AddTransaction(db, h, tx) == Ok(d)
    ensures Zeros(d.outs) == Zeros(db.outs) + Grown(tx)
    ensures Shape(d)
  {
    if Supported(tx.vin) {
      var indices := AddTransactionTables(db, h, tx, d);
      AddOutputsZeros(db.outs, |db.chain.blocks|, h, tx, |tx.vout|);
    } else {
      AddUnsupportedStoresNothing(db, h, tx, d);
    }
  }

  lemma ListedCounts(tx: Transaction)
    ensures ZeroAmounts(tx.vout) == Grown(tx) <==> CountedListed(tx)
  {
    StoredZerosCases(tx, |tx.vout|);
    ZeroAmountsBound(tx.vout);
    assert tx.vout[..|tx.vout|] == tx.vout;
  }

  /** The count of a listed transaction is the growth of the bucket if and only if `CountedListed`. */
  lemma ListedCountExactly(db: Db, h: Hash, tx: Transaction, d: Db)
    requires Shape(db) && AddTransaction(db, h, tx) == Ok(d)
    ensures Zeros(d.outs) - Zeros(db.outs) == ZeroAmounts(tx.vout) <==> CountedListed(tx)
  {
    AddTransactionGrows(db, h, tx, d);
    ListedCounts(tx);
  }

  /** The count of the miner transaction is the growth of the bucket if and only if `CountedMiner`. */
  lemma MinerCountExactly(db: Db, h: Hash, tx: Transaction, d: Db)
    requires Shape(db) && AddTransaction(db, h, tx) == Ok(d)
    ensures Zeros(d.outs) - Zeros(db.outs) == MinerCount(tx) <==> CountedMiner(tx)
  {
    AddTransactionGrows(db, h, tx, d);
    StoredZerosCases(tx, |tx.vout|);
    ZeroAmountsBound(tx.vout);
    assert tx.vout[..|tx.vout|] == tx.vout;
    if tx.version <= 1 && Supported(tx.vin) {
      OldVersionGrowsNothing(db, h, tx, d);
    }
  }

  // ---------------------------------------------------------------- one block

  function ListedGrown(txs: seq<Transaction>): nat {
    if txs == [] then 0 else ListedGrown(txs[..|txs| - 1]) + Grown(txs[|txs| - 1])
  }

  lemma ListedGrownStep(txs: seq<Transaction>, n: nat)
    requires 0 < n <= |txs|
    ensures ListedGrown(txs[..n]) == ListedGrown(txs[..n - 1]) + Grown(txs[n - 1])
  {
    assert txs[..n][..n - 1] == txs[..n - 1];
  }

  lemma {:induction false} AddTxsGrow(db: Db, hashes: seq<Hash>, txs: seq<Transaction>, n: nat, d: Db)
    requires Shape(db) && AddedTo(db, hashes, txs, n, d)
    ensures Shape(d)
    ensures Zeros(d.outs) == Zeros(db.outs) + ListedGrown(txs[..n])
    decreases n
  {
    if n == 0 {
      NothingAdded(db, hashes, txs, d);
    } else {
      var before := AddTxsRound(db, hashes, txs, n, d);
      AddTxsGrow(db, hashes, txs, n - 1, before);
      AddTransactionGrows(before, hashes[n - 1], txs[n - 1], d);
      ListedGrownStep(txs, n);
    }
  }

  /** By how much the count of a block is too high, or too low if negative. */
  function Miscount(e: Entry): int {
    CountedRct(e.blk, e.txs) - Grown(e.blk.minerTx) - ListedGrown(e.txs)
  }

  /**
   For every accepted block, the number that `add_block` hands to the block record is what the block
   stored under amount 0 if and only if the counts of its transactions are right in sum.
   */
  lemma BlockCountExactly(db: Db, e: Entry, d: Db)
    requires Shape(db) && AddEntry(db, e) == Ok(d)
    ensures CountedRct(e.blk, e.txs) == Zeros(d.outs) - Zeros(db.outs) + Miscount(e)
    ensures CountedRct(e.blk, e.txs) == Zeros(d.outs) - Zeros(db.outs) <==> Miscount(e) == 0
  {
    var miner := e.blk.minerTx;
    var d1 := AddTransaction(db, miner.id, miner).value;
    AddTransactionGrows(db, miner.id, miner, d1);
    AddTxsGrow(d1, e.blk.txHashes, e.txs, |e.txs|, AddTxs(d1, e.blk.txHashes, e.txs, |e.txs|).value);
    assert e.txs[..|e.txs|] == e.txs;
  }

  lemma {:induction false} ListedCountsAll(txs: seq<Transaction>)
    requires forall i :: 0 <= i < |txs| ==> CountedListed(txs[i])
    ensures ListedZeroAmounts(txs) == ListedGrown(txs)
  {
    if txs != [] {
      ListedCountsAll(txs[..|txs| - 1]);
      ListedCounts(txs[|txs| - 1]);
    }
  }

  /** A block whose transactions are all counted right is counted right. */
  lemma CountedBlockIsExact(db: Db, e: Entry, d: Db)
    requires Shape(db) && AddEntry(db, e) == Ok(d)
    requires CountedMiner(e.blk.minerTx) && forall i :: 0 <= i < |e.txs| ==> CountedListed(e.txs[i])
    ensures Miscount(e) == 0 && CountedRct(e.blk, e.txs) == Zeros(d.outs) - Zeros(db.outs)
  {
    var miner := e.blk.minerTx;
    var d1 := AddTransaction(db, miner.id, miner).value;
    AddTransactionGrows(db, miner.id, miner, d1);
    MinerCountExactly(db, miner.id, miner, d1);
    ListedCountsAll(e.txs);
    BlockCountExactly(db, e, d);
  }

  /** A transaction with an unsupported input and an output of amount 0. */
  const UNSUPPORTED := Transaction(7, 2, 0, [OtherInput], [TxOut(0, PubKey(3), 0, 0)])

  /** A listed transaction that is not stored is counted all the same. */
  lemma UnstoredIsCounted()
    ensures var e := Entry(Block(9, 0, 1, Transaction(1, 2, 0, [Gen(0)], []), [7]), 0, [UNSUPPORTED]);
            && AddEntry(EMPTY_DB, e).Ok?
            && CountedRct(e.blk, e.txs) == 1
            && Zeros(AddEntry(EMPTY_DB, e).value.outs) == 0
  {
    var miner := Transaction(1, 2, 0, [Gen(0)], []);
    var e := Entry(Block(9, 0, 1, miner, [7]), 0, [UNSUPPORTED]);
    assert miner.vin[..0] == [] && Images(miner.vin) == [];
    TransactionAcceptedExactly(EMPTY_DB, 1, miner);
    var d1 := AddTransaction(EMPTY_DB, 1, miner).value;
    AddTransactionGrows(EMPTY_DB, 1, miner, d1);
    assert UNSUPPORTED.vin[..0] == [] && !Supported(UNSUPPORTED.vin) by {
      assert UNSUPPORTED.vin[0].OtherInput?;
    }
    assert AddInputs(d1.spent, UNSUPPORTED.vin, 1).RolledBack?;
    var d2 := AddTransaction(d1, 7, UNSUPPORTED).value;
    AddUnsupportedStoresNothing(d1, 7, UNSUPPORTED, d2);
    assert AddTxs(d1, [7], [UNSUPPORTED], 0) == Ok(d1);
    assert AddTxs(d1, [7], [UNSUPPORTED], 1) == Ok(d2);
    AddTransactionChain(EMPTY_DB, 1, miner);
    assert UNSUPPORTED.vout[..0] == [] && e.txs[..0] == [];
    assert ZeroAmounts(UNSUPPORTED.vout) == 1 && ListedZeroAmounts(e.txs) == 1;
  }

  // ---------------------------------------------------------------- whole runs

  /**
   The height from which the total in the newest record counts: a record adds the total before it only
   from version 4 on.
   */
  function CountsFrom(entries: seq<Entry>): (k: nat)
    requires entries != []
    ensures k < |entries|
  {
    var n := |entries| - 1;
    if n == 0 || entries[n].blk.majorVersion < 4 then n else CountsFrom(entries[..n])
  }

  /** The miscounts of the blocks from there on, added up. */
  function Miscounts(entries: seq<Entry>): int
    requires entries != []
  {
    var n := |entries| - 1;
    Miscount(entries[n]) + if n == 0 || entries[n].blk.majorVersion < 4 then 0 else Miscounts(entries[..n])
  }

  lemma {:induction false} ReplayPrefix(entries: seq<Entry>, k: nat)
    requires Replay(entries).Ok? && k <= |entries|
    ensures Replay(entries[..k]).Ok?
    ensures Replay(entries[..k]).value.chain.blocks <= Replay(entries).value.chain.blocks
    ensures |Replay(entries).value.chain.blocks| == |entries|
  {
    if k == |entries| {
      assert entries[..k] == entries;
    }
    if entries != [] {
      var before, e := entries[..|entries| - 1], entries[|entries| - 1];
      ReplayPrefix(before, if k < |entries| then k else |before|);
      AddBlockChain(Replay(before).value, e, Replay(entries).value);
      if k < |entries| {
        assert before[..k] == entries[..k];
      }
    }
  }

  /** The outputs under amount 0 that adding these blocks stores. */
  ghost function ZerosOf(entries: seq<Entry>): nat
    requires Replay(entries).Ok?
  {
    Zeros(Replay(entries).value.outs)
  }

  /** What the newest block adds to the outputs under amount 0 and to the recorded total. */
  lemma {:induction false} NewestBlock(entries: seq<Entry>, d: Db, db: Db)
    requires entries != [] && Replay(entries) == Ok(d) && Replay(entries[..|entries| - 1]) == Ok(db)
    ensures var n := |entries| - 1;
            var e := entries[n];
            && |db.chain.blocks| == n && |d.chain.blocks| == n + 1
            && d.chain.blocks[n].cumRct == Zeros(d.outs) - Zeros(db.outs) + Miscount(e) +
                                           if n > 0 && e.blk.majorVersion >= 4 then db.chain.blocks[n - 1].cumRct else 0
  {
    var before, e := entries[..|entries| - 1], entries[|entries| - 1];
    ReplayPrefix(before, |before|);
    ReplayShape(before);
    BlockCountExactly(db, e, d);
    AddBlockChain(db, e, d);
  }

  /** Where the newest record starts anew, and where it goes on from the one before. */
  lemma {:induction false} CountsFromStep(entries: seq<Entry>)
    requires entries != []
    ensures var n := |entries| - 1;
            if n > 0 && entries[n].blk.majorVersion >= 4
            then && CountsFrom(entries) == CountsFrom(entries[..n])
                 && entries[..CountsFrom(entries)] == entries[..n][..CountsFrom(entries)]
                 && Miscounts(entries) == Miscount(entries[n]) + Miscounts(entries[..n])
            else CountsFrom(entries) == n && Miscounts(entries) == Miscount(entries[n])
  {
  }

  /** The newest total is what was stored under amount 0 from where it starts to count, and the miscounts. */
  lemma {:induction false} TopTotalCounts(entries: seq<Entry>, d: Db)
    requires entries != [] && Replay(entries) == Ok(d)
    ensures |d.chain.blocks| == |entries| && Replay(entries[..CountsFrom(entries)]).Ok?
    ensures d.chain.blocks[|entries| - 1].cumRct ==
            Zeros(d.outs) - ZerosOf(entries[..CountsFrom(entries)]) + Miscounts(entries)
  {
    var n := |entries| - 1;
    var before := entries[..n];
    var db := Replay(before).value;
    NewestBlock(entries, d, db);
    CountsFromStep(entries);
    if n > 0 && entries[n].blk.majorVersion >= 4 {
      TopTotalCounts(before, db);
    }
  }

  /** The record at height `k` is the newest one of the chain up to that height. */
  lemma TotalAt(entries: seq<Entry>, k: nat, d: Db)
    requires Replay(entries) == Ok(d) && k < |entries|
    ensures var chain, older := entries[..k + 1], entries[..CountsFrom(entries[..k + 1])];
            && |d.chain.blocks| == |entries| && Replay(chain).Ok? && Replay(older).Ok?
            && d.chain.blocks[k].cumRct == ZerosOf(chain) - ZerosOf(older) + Miscounts(chain)
  {
    var chain := entries[..k + 1];
    ReplayPrefix(entries, k + 1);
    TopTotalCounts(chain, Replay(chain).value);
    assert entries[..CountsFrom(chain)] == chain[..CountsFrom(chain)];
  }

  /**
   After every run of restorable pops, the total recorded at each height is the number of outputs that the
   blocks from `CountsFrom` up to that height store under amount 0 if and only if their miscounts cancel,
   and it is the size of the whole bucket if and only if they make up for the outputs stored before.
   */
  lemma {:induction false} RecordedTotals(ops: seq<Op>, k: nat)
    requires PopsRestorable(ops) && k < |Live(ops)|
    ensures |Run(ops).chain.blocks| == |Live(ops)|
    ensures var chain := Live(ops)[..k + 1];
            var older := Live(ops)[..CountsFrom(chain)];
            var total := Run(ops).chain.blocks[k].cumRct;
            && Replay(chain).Ok? && Replay(older).Ok?
            && (total == ZerosOf(chain) - ZerosOf(older) <==> Miscounts(chain) == 0)
            && (total == ZerosOf(chain) <==> Miscounts(chain) == ZerosOf(older))
  {
    RunIsReplayExactly(ops);
    TotalAt(Live(ops), k, Run(ops));
  }
}
