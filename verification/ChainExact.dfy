/**
 The converse of the undo theorem.  `pop_block` gives the previous database back only when every
 transaction of the block is restorable: an unsupported transaction leaves the transaction tables
 one row short, and a mixed coinbase leaves outputs behind under amount 0.
 */
module ChainExact {
  import opened Results
  import opened ChainTypes
  import opened ChainSpec
  import opened ChainInputs
  import opened ChainUndo

  // ---------------------------------------------------------------- counting transactions

  lemma AddedCount(db: Db, h: Hash, tx: Transaction)
    requires AddTransaction(db, h, tx).Ok?
    ensures |AddTransaction(db, h, tx).value.tables.txs| == |db.tables.txs| + if Supported(tx.vin) then 1 else 0
  {
    AcceptedExactly(db.spent, tx.vin, |tx.vin|);
    assert tx.vin[..|tx.vin|] == tx.vin;
    RollbackExactly(db.spent, tx.vin, |tx.vin|);
  }

  predicate AllSupported(txs: seq<Transaction>) {
    forall i :: 0 <= i < |txs| ==> Supported(txs[i].vin)
  }

  function SupportedCount(txs: seq<Transaction>): (n: nat)
    ensures n <= |txs|
    ensures n == |txs| <==> AllSupported(txs)
  {
    if txs == [] then 0
    else SupportedCount(txs[..|txs| - 1]) + if Supported(txs[|txs| - 1].vin) then 1 else 0
  }

  lemma {:induction false} AddTxsCount(db: Db, hashes: seq<Hash>, txs: seq<Transaction>, n: nat)
    requires n <= |hashes| == |txs| && AddTxs(db, hashes, txs, n).Ok?
    ensures |AddTxs(db, hashes, txs, n).value.tables.txs| == |db.tables.txs| + SupportedCount(txs[..n])
  {
    if n > 0 {
      AddTxsCount(db, hashes, txs, n - 1);
      AddedCount(AddTxs(db, hashes, txs, n - 1).value, hashes[n - 1], txs[n - 1]);
      assert txs[..n][..n - 1] == txs[..n - 1];
    }
  }

  /** Popping can only give the same number of transactions back when all were supported. */
  lemma RestoredIsSupported(db: Db, blk: Block, meta: nat, txs: seq<Transaction>)
    requires AddBlock(db, blk, meta, txs).Ok?
    requires PopBlock(AddBlock(db, blk, meta, txs).value).Ok?
    requires |PopBlock(AddBlock(db, blk, meta, txs).value).value.db.tables.txs| == |db.tables.txs|
    ensures Supported(blk.minerTx.vin)
    ensures AllSupported(txs)
  {
    var d := AddBlock(db, blk, meta, txs).value;
    AddedCount(db, blk.minerTx.id, blk.minerTx);
    var d1 := AddTransaction(db, blk.minerTx.id, blk.minerTx).value;
    AddTxsCount(d1, blk.txHashes, txs, |txs|);
    assert txs[..|txs|] == txs;
    TakeUndoesPutBlock(AddTxs(d1, blk.txHashes, txs, |txs|).value.chain, blk, meta, CountedRct(blk, txs));
    assert |PopBlock(d).value.db.tables.txs| == |d.tables.txs| - |blk.txHashes| - 1;
  }

  // ---------------------------------------------------------------- counting amount 0

  function Zeros(o: Outputs): nat {
    |Bucket(o, 0)|
  }

  /** How many of the first `n` outputs are stored under amount 0. */
  function StoredZeros(tx: Transaction, n: nat): nat
    requires n <= |tx.vout|
  {
    if n == 0 then 0
    else StoredZeros(tx, n - 1) + if StoredOut(tx, HasGen(tx.vin), n - 1).amount == 0 then 1 else 0
  }

  lemma {:induction false} AddOutputsZeros(o: Outputs, height: nat, h: Hash, tx: Transaction, n: nat)
    requires n <= |tx.vout| && AddOutputs(o, height, h, tx, HasGen(tx.vin), n).Ok?
    ensures Zeros(AddOutputs(o, height, h, tx, HasGen(tx.vin), n).value.0) == Zeros(o) + StoredZeros(tx, n)
  {
    if n > 0 {
      AddOutputsZeros(o, height, h, tx, n - 1);
    }
  }

  /** Outputs that stay under amount 0 when the transaction is added and removed. */
  function Leftover(tx: Transaction): int {
    StoredZeros(tx, |tx.vout|) - RemovedZeros(tx, |tx.vout|)
  }

  lemma {:induction false} LeftoverUpTo(tx: Transaction, n: nat)
    requires n <= |tx.vout|
    ensures StoredZeros(tx, n) >= RemovedZeros(tx, n)
    ensures StoredZeros(tx, n) == RemovedZeros(tx, n) <==>
            forall i :: 0 <= i < n ==> RemovalAmount(tx, i) == StoredOut(tx, HasGen(tx.vin), i).amount
  {
    if n > 0 {
      LeftoverUpTo(tx, n - 1);
      if |tx.vin| == 1 && tx.vin[0].Gen? {
        assert HasGen(tx.vin);
      }
    }
  }

  lemma LeftoverExactly(tx: Transaction)
    requires Supported(tx.vin)
    ensures Leftover(tx) >= 0
    ensures Leftover(tx) == 0 <==> Restorable(tx)
  {
    LeftoverUpTo(tx, |tx.vout|);
    RestorableSameBuckets(tx);
  }

  /** Whatever the output tables look like, a removal that succeeds takes the last transaction back. */
  lemma RemoveLast(db: Db, h: Hash, tx: Transaction, d: Db, e: Db, r: Db)
    requires Shape(db) && Supported(tx.vin) && AddTransaction(db, h, tx) == Ok(d)
    requires e.tables == d.tables && RemoveTransaction(e, h) == Ok(r)
    ensures r.tables == db.tables
    ensures Zeros(r.outs) - Zeros(db.outs) == Zeros(e.outs) - Zeros(d.outs) + Leftover(tx)
  {
    var indices := AddTransactionTables(db, h, tx, d);
    AddOutputsZeros(db.outs, |db.chain.blocks|, h, tx, |tx.vout|);
  }

  function LeftoverSum(txs: seq<Transaction>): int {
    if txs == [] then 0 else LeftoverSum(txs[..|txs| - 1]) + Leftover(txs[|txs| - 1])
  }

  lemma LeftoverSumStep(txs: seq<Transaction>, n: nat)
    requires 0 < n <= |txs|
    ensures LeftoverSum(txs[..n]) == LeftoverSum(txs[..n - 1]) + Leftover(txs[n - 1])
  {
    assert txs[..n][..n - 1] == txs[..n - 1];
  }

  lemma {:induction false} LeftoverSumExactly(txs: seq<Transaction>)
    requires AllSupported(txs)
    ensures LeftoverSum(txs) >= 0
    ensures LeftoverSum(txs) == 0 <==> AllRestorable(txs)
  {
    if txs != [] {
      LeftoverSumExactly(txs[..|txs| - 1]);
      LeftoverExactly(txs[|txs| - 1]);
    }
  }

  lemma {:induction false} AddTxsShape(db: Db, hashes: seq<Hash>, txs: seq<Transaction>, n: nat)
    requires Shape(db) && n <= |hashes| == |txs| && AddTxs(db, hashes, txs, n).Ok?
    requires AllSupported(txs)
    ensures Shape(AddTxs(db, hashes, txs, n).value)
  {
    if n > 0 {
      AddTxsShape(db, hashes, txs, n - 1);
      var indices := AddTransactionTables(AddTxs(db, hashes, txs, n - 1).value, hashes[n - 1], txs[n - 1],
                                          AddTxs(db, hashes, txs, n).value);
    }
  }

  /**
   `d` is what adding the first `n` listed transactions to `db` gives, `e` holds the same transactions
   as `d` and any outputs, and removing the first `n` transactions from `e` gives `r`.
   */
  ghost predicate Facing(db: Db, hashes: seq<Hash>, txs: seq<Transaction>, n: nat, d: Db, e: Db, r: Db) {
    && n <= |hashes| == |txs|
    && AddTxs(db, hashes, txs, n) == Ok(d)
    && e.tables == d.tables
    && RemoveTxs(e, hashes, n).Ok?
    && RemoveTxs(e, hashes, n).value.0 == r
  }

  /** One round of the removal loop, beside the round of the addition loop that it answers. */
  lemma RemoveTxsRound(db: Db, hashes: seq<Hash>, txs: seq<Transaction>, n: nat, d: Db, e: Db, r: Db)
    returns (d': Db, e': Db)
    requires Shape(db) && 0 < n && Facing(db, hashes, txs, n, d, e, r)
    requires AllSupported(txs)
    ensures Facing(db, hashes, txs, n - 1, d', e', r)
    ensures Zeros(e'.outs) - Zeros(d'.outs) == Zeros(e.outs) - Zeros(d.outs) + Leftover(txs[n - 1])
  {
    d' := AddTxs(db, hashes, txs, n - 1).value;
    e' := RemoveTransaction(e, hashes[n - 1]).value;
    AddTxsShape(db, hashes, txs, n - 1);
    RemoveLast(d', hashes[n - 1], txs[n - 1], d, e, e');
  }

  lemma FacingNone(db: Db, hashes: seq<Hash>, txs: seq<Transaction>, d: Db, e: Db, r: Db)
    requires Facing(db, hashes, txs, 0, d, e, r)
    ensures d == db && r == e
  {
  }

  lemma {:induction false} RemoveTxsLeftover(db: Db, hashes: seq<Hash>, txs: seq<Transaction>, n: nat,
                                             d: Db, e: Db, r: Db)
    requires Shape(db) && Facing(db, hashes, txs, n, d, e, r)
    requires AllSupported(txs)
    ensures r.tables == db.tables
    ensures Zeros(r.outs) - Zeros(db.outs) == Zeros(e.outs) - Zeros(d.outs) + LeftoverSum(txs[..n])
    decreases n
  {
    if n == 0 {
      FacingNone(db, hashes, txs, d, e, r);
    } else {
      var d', e' := RemoveTxsRound(db, hashes, txs, n, d, e, r);
      RemoveTxsLeftover(db, hashes, txs, n - 1, d', e', r);
      LeftoverSumStep(txs, n);
    }
  }

  lemma {:induction false} RestoredLeavesNothing(db: Db, blk: Block, meta: nat, txs: seq<Transaction>)
    requires Shape(db) && AddBlock(db, blk, meta, txs).Ok?
    requires Supported(blk.minerTx.vin) && AllSupported(txs)
    requires PopBlock(AddBlock(db, blk, meta, txs).value).Ok?
    ensures Zeros(PopBlock(AddBlock(db, blk, meta, txs).value).value.db.outs) ==
            Zeros(db.outs) + LeftoverSum(txs) + Leftover(blk.minerTx)
  {
    var d := AddBlock(db, blk, meta, txs).value;
    var d1 := AddTransaction(db, blk.minerTx.id, blk.minerTx).value;
    var indices := AddTransactionTables(db, blk.minerTx.id, blk.minerTx, d1);
    var d2 := AddTxs(d1, blk.txHashes, txs, |txs|).value;
    TakeUndoesPutBlock(d2.chain, blk, meta, CountedRct(blk, txs));
    assert d.(chain := d2.chain) == d2;
    var r := RemoveTxs(d2, blk.txHashes, |txs|).value.0;
    RemoveTxsLeftover(d1, blk.txHashes, txs, |txs|, d2, d2, r);
    assert txs[..|txs|] == txs;
    RemoveLast(db, blk.minerTx.id, blk.minerTx, d1, r, RemoveTransaction(r, blk.minerTx.id).value);
  }

  /** `pop_block` undoes a successful `add_block` if and only if every transaction is restorable. */
  lemma PopUndoesAddExactly(db: Db, blk: Block, meta: nat, txs: seq<Transaction>)
    requires Shape(db) && AddBlock(db, blk, meta, txs).Ok?
    ensures (var p := PopBlock(AddBlock(db, blk, meta, txs).value); p.Ok? && p.value.db == db) <==>
            RestorableBlock(blk, txs)
  {
    var p := PopBlock(AddBlock(db, blk, meta, txs).value);
    if RestorableBlock(blk, txs) {
      AddBlockUndo(db, blk, meta, txs);
    } else if p.Ok? && p.value.db == db {
      RestoredIsSupported(db, blk, meta, txs);
      RestoredLeavesNothing(db, blk, meta, txs);
      LeftoverSumExactly(txs);
      LeftoverExactly(blk.minerTx);
      assert false;
    }
  }
}

/** When additions are accepted, and which errors a database of the right shape never gives. */
module ChainAccept {
  import opened Results
  import opened ChainTypes
  import opened ChainSpec
  import opened ChainInputs
  import opened ChainUndo

  /** The back end takes output `i`: it pays to a key and, under amount 0, has a commitment. */
  predicate Storable(tx: Transaction, isMiner: bool, i: nat)
    requires i < |tx.vout|
  {
    && tx.vout[i].target.PubKey?
    && (StoredOut(tx, isMiner, i).amount == 0 ==> StoredCommitment(tx, isMiner, i).Some?)
  }

  lemma NextOutputAccepted(o: Outputs, height: nat, h: Hash, tx: Transaction, isMiner: bool, n: nat)
    requires OutputsShape(o) && 0 < n <= |tx.vout| && AddOutputs(o, height, h, tx, isMiner, n - 1).Ok?
    ensures AddOutputs(o, height, h, tx, isMiner, n).Ok? <==> Storable(tx, isMiner, n - 1)
    ensures AddOutputs(o, height, h, tx, isMiner, n) != Err(AppendOrder)
  {
    var o1 := AddOutputs(o, height, h, tx, isMiner, n - 1).value.0;
    AddOutputsShape(o, height, h, tx, isMiner, n - 1);
    AddOutputAccepts(o1, height, h, StoredOut(tx, isMiner, n - 1), n - 1, StoredUnlockTime(tx, n - 1),
                     StoredCommitment(tx, isMiner, n - 1));
  }

  lemma {:induction false} OutputsAcceptedExactly(o: Outputs, height: nat, h: Hash, tx: Transaction,
                                                  isMiner: bool, n: nat)
    requires OutputsShape(o) && n <= |tx.vout|
    ensures AddOutputs(o, height, h, tx, isMiner, n).Ok? <==> forall i :: 0 <= i < n ==> Storable(tx, isMiner, i)
    ensures AddOutputs(o, height, h, tx, isMiner, n) != Err(AppendOrder)
  {
    if n > 0 {
      OutputsAcceptedExactly(o, height, h, tx, isMiner, n - 1);
      if AddOutputs(o, height, h, tx, isMiner, n - 1).Ok? {
        NextOutputAccepted(o, height, h, tx, isMiner, n);
      }
    }
  }

  /** A supported transaction is added exactly when its images and its hash are new and its outputs fit. */
  lemma TransactionAcceptedExactly(db: Db, h: Hash, tx: Transaction)
    requires Shape(db) && Supported(tx.vin)
    ensures AddTransaction(db, h, tx).Ok? <==>
              && Fresh(db.spent, tx.vin)
              && h !in db.tables.numbers
              && forall i :: 0 <= i < |tx.vout| ==> Storable(tx, HasGen(tx.vin), i)
  {
    AcceptedExactly(db.spent, tx.vin, |tx.vin|);
    assert tx.vin[..|tx.vin|] == tx.vin;
    RollbackExactly(db.spent, tx.vin, |tx.vin|);
    OutputsAcceptedExactly(db.outs, |db.chain.blocks|, h, tx, HasGen(tx.vin), |tx.vout|);
  }

  /** No addition runs into the key order of a table, and every addition keeps the shape. */
  lemma AddTransactionKeepsShape(db: Db, h: Hash, tx: Transaction)
    requires Shape(db)
    ensures AddTransaction(db, h, tx) != Err(AppendOrder)
    ensures AddTransaction(db, h, tx).Ok? ==> Shape(AddTransaction(db, h, tx).value)
  {
    AcceptedExactly(db.spent, tx.vin, |tx.vin|);
    assert tx.vin[..|tx.vin|] == tx.vin;
    InputsNeverOrder(db.spent, tx.vin, |tx.vin|);
    if Supported(tx.vin) {
      OutputsAcceptedExactly(db.outs, |db.chain.blocks|, h, tx, HasGen(tx.vin), |tx.vout|);
      if AddTransaction(db, h, tx).Ok? {
        var indices := AddTransactionTables(db, h, tx, AddTransaction(db, h, tx).value);
      }
    }
  }

  lemma {:induction false} InputsNeverOrder(spent: set<KeyImage>, vin: seq<TxIn>, n: nat)
    requires n <= |vin|
    ensures AddInputs(spent, vin, n) != Refused(AppendOrder)
  {
    if n > 0 {
      InputsNeverOrder(spent, vin, n - 1);
    }
  }

  lemma {:induction false} AddTxsKeepsShape(db: Db, hashes: seq<Hash>, txs: seq<Transaction>, n: nat)
    requires Shape(db) && n <= |hashes| == |txs|
    ensures AddTxs(db, hashes, txs, n) != Err(AppendOrder)
    ensures AddTxs(db, hashes, txs, n).Ok? ==> Shape(AddTxs(db, hashes, txs, n).value)
  {
    if n > 0 {
      AddTxsKeepsShape(db, hashes, txs, n - 1);
      if AddTxs(db, hashes, txs, n - 1).Ok? {
        AddTransactionKeepsShape(AddTxs(db, hashes, txs, n - 1).value, hashes[n - 1], txs[n - 1]);
      }
    }
  }

  /** Whatever the block, `add_block` never breaks the numbering and never trips over it. */
  lemma AddBlockKeepsShape(db: Db, blk: Block, meta: nat, txs: seq<Transaction>)
    requires Shape(db)
    ensures AddBlock(db, blk, meta, txs) != Err(AppendOrder)
    ensures AddBlock(db, blk, meta, txs).Ok? ==> Shape(AddBlock(db, blk, meta, txs).value)
  {
    if |blk.txHashes| == |txs| {
      AddTransactionKeepsShape(db, blk.minerTx.id, blk.minerTx);
      var d := AddTransaction(db, blk.minerTx.id, blk.minerTx);
      if d.Ok? {
        AddTxsKeepsShape(d.value, blk.txHashes, txs, |txs|);
      }
    }
  }
}
