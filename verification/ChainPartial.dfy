/**
 What a failed operation leaves behind.  Outside of a batch the write transaction is aborted and nothing
 of this is seen; inside a batch it stays.
 */
module ChainPartial {
  import opened Results
  import opened Tables
  import opened ChainTypes
  import opened ChainSpec
  import opened ChainInputs
  import opened ChainUndo
  import opened ChainAccept

  // ---------------------------------------------------------------- additions

  /** The spent images after the input loop over the first `n` inputs, wherever it stopped. */
  function SpentLeft(spent: set<KeyImage>, vin: seq<TxIn>, n: nat): set<KeyImage>
    requires n <= |vin|
  {
    if n == 0 then spent
    else
      match AddInputs(spent, vin, n - 1)
      case Accepted(s, _) =>
        (match vin[n - 1]
         case ToKey(k) => s + {k}
         case Gen(_) => s
         case OtherInput => RemoveImages(s, vin))
      case _ => SpentLeft(spent, vin, n - 1)
  }

  /** The output tables after `add_output` has thrown: the global row is written before the amount's. */
  function OutputLeft(o: Outputs, h: Hash, out: TxOut, i: nat, commitment: Option<Commitment>): Outputs {
    if out.target.OtherTarget? || (out.amount == 0 && commitment.None?) || !CanAppend(o.txs, NumOutputs(o)) then o
    else o.(txs := Append(o.txs, NumOutputs(o), OutTx(h, i)))
  }

  /** The output tables after the output loop over the first `n` outputs, wherever it stopped. */
  function OutputsLeft(o: Outputs, height: nat, h: Hash, tx: Transaction, isMiner: bool, n: nat): Outputs
    requires n <= |tx.vout|
  {
    if n == 0 then o
    else
      match AddOutputs(o, height, h, tx, isMiner, n - 1)
      case Err(_) => OutputsLeft(o, height, h, tx, isMiner, n - 1)
      case Ok((o1, _)) =>
        match AddOutput(o1, height, h, StoredOut(tx, isMiner, n - 1), n - 1, StoredUnlockTime(tx, n - 1),
                        StoredCommitment(tx, isMiner, n - 1))
        case Ok((o2, _)) => o2
        case Err(_) => OutputLeft(o1, h, StoredOut(tx, isMiner, n - 1), n - 1, StoredCommitment(tx, isMiner, n - 1))
  }

  /** The transaction tables after `add_transaction_data` has thrown: the number is written before the row. */
  function TxLeft(t: TxTables, height: nat, h: Hash, tx: Transaction): TxTables {
    if h in t.numbers then t else t.(numbers := t.numbers[h := TxIndex(|t.txs|, tx.unlockTime, height)])
  }

  /** The database after `add_transaction` has thrown. */
  function TransactionLeft(db: Db, h: Hash, tx: Transaction): Db {
    var height := |db.chain.blocks|;
    var d := db.(spent := SpentLeft(db.spent, tx.vin, |tx.vin|));
    match AddInputs(db.spent, tx.vin, |tx.vin|)
    case Accepted(_, isMiner) =>
      (match PutTx(db.tables, height, h, tx)
       case Err(_) => d.(tables := TxLeft(db.tables, height, h, tx))
       case Ok(t) => d.(tables := t, outs := OutputsLeft(db.outs, height, h, tx, isMiner, |tx.vout|)))
    case _ => d
  }

  /** The database after the loop over the first `n` listed transactions, wherever it stopped. */
  function TxsLeft(db: Db, hashes: seq<Hash>, txs: seq<Transaction>, n: nat): Db
    requires n <= |hashes| == |txs|
  {
    if n == 0 then db
    else
      match AddTxs(db, hashes, txs, n - 1)
      case Err(_) => TxsLeft(db, hashes, txs, n - 1)
      case Ok(d) =>
        match AddTransaction(d, hashes[n - 1], txs[n - 1])
        case Ok(d') => d'
        case Err(_) => TransactionLeft(d, hashes[n - 1], txs[n - 1])
  }

  /** The database after `add_block` has thrown. */
  function BlockLeft(db: Db, blk: Block, txs: seq<Transaction>): Db {
    if |blk.txHashes| != |txs| then db
    else
      match AddTransaction(db, blk.minerTx.id, blk.minerTx)
      case Err(_) => TransactionLeft(db, blk.minerTx.id, blk.minerTx)
      case Ok(d) => TxsLeft(d, blk.txHashes, txs, |txs|)
  }

  // ---------------------------------------------------------------- removals

  function OutputsKept(o: Outputs, tx: Transaction, indices: seq<nat>, n: nat): Outputs
    requires n <= |tx.vout| && n <= |indices|
    decreases n
  {
    if n == 0 then o
    else
      match RemoveOutput(o, RemovalAmount(tx, n - 1), indices[n - 1])
      case Err(_) => o
      case Ok(o1) => OutputsKept(o1, tx, indices, n - 1)
  }

  /** The database after `remove_transaction` has thrown. */
  function TransactionKept(db: Db, h: Hash): Db {
    match GetTx(db.tables, h)
    case None => db
    case Some(tx) =>
      var id := db.tables.numbers[h].txId;
      var t := db.tables.(txs := Delete(db.tables.txs, Position(db.tables.txs, id)));
      var d := db.(spent := RemoveImages(db.spent, tx.vin), tables := t);
      var q := Position(t.indices, id);
      if q == |t.indices| || |t.indices[q].val| < |tx.vout| then d
      else d.(outs := OutputsKept(db.outs, tx, t.indices[q].val, |tx.vout|))
  }

  function TxsKept(db: Db, hashes: seq<Hash>, n: nat): Db
    requires n <= |hashes|
    decreases n
  {
    if n == 0 || GetTx(db.tables, hashes[n - 1]).None? then db
    else
      match RemoveTransaction(db, hashes[n - 1])
      case Err(_) => TransactionKept(db, hashes[n - 1])
      case Ok(d) => TxsKept(d, hashes, n - 1)
  }

  /** The database after `pop_block` has thrown. */
  function BlockKept(db: Db): Db {
    match TakeBlock(db.chain)
    case Err(_) => db
    case Ok((chain, blk)) =>
      var d := db.(chain := chain);
      match RemoveTxs(d, blk.txHashes, |blk.txHashes|)
      case Err(_) => TxsKept(d, blk.txHashes, |blk.txHashes|)
      case Ok((d1, _)) => TransactionKept(d1, blk.minerTx.id)
  }

  // ---------------------------------------------------------------- what a batch is left with

  /** The transaction's row is written, and then one of its outputs is refused. */
  ghost predicate BreaksOff(db: Db, h: Hash, tx: Transaction) {
    && Supported(tx.vin) && Fresh(db.spent, tx.vin) && h !in db.tables.numbers
    && exists i :: 0 <= i < |tx.vout| && !Storable(tx, HasGen(tx.vin), i)
  }

  lemma BreaksOffFails(db: Db, h: Hash, tx: Transaction)
    requires Shape(db) && BreaksOff(db, h, tx)
    ensures AddTransaction(db, h, tx).Err?
  {
    TransactionAcceptedExactly(db, h, tx);
  }

  /**
   A failed `add_transaction` leaves the numbering without gaps if and only if it does not break off in the
   outputs; if it does, the transaction has a row and no recorded indices.
   */
  lemma TransactionLeftExactly(db: Db, h: Hash, tx: Transaction)
    requires Shape(db) && AddTransaction(db, h, tx).Err?
    ensures Shape(TransactionLeft(db, h, tx)) <==> !BreaksOff(db, h, tx)
    ensures TransactionLeft(db, h, tx).chain == db.chain
  {
    AcceptedExactly(db.spent, tx.vin, |tx.vin|);
    assert tx.vin[..|tx.vin|] == tx.vin;
    if Supported(tx.vin) && Fresh(db.spent, tx.vin) && h !in db.tables.numbers {
      TransactionAcceptedExactly(db, h, tx);
      RowWithoutIndices(db, h, tx);
    }
  }

  lemma RowWithoutIndices(db: Db, h: Hash, tx: Transaction)
    requires Shape(db) && AddInputs(db.spent, tx.vin, |tx.vin|).Accepted? && h !in db.tables.numbers
    ensures !Shape(TransactionLeft(db, h, tx))
  {
    var t := PutTx(db.tables, |db.chain.blocks|, h, tx);
    assert t.Ok? && |t.value.txs| == |db.tables.txs| + 1 && t.value.indices == db.tables.indices;
  }

  /** Listed transaction `k` breaks off, and all before it are accepted. */
  ghost predicate BreaksOffAt(db: Db, hashes: seq<Hash>, txs: seq<Transaction>, k: nat) {
    && k < |hashes| == |txs|
    && AddTxs(db, hashes, txs, k).Ok?
    && BreaksOff(AddTxs(db, hashes, txs, k).value, hashes[k], txs[k])
  }

  ghost predicate TxsBreakOff(db: Db, hashes: seq<Hash>, txs: seq<Transaction>, n: nat) {
    exists k: nat :: k < n && BreaksOffAt(db, hashes, txs, k)
  }

  lemma {:induction false} BreaksOffAtFails(db: Db, hashes: seq<Hash>, txs: seq<Transaction>, k: nat)
    requires Shape(db) && BreaksOffAt(db, hashes, txs, k)
    ensures AddTxs(db, hashes, txs, k + 1).Err?
  {
    var d := AddTxs(db, hashes, txs, k).value;
    AddTxsKeepsShape(db, hashes, txs, k);
    BreaksOffFails(d, hashes[k], txs[k]);
  }

  lemma {:induction false} EarlierAdded(db: Db, hashes: seq<Hash>, txs: seq<Transaction>, k: nat, n: nat)
    requires k <= n <= |hashes| == |txs| && AddTxs(db, hashes, txs, n).Ok?
    ensures AddTxs(db, hashes, txs, k).Ok?
  {
    if k < n {
      EarlierAdded(db, hashes, txs, k, n - 1);
    }
  }

  lemma {:induction false} AcceptedDoNotBreakOff(db: Db, hashes: seq<Hash>, txs: seq<Transaction>, n: nat)
    requires Shape(db) && n <= |hashes| == |txs| && AddTxs(db, hashes, txs, n).Ok?
    ensures !TxsBreakOff(db, hashes, txs, n)
  {
    if TxsBreakOff(db, hashes, txs, n) {
      var k: nat :| k < n && BreaksOffAt(db, hashes, txs, k);
      BreaksOffAtFails(db, hashes, txs, k);
      EarlierAdded(db, hashes, txs, k + 1, n);
    }
  }

  lemma TxsBreakOffStep(db: Db, hashes: seq<Hash>, txs: seq<Transaction>, n: nat)
    requires n > 0
    ensures TxsBreakOff(db, hashes, txs, n) <==>
            TxsBreakOff(db, hashes, txs, n - 1) || BreaksOffAt(db, hashes, txs, n - 1)
  {
    if TxsBreakOff(db, hashes, txs, n) {
      var k: nat :| k < n && BreaksOffAt(db, hashes, txs, k);
      assert k < n - 1 || k == n - 1;
    }
  }

  /** The transaction at which the loop stops decides. */
  lemma {:induction false} LastLeftExactly(db: Db, hashes: seq<Hash>, txs: seq<Transaction>, n: nat, before: Db)
    requires Shape(db) && 0 < n && AddedTo(db, hashes, txs, n - 1, before) && n <= |hashes|
    requires AddTransaction(before, hashes[n - 1], txs[n - 1]).Err?
    ensures Shape(TxsLeft(db, hashes, txs, n)) <==> !BreaksOffAt(db, hashes, txs, n - 1)
    ensures !TxsBreakOff(db, hashes, txs, n - 1)
  {
    AddTxsKeepsShape(db, hashes, txs, n - 1);
    TransactionLeftExactly(before, hashes[n - 1], txs[n - 1]);
    AcceptedDoNotBreakOff(db, hashes, txs, n - 1);
  }

  lemma {:induction false} TxsLeftExactly(db: Db, hashes: seq<Hash>, txs: seq<Transaction>, n: nat)
    requires Shape(db) && n <= |hashes| == |txs| && AddTxs(db, hashes, txs, n).Err?
    ensures Shape(TxsLeft(db, hashes, txs, n)) <==> !TxsBreakOff(db, hashes, txs, n)
  {
    TxsBreakOffStep(db, hashes, txs, n);
    if AddTxs(db, hashes, txs, n - 1).Err? {
      TxsLeftExactly(db, hashes, txs, n - 1);
    } else {
      LastLeftExactly(db, hashes, txs, n, AddTxs(db, hashes, txs, n - 1).value);
    }
  }

  /** Some transaction of the block breaks off, and all before it are accepted. */
  ghost predicate BlockBreaksOff(db: Db, blk: Block, txs: seq<Transaction>) {
    && |blk.txHashes| == |txs|
    && var d := AddTransaction(db, blk.minerTx.id, blk.minerTx);
       BreaksOff(db, blk.minerTx.id, blk.minerTx) || (d.Ok? && TxsBreakOff(d.value, blk.txHashes, txs, |txs|))
  }

  /**
   A failed `add_block` inside a batch leaves the numbering without gaps if and only if no transaction of
   the block breaks off.
   */
  lemma BlockLeftExactly(db: Db, blk: Block, meta: nat, txs: seq<Transaction>)
    requires Shape(db) && AddBlock(db, blk, meta, txs).Err?
    ensures Shape(BlockLeft(db, blk, txs)) <==> !BlockBreaksOff(db, blk, txs)
  {
    if |blk.txHashes| == |txs| {
      var d := AddTransaction(db, blk.minerTx.id, blk.minerTx);
      if d.Err? {
        TransactionLeftExactly(db, blk.minerTx.id, blk.minerTx);
      } else {
        AddTransactionKeepsShape(db, blk.minerTx.id, blk.minerTx);
        if BreaksOff(db, blk.minerTx.id, blk.minerTx) {
          BreaksOffFails(db, blk.minerTx.id, blk.minerTx);
        }
        ListedLeftExactly(d.value, blk.txHashes, txs);
      }
    }
  }

  lemma {:induction false} ListedLeftExactly(db: Db, hashes: seq<Hash>, txs: seq<Transaction>)
    requires Shape(db) && |hashes| == |txs|
    ensures Shape(TxsLeft(db, hashes, txs, |txs|)) <==> !TxsBreakOff(db, hashes, txs, |txs|)
  {
    if AddTxs(db, hashes, txs, |txs|).Err? {
      TxsLeftExactly(db, hashes, txs, |txs|);
    } else {
      AddTxsKeepsShape(db, hashes, txs, |txs|);
      TxsLeftComplete(db, hashes, txs, |txs|);
      AcceptedDoNotBreakOff(db, hashes, txs, |txs|);
    }
  }

  lemma {:induction false} TxsLeftComplete(db: Db, hashes: seq<Hash>, txs: seq<Transaction>, n: nat)
    requires n <= |hashes| == |txs| && AddTxs(db, hashes, txs, n).Ok?
    ensures TxsLeft(db, hashes, txs, n) == AddTxs(db, hashes, txs, n).value
  {
  }

  /** A block that is refused for its place in the chain leaves all its transactions stored in the batch. */
  lemma {:induction false} RefusedBlockLeaves(db: Db, blk: Block, meta: nat, txs: seq<Transaction>, e: Error)
    requires AddBlock(db, blk, meta, txs) == Err(e) && |blk.txHashes| == |txs|
    requires AddTransaction(db, blk.minerTx.id, blk.minerTx).Ok?
    requires AddTxs(AddTransaction(db, blk.minerTx.id, blk.minerTx).value, blk.txHashes, txs, |txs|).Ok?
    ensures Ok(BlockLeft(db, blk, txs))
         == AddTxs(AddTransaction(db, blk.minerTx.id, blk.minerTx).value, blk.txHashes, txs, |txs|)
    ensures e == BlockExists || e == ParentMissing || e == ParentNotTop
  {
    TxsLeftComplete(AddTransaction(db, blk.minerTx.id, blk.minerTx).value, blk.txHashes, txs, |txs|);
  }
}
