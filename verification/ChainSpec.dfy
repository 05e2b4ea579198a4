/** The values that the block store keeps. */
module ChainTypes {
  import opened Results
  import opened Tables

  type Hash = nat
  type KeyImage = nat

  /** Every input that is neither a coinbase nor a key input is unsupported. */
  datatype TxIn = Gen(height: nat) | ToKey(image: KeyImage) | OtherInput

  datatype Target = PubKey(key: nat) | OtherTarget

  /** Output `i`, together with entry `i` of the parallel vectors of unlock times and masks. */
  datatype TxOut = TxOut(amount: nat, target: Target, unlockTime: nat, mask: nat)

  /** `id` is the value of `get_transaction_hash`. */
  datatype Transaction = Transaction(
    id: Hash, version: nat, unlockTime: nat, vin: seq<TxIn>, vout: seq<TxOut>)

  /** `hash` is the value of `get_block_hash`. */
  datatype Block = Block(
    hash: Hash, prevId: Hash, majorVersion: nat, minerTx: Transaction, txHashes: seq<Hash>)

  datatype Commitment = Mask(mask: nat) | ZeroCommit(amount: nat)

  datatype OutKey = OutKey(
    outputId: nat, key: nat, unlockTime: nat, height: nat, commitment: Option<Commitment>)

  datatype OutTx = OutTx(txHash: Hash, localIndex: nat)

  datatype TxIndex = TxIndex(txId: nat, unlockTime: nat, blockId: nat)

  /** A block with its info record; `meta` stands for weights, difficulty and generated coins. */
  datatype BlockRecord = BlockRecord(blk: Block, cumRct: nat, meta: nat)

  /** The two output tables: by global output number, and by amount. */
  datatype Outputs = Outputs(txs: Table<OutTx>, amounts: map<nat, Table<OutKey>>)

  /** The transaction tables: number by hash, transaction by number, recorded indices by number. */
  datatype TxTables = TxTables(
    numbers: map<Hash, TxIndex>, txs: Table<Transaction>, indices: Table<seq<nat>>)

  /** The block tables: records by height, height by hash. */
  datatype Chain = Chain(blocks: seq<BlockRecord>, heights: map<Hash, nat>)

  datatype Db = Db(spent: set<KeyImage>, tables: TxTables, outs: Outputs, chain: Chain)

  datatype Error =
    | KeyImageExists | TxExists | TxMissing | WrongOutputType | RctWithoutCommitment
    | OutputMissing | OutputTxMissing | IndicesMissing | AppendOrder
    | SizeMismatch | BlockExists | BlockMissing | ParentMissing | ParentNotTop

  const EMPTY_DB: Db := Db({}, TxTables(map[], [], []), Outputs([], map[]), Chain([], map[]))
}

/**
 What the add and pop protocols compute, as functions of the tables: the storage primitives of the
 LMDB back end and, over them, `add_transaction`, `remove_transaction`, `add_block` and `pop_block`.
 */
module ChainSpec {
  import opened Results
  import opened Tables
  import opened ChainTypes

  // ---------------------------------------------------------------- inputs

  /** What the input loop of `add_transaction` ends with. */
  datatype Inputs =
    | Accepted(spent: set<KeyImage>, isMiner: bool)
    | RolledBack(spent: set<KeyImage>)
    | Refused(error: Error)

  /** Removing the key image of every key input; an absent image is ignored. */
  function RemoveImages(spent: set<KeyImage>, vin: seq<TxIn>): set<KeyImage> {
    if vin == [] then spent
    else
      var rest := RemoveImages(spent, vin[..|vin| - 1]);
      if vin[|vin| - 1].ToKey? then rest - {vin[|vin| - 1].image} else rest
  }

  /** The input loop over the first `n` inputs. */
  function AddInputs(spent: set<KeyImage>, vin: seq<TxIn>, n: nat): Inputs
    requires n <= |vin|
  {
    if n == 0 then Accepted(spent, false)
    else
      match AddInputs(spent, vin, n - 1)
      case Accepted(s, isMiner) =>
        (match vin[n - 1]
         case ToKey(k) => if k in s then Refused(KeyImageExists) else Accepted(s + {k}, isMiner)
         case Gen(_) => Accepted(s, true)
         case OtherInput => RolledBack(RemoveImages(s, vin)))
      case other => other
  }

  // ---------------------------------------------------------------- outputs

  function Bucket(o: Outputs, amount: nat): Table<OutKey> {
    if amount in o.amounts then o.amounts[amount] else []
  }

  /** A key without values does not exist in the database. */
  function SetBucket(m: map<nat, Table<OutKey>>, amount: nat, t: Table<OutKey>): map<nat, Table<OutKey>> {
    if t == [] then m - {amount} else m[amount := t]
  }

  function NumOutputs(o: Outputs): nat {
    if o.txs == [] then 0 else o.txs[|o.txs| - 1].key + 1
  }

  /** `height` is the height of the block being added. */
  function AddOutput(o: Outputs, height: nat, h: Hash, out: TxOut, i: nat, unlockTime: nat,
                     commitment: Option<Commitment>): Result<(Outputs, nat), Error>
  {
    var bucket := Bucket(o, out.amount);
    if out.target.OtherTarget? then Err(WrongOutputType)
    else if out.amount == 0 && commitment.None? then Err(RctWithoutCommitment)
    else if !CanAppend(o.txs, NumOutputs(o)) then Err(AppendOrder)
    else if !CanAppend(bucket, |bucket|) then Err(AppendOrder)
    else
      var row := OutKey(NumOutputs(o), out.target.key, unlockTime, height,
                        if out.amount == 0 then commitment else None);
      Ok((Outputs(Append(o.txs, NumOutputs(o), OutTx(h, i)),
                  SetBucket(o.amounts, out.amount, Append(bucket, |bucket|, row))),
          |bucket|))
  }

  function RemoveOutput(o: Outputs, amount: nat, index: nat): (r: Result<Outputs, Error>)
    ensures r.Ok? ==> |Bucket(r.value, 0)| == |Bucket(o, 0)| - if amount == 0 then 1 else 0
  {
    var bucket := Bucket(o, amount);
    var p := Position(bucket, index);
    if p == |bucket| then Err(OutputMissing)
    else
      var q := Position(o.txs, bucket[p].val.outputId);
      if q == |o.txs| then Err(OutputTxMissing)
      else Ok(Outputs(Delete(o.txs, q), SetBucket(o.amounts, amount, Delete(bucket, p))))
  }

  predicate HasGen(vin: seq<TxIn>) {
    exists i :: 0 <= i < |vin| && vin[i].Gen?
  }

  /** The output as `add_transaction` hands it to `add_output`. */
  function StoredOut(tx: Transaction, isMiner: bool, i: nat): TxOut
    requires i < |tx.vout|
  {
    if isMiner && tx.version >= 2 then tx.vout[i].(amount := 0) else tx.vout[i]
  }

  function StoredCommitment(tx: Transaction, isMiner: bool, i: nat): Option<Commitment>
    requires i < |tx.vout|
  {
    if isMiner && tx.version >= 2 then Some(ZeroCommit(tx.vout[i].amount))
    else if tx.version > 1 then Some(Mask(tx.vout[i].mask))
    else None
  }

  function StoredUnlockTime(tx: Transaction, i: nat): nat
    requires i < |tx.vout|
  {
    if tx.version > 2 then tx.vout[i].unlockTime else tx.unlockTime
  }

  /** The output loop of `add_transaction` over the first `n` outputs, with the indices it records. */
  function AddOutputs(o: Outputs, height: nat, h: Hash, tx: Transaction, isMiner: bool, n: nat)
    : (r: Result<(Outputs, seq<nat>), Error>)
    requires n <= |tx.vout|
    ensures r.Ok? ==> |r.value.1| == n
  {
    if n == 0 then Ok((o, []))
    else
      var (o1, indices) :- AddOutputs(o, height, h, tx, isMiner, n - 1);
      var (o2, index) :- AddOutput(o1, height, h, StoredOut(tx, isMiner, n - 1), n - 1,
                                   StoredUnlockTime(tx, n - 1), StoredCommitment(tx, isMiner, n - 1));
      Ok((o2, indices + [index]))
  }

  /** The bucket in which `remove_tx_outputs` looks for output `i`. */
  function RemovalAmount(tx: Transaction, i: nat): nat
    requires i < |tx.vout|
  {
    if tx.version >= 2 && |tx.vin| == 1 && tx.vin[0].Gen? then 0 else tx.vout[i].amount
  }

  /** How many of the first `n` outputs are looked for under amount 0. */
  function RemovedZeros(tx: Transaction, n: nat): nat
    requires n <= |tx.vout|
  {
    if n == 0 then 0
    else RemovedZeros(tx, n - 1) + if RemovalAmount(tx, n - 1) == 0 then 1 else 0
  }

  /** The removal loop, from output `n - 1` down to output 0. */
  function RemoveOutputs(o: Outputs, tx: Transaction, indices: seq<nat>, n: nat): (r: Result<Outputs, Error>)
    requires n <= |tx.vout| && n <= |indices|
    ensures r.Ok? ==> |Bucket(r.value, 0)| == |Bucket(o, 0)| - RemovedZeros(tx, n)
    decreases n
  {
    if n == 0 then Ok(o)
    else
      var o1 :- RemoveOutput(o, RemovalAmount(tx, n - 1), indices[n - 1]);
      RemoveOutputs(o1, tx, indices, n - 1)
  }

  // ---------------------------------------------------------------- transactions

  function GetTx(t: TxTables, h: Hash): Option<Transaction> {
    if h !in t.numbers then None
    else
      var p := Position(t.txs, t.numbers[h].txId);
      if p == |t.txs| then None else Some(t.txs[p].val)
  }

  /** `add_transaction_data`: the next number is the number of stored transactions. */
  function PutTx(t: TxTables, height: nat, h: Hash, tx: Transaction): Result<TxTables, Error> {
    var id := |t.txs|;
    if h in t.numbers then Err(TxExists)
    else if !CanAppend(t.txs, id) then Err(AppendOrder)
    else Ok(t.(numbers := t.numbers[h := TxIndex(id, tx.unlockTime, height)], txs := Append(t.txs, id, tx)))
  }

  /** `add_tx_amount_output_indices` */
  function PutIndices(t: TxTables, id: nat, indices: seq<nat>): Result<TxTables, Error> {
    if !CanAppend(t.indices, id) then Err(AppendOrder)
    else Ok(t.(indices := Append(t.indices, id, indices)))
  }

  function AddTransaction(db: Db, h: Hash, tx: Transaction): Result<Db, Error> {
    match AddInputs(db.spent, tx.vin, |tx.vin|)
    case Refused(e) => Err(e)
    case RolledBack(s) => Ok(db.(spent := s))
    case Accepted(s, isMiner) =>
      var height := |db.chain.blocks|;
      var t1 :- PutTx(db.tables, height, h, tx);
      var (outs, indices) :- AddOutputs(db.outs, height, h, tx, isMiner, |tx.vout|);
      var t2 :- PutIndices(t1, |db.tables.txs|, indices);
      Ok(db.(spent := s, tables := t2, outs := outs))
  }

  /** What `remove_transaction_data` takes out of the transaction tables. */
  datatype Taken = Taken(tables: TxTables, tx: Transaction, indices: seq<nat>)

  function TakeTx(t: TxTables, h: Hash): (r: Result<Taken, Error>)
    ensures r.Ok? ==> |r.value.tables.txs| == |t.txs| - 1
    ensures r.Ok? ==> GetTx(t, h) == Some(r.value.tx) && |r.value.tx.vout| <= |r.value.indices|
  {
    if h !in t.numbers then Err(TxMissing)
    else
      var id := t.numbers[h].txId;
      var p := Position(t.txs, id);
      var q := Position(t.indices, id);
      if p == |t.txs| then Err(TxMissing)
      else if q == |t.indices| || |t.indices[q].val| < |t.txs[p].val.vout| then Err(IndicesMissing)
      else Ok(Taken(TxTables(t.numbers - {h}, Delete(t.txs, p), Delete(t.indices, q)),
                    t.txs[p].val, t.indices[q].val))
  }

  function RemoveTransaction(db: Db, h: Hash): (r: Result<Db, Error>)
    ensures r.Ok? ==> |r.value.tables.txs| == |db.tables.txs| - 1 && r.value.chain == db.chain
  {
    var taken :- TakeTx(db.tables, h);
    var outs :- RemoveOutputs(db.outs, taken.tx, taken.indices, |taken.tx.vout|);
    Ok(db.(spent := RemoveImages(db.spent, taken.tx.vin), tables := taken.tables, outs := outs))
  }

  // ---------------------------------------------------------------- blocks

  /** Adding the first `n` listed transactions. */
  function AddTxs(db: Db, hashes: seq<Hash>, txs: seq<Transaction>, n: nat): Result<Db, Error>
    requires n <= |hashes| == |txs|
  {
    if n == 0 then Ok(db)
    else
      var d :- AddTxs(db, hashes, txs, n - 1);
      AddTransaction(d, hashes[n - 1], txs[n - 1])
  }

  function ZeroAmounts(vout: seq<TxOut>): nat {
    if vout == [] then 0
    else ZeroAmounts(vout[..|vout| - 1]) + if vout[|vout| - 1].amount == 0 then 1 else 0
  }

  function ListedZeroAmounts(txs: seq<Transaction>): nat {
    if txs == [] then 0 else ListedZeroAmounts(txs[..|txs| - 1]) + ZeroAmounts(txs[|txs| - 1].vout)
  }

  /** `num_rct_outs` as `add_block` counts it. */
  function CountedRct(blk: Block, txs: seq<Transaction>): nat {
    (if blk.minerTx.version >= 2 then |blk.minerTx.vout| else 0) + ListedZeroAmounts(txs)
  }

  function PutBlock(c: Chain, blk: Block, meta: nat, numRct: nat): Result<Chain, Error> {
    var height := |c.blocks|;
    if blk.hash in c.heights then Err(BlockExists)
    else if height > 0 && blk.prevId !in c.heights then Err(ParentMissing)
    else if height > 0 && c.heights[blk.prevId] != height - 1 then Err(ParentNotTop)
    else
      var before := if blk.majorVersion >= 4 && height > 0 then c.blocks[height - 1].cumRct else 0;
      Ok(Chain(c.blocks + [BlockRecord(blk, numRct + before, meta)], c.heights[blk.hash := height]))
  }

  function AddBlock(db: Db, blk: Block, meta: nat, txs: seq<Transaction>): Result<Db, Error> {
    if |blk.txHashes| != |txs| then Err(SizeMismatch)
    else
      var d1 :- AddTransaction(db, blk.minerTx.id, blk.minerTx);
      var d2 :- AddTxs(d1, blk.txHashes, txs, |txs|);
      var chain :- PutBlock(d2.chain, blk, meta, CountedRct(blk, txs));
      Ok(d2.(chain := chain))
  }

  function TakeBlock(c: Chain): Result<(Chain, Block), Error> {
    if c.blocks == [] then Err(BlockMissing)
    else
      var top := c.blocks[|c.blocks| - 1].blk;
      if top.hash !in c.heights then Err(BlockMissing)
      else Ok((Chain(c.blocks[..|c.blocks| - 1], c.heights - {top.hash}), top))
  }

  /** Removing the first `n` listed transactions, last one first; the result lists them in that order. */
  function RemoveTxs(db: Db, hashes: seq<Hash>, n: nat): (r: Result<(Db, seq<Transaction>), Error>)
    requires n <= |hashes|
    ensures r.Ok? ==> |r.value.0.tables.txs| == |db.tables.txs| - n && |r.value.1| == n
    ensures r.Ok? ==> r.value.0.chain == db.chain
    decreases n
  {
    if n == 0 then Ok((db, []))
    else
      match GetTx(db.tables, hashes[n - 1])
      case None => Err(TxMissing)
      case Some(tx) =>
        var d :- RemoveTransaction(db, hashes[n - 1]);
        var (d', txs) :- RemoveTxs(d, hashes, n - 1);
        Ok((d', [tx] + txs))
  }

  datatype Popped = Popped(db: Db, blk: Block, txs: seq<Transaction>)

  function PopBlock(db: Db): Result<Popped, Error> {
    var (chain, blk) :- TakeBlock(db.chain);
    var (d1, txs) :- RemoveTxs(db.(chain := chain), blk.txHashes, |blk.txHashes|);
    var d2 :- RemoveTransaction(d1, blk.minerTx.id);
    Ok(Popped(d2, blk, txs))
  }
}
