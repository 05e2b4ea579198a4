/** The input loop, characterised: when it accepts, what it adds, and what its rollback restores. */
module ChainInputs {
  import opened ChainTypes
  import opened ChainSpec

  /** The key images of a list of inputs, in order. */
  function Images(vin: seq<TxIn>): seq<KeyImage> {
    if vin == [] then []
    else Images(vin[..|vin| - 1]) + if vin[|vin| - 1].ToKey? then [vin[|vin| - 1].image] else []
  }

  ghost function ImageSet(vin: seq<TxIn>): set<KeyImage> {
    set k | k in Images(vin)
  }

  ghost predicate NoDuplicates(s: seq<KeyImage>) {
    forall i, j :: 0 <= i < j < |s| ==> s[i] != s[j]
  }

  predicate Supported(vin: seq<TxIn>) {
    forall i :: 0 <= i < |vin| ==> !vin[i].OtherInput?
  }

  /** The images are new: not spent yet, and no image twice. */
  ghost predicate Fresh(spent: set<KeyImage>, vin: seq<TxIn>) {
    NoDuplicates(Images(vin)) && ImageSet(vin) !! spent
  }

  lemma {:induction false} RemoveImagesIsDifference(spent: set<KeyImage>, vin: seq<TxIn>)
    ensures RemoveImages(spent, vin) == spent - ImageSet(vin)
  {
    if vin != [] {
      RemoveImagesIsDifference(spent, vin[..|vin| - 1]);
    }
  }

  /** The loop accepts the first `n` inputs exactly when they are supported and their images fresh. */
  lemma {:induction false} AcceptedExactly(spent: set<KeyImage>, vin: seq<TxIn>, n: nat)
    requires n <= |vin|
    ensures AddInputs(spent, vin, n).Accepted? <==> Supported(vin[..n]) && Fresh(spent, vin[..n])
    ensures AddInputs(spent, vin, n).Accepted? ==>
              AddInputs(spent, vin, n) == Accepted(spent + ImageSet(vin[..n]), HasGen(vin[..n]))
  {
    if n == 0 {
      assert Images(vin[..0]) == [];
    } else {
      AcceptedExactly(spent, vin, n - 1);
      var before, now := vin[..n - 1], vin[..n];
      assert now == before + [vin[n - 1]];
      assert now[..|now| - 1] == before;
      if vin[n - 1].ToKey? {
        var k := vin[n - 1].image;
        assert Images(now) == Images(before) + [k];
        FreshStep(spent, before, now, k);
      } else {
        assert Images(now) == Images(before);
        assert Supported(now) <==> Supported(before) && !vin[n - 1].OtherInput?;
        assert Fresh(spent, now) <==> Fresh(spent, before);
      }
      HasGenStep(before, now, vin[n - 1]);
    }
  }

  lemma HasGenStep(before: seq<TxIn>, now: seq<TxIn>, last: TxIn)
    requires now == before + [last]
    ensures HasGen(now) <==> HasGen(before) || last.Gen?
  {
    if HasGen(before) {
      var i :| 0 <= i < |before| && before[i].Gen?;
      assert now[i].Gen?;
    }
    if last.Gen? {
      assert now[|before|].Gen?;
    }
  }

  lemma {:induction false} FreshStep(spent: set<KeyImage>, before: seq<TxIn>, now: seq<TxIn>, k: KeyImage)
    requires now == before + [ToKey(k)] && Images(now) == Images(before) + [k]
    ensures Fresh(spent, now) <==> Fresh(spent, before) && k !in spent + ImageSet(before)
    ensures Supported(now) <==> Supported(before)
    ensures ImageSet(now) == ImageSet(before) + {k}
  {
    var a, b := Images(before), Images(now);
    assert b[|a|] == k;
    assert forall i :: 0 <= i < |a| ==> b[i] == a[i];
    assert forall x :: x in b <==> x in a || x == k;
    if Supported(now) {
      assert forall i :: 0 <= i < |before| ==> before[i] == now[i];
    }
  }

  /** Accepting a transaction's images and removing them again gives the spent set back. */
  lemma {:induction false} InputsUndo(spent: set<KeyImage>, vin: seq<TxIn>)
    requires AddInputs(spent, vin, |vin|).Accepted?
    ensures RemoveImages(AddInputs(spent, vin, |vin|).spent, vin) == spent
  {
    AcceptedExactly(spent, vin, |vin|);
    assert vin[..|vin|] == vin;
    RemoveImagesIsDifference(spent + ImageSet(vin), vin);
  }

  // ---------------------------------------------------------------- rollback

  /** `u` is the first unsupported input and everything before it was accepted. */
  ghost predicate UnsupportedAt(spent: set<KeyImage>, vin: seq<TxIn>, u: nat) {
    u < |vin| && vin[u].OtherInput? && Supported(vin[..u]) && Fresh(spent, vin[..u])
  }

  lemma {:induction false} RollbackStays(spent: set<KeyImage>, vin: seq<TxIn>, u: nat, n: nat)
    requires UnsupportedAt(spent, vin, u) && u < n <= |vin|
    ensures AddInputs(spent, vin, n) == RolledBack(RemoveImages(spent + ImageSet(vin[..u]), vin))
  {
    AcceptedExactly(spent, vin, u);
    if n > u + 1 {
      RollbackStays(spent, vin, u, n - 1);
    }
  }

  /** A rollback happens exactly when there is such an input. */
  lemma {:induction false} RollbackExactly(spent: set<KeyImage>, vin: seq<TxIn>, n: nat)
    requires n <= |vin|
    ensures AddInputs(spent, vin, n).RolledBack? <==> exists u: nat :: u < n && UnsupportedAt(spent, vin, u)
  {
    forall u: nat | u < n && UnsupportedAt(spent, vin, u)
      ensures AddInputs(spent, vin, n).RolledBack?
    {
      RollbackStays(spent, vin, u, n);
    }
    if n > 0 && AddInputs(spent, vin, n).RolledBack? {
      RollbackExactly(spent, vin, n - 1);
      AcceptedExactly(spent, vin, n - 1);
      if AddInputs(spent, vin, n - 1).Accepted? {
        assert UnsupportedAt(spent, vin, n - 1);
      }
    }
  }

  lemma {:induction false} ImagesConcat(a: seq<TxIn>, b: seq<TxIn>)
    ensures Images(a + b) == Images(a) + Images(b)
  {
    if b == [] {
      assert a + b == a;
    } else {
      ImagesConcat(a, b[..|b| - 1]);
      assert (a + b)[..|a + b| - 1] == a + b[..|b| - 1];
    }
  }

  lemma ImagesAround(vin: seq<TxIn>, u: nat)
    requires u < |vin| && !vin[u].ToKey?
    ensures ImageSet(vin) == ImageSet(vin[..u]) + ImageSet(vin[u + 1..])
  {
    var pre, mid, post := vin[..u], [vin[u]], vin[u + 1..];
    assert vin == pre + (mid + post);
    ImagesConcat(pre, mid + post);
    ImagesConcat(mid, post);
    assert Images(mid) == Images(mid[..0]);
    assert Images(vin) == Images(pre) + Images(post);
  }

  /**
   The rollback of an unsupported input restores the spent set exactly when no key image listed
   after that input had been spent before: the loop also removes images it never added.
   */
  lemma {:induction false} RollbackRestoresExactly(spent: set<KeyImage>, vin: seq<TxIn>, u: nat)
    requires UnsupportedAt(spent, vin, u)
    ensures AddInputs(spent, vin, |vin|).RolledBack?
    ensures AddInputs(spent, vin, |vin|).spent == spent <==> ImageSet(vin[u + 1..]) !! spent
  {
    RollbackStays(spent, vin, u, |vin|);
    RemoveImagesIsDifference(spent + ImageSet(vin[..u]), vin);
    ImagesAround(vin, u);
    var pre, post := ImageSet(vin[..u]), ImageSet(vin[u + 1..]);
    assert ImageSet(vin[..u]) !! spent;
    assert spent + pre - (pre + post) == spent - post;
    if post !! spent {
      assert spent - post == spent;
    } else {
      var k :| k in post && k in spent;
      assert k !in spent - post;
    }
  }
}

/** Every removal primitive, called in the order of `pop_block`, undoes the matching addition. */
module ChainUndo {
  import opened Results
  import opened Tables
  import opened ChainTypes
  import opened ChainSpec
  import opened ChainInputs

  /** Output numbers are 0, 1, ...; so are the indices within each amount; no amount is empty. */
  ghost predicate OutputsShape(o: Outputs) {
    && Dense(o.txs)
    && forall a :: a in o.amounts ==> o.amounts[a] != [] && Dense(o.amounts[a])
  }

  /** Transaction numbers are 0, 1, ... in both tables that they key. */
  ghost predicate TablesShape(t: TxTables) {
    Dense(t.txs) && Dense(t.indices) && |t.indices| == |t.txs|
  }

  ghost predicate Shape(db: Db) {
    OutputsShape(db.outs) && TablesShape(db.tables)
  }

  /** Under the shape invariant only a wrong target or a missing commitment is refused. */
  lemma AddOutputAccepts(o: Outputs, height: nat, h: Hash, out: TxOut, i: nat, unlockTime: nat,
                         commitment: Option<Commitment>)
    requires OutputsShape(o)
    ensures AddOutput(o, height, h, out, i, unlockTime, commitment).Ok? <==>
              out.target.PubKey? && (out.amount == 0 ==> commitment.Some?)
    ensures NumOutputs(o) == |o.txs|
  {
    assert Dense(Bucket(o, out.amount));
  }

  lemma BucketRestored(o: Outputs, amount: nat, added: Table<OutKey>)
    requires OutputsShape(o) && added != []
    ensures SetBucket(SetBucket(o.amounts, amount, added), amount, Bucket(o, amount)) == o.amounts
  {
  }

  lemma AddOutputUndo(o: Outputs, height: nat, h: Hash, out: TxOut, i: nat, unlockTime: nat,
                      commitment: Option<Commitment>)
    requires OutputsShape(o)
    requires AddOutput(o, height, h, out, i, unlockTime, commitment).Ok?
    ensures var (o', index) := AddOutput(o, height, h, out, i, unlockTime, commitment).value;
            OutputsShape(o') && RemoveOutput(o', out.amount, index) == Ok(o)
  {
    var (o', index) := AddOutput(o, height, h, out, i, unlockTime, commitment).value;
    var bucket, added := Bucket(o, out.amount), Bucket(o', out.amount);
    assert Dense(bucket) && NumOutputs(o) == |o.txs|;
    AppendDelete(bucket, added[|bucket|].val);
    AppendDelete(o.txs, OutTx(h, i));
    BucketRestored(o, out.amount, added);
  }

  /** The removal loop looks for every output in the bucket in which the output was stored. */
  ghost predicate SameBuckets(tx: Transaction, isMiner: bool) {
    forall i :: 0 <= i < |tx.vout| ==> RemovalAmount(tx, i) == StoredOut(tx, isMiner, i).amount
  }

  lemma {:induction false} AddOutputsShape(o: Outputs, height: nat, h: Hash, tx: Transaction,
                                           isMiner: bool, n: nat)
    requires OutputsShape(o) && n <= |tx.vout|
    requires AddOutputs(o, height, h, tx, isMiner, n).Ok?
    ensures OutputsShape(AddOutputs(o, height, h, tx, isMiner, n).value.0)
  {
    if n > 0 {
      AddOutputsShape(o, height, h, tx, isMiner, n - 1);
      AddOutputUndo(AddOutputs(o, height, h, tx, isMiner, n - 1).value.0, height, h,
                    StoredOut(tx, isMiner, n - 1), n - 1, StoredUnlockTime(tx, n - 1),
                    StoredCommitment(tx, isMiner, n - 1));
    }
  }

  /** Removing a transaction's outputs from the last to the first undoes adding them. */
  lemma {:induction false} AddOutputsUndo(o: Outputs, height: nat, h: Hash, tx: Transaction,
                                          isMiner: bool, n: nat, indices: seq<nat>)
    requires OutputsShape(o) && n <= |tx.vout| && SameBuckets(tx, isMiner)
    requires AddOutputs(o, height, h, tx, isMiner, n).Ok?
    requires AddOutputs(o, height, h, tx, isMiner, n).value.1 <= indices
    ensures RemoveOutputs(AddOutputs(o, height, h, tx, isMiner, n).value.0, tx, indices, n) == Ok(o)
  {
    if n > 0 {
      var (o1, before) := AddOutputs(o, height, h, tx, isMiner, n - 1).value;
      AddOutputsShape(o, height, h, tx, isMiner, n - 1);
      AddOutputUndo(o1, height, h, StoredOut(tx, isMiner, n - 1), n - 1,
                    StoredUnlockTime(tx, n - 1), StoredCommitment(tx, isMiner, n - 1));
      assert before <= indices;
      AddOutputsUndo(o, height, h, tx, isMiner, n - 1, indices);
    }
  }

  // ---------------------------------------------------------------- one transaction

  /**
   The condition on a transaction under which the store can take it back: every input is supported,
   and a version-2 transaction that mixes a coinbase input with others has only zero amounts.
   */
  predicate Restorable(tx: Transaction) {
    && Supported(tx.vin)
    && (tx.version >= 2 && HasGen(tx.vin) && |tx.vin| != 1 ==>
          forall i :: 0 <= i < |tx.vout| ==> tx.vout[i].amount == 0)
  }

  lemma RestorableSameBuckets(tx: Transaction)
    requires Supported(tx.vin)
    ensures SameBuckets(tx, HasGen(tx.vin)) <==> Restorable(tx)
  {
    if |tx.vin| == 1 {
      assert HasGen(tx.vin) <==> tx.vin[0].Gen?;
    } else if tx.version >= 2 && HasGen(tx.vin) && SameBuckets(tx, true) {
      forall i | 0 <= i < |tx.vout|
        ensures tx.vout[i].amount == 0
      {
        assert RemovalAmount(tx, i) == StoredOut(tx, true, i).amount;
      }
    }
  }

  /** Taking out the transaction that was put in last gives the tables back. */
  lemma TakeUndoesPut(t: TxTables, height: nat, h: Hash, tx: Transaction, indices: seq<nat>)
    requires TablesShape(t) && h !in t.numbers && |indices| == |tx.vout|
    ensures PutTx(t, height, h, tx).Ok?
    ensures PutIndices(PutTx(t, height, h, tx).value, |t.txs|, indices).Ok?
    ensures var t' := PutIndices(PutTx(t, height, h, tx).value, |t.txs|, indices).value;
            TablesShape(t') && TakeTx(t', h) == Ok(Taken(t, tx, indices))
  {
    AppendDelete(t.txs, tx);
    AppendDelete(t.indices, indices);
    var t' := PutIndices(PutTx(t, height, h, tx).value, |t.txs|, indices).value;
    assert t'.numbers - {h} == t.numbers;
  }

  /** What adding a supported transaction writes, table by table. */
  lemma AddTransactionTables(db: Db, h: Hash, tx: Transaction, d: Db) returns (indices: seq<nat>)
    requires Shape(db) && Supported(tx.vin) && AddTransaction(db, h, tx) == Ok(d)
    ensures h !in db.tables.numbers && Fresh(db.spent, tx.vin)
    ensures AddOutputs(db.outs, |db.chain.blocks|, h, tx, HasGen(tx.vin), |tx.vout|) == Ok((d.outs, indices))
    ensures d.spent == db.spent + ImageSet(tx.vin) && d.chain == db.chain
    ensures d.tables.numbers == db.tables.numbers[h := TxIndex(|db.tables.txs|, tx.unlockTime, |db.chain.blocks|)]
    ensures d.tables.txs == Append(db.tables.txs, |db.tables.txs|, tx)
    ensures d.tables.indices == Append(db.tables.indices, |db.tables.txs|, indices)
    ensures TakeTx(d.tables, h) == Ok(Taken(db.tables, tx, indices))
    ensures Shape(d)
  {
    AcceptedExactly(db.spent, tx.vin, |tx.vin|);
    assert tx.vin[..|tx.vin|] == tx.vin;
    RollbackExactly(db.spent, tx.vin, |tx.vin|);
    var height := |db.chain.blocks|;
    indices := AddOutputs(db.outs, height, h, tx, HasGen(tx.vin), |tx.vout|).value.1;
    AddOutputsShape(db.outs, height, h, tx, HasGen(tx.vin), |tx.vout|);
    TakeUndoesPut(db.tables, height, h, tx, indices);
  }

  /** `remove_transaction` takes back exactly what `add_transaction` wrote. */
  lemma AddTransactionUndo(db: Db, h: Hash, tx: Transaction, d: Db)
    requires Shape(db) && Restorable(tx) && AddTransaction(db, h, tx) == Ok(d)
    ensures Shape(d) && GetTx(d.tables, h) == Some(tx)
    ensures RemoveTransaction(d, h) == Ok(db)
  {
    var indices := AddTransactionTables(db, h, tx, d);
    RestorableSameBuckets(tx);
    AddOutputsUndo(db.outs, |db.chain.blocks|, h, tx, HasGen(tx.vin), |tx.vout|, indices);
    RemoveImagesIsDifference(d.spent, tx.vin);
    assert d.spent - ImageSet(tx.vin) == db.spent;
  }

  // ---------------------------------------------------------------- one block

  function Reversed(txs: seq<Transaction>): (r: seq<Transaction>)
    ensures |r| == |txs|
    ensures forall i :: 0 <= i < |txs| ==> r[i] == txs[|txs| - 1 - i]
  {
    if txs == [] then [] else [txs[|txs| - 1]] + Reversed(txs[..|txs| - 1])
  }

  ghost predicate AllRestorable(txs: seq<Transaction>) {
    forall i :: 0 <= i < |txs| ==> Restorable(txs[i])
  }

  ghost predicate AddedTo(db: Db, hashes: seq<Hash>, txs: seq<Transaction>, n: nat, d: Db) {
    n <= |hashes| == |txs| && AddTxs(db, hashes, txs, n) == Ok(d)
  }

  ghost predicate RemovedTo(d: Db, hashes: seq<Hash>, n: nat, db: Db, txs: seq<Transaction>) {
    n <= |hashes| && RemoveTxs(d, hashes, n) == Ok((db, txs))
  }

  /** The last round of the addition loop. */
  lemma AddTxsRound(db: Db, hashes: seq<Hash>, txs: seq<Transaction>, n: nat, d: Db) returns (before: Db)
    requires 0 < n && AddedTo(db, hashes, txs, n, d)
    ensures AddedTo(db, hashes, txs, n - 1, before) && AddTransaction(before, hashes[n - 1], txs[n - 1]) == Ok(d)
  {
    before := AddTxs(db, hashes, txs, n - 1).value;
  }

  /** The first round of the removal loop takes back the last round of the addition loop. */
  lemma RemoveTxsRound(d: Db, hashes: seq<Hash>, n: nat, tx: Transaction, before: Db, db: Db, rest: seq<Transaction>)
    requires 0 < n && RemovedTo(before, hashes, n - 1, db, rest) && n <= |hashes|
    requires Shape(before) && Restorable(tx) && AddTransaction(before, hashes[n - 1], tx) == Ok(d)
    ensures Shape(d) && RemovedTo(d, hashes, n, db, [tx] + rest)
  {
    AddTransactionUndo(before, hashes[n - 1], tx, d);
  }

  lemma NothingAdded(db: Db, hashes: seq<Hash>, txs: seq<Transaction>, d: Db)
    requires AddedTo(db, hashes, txs, 0, d)
    ensures d == db && RemovedTo(d, hashes, 0, db, [])
  {
  }

  lemma ReversedStep(txs: seq<Transaction>, n: nat)
    requires 0 < n <= |txs|
    ensures Reversed(txs[..n]) == [txs[n - 1]] + Reversed(txs[..n - 1])
  {
    assert txs[..n][..n - 1] == txs[..n - 1];
  }

  lemma {:induction false} AddTxsUndo(db: Db, hashes: seq<Hash>, txs: seq<Transaction>, n: nat, d: Db)
    requires Shape(db) && AllRestorable(txs) && AddedTo(db, hashes, txs, n, d)
    ensures Shape(d) && RemovedTo(d, hashes, n, db, Reversed(txs[..n]))
    decreases n
  {
    if n == 0 {
      NothingAdded(db, hashes, txs, d);
    } else {
      var before := AddTxsRound(db, hashes, txs, n, d);
      AddTxsUndo(db, hashes, txs, n - 1, before);
      RemoveTxsRound(d, hashes, n, txs[n - 1], before, db, Reversed(txs[..n - 1]));
      ReversedStep(txs, n);
    }
  }

  ghost predicate RestorableBlock(blk: Block, txs: seq<Transaction>) {
    Restorable(blk.minerTx) && AllRestorable(txs)
  }

  lemma TakeUndoesPutBlock(c: Chain, blk: Block, meta: nat, numRct: nat)
    requires PutBlock(c, blk, meta, numRct).Ok?
    ensures TakeBlock(PutBlock(c, blk, meta, numRct).value) == Ok((c, blk))
  {
    var c' := PutBlock(c, blk, meta, numRct).value;
    assert c'.blocks[..|c'.blocks| - 1] == c.blocks;
    assert c'.heights - {blk.hash} == c.heights;
  }

  /**
   `add_block` followed by `pop_block` restores every table, returns the block, and returns its
   transactions in reverse order.
   */
  lemma {:induction false} AddBlockUndo(db: Db, blk: Block, meta: nat, txs: seq<Transaction>)
    requires Shape(db) && RestorableBlock(blk, txs) && AddBlock(db, blk, meta, txs).Ok?
    ensures Shape(AddBlock(db, blk, meta, txs).value)
    ensures PopBlock(AddBlock(db, blk, meta, txs).value) == Ok(Popped(db, blk, Reversed(txs)))
  {
    var d1 := AddTransaction(db, blk.minerTx.id, blk.minerTx).value;
    AddTransactionUndo(db, blk.minerTx.id, blk.minerTx, d1);
    var d2 := AddTxs(d1, blk.txHashes, txs, |txs|).value;
    AddTxsUndo(d1, blk.txHashes, txs, |txs|, d2);
    assert txs[..|txs|] == txs;
    TakeUndoesPutBlock(d2.chain, blk, meta, CountedRct(blk, txs));
  }
}
