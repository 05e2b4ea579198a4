/**
 The block store as an object: its tables are fields, and every protocol of the store changes them
 step by step in the order of the program.  Each method is tied to the function that specifies it.
 */
module ChainStore {
  import opened Results
  import opened Tables
  import opened ChainTypes
  import Spec = ChainSpec
  import Partial = ChainPartial

  /** Once the input loop has stopped, the remaining inputs do not change its outcome. */
  lemma {:induction false} InputsStuck(spent: set<KeyImage>, vin: seq<TxIn>, n: nat, m: nat)
    requires n <= m <= |vin| && !Spec.AddInputs(spent, vin, n).Accepted?
    ensures Spec.AddInputs(spent, vin, m) == Spec.AddInputs(spent, vin, n)
    ensures Partial.SpentLeft(spent, vin, m) == Partial.SpentLeft(spent, vin, n)
  {
    if n < m {
      InputsStuck(spent, vin, n, m - 1);
    }
  }

  lemma {:induction false} OutputsStuck(o: Outputs, height: nat, h: Hash, tx: Transaction, isMiner: bool,
                                        n: nat, m: nat)
    requires n <= m <= |tx.vout| && Spec.AddOutputs(o, height, h, tx, isMiner, n).Err?
    ensures Spec.AddOutputs(o, height, h, tx, isMiner, m) == Spec.AddOutputs(o, height, h, tx, isMiner, n)
    ensures Partial.OutputsLeft(o, height, h, tx, isMiner, m) == Partial.OutputsLeft(o, height, h, tx, isMiner, n)
  {
    if n < m {
      OutputsStuck(o, height, h, tx, isMiner, n, m - 1);
    }
  }

  lemma {:induction false} TxsStuck(db: Db, hashes: seq<Hash>, txs: seq<Transaction>, n: nat, m: nat)
    requires n <= m <= |hashes| == |txs| && Spec.AddTxs(db, hashes, txs, n).Err?
    ensures Spec.AddTxs(db, hashes, txs, m) == Spec.AddTxs(db, hashes, txs, n)
    ensures Partial.TxsLeft(db, hashes, txs, m) == Partial.TxsLeft(db, hashes, txs, n)
  {
    if n < m {
      TxsStuck(db, hashes, txs, n, m - 1);
    }
  }

  lemma {:induction false} RemoveImagesStep(spent: set<KeyImage>, vin: seq<TxIn>, n: nat)
    requires n < |vin|
    ensures Spec.RemoveImages(spent, vin[..n + 1]) ==
            var rest := Spec.RemoveImages(spent, vin[..n]);
            if vin[n].ToKey? then rest - {vin[n].image} else rest
  {
    assert vin[..n + 1][..n] == vin[..n];
  }

  /** The outputs that remain to be removed from `o` are those that the loop started with. */
  ghost predicate OutputsPending(start: Outputs, tx: Transaction, recorded: seq<nat>, o: Outputs, i: nat) {
    && i <= |tx.vout| <= |recorded|
    && Spec.RemoveOutputs(o, tx, recorded, i) == Spec.RemoveOutputs(start, tx, recorded, |tx.vout|)
    && Partial.OutputsKept(o, tx, recorded, i) == Partial.OutputsKept(start, tx, recorded, |tx.vout|)
  }

  lemma {:induction false} OutputsPendingStep(start: Outputs, tx: Transaction, recorded: seq<nat>, o: Outputs, i: nat)
    requires i < |tx.vout| && OutputsPending(start, tx, recorded, o, i + 1)
    ensures var removed := Spec.RemoveOutput(o, Spec.RemovalAmount(tx, i), recorded[i]);
            && (removed.Ok? ==> OutputsPending(start, tx, recorded, removed.value, i))
            && (removed.Err? ==> && Spec.RemoveOutputs(start, tx, recorded, |tx.vout|) == Err(removed.error)
                                 && Partial.OutputsKept(start, tx, recorded, |tx.vout|) == o)
  {
  }

  /** Removing the first `i` transactions from `db` completes what the loop has done so far. */
  ghost predicate TxsPending(start: Db, hashes: seq<Hash>, popped: seq<Transaction>, db: Db, i: nat) {
    && i <= |hashes|
    && (match Spec.RemoveTxs(start, hashes, |hashes|)
        case Ok((d, all)) =>
          var rest := Spec.RemoveTxs(db, hashes, i);
          rest.Ok? && rest.value.0 == d && all == popped + rest.value.1
        case Err(e) => Spec.RemoveTxs(db, hashes, i) == Err(e))
    && Partial.TxsKept(db, hashes, i) == Partial.TxsKept(start, hashes, |hashes|)
  }

  lemma {:induction false} TxsPendingStep(start: Db, hashes: seq<Hash>, popped: seq<Transaction>, db: Db, i: nat)
    requires i < |hashes| && TxsPending(start, hashes, popped, db, i + 1)
    ensures var tx := Spec.GetTx(db.tables, hashes[i]);
            var removed := Spec.RemoveTransaction(db, hashes[i]);
            && (tx.None? ==> && Spec.RemoveTxs(start, hashes, |hashes|) == Err(TxMissing)
                             && Partial.TxsKept(start, hashes, |hashes|) == db)
            && (tx.Some? && removed.Ok? ==> TxsPending(start, hashes, popped + [tx.value], removed.value, i))
            && (tx.Some? && removed.Err? ==>
                  && Spec.RemoveTxs(start, hashes, |hashes|) == Err(removed.error)
                  && Partial.TxsKept(start, hashes, |hashes|) == Partial.TransactionKept(db, hashes[i]))
  {
    var r := Spec.RemoveTxs(db, hashes, i + 1);
    var tx := Spec.GetTx(db.tables, hashes[i]);
    if tx.Some? && Spec.RemoveTransaction(db, hashes[i]).Ok? {
      var rest := Spec.RemoveTxs(Spec.RemoveTransaction(db, hashes[i]).value, hashes, i);
      if rest.Ok? {
        assert r == Ok((rest.value.0, [tx.value] + rest.value.1));
        assert popped + ([tx.value] + rest.value.1) == (popped + [tx.value]) + rest.value.1;
      }
    }
  }

  lemma {:induction false} TxsPendingDone(start: Db, hashes: seq<Hash>, popped: seq<Transaction>, db: Db)
    requires TxsPending(start, hashes, popped, db, 0)
    ensures Spec.RemoveTxs(start, hashes, |hashes|) == Ok((db, popped))
  {
    assert popped + [] == popped;
  }

  /** The part of `add_transaction` behind the input loop turns the tables `t`, `o` into `t'`, `o'` with result `r`. */
  ghost predicate StoresAs(t: TxTables, o: Outputs, height: nat, h: Hash, tx: Transaction, isMiner: bool,
                           r: Result<(), Error>, t': TxTables, o': Outputs) {
    match Spec.PutTx(t, height, h, tx)
    case Err(e) => r == Err(e) && t' == Partial.TxLeft(t, height, h, tx) && o' == o
    case Ok(t1) =>
      match Spec.AddOutputs(o, height, h, tx, isMiner, |tx.vout|)
      case Err(e) => r == Err(e) && t' == t1 && o' == Partial.OutputsLeft(o, height, h, tx, isMiner, |tx.vout|)
      case Ok((o1, recorded)) =>
        && o' == o1
        && match Spec.PutIndices(t1, |t.txs|, recorded)
           case Err(e) => r == Err(e) && t' == t1
           case Ok(t2) => r == Ok(()) && t' == t2
  }

  /** With accepted inputs in front of it, that part makes up `add_transaction`. */
  lemma StoredAs(db: Db, h: Hash, tx: Transaction, isMiner: bool, r: Result<(), Error>, d: Db)
    requires Spec.AddInputs(db.spent, tx.vin, |tx.vin|) == Spec.Accepted(d.spent, isMiner) && d.chain == db.chain
    requires StoresAs(db.tables, db.outs, |db.chain.blocks|, h, tx, isMiner, r, d.tables, d.outs)
    ensures match Spec.AddTransaction(db, h, tx)
            case Ok(d') => r == Ok(()) && d == d'
            case Err(e) => r == Err(e) && d == Partial.TransactionLeft(db, h, tx)
  {
    assert Partial.SpentLeft(db.spent, tx.vin, |tx.vin|) == d.spent;
  }

  /** How the input loop of `add_transaction` leaves it. */
  datatype InputLoop = Continue(isMiner: bool) | Return | Throw(error: Error)

  class BlockStore {
    var spent: set<KeyImage>
    var numbers: map<Hash, TxIndex>
    var txs: Table<Transaction>
    var indices: Table<seq<nat>>
    var outputTxs: Table<OutTx>
    var outputAmounts: map<nat, Table<OutKey>>
    var blocks: seq<BlockRecord>
    var heights: map<Hash, nat>

    ghost function TxView(): TxTables
      reads this
    {
      TxTables(numbers, txs, indices)
    }

    ghost function OutputView(): Outputs
      reads this
    {
      Outputs(outputTxs, outputAmounts)
    }

    ghost function View(): Db
      reads this
    {
      Db(spent, TxView(), OutputView(), Chain(blocks, heights))
    }

    constructor ()
      ensures View() == EMPTY_DB
    {
      spent, numbers, txs, indices := {}, map[], [], [];
      outputTxs, outputAmounts, blocks, heights := [], map[], [], map[];
    }

    // -------------------------------------------------------------- storage primitives

    method AddSpentKey(k: KeyImage) returns (r: Result<(), Error>)
      modifies this`spent
      ensures r == if k in old(spent) then Err(KeyImageExists) else Ok(())
      ensures spent == old(spent) + {k}
    {
      if k in spent {
        return Err(KeyImageExists);
      }
      spent := spent + {k};
      return Ok(());
    }

    /** Removing an image that is not there does nothing. */
    method RemoveSpentKey(k: KeyImage)
      modifies this`spent
      ensures spent == old(spent) - {k}
    {
      if k in spent {
        spent := spent - {k};
      }
    }

    method AddTransactionData(h: Hash, tx: Transaction) returns (r: Result<nat, Error>)
      modifies this`numbers, this`txs
      ensures match Spec.PutTx(old(TxView()), |blocks|, h, tx)
              case Ok(t) => r == Ok(old(|txs|)) && TxView() == t
              case Err(e) => r == Err(e) && TxView() == Partial.TxLeft(old(TxView()), |blocks|, h, tx)
    {
      var id := |txs|;
      if h in numbers {
        return Err(TxExists);
      }
      numbers := numbers[h := TxIndex(id, tx.unlockTime, |blocks|)];
      if !CanAppend(txs, id) {
        return Err(AppendOrder);
      }
      txs := Append(txs, id, tx);
      return Ok(id);
    }

    method AddOutput(h: Hash, out: TxOut, i: nat, unlockTime: nat, commitment: Option<Commitment>)
      returns (r: Result<nat, Error>)
      modifies this`outputTxs, this`outputAmounts
      ensures match Spec.AddOutput(old(OutputView()), |blocks|, h, out, i, unlockTime, commitment)
              case Ok((o, index)) => r == Ok(index) && OutputView() == o
              case Err(e) => r == Err(e) && OutputView() == Partial.OutputLeft(old(OutputView()), h, out, i, commitment)
    {
      if out.target.OtherTarget? {
        return Err(WrongOutputType);
      }
      if out.amount == 0 && commitment.None? {
        return Err(RctWithoutCommitment);
      }
      var outputId := if outputTxs == [] then 0 else outputTxs[|outputTxs| - 1].key + 1;
      if !CanAppend(outputTxs, outputId) {
        return Err(AppendOrder);
      }
      outputTxs := Append(outputTxs, outputId, OutTx(h, i));
      var bucket := if out.amount in outputAmounts then outputAmounts[out.amount] else [];
      var index := |bucket|;
      if !CanAppend(bucket, index) {
        return Err(AppendOrder);
      }
      var row := OutKey(outputId, out.target.key, unlockTime, |blocks|,
                        if out.amount == 0 then commitment else None);
      outputAmounts := outputAmounts[out.amount := Append(bucket, index, row)];
      return Ok(index);
    }

    method AddTxAmountOutputIndices(id: nat, recorded: seq<nat>) returns (r: Result<(), Error>)
      modifies this`indices
      ensures match Spec.PutIndices(old(TxView()), id, recorded)
              case Ok(t) => r == Ok(()) && TxView() == t
              case Err(e) => r == Err(e) && TxView() == old(TxView())
    {
      if !CanAppend(indices, id) {
        return Err(AppendOrder);
      }
      indices := Append(indices, id, recorded);
      return Ok(());
    }

    method RemoveOutput(amount: nat, index: nat) returns (r: Result<(), Error>)
      modifies this`outputTxs, this`outputAmounts
      ensures match Spec.RemoveOutput(old(OutputView()), amount, index)
              case Ok(o) => r == Ok(()) && OutputView() == o
              case Err(e) => r == Err(e) && OutputView() == old(OutputView())
    {
      if amount !in outputAmounts {
        return Err(OutputMissing);
      }
      var bucket := outputAmounts[amount];
      var p := Position(bucket, index);
      if p == |bucket| {
        return Err(OutputMissing);
      }
      var q := Position(outputTxs, bucket[p].val.outputId);
      if q == |outputTxs| {
        return Err(OutputTxMissing);
      }
      outputTxs := Delete(outputTxs, q);
      var rest := Delete(bucket, p);
      outputAmounts := if rest == [] then outputAmounts - {amount} else outputAmounts[amount := rest];
      return Ok(());
    }

    // -------------------------------------------------------------- transactions

    /** The inputs of a transaction; on an unsupported one its key images are removed again. */
    method AddInputs(vin: seq<TxIn>) returns (r: InputLoop)
      modifies this`spent
      ensures match Spec.AddInputs(old(spent), vin, |vin|)
              case Accepted(s, isMiner) => r == Continue(isMiner) && spent == s
              case RolledBack(s) => r == Return && spent == s
              case Refused(e) => r == Throw(e) && spent == Partial.SpentLeft(old(spent), vin, |vin|)
    {
      var isMiner := false;
      for i := 0 to |vin|
        invariant Spec.AddInputs(old(spent), vin, i) == Spec.Accepted(spent, isMiner)
      {
        match vin[i]
        case ToKey(k) =>
          var added := AddSpentKey(k);
          if added.Err? {
            InputsStuck(old(spent), vin, i + 1, |vin|);
            return Throw(added.error);
          }
        case Gen(_) =>
          isMiner := true;
        case OtherInput =>
          InputsStuck(old(spent), vin, i + 1, |vin|);
          RemoveInputs(vin);
          return Return;
      }
      return Continue(isMiner);
    }

    method RemoveInputs(vin: seq<TxIn>)
      modifies this`spent
      ensures spent == Spec.RemoveImages(old(spent), vin)
    {
      for i := 0 to |vin|
        invariant spent == Spec.RemoveImages(old(spent), vin[..i])
      {
        RemoveImagesStep(old(spent), vin, i);
        if vin[i].ToKey? {
          RemoveSpentKey(vin[i].image);
        }
      }
      assert vin[..|vin|] == vin;
    }

    method AddOutputs(h: Hash, tx: Transaction, isMiner: bool) returns (r: Result<seq<nat>, Error>)
      modifies this`outputTxs, this`outputAmounts
      ensures match Spec.AddOutputs(old(OutputView()), |blocks|, h, tx, isMiner, |tx.vout|)
              case Ok((o, recorded)) => r == Ok(recorded) && OutputView() == o
              case Err(e) =>
                && r == Err(e)
                && OutputView() == Partial.OutputsLeft(old(OutputView()), |blocks|, h, tx, isMiner, |tx.vout|)
    {
      var recorded: seq<nat> := [];
      for i := 0 to |tx.vout|
        invariant Spec.AddOutputs(old(OutputView()), |blocks|, h, tx, isMiner, i) == Ok((OutputView(), recorded))
      {
        var unlockTime := if tx.version > 2 then tx.vout[i].unlockTime else tx.unlockTime;
        var added;
        if isMiner && tx.version >= 2 {
          added := AddOutput(h, tx.vout[i].(amount := 0), i, unlockTime, Some(ZeroCommit(tx.vout[i].amount)));
        } else {
          added := AddOutput(h, tx.vout[i], i, unlockTime,
                             if tx.version > 1 then Some(Mask(tx.vout[i].mask)) else None);
        }
        if added.Err? {
          OutputsStuck(old(OutputView()), |blocks|, h, tx, isMiner, i + 1, |tx.vout|);
          return Err(added.error);
        }
        recorded := recorded + [added.value];
      }
      return Ok(recorded);
    }

    /** The part of `add_transaction` behind the input loop: the transaction's rows, outputs and indices. */
    method StoreTransaction(h: Hash, tx: Transaction, isMiner: bool) returns (r: Result<(), Error>)
      modifies this`numbers, this`txs, this`indices, this`outputTxs, this`outputAmounts
      ensures StoresAs(old(TxView()), old(OutputView()), |blocks|, h, tx, isMiner, r, TxView(), OutputView())
    {
      var id := AddTransactionData(h, tx);
      if id.Err? {
        return Err(id.error);
      }
      var recorded := AddOutputs(h, tx, isMiner);
      if recorded.Err? {
        return Err(recorded.error);
      }
      r := AddTxAmountOutputIndices(id.value, recorded.value);
    }

    /** `hash` is absent for miner transactions, whose hash is then computed. */
    method AddTransaction(tx: Transaction, hash: Option<Hash>) returns (r: Result<(), Error>)
      modifies this
      ensures var h := if hash.Some? then hash.value else tx.id;
              match Spec.AddTransaction(old(View()), h, tx)
              case Ok(d) => r == Ok(()) && View() == d
              case Err(e) => r == Err(e) && View() == Partial.TransactionLeft(old(View()), h, tx)
    {
      var h := if hash.Some? then hash.value else tx.id;
      var inputs := AddInputs(tx.vin);
      match inputs
      case Throw(e) => return Err(e);
      case Return => return Ok(());
      case Continue(isMiner) =>
        r := StoreTransaction(h, tx, isMiner);
        StoredAs(old(View()), h, tx, isMiner, r, View());
    }

    method RemoveOutputs(tx: Transaction, recorded: seq<nat>) returns (r: Result<(), Error>)
      requires |tx.vout| <= |recorded|
      modifies this`outputTxs, this`outputAmounts
      ensures match Spec.RemoveOutputs(old(OutputView()), tx, recorded, |tx.vout|)
              case Ok(o) => r == Ok(()) && OutputView() == o
              case Err(e) =>
                r == Err(e) && OutputView() == Partial.OutputsKept(old(OutputView()), tx, recorded, |tx.vout|)
    {
      var isPseudoRct := tx.version >= 2 && |tx.vin| == 1 && tx.vin[0].Gen?;
      for i := |tx.vout| downto 0
        invariant OutputsPending(old(OutputView()), tx, recorded, OutputView(), i)
      {
        OutputsPendingStep(old(OutputView()), tx, recorded, OutputView(), i);
        var amount := if isPseudoRct then 0 else tx.vout[i].amount;
        var removed := RemoveOutput(amount, recorded[i]);
        if removed.Err? {
          return removed;
        }
      }
      return Ok(());
    }

    /** Deletes the rows of a transaction that has been read, and its outputs. */
    method RemoveTransactionData(h: Hash, tx: Transaction) returns (r: Result<(), Error>)
      requires Spec.GetTx(TxView(), h) == Some(tx)
      modifies this`numbers, this`txs, this`indices, this`outputTxs, this`outputAmounts
      ensures match Spec.TakeTx(old(TxView()), h)
              case Err(e) => r == Err(e)
              case Ok(taken) =>
                match Spec.RemoveOutputs(old(OutputView()), taken.tx, taken.indices, |taken.tx.vout|)
                case Err(e) => r == Err(e)
                case Ok(o) => r == Ok(()) && TxView() == taken.tables && OutputView() == o
      ensures r.Err? ==> var kept := Partial.TransactionKept(old(View()), h);
                         TxView() == kept.tables && OutputView() == kept.outs
    {
      var id := numbers[h].txId;
      txs := Delete(txs, Position(txs, id));
      var q := Position(indices, id);
      if q == |indices| || |indices[q].val| < |tx.vout| {
        return Err(IndicesMissing);
      }
      r := RemoveOutputs(tx, indices[q].val);
      if r.Ok? {
        indices := Delete(indices, q);
        numbers := numbers - {h};
      }
    }

    method RemoveTransaction(h: Hash) returns (r: Result<(), Error>)
      modifies this
      ensures match Spec.RemoveTransaction(old(View()), h)
              case Ok(d) => r == Ok(()) && View() == d
              case Err(e) => r == Err(e) && View() == Partial.TransactionKept(old(View()), h)
    {
      if h !in numbers {
        return Err(TxMissing);
      }
      var p := Position(txs, numbers[h].txId);
      if p == |txs| {
        return Err(TxMissing);
      }
      var tx := txs[p].val;
      RemoveInputs(tx.vin);
      r := RemoveTransactionData(h, tx);
    }

    // -------------------------------------------------------------- blocks

    method AddBlockRecord(blk: Block, meta: nat, numRct: nat) returns (r: Result<(), Error>)
      modifies this`blocks, this`heights
      ensures match Spec.PutBlock(old(View()).chain, blk, meta, numRct)
              case Ok(c) => r == Ok(()) && View().chain == c
              case Err(e) => r == Err(e) && View().chain == old(View()).chain
    {
      var height := |blocks|;
      if blk.hash in heights {
        return Err(BlockExists);
      }
      if height > 0 {
        if blk.prevId !in heights {
          return Err(ParentMissing);
        }
        if heights[blk.prevId] != height - 1 {
          return Err(ParentNotTop);
        }
      }
      var cumRct := numRct;
      if blk.majorVersion >= 4 && height > 0 {
        cumRct := cumRct + blocks[height - 1].cumRct;
      }
      blocks := blocks + [BlockRecord(blk, cumRct, meta)];
      heights := heights[blk.hash := height];
      return Ok(());
    }

    method CountZeroAmounts(vout: seq<TxOut>, before: nat) returns (n: nat)
      ensures n == before + Spec.ZeroAmounts(vout)
    {
      n := before;
      for i := 0 to |vout|
        invariant n == before + Spec.ZeroAmounts(vout[..i])
      {
        assert vout[..i + 1][..i] == vout[..i];
        if vout[i].amount == 0 {
          n := n + 1;
        }
      }
      assert vout[..|vout|] == vout;
    }

    /** The loop over the listed transactions; the result is the count of outputs of amount 0. */
    method AddListed(hashes: seq<Hash>, listed: seq<Transaction>) returns (r: Result<nat, Error>)
      requires |hashes| == |listed|
      modifies this
      ensures match Spec.AddTxs(old(View()), hashes, listed, |listed|)
              case Ok(d) => r == Ok(Spec.ListedZeroAmounts(listed)) && View() == d
              case Err(e) => r == Err(e) && View() == Partial.TxsLeft(old(View()), hashes, listed, |listed|)
    {
      var numRct := 0;
      for i := 0 to |listed|
        invariant Spec.AddTxs(old(View()), hashes, listed, i) == Ok(View())
        invariant numRct == Spec.ListedZeroAmounts(listed[..i])
      {
        var added := AddTransaction(listed[i], Some(hashes[i]));
        if added.Err? {
          TxsStuck(old(View()), hashes, listed, i + 1, |listed|);
          return Err(added.error);
        }
        assert listed[..i + 1][..i] == listed[..i];
        numRct := CountZeroAmounts(listed[i].vout, numRct);
      }
      assert listed[..|listed|] == listed;
      return Ok(numRct);
    }

    /** `BlockchainDB::add_block`, which leaves a failed addition half done. */
    method AddBlockParts(blk: Block, meta: nat, listed: seq<Transaction>) returns (r: Result<nat, Error>)
      modifies this
      ensures match Spec.AddBlock(old(View()), blk, meta, listed)
              case Ok(d) => r == Ok(old(|blocks|)) && View() == d
              case Err(e) => r == Err(e) && View() == Partial.BlockLeft(old(View()), blk, listed)
    {
      if |blk.txHashes| != |listed| {
        return Err(SizeMismatch);
      }
      var prevHeight := |blocks|;
      var added := AddTransaction(blk.minerTx, None);
      if added.Err? {
        return Err(added.error);
      }
      var numRct := if blk.minerTx.version >= 2 then |blk.minerTx.vout| else 0;
      var counted := AddListed(blk.txHashes, listed);
      if counted.Err? {
        return Err(counted.error);
      }
      added := AddBlockRecord(blk, meta, numRct + counted.value);
      if added.Err? {
        return Err(added.error);
      }
      return Ok(prevHeight);
    }

    /** `BlockchainLMDB::add_block`: when it throws outside of a batch, the write transaction is aborted. */
    method AddBlock(blk: Block, meta: nat, listed: seq<Transaction>, batch: bool) returns (r: Result<nat, Error>)
      modifies this
      ensures match Spec.AddBlock(old(View()), blk, meta, listed)
              case Ok(d) => r == Ok(old(|blocks|) + 1) && View() == d
              case Err(e) =>
                r == Err(e) && View() == if batch then Partial.BlockLeft(old(View()), blk, listed) else old(View())
    {
      var s, n, t, x, o, a, b, g := spent, numbers, txs, indices, outputTxs, outputAmounts, blocks, heights;
      r := AddBlockParts(blk, meta, listed);
      if r.Ok? {
        r := Ok(r.value + 1);
      } else if !batch {
        spent, numbers, txs, indices, outputTxs, outputAmounts, blocks, heights := s, n, t, x, o, a, b, g;
      }
    }

    method RemoveBlockRecord() returns (r: Result<Block, Error>)
      modifies this`blocks, this`heights
      ensures match Spec.TakeBlock(old(View()).chain)
              case Ok((c, blk)) => r == Ok(blk) && View().chain == c
              case Err(e) => r == Err(e) && View().chain == old(View()).chain
    {
      if |blocks| == 0 {
        return Err(BlockMissing);
      }
      var blk := blocks[|blocks| - 1].blk;
      if blk.hash !in heights {
        return Err(BlockMissing);
      }
      heights := heights - {blk.hash};
      blocks := blocks[..|blocks| - 1];
      return Ok(blk);
    }

    method RemoveListed(hashes: seq<Hash>) returns (r: Result<seq<Transaction>, Error>)
      modifies this
      ensures match Spec.RemoveTxs(old(View()), hashes, |hashes|)
              case Ok((d, popped)) => r == Ok(popped) && View() == d
              case Err(e) => r == Err(e) && View() == Partial.TxsKept(old(View()), hashes, |hashes|)
    {
      var popped: seq<Transaction> := [];
      for i := |hashes| downto 0
        invariant TxsPending(old(View()), hashes, popped, View(), i)
      {
        TxsPendingStep(old(View()), hashes, popped, View(), i);
        var tx := Spec.GetTx(TxTables(numbers, txs, indices), hashes[i]);
        if tx.None? {
          return Err(TxMissing);
        }
        popped := popped + [tx.value];
        var removed := RemoveTransaction(hashes[i]);
        if removed.Err? {
          return Err(removed.error);
        }
      }
      TxsPendingDone(old(View()), hashes, popped, View());
      return Ok(popped);
    }

    /** `BlockchainLMDB::pop_block`: when it throws outside of a batch, the write transaction is aborted. */
    method PopBlock(batch: bool) returns (r: Result<(Block, seq<Transaction>), Error>)
      modifies this
      ensures match Spec.PopBlock(old(View()))
              case Ok(p) => r == Ok((p.blk, p.txs)) && View() == p.db
              case Err(e) => r == Err(e) && View() == if batch then Partial.BlockKept(old(View())) else old(View())
    {
      var s, n, t, x, o, a, b, g := spent, numbers, txs, indices, outputTxs, outputAmounts, blocks, heights;
      r := PopBlockParts();
      if r.Err? && !batch {
        spent, numbers, txs, indices, outputTxs, outputAmounts, blocks, heights := s, n, t, x, o, a, b, g;
      }
    }

    /** `BlockchainDB::pop_block` */
    method PopBlockParts() returns (r: Result<(Block, seq<Transaction>), Error>)
      modifies this
      ensures match Spec.PopBlock(old(View()))
              case Ok(p) => r == Ok((p.blk, p.txs)) && View() == p.db
              case Err(e) => r == Err(e) && View() == Partial.BlockKept(old(View()))
    {
      var top := RemoveBlockRecord();
      if top.Err? {
        return Err(top.error);
      }
      var blk := top.value;
      var popped := RemoveListed(blk.txHashes);
      if popped.Err? {
        return Err(popped.error);
      }
      var removed := RemoveTransaction(blk.minerTx.id);
      if removed.Err? {
        return Err(removed.error);
      }
      return Ok((blk, popped.value));
    }
  }
}
