/** Inputs on which the store does not give back what it was given. */
module ChainWitness {
  import opened Results
  import opened Tables
  import opened ChainTypes
  import opened ChainSpec
  import opened ChainInputs
  import opened ChainUndo
  import opened ChainExact
  import opened ChainAccept
  import opened ChainInvariant
  import opened ChainPartial
  import opened ChainRuns
  import opened ChainSpent

  /** A spent image that is listed behind an unsupported input is no longer spent after the rollback. */
  lemma RollbackForgets()
    ensures AddInputs({5}, [OtherInput, ToKey(5)], 2) == RolledBack({})
  {
    var vin := [OtherInput, ToKey(5)];
    assert vin[..1] == [OtherInput] && vin[..0] == [];
    assert AddInputs({5}, vin, 1) == RolledBack(RemoveImages({5}, vin));
  }

  /** A version-2 transaction with a coinbase input and another one, and an output of an amount. */
  const MIXED := Transaction(1, 2, 0, [Gen(0), ToKey(1)], [TxOut(5, PubKey(3), 0, 0)])

  lemma MixedIsAccepted()
    ensures AddTransaction(EMPTY_DB, 1, MIXED).Ok?
  {
    var vin := MIXED.vin;
    assert vin[..1] == [Gen(0)] && vin[..0] == [];
    assert Images(vin[..1]) == [] && Images(vin) == [1];
    assert HasGen(vin);
    TransactionAcceptedExactly(EMPTY_DB, 1, MIXED);
  }

  /** The block with this miner transaction is added to the empty store and does not pop back. */
  lemma MixedDoesNotPopBack()
    ensures var blk := Block(9, 0, 1, MIXED, []);
            && AddBlock(EMPTY_DB, blk, 0, []).Ok?
            && var p := PopBlock(AddBlock(EMPTY_DB, blk, 0, []).value); !(p.Ok? && p.value.db == EMPTY_DB)
  {
    var blk := Block(9, 0, 1, MIXED, []);
    MixedIsAccepted();
    var d1 := AddTransaction(EMPTY_DB, 1, MIXED).value;
    assert AddTxs(d1, [], [], 0) == Ok(d1);
    assert d1.chain == EMPTY_DB.chain;
    assert HasGen(MIXED.vin) by {
      assert MIXED.vin[0].Gen?;
    }
    assert MIXED.vout[0].amount != 0 && !Restorable(MIXED);
    PopUndoesAddExactly(EMPTY_DB, blk, 0, []);
  }

  /** A miner transaction with an output that pays to no key breaks off and spoils the numbering of a batch. */
  lemma BatchIsSpoiled()
    ensures var blk := Block(9, 0, 1, Transaction(1, 1, 0, [Gen(0)], [TxOut(5, OtherTarget, 0, 0)]), []);
            && AddBlock(EMPTY_DB, blk, 0, []).Err?
            && !Shape(BlockLeft(EMPTY_DB, blk, []))
  {
    var miner := Transaction(1, 1, 0, [Gen(0)], [TxOut(5, OtherTarget, 0, 0)]);
    var blk := Block(9, 0, 1, miner, []);
    assert miner.vin[..0] == [] && Images(miner.vin) == [];
    assert !Storable(miner, HasGen(miner.vin), 0);
    assert BreaksOff(EMPTY_DB, 1, miner);
    BreaksOffFails(EMPTY_DB, 1, miner);
    BlockLeftExactly(EMPTY_DB, blk, 0, []);
  }

  // ---------------------------------------------------------------- runs

  /** A block that lists no transactions. */
  function Plain(hash: Hash, prevId: Hash, miner: Transaction): Entry {
    Entry(Block(hash, prevId, 1, miner, []), 0, [])
  }

  /** What adding such a block comes down to. */
  lemma AddPlain(db: Db, e: Entry, d: Db, c: Chain)
    requires e.blk.txHashes == [] && e.txs == [] && AddTransaction(db, e.blk.minerTx.id, e.blk.minerTx) == Ok(d)
    requires PutBlock(db.chain, e.blk, e.meta, if e.blk.minerTx.version >= 2 then |e.blk.minerTx.vout| else 0) == Ok(c)
    ensures AddEntry(db, e) == Ok(d.(chain := c))
  {
    AddTransactionChain(db, e.blk.minerTx.id, e.blk.minerTx);
    assert AddTxs(d, [], [], 0) == Ok(d);
  }

  /** A run of two accepted additions. */
  lemma TwoAdded(e1: Entry, e2: Entry, d1: Db, d2: Db)
    requires AddEntry(EMPTY_DB, e1) == Ok(d1) && AddEntry(d1, e2) == Ok(d2)
    ensures Run([Add(e1), Add(e2)]) == d2 && Live([Add(e1), Add(e2)]) == [e1, e2]
    ensures PopsRestorable([Add(e1), Add(e2)])
  {
    var one, two := [Add(e1)], [Add(e1), Add(e2)];
    assert one[..0] == [] && two[..1] == one;
    assert Run(one) == Step(Run([]), Add(e1)) == d1;
    assert Live(one) == [] + [e1];
  }

  /** The tables after the first transaction, written out. */
  lemma FirstRows(tx: Transaction, recorded: seq<nat>)
    ensures var t := PutTx(EMPTY_DB.tables, 0, 1, tx);
            && t == Ok(TxTables(map[1 := TxIndex(0, tx.unlockTime, 0)], [Row(0, tx)], []))
            && PutIndices(t.value, 0, recorded)
               == Ok(TxTables(map[1 := TxIndex(0, tx.unlockTime, 0)], [Row(0, tx)], [Row(0, recorded)]))
  {
    assert EMPTY_DB.tables.numbers[1 := TxIndex(0, tx.unlockTime, 0)] == map[1 := TxIndex(0, tx.unlockTime, 0)];
    assert Append(EMPTY_DB.tables.txs, 0, tx) == [Row(0, tx)];
    assert Append(EMPTY_DB.tables.indices, 0, recorded) == [Row(0, recorded)];
  }

  lemma FirstBlock(blk: Block)
    ensures PutBlock(EMPTY_DB.chain, blk, 0, 0) == Ok(Chain([BlockRecord(blk, 0, 0)], map[blk.hash := 0]))
  {
    assert EMPTY_DB.chain.blocks + [BlockRecord(blk, 0, 0)] == [BlockRecord(blk, 0, 0)];
    assert EMPTY_DB.chain.heights[blk.hash := 0] == map[blk.hash := 0];
  }

  const SPENDS := Transaction(1, 1, 0, [Gen(0), ToKey(5)], [])
  const FORGETS := Transaction(2, 1, 0, [OtherInput, ToKey(5)], [])

  lemma SpendsAdded(d: Db)
    requires d == Db({5}, TxTables(map[1 := TxIndex(0, 0, 0)], [Row(0, SPENDS)], [Row(0, [])]), Outputs([], map[]),
                     Chain([BlockRecord(Plain(9, 0, SPENDS).blk, 0, 0)], map[9 := 0]))
    ensures AddEntry(EMPTY_DB, Plain(9, 0, SPENDS)) == Ok(d)
  {
    var vin := SPENDS.vin;
    assert AddInputs({}, vin, 1) == Accepted({}, true);
    assert AddInputs({}, vin, 2) == Accepted({5}, true);
    var d1 := AddTransaction(EMPTY_DB, 1, SPENDS).value;
    assert AddOutputs(EMPTY_DB.outs, 0, 1, SPENDS, true, 0) == Ok((EMPTY_DB.outs, []));
    FirstRows(SPENDS, []);
    FirstBlock(Plain(9, 0, SPENDS).blk);
    assert AddTransaction(EMPTY_DB, 1, SPENDS) == Ok(d.(chain := EMPTY_DB.chain));
    AddPlain(EMPTY_DB, Plain(9, 0, SPENDS), d1, d.chain);
  }

  lemma ForgetsAdded(d: Db, d': Db)
    requires d.spent == {5} && d.chain == Chain([BlockRecord(Plain(9, 0, SPENDS).blk, 0, 0)], map[9 := 0])
    requires d' == d.(spent := {}, chain := Chain(d.chain.blocks + [BlockRecord(Plain(10, 9, FORGETS).blk, 0, 0)],
                                                  d.chain.heights[10 := 1]))
    ensures AddEntry(d, Plain(10, 9, FORGETS)) == Ok(d')
  {
    RollbackForgets();
    assert AddTransaction(d, 2, FORGETS) == Ok(d.(spent := {}));
    AddPlain(d, Plain(10, 9, FORGETS), d.(spent := {}), d'.chain);
  }

  /** A run that ends with a live transaction whose image is not spent. */
  lemma ImageForgotten() returns (ops: seq<Op>)
    ensures PopsRestorable(ops) && |Live(ops)| == 2
    ensures 5 in LiveImages(LiveTxs(Live(ops))) && 5 !in Run(ops).spent
    ensures !SpentExact(Run(ops).spent, LiveTxs(Live(ops)))
  {
    var e1, e2 := Plain(9, 0, SPENDS), Plain(10, 9, FORGETS);
    var d := Db({5}, TxTables(map[1 := TxIndex(0, 0, 0)], [Row(0, SPENDS)], [Row(0, [])]), Outputs([], map[]),
                Chain([BlockRecord(e1.blk, 0, 0)], map[9 := 0]));
    var d' := d.(spent := {}, chain := Chain(d.chain.blocks + [BlockRecord(e2.blk, 0, 0)], d.chain.heights[10 := 1]));
    SpendsAdded(d);
    ForgetsAdded(d, d');
    TwoAdded(e1, e2, d, d');
    ops := [Add(e1), Add(e2)];
    LiveOfTwo(e1, e2);
  }

  lemma LiveOfTwo(e1: Entry, e2: Entry)
    requires e1 == Plain(9, 0, SPENDS) && e2 == Plain(10, 9, FORGETS)
    ensures LiveTxs([e1, e2]) == [Stored(1, SPENDS, 0)]
    ensures 5 in LiveImages(LiveTxs([e1, e2]))
  {
    var two, one := [e1, e2], [e1];
    assert two[..1] == one && one[..0] == [];
    assert FORGETS.vin[0].OtherInput? && !Supported(FORGETS.vin);
    assert LiveTxs(one) == [] + [Stored(1, SPENDS, 0)] + [];
    assert LiveTxs(two) == LiveTxs(one) + [] + [];
    assert LiveTxs(one)[..0] == [] && SPENDS.vin[..1][..0] == [];
    assert Images(SPENDS.vin[..1]) == [];
    assert Images(SPENDS.vin) == [5];
    assert AllImages(LiveTxs(two)) == [] + [5];
    assert 5 in AllImages(LiveTxs(two)) by {
      assert AllImages(LiveTxs(two))[0] == 5;
    }
  }

  const PAYS := Transaction(1, 1, 0, [Gen(0)], [TxOut(5, PubKey(3), 0, 0)])
  const TAKES := Transaction(2, 2, 0, [Gen(1), ToKey(1)], [TxOut(5, PubKey(4), 0, 0)])

  /** The store after the block that pays 5, ... */
  const PAID := Db({}, TxTables(map[1 := TxIndex(0, 0, 0)], [Row(0, PAYS)], [Row(0, [0])]),
                   Outputs([Row(0, OutTx(1, 0))], map[5 := [Row(0, OutKey(0, 3, 0, 0, None))]]),
                   Chain([BlockRecord(Plain(9, 0, PAYS).blk, 0, 0)], map[9 := 0]))

  /** ... after the block with the mixed coinbase, ... */
  const TAKEN := Db({1}, TxTables(map[1 := TxIndex(0, 0, 0), 2 := TxIndex(1, 0, 1)],
                                  [Row(0, PAYS), Row(1, TAKES)], [Row(0, [0]), Row(1, [0])]),
                    Outputs([Row(0, OutTx(1, 0)), Row(1, OutTx(2, 0))],
                            map[5 := [Row(0, OutKey(0, 3, 0, 0, None))],
                                0 := [Row(0, OutKey(1, 4, 0, 1, Some(ZeroCommit(5))))]]),
                    Chain([BlockRecord(Plain(9, 0, PAYS).blk, 0, 0), BlockRecord(Plain(10, 9, TAKES).blk, 1, 0)],
                          map[9 := 0, 10 := 1]))

  /** ... and the outputs after that block was popped: the first block's output is gone. */
  const ROBBED := Outputs([Row(1, OutTx(2, 0))], map[0 := [Row(0, OutKey(1, 4, 0, 1, Some(ZeroCommit(5))))]])

  lemma OneIndex()
    ensures var none: seq<nat> := []; none + [0] == [0]
  {
  }

  lemma PaysAdded()
    ensures AddEntry(EMPTY_DB, Plain(9, 0, PAYS)) == Ok(PAID)
  {
    var o := EMPTY_DB.outs;
    assert AddInputs({}, PAYS.vin, 1) == Accepted({}, true);
    assert AddOutputs(o, 0, 1, PAYS, true, 0) == Ok((o, []));
    var row := OutKey(0, 3, 0, 0, None);
    assert Append(o.txs, 0, OutTx(1, 0)) == PAID.outs.txs && Append([], 0, row) == [Row(0, row)];
    assert o.amounts[5 := [Row(0, row)]] == PAID.outs.amounts;
    assert AddOutput(o, 0, 1, PAYS.vout[0], 0, 0, None) == Ok((PAID.outs, 0));
    OneIndex();
    assert AddOutputs(o, 0, 1, PAYS, true, 1) == Ok((PAID.outs, [0]));
    FirstRows(PAYS, [0]);
    FirstBlock(Plain(9, 0, PAYS).blk);
    assert AddTransaction(EMPTY_DB, 1, PAYS) == Ok(PAID.(chain := EMPTY_DB.chain));
    AddPlain(EMPTY_DB, Plain(9, 0, PAYS), PAID.(chain := EMPTY_DB.chain), PAID.chain);
  }

  lemma TakesAdded()
    ensures AddEntry(PAID, Plain(10, 9, TAKES)) == Ok(TAKEN)
  {
    var o := PAID.outs;
    assert AddInputs({}, TAKES.vin, 1) == Accepted({}, true);
    assert AddInputs({}, TAKES.vin, 2) == Accepted({1}, true);
    assert AddOutputs(o, 1, 2, TAKES, true, 0) == Ok((o, []));
    var row := OutKey(1, 4, 0, 1, Some(ZeroCommit(5)));
    assert Append(o.txs, 1, OutTx(2, 0)) == TAKEN.outs.txs && Append([], 0, row) == [Row(0, row)];
    assert o.amounts[0 := [Row(0, row)]] == TAKEN.outs.amounts;
    assert AddOutput(o, 1, 2, TAKES.vout[0].(amount := 0), 0, 0, Some(ZeroCommit(5))) == Ok((TAKEN.outs, 0));
    OneIndex();
    assert AddOutputs(o, 1, 2, TAKES, true, 1) == Ok((TAKEN.outs, [0]));
    var t := PAID.tables;
    assert t.numbers[2 := TxIndex(1, 0, 1)] == TAKEN.tables.numbers;
    assert Append(t.txs, 1, TAKES) == TAKEN.tables.txs && Append(t.indices, 1, [0]) == TAKEN.tables.indices;
    assert PAID.chain.blocks + [BlockRecord(Plain(10, 9, TAKES).blk, 1, 0)] == TAKEN.chain.blocks;
    assert PAID.chain.heights[10 := 1] == TAKEN.chain.heights;
    assert AddTransaction(PAID, 2, TAKES) == Ok(TAKEN.(chain := PAID.chain));
    AddPlain(PAID, Plain(10, 9, TAKES), TAKEN.(chain := PAID.chain), TAKEN.chain);
  }

  lemma TakesRemoved()
    ensures RemoveOutputs(TAKEN.outs, TAKES, [0], 1) == Ok(ROBBED)
  {
    var o := TAKEN.outs;
    assert Position(o.amounts[5], 0) == 0 && Position(o.txs, 0) == 0;
    assert Delete(o.txs, 0) == ROBBED.txs && Delete(o.amounts[5], 0) == [];
    assert o.amounts - {5} == ROBBED.amounts;
    assert RemoveOutput(o, 5, 0) == Ok(ROBBED);
    assert RemoveOutputs(ROBBED, TAKES, [0], 0) == Ok(ROBBED);
  }

  lemma TakesPopped()
    ensures PopBlock(TAKEN).Ok? && PopBlock(TAKEN).value.db.outs == ROBBED
  {
    var chain := TakeBlock(TAKEN.chain).value.0;
    var d := TAKEN.(chain := chain);
    assert TakeBlock(TAKEN.chain).value.1 == Plain(10, 9, TAKES).blk;
    assert RemoveTxs(d, [], 0) == Ok((d, []));
    assert TAKEN.tables.txs[1..] == [Row(1, TAKES)] && TAKEN.tables.indices[1..] == [Row(1, [0])];
    assert Position(TAKEN.tables.txs, 1) == 1 && Position(TAKEN.tables.indices, 1) == 1;
    TakesRemoved();
    assert TakeTx(d.tables, 2).Ok? && TakeTx(d.tables, 2).value.tx == TAKES && TakeTx(d.tables, 2).value.indices == [0];
  }

  /** A run whose pop succeeds, takes another block's output away and does not lead back. */
  lemma PopLosesOutput() returns (ops: seq<Op>)
    ensures !PopsRestorable(ops) && !AlwaysReplay(ops)
    ensures Live(ops) == [Plain(9, 0, PAYS)] && Replay(Live(ops)) == Ok(PAID)
    ensures Run(ops).outs == ROBBED != PAID.outs
  {
    var e1, e2 := Plain(9, 0, PAYS), Plain(10, 9, TAKES);
    var two := [Add(e1), Add(e2)];
    ops := two + [Pop];
    assert ops[..2] == two;
    PaysAdded();
    TakesAdded();
    TakesPopped();
    TwoAdded(e1, e2, PAID, TAKEN);
    assert Live(ops) == [e1, e2][..1] == [e1];
    assert [e1][..0] == [] && Replay([e1]) == AddEntry(EMPTY_DB, e1);
    assert Run(ops) == PopBlock(TAKEN).value.db;
    assert PAID.outs.txs[0] != ROBBED.txs[0];
    RunIsReplayExactly(ops);
  }
}
