/**
 The spent key images of a reachable database: whether they are exactly those of the live transactions.
 The rollback of an unsupported transaction can take images of earlier transactions away.
 */
module ChainSpent {
  import opened Results
  import opened ChainTypes
  import opened ChainSpec
  import opened ChainInputs
  import opened ChainUndo
  import opened ChainInvariant
  import opened ChainRuns

  function AllImages(live: seq<Stored>): seq<KeyImage> {
    if live == [] then [] else AllImages(live[..|live| - 1]) + Images(live[|live| - 1].tx.vin)
  }

  ghost function LiveImages(live: seq<Stored>): set<KeyImage> {
    set k | k in AllImages(live)
  }

  /** The spent images are those of the live transactions, and no image belongs to two of them. */
  ghost predicate SpentExact(spent: set<KeyImage>, live: seq<Stored>) {
    NoDuplicates(AllImages(live)) && spent == LiveImages(live)
  }

  // ---------------------------------------------------------------- one transaction

  /** The first unsupported input, or the number of inputs. */
  function FirstUnsupported(vin: seq<TxIn>): (u: nat)
    ensures u <= |vin|
    ensures forall i :: 0 <= i < u ==> !vin[i].OtherInput?
    ensures u < |vin| ==> vin[u].OtherInput?
  {
    if vin == [] || vin[0].OtherInput? then 0 else 1 + FirstUnsupported(vin[1..])
  }

  /** The images listed behind the first unsupported input. */
  ghost function Behind(vin: seq<TxIn>): set<KeyImage> {
    var u := FirstUnsupported(vin);
    if u == |vin| then {} else ImageSet(vin[u + 1..])
  }

  /** The transaction takes no image of a live transaction away. */
  ghost predicate Harmless(tx: Transaction, live: seq<Stored>) {
    Behind(tx.vin) !! LiveImages(live)
  }

  lemma SupportedIsHarmless(tx: Transaction, live: seq<Stored>)
    requires Supported(tx.vin)
    ensures Harmless(tx, live)
  {
  }

  lemma {:induction false} AllImagesStep(live: seq<Stored>, s: Stored)
    ensures AllImages(live + [s]) == AllImages(live) + Images(s.tx.vin)
    ensures LiveImages(live + [s]) == LiveImages(live) + ImageSet(s.tx.vin)
  {
    assert (live + [s])[..|live|] == live;
  }

  lemma NoDuplicatesConcat(a: seq<KeyImage>, b: seq<KeyImage>)
    requires NoDuplicates(b)
    ensures NoDuplicates(a + b) <==> NoDuplicates(a) && forall i, j :: 0 <= i < |a| && 0 <= j < |b| ==> a[i] != b[j]
  {
    var c := a + b;
    if NoDuplicates(c) {
      assert forall i :: 0 <= i < |a| ==> c[i] == a[i];
      forall i, j | 0 <= i < |a| && 0 <= j < |b|
        ensures a[i] != b[j]
      {
        assert c[|a| + j] == b[j];
      }
    }
  }

  /** A supported transaction whose images are new keeps the spent set exact, and does not make it so. */
  lemma SupportedSpent(spent: set<KeyImage>, live: seq<Stored>, s: Stored)
    requires spent <= LiveImages(live) && Fresh(spent, s.tx.vin)
    ensures spent + ImageSet(s.tx.vin) <= LiveImages(live + [s])
    ensures SpentExact(spent + ImageSet(s.tx.vin), live + [s]) <==> SpentExact(spent, live)
  {
    var a, b := AllImages(live), Images(s.tx.vin);
    AllImagesStep(live, s);
    NoDuplicatesConcat(a, b);
    if SpentExact(spent, live) {
      forall i, j | 0 <= i < |a| && 0 <= j < |b|
        ensures a[i] != b[j]
      {
        assert a[i] in spent && b[j] in ImageSet(s.tx.vin);
      }
    }
    if SpentExact(spent + ImageSet(s.tx.vin), live + [s]) {
      forall k | k in LiveImages(live)
        ensures k in spent
      {
        var i :| 0 <= i < |a| && a[i] == k;
        assert k !in ImageSet(s.tx.vin);
      }
    }
  }

  /** The rollback of an unsupported transaction takes away what is listed behind the unsupported input. */
  lemma {:induction false} RollbackLeaves(spent: set<KeyImage>, vin: seq<TxIn>)
    requires AddInputs(spent, vin, |vin|).RolledBack?
    ensures AddInputs(spent, vin, |vin|).spent == spent - Behind(vin)
  {
    RollbackExactly(spent, vin, |vin|);
    var u: nat :| u < |vin| && UnsupportedAt(spent, vin, u);
    assert u == FirstUnsupported(vin) by {
      assert forall i :: 0 <= i < u ==> vin[i] == vin[..u][i];
    }
    RollbackStays(spent, vin, u, |vin|);
    RemoveImagesIsDifference(spent + ImageSet(vin[..u]), vin);
    ImagesAround(vin, u);
    var pre, post := ImageSet(vin[..u]), ImageSet(vin[u + 1..]);
    assert spent + pre - (pre + post) == spent - post;
  }

  lemma UnsupportedSpent(spent: set<KeyImage>, live: seq<Stored>, vin: seq<TxIn>)
    requires spent <= LiveImages(live)
    ensures SpentExact(spent - Behind(vin), live) <==> SpentExact(spent, live) && Behind(vin) !! LiveImages(live)
  {
    if SpentExact(spent - Behind(vin), live) {
      assert spent - Behind(vin) <= spent;
    }
  }

  /** After an addition the spent set is exact if and only if it was, and the transaction is harmless. */
  lemma AddTransactionSpent(db: Db, live: seq<Stored>, h: Hash, tx: Transaction, d: Db)
    requires db.spent <= LiveImages(live) && AddTransaction(db, h, tx) == Ok(d)
    ensures var after := live + Kept(h, tx, |db.chain.blocks|);
            && d.spent <= LiveImages(after)
            && (SpentExact(d.spent, after) <==> SpentExact(db.spent, live) && Harmless(tx, live))
  {
    if Supported(tx.vin) {
      AcceptedExactly(db.spent, tx.vin, |tx.vin|);
      assert tx.vin[..|tx.vin|] == tx.vin;
      RollbackExactly(db.spent, tx.vin, |tx.vin|);
      SupportedSpent(db.spent, live, Stored(h, tx, |db.chain.blocks|));
      SupportedIsHarmless(tx, live);
    } else {
      AddUnsupportedStoresNothing(db, h, tx, d);
      RollbackLeaves(db.spent, tx.vin);
      UnsupportedSpent(db.spent, live, tx.vin);
      assert live + [] == live;
    }
  }

  // ---------------------------------------------------------------- one block

  ghost predicate HarmlessTxs(live: seq<Stored>, hashes: seq<Hash>, txs: seq<Transaction>, height: nat, n: nat)
    requires n <= |hashes| == |txs|
  {
    n > 0 ==>
      && HarmlessTxs(live, hashes, txs, height, n - 1)
      && Harmless(txs[n - 1], live + ListedTxs(hashes, txs, height, n - 1))
  }

  /** Each transaction of the block is harmless to those stored before it. */
  ghost predicate HarmlessEntry(live: seq<Stored>, e: Entry, height: nat) {
    && Harmless(e.blk.minerTx, live)
    && (|e.blk.txHashes| == |e.txs| ==>
          HarmlessTxs(live + Kept(e.blk.minerTx.id, e.blk.minerTx, height), e.blk.txHashes, e.txs, height, |e.txs|))
  }

  lemma {:induction false} AddTxsSpent(db: Db, live: seq<Stored>, hashes: seq<Hash>, txs: seq<Transaction>,
                                       n: nat, d: Db, height: nat)
    requires db.spent <= LiveImages(live) && AddedTo(db, hashes, txs, n, d) && height == |db.chain.blocks|
    ensures var after := live + ListedTxs(hashes, txs, height, n);
            && d.spent <= LiveImages(after)
            && (SpentExact(d.spent, after) <==> SpentExact(db.spent, live) && HarmlessTxs(live, hashes, txs, height, n))
    decreases n
  {
    if n == 0 {
      NothingAdded(db, hashes, txs, d);
      assert live + [] == live;
    } else {
      var before := AddTxsRound(db, hashes, txs, n, d);
      AddTxsSpent(db, live, hashes, txs, n - 1, before, height);
      AddTxsChain(db, hashes, txs, n - 1);
      AddTransactionSpent(before, live + ListedTxs(hashes, txs, height, n - 1), hashes[n - 1], txs[n - 1], d);
      ListedStep(live, hashes, txs, height, n);
    }
  }

  lemma {:induction false} AddBlockSpent(db: Db, live: seq<Stored>, e: Entry, d: Db, height: nat)
    requires db.spent <= LiveImages(live) && AddEntry(db, e) == Ok(d) && height == |db.chain.blocks|
    ensures |e.blk.txHashes| == |e.txs|
    ensures var after := live + Kept(e.blk.minerTx.id, e.blk.minerTx, height)
                         + ListedTxs(e.blk.txHashes, e.txs, height, |e.txs|);
            && d.spent <= LiveImages(after)
            && (SpentExact(d.spent, after) <==> SpentExact(db.spent, live) && HarmlessEntry(live, e, height))
  {
    var miner := e.blk.minerTx;
    var d1 := AddTransaction(db, miner.id, miner).value;
    AddTransactionSpent(db, live, miner.id, miner, d1);
    AddTransactionChain(db, miner.id, miner);
    var d2 := AddTxs(d1, e.blk.txHashes, e.txs, |e.txs|).value;
    AddTxsSpent(d1, live + Kept(miner.id, miner, height), e.blk.txHashes, e.txs, |e.txs|, d2, height);
  }

  // ---------------------------------------------------------------- whole runs

  /** Each block is harmless to the transactions stored before it. */
  ghost predicate HarmlessEntries(entries: seq<Entry>) {
    entries != [] ==>
      var n := |entries| - 1;
      HarmlessEntries(entries[..n]) && HarmlessEntry(LiveTxs(entries[..n]), entries[n], n)
  }

  lemma {:induction false} ReplaySpent(entries: seq<Entry>, d: Db)
    requires Replay(entries) == Ok(d)
    ensures d.spent <= LiveImages(LiveTxs(entries))
    ensures SpentExact(d.spent, LiveTxs(entries)) <==> HarmlessEntries(entries)
  {
    if entries != [] {
      var before, e := entries[..|entries| - 1], entries[|entries| - 1];
      var db := Replay(before).value;
      ReplaySpent(before, db);
      ReplayChain(before, db);
      AddBlockSpent(db, LiveTxs(before), e, d, |before|);
    }
  }

  /**
   After every run of restorable pops, every spent image belongs to a live transaction, and the spent
   set is the disjoint union of the images of the live transactions if and only if each transaction of the
   live blocks lists behind its first unsupported input no image of a transaction stored before it.
   */
  lemma {:induction false} RunSpentExactly(ops: seq<Op>)
    requires PopsRestorable(ops)
    ensures Run(ops).spent <= LiveImages(LiveTxs(Live(ops)))
    ensures SpentExact(Run(ops).spent, LiveTxs(Live(ops))) <==> HarmlessEntries(Live(ops))
  {
    RunIsReplayExactly(ops);
    ReplaySpent(Live(ops), Run(ops));
  }
}
