/**
 What the tables of a reachable database say.  The live transactions, in the order in which they were
 added, determine every table: transaction numbers, global output numbers, the index of an output
 within its amount, and the spent key images.
 */
module ChainInvariant {
  import opened Results
  import opened Tables
  import opened ChainTypes
  import opened ChainSpec
  import opened ChainInputs
  import opened ChainUndo

  /** A live transaction with the hash it was stored under and the height of its block. */
  datatype Stored = Stored(hash: Hash, tx: Transaction, height: nat)

  /** An output as it is stored. */
  datatype StoredOutput = StoredOutput(hash: Hash, local: nat, amount: nat, key: nat, unlockTime: nat,
                                       height: nat, commitment: Option<Commitment>)

  function OutputOf(s: Stored, i: nat): StoredOutput
    requires i < |s.tx.vout|
  {
    var isMiner := HasGen(s.tx.vin);
    var out := StoredOut(s.tx, isMiner, i);
    StoredOutput(s.hash, i, out.amount, if out.target.PubKey? then out.target.key else 0,
                 StoredUnlockTime(s.tx, i), s.height,
                 if out.amount == 0 then StoredCommitment(s.tx, isMiner, i) else None)
  }

  function OutputsOf(s: Stored, n: nat): (r: seq<StoredOutput>)
    requires n <= |s.tx.vout|
    ensures |r| == n && forall i :: 0 <= i < n ==> r[i] == OutputOf(s, i)
  {
    if n == 0 then [] else OutputsOf(s, n - 1) + [OutputOf(s, n - 1)]
  }

  /** All live outputs in the order in which they were added. */
  function AllOutputs(live: seq<Stored>): seq<StoredOutput> {
    if live == [] then []
    else
      var last := live[|live| - 1];
      AllOutputs(live[..|live| - 1]) + OutputsOf(last, |last.tx.vout|)
  }

  /** The bucket that a list of outputs leaves under one amount: those outputs, numbered from 0. */
  function BucketOf(outs: seq<StoredOutput>, amount: nat): Table<OutKey> {
    if outs == [] then []
    else
      var n := |outs| - 1;
      var before := BucketOf(outs[..n], amount);
      var f := outs[n];
      if f.amount == amount
      then Append(before, |before|, OutKey(n, f.key, f.unlockTime, f.height, f.commitment))
      else before
  }

  ghost predicate DescribesOutputs(o: Outputs, outs: seq<StoredOutput>) {
    && |o.txs| == |outs|
    && (forall k :: 0 <= k < |outs| ==> o.txs[k] == Row(k, OutTx(outs[k].hash, outs[k].local)))
    && (forall a :: Bucket(o, a) == BucketOf(outs, a))
    && (forall a :: a in o.amounts ==> o.amounts[a] != [])
  }

  /** Output `i` of a transaction was recorded with the number of earlier outputs of its amount. */
  ghost predicate RecordsIndex(index: nat, before: seq<StoredOutput>, s: Stored, i: nat)
    requires i < |s.tx.vout|
  {
    index == |BucketOf(before + OutputsOf(s, i), OutputOf(s, i).amount)|
  }

  ghost predicate RecordsIndices(indices: seq<nat>, before: seq<StoredOutput>, s: Stored) {
    && |indices| <= |s.tx.vout|
    && forall i :: 0 <= i < |indices| ==> RecordsIndex(indices[i], before, s, i)
  }

  /** The rows of live transaction `i`. */
  ghost predicate DescribesRow(t: TxTables, live: seq<Stored>, i: nat)
    requires i < |live| && i < |t.txs| && i < |t.indices|
  {
    && t.txs[i] == Row(i, live[i].tx)
    && t.indices[i].key == i
    && |t.indices[i].val| == |live[i].tx.vout|
    && RecordsIndices(t.indices[i].val, AllOutputs(live[..i]), live[i])
    && live[i].hash in t.numbers
    && t.numbers[live[i].hash] == TxIndex(i, live[i].tx.unlockTime, live[i].height)
  }

  ghost predicate DescribesTables(t: TxTables, live: seq<Stored>) {
    && |t.txs| == |t.indices| == |live|
    && (forall i :: 0 <= i < |live| ==> DescribesRow(t, live, i))
    && (forall h :: h in t.numbers ==> t.numbers[h].txId < |live| && live[t.numbers[h].txId].hash == h)
  }

  ghost predicate Describes(db: Db, live: seq<Stored>) {
    DescribesOutputs(db.outs, AllOutputs(live)) && DescribesTables(db.tables, live)
  }

  lemma {:induction false} BucketOfDense(outs: seq<StoredOutput>, amount: nat)
    ensures Dense(BucketOf(outs, amount))
  {
    if outs != [] {
      BucketOfDense(outs[..|outs| - 1], amount);
    }
  }

  lemma DescribedHasShape(db: Db, live: seq<Stored>)
    requires Describes(db, live)
    ensures Shape(db)
  {
    forall i | 0 <= i < |live|
      ensures db.tables.txs[i].key == i && db.tables.indices[i].key == i
    {
      assert DescribesRow(db.tables, live, i);
    }
    forall a | a in db.outs.amounts
      ensures Dense(db.outs.amounts[a])
    {
      BucketOfDense(AllOutputs(live), a);
      assert Bucket(db.outs, a) == BucketOf(AllOutputs(live), a);
    }
  }

  // ---------------------------------------------------------------- adding outputs

  lemma {:induction false} BucketOfStep(outs: seq<StoredOutput>, f: StoredOutput, amount: nat)
    ensures BucketOf(outs + [f], amount) ==
            if f.amount == amount
            then Append(BucketOf(outs, amount), |BucketOf(outs, amount)|,
                        OutKey(|outs|, f.key, f.unlockTime, f.height, f.commitment))
            else BucketOf(outs, amount)
  {
    assert (outs + [f])[..|outs|] == outs;
  }

  lemma {:induction false} AddOutputDescribes(o: Outputs, height: nat, s: Stored, i: nat, outs: seq<StoredOutput>)
    requires i < |s.tx.vout| && s.height == height && DescribesOutputs(o, outs)
    requires AddOutput(o, height, s.hash, StoredOut(s.tx, HasGen(s.tx.vin), i), i, StoredUnlockTime(s.tx, i),
                       StoredCommitment(s.tx, HasGen(s.tx.vin), i)).Ok?
    ensures var (o', index) := AddOutput(o, height, s.hash, StoredOut(s.tx, HasGen(s.tx.vin), i), i,
                                         StoredUnlockTime(s.tx, i),
                                         StoredCommitment(s.tx, HasGen(s.tx.vin), i)).value;
            && DescribesOutputs(o', outs + [OutputOf(s, i)])
            && index == |BucketOf(outs, OutputOf(s, i).amount)|
  {
    var (o', index) := AddOutput(o, height, s.hash, StoredOut(s.tx, HasGen(s.tx.vin), i), i,
                                 StoredUnlockTime(s.tx, i),
                                 StoredCommitment(s.tx, HasGen(s.tx.vin), i)).value;
    var f := OutputOf(s, i);
    assert NumOutputs(o) == |outs|;
    forall a
      ensures Bucket(o', a) == BucketOf(outs + [f], a)
    {
      BucketOfStep(outs, f, a);
      assert Bucket(o, a) == BucketOf(outs, a);
    }
  }

  /** The loop over the first `n` outputs succeeds with these tables and indices. */
  ghost predicate OutputsAddedTo(o: Outputs, s: Stored, n: nat, o': Outputs, indices: seq<nat>) {
    n <= |s.tx.vout| && AddOutputs(o, s.height, s.hash, s.tx, HasGen(s.tx.vin), n) == Ok((o', indices))
  }

  /** The last round of the loop. */
  lemma AddOutputsRound(o: Outputs, s: Stored, n: nat, o': Outputs, indices: seq<nat>)
    returns (o1: Outputs, before: seq<nat>, index: nat)
    requires 0 < n && OutputsAddedTo(o, s, n, o', indices)
    ensures OutputsAddedTo(o, s, n - 1, o1, before) && indices == before + [index] && |before| == n - 1
    ensures AddOutput(o1, s.height, s.hash, StoredOut(s.tx, HasGen(s.tx.vin), n - 1), n - 1,
                      StoredUnlockTime(s.tx, n - 1), StoredCommitment(s.tx, HasGen(s.tx.vin), n - 1)) == Ok((o', index))
  {
    var last := AddOutputs(o, s.height, s.hash, s.tx, HasGen(s.tx.vin), n - 1).value;
    o1, before, index := last.0, last.1, indices[n - 1];
  }

  lemma OutputsOfStep(outs: seq<StoredOutput>, s: Stored, n: nat)
    requires 0 < n <= |s.tx.vout|
    ensures outs + OutputsOf(s, n) == (outs + OutputsOf(s, n - 1)) + [OutputOf(s, n - 1)]
  {
  }

  lemma RecordsNext(before: seq<nat>, index: nat, outs: seq<StoredOutput>, s: Stored)
    requires |before| < |s.tx.vout| && RecordsIndices(before, outs, s) && RecordsIndex(index, outs, s, |before|)
    ensures RecordsIndices(before + [index], outs, s)
  {
  }

  lemma {:induction false} AddOutputsDescribes(o: Outputs, s: Stored, n: nat, outs: seq<StoredOutput>,
                                               o': Outputs, indices: seq<nat>)
    requires DescribesOutputs(o, outs) && OutputsAddedTo(o, s, n, o', indices)
    ensures DescribesOutputs(o', outs + OutputsOf(s, n)) && RecordsIndices(indices, outs, s)
    decreases n
  {
    if n == 0 {
      assert outs + OutputsOf(s, 0) == outs;
    } else {
      var o1, before, index := AddOutputsRound(o, s, n, o', indices);
      AddOutputsDescribes(o, s, n - 1, outs, o1, before);
      AddOutputDescribes(o1, s.height, s, n - 1, outs + OutputsOf(s, n - 1));
      OutputsOfStep(outs, s, n);
      RecordsNext(before, index, outs, s);
    }
  }

  // ---------------------------------------------------------------- adding transactions

  lemma {:induction false} AllOutputsStep(live: seq<Stored>, s: Stored)
    ensures AllOutputs(live + [s]) == AllOutputs(live) + OutputsOf(s, |s.tx.vout|)
  {
    assert (live + [s])[..|live|] == live;
  }

  lemma {:induction false} TablesStep(t: TxTables, t': TxTables, live: seq<Stored>, s: Stored, indices: seq<nat>)
    requires DescribesTables(t, live) && s.hash !in t.numbers
    requires t' == TxTables(t.numbers[s.hash := TxIndex(|t.txs|, s.tx.unlockTime, s.height)],
                            Append(t.txs, |t.txs|, s.tx), Append(t.indices, |t.txs|, indices))
    requires |indices| == |s.tx.vout| && RecordsIndices(indices, AllOutputs(live), s)
    ensures DescribesTables(t', live + [s])
  {
    var after := live + [s];
    forall i | 0 <= i < |after|
      ensures DescribesRow(t', after, i)
    {
      if i < |live| {
        assert DescribesRow(t, live, i);
        assert after[..i] == live[..i];
      } else {
        assert after[..i] == live;
      }
    }
  }

  /** What a transaction adds to the list of live transactions: itself, unless an input is unsupported. */
  function Kept(h: Hash, tx: Transaction, height: nat): seq<Stored> {
    if Supported(tx.vin) then [Stored(h, tx, height)] else []
  }

  lemma AddSupportedDescribes(db: Db, live: seq<Stored>, h: Hash, tx: Transaction, d: Db)
    requires Describes(db, live) && Supported(tx.vin) && AddTransaction(db, h, tx) == Ok(d)
    ensures Describes(d, live + [Stored(h, tx, |db.chain.blocks|)])
    ensures d.chain == db.chain
  {
    var s := Stored(h, tx, |db.chain.blocks|);
    DescribedHasShape(db, live);
    var indices := AddTransactionTables(db, h, tx, d);
    AddOutputsDescribes(db.outs, s, |tx.vout|, AllOutputs(live), d.outs, indices);
    AllOutputsStep(live, s);
    TablesStep(db.tables, d.tables, live, s, indices);
  }

  /** An unsupported transaction changes nothing but the spent set. */
  lemma AddUnsupportedStoresNothing(db: Db, h: Hash, tx: Transaction, d: Db)
    requires !Supported(tx.vin) && AddTransaction(db, h, tx) == Ok(d)
    ensures d == db.(spent := d.spent)
    ensures AddInputs(db.spent, tx.vin, |tx.vin|) == RolledBack(d.spent)
  {
    AcceptedExactly(db.spent, tx.vin, |tx.vin|);
    assert tx.vin[..|tx.vin|] == tx.vin;
  }

  /** The tables stay those of the live transactions; a supported one is added to them. */
  lemma AddTransactionDescribes(db: Db, live: seq<Stored>, h: Hash, tx: Transaction, d: Db)
    requires Describes(db, live) && AddTransaction(db, h, tx) == Ok(d)
    ensures Describes(d, live + Kept(h, tx, |db.chain.blocks|))
    ensures d.chain == db.chain
  {
    if Supported(tx.vin) {
      AddSupportedDescribes(db, live, h, tx, d);
    } else {
      AddUnsupportedStoresNothing(db, h, tx, d);
      assert live + [] == live;
    }
  }

  // ---------------------------------------------------------------- what the description means

  lemma {:induction false} BucketOfEntry(outs: seq<StoredOutput>, k: nat)
    requires k < |outs|
    ensures var f := outs[k];
            var index := |BucketOf(outs[..k], f.amount)|;
            && index < |BucketOf(outs, f.amount)|
            && BucketOf(outs, f.amount)[index] ==
                 Row(index, OutKey(k, f.key, f.unlockTime, f.height, f.commitment))
  {
    var f := outs[k];
    var n := |outs| - 1;
    assert outs == outs[..n] + [outs[n]];
    BucketOfStep(outs[..n], outs[n], f.amount);
    if k < n {
      BucketOfEntry(outs[..n], k);
      assert outs[..n][..k] == outs[..k];
    }
  }

  lemma {:induction false} AllOutputsSplit(live: seq<Stored>, i: nat)
    requires i < |live|
    ensures AllOutputs(live[..i]) + OutputsOf(live[i], |live[i].tx.vout|) <= AllOutputs(live)
  {
    var n := |live| - 1;
    assert live == live[..n] + [live[n]];
    AllOutputsStep(live[..n], live[n]);
    if i < n {
      AllOutputsSplit(live[..n], i);
      assert live[..n][..i] == live[..i];
    }
  }

  /** Where output `j` of live transaction `i` stands among all outputs. */
  lemma {:induction false} OutputPosition(live: seq<Stored>, i: nat, j: nat)
    requires i < |live| && j < |live[i].tx.vout|
    ensures var k := |AllOutputs(live[..i])| + j;
            && k < |AllOutputs(live)|
            && AllOutputs(live)[k] == OutputOf(live[i], j)
            && AllOutputs(live)[..k] == AllOutputs(live[..i]) + OutputsOf(live[i], j)
  {
    var all, before, own := AllOutputs(live), AllOutputs(live[..i]), OutputsOf(live[i], |live[i].tx.vout|);
    AllOutputsSplit(live, i);
    assert all[..|before| + |own|] == before + own;
    assert all[|before| + j] == (before + own)[|before| + j];
    assert all[..|before| + j] == before + own[..j];
    assert own[..j] == OutputsOf(live[i], j);
  }

  /**
   Output `j` of live transaction `i`: its recorded index points at an entry of its amount's bucket,
   that entry carries the key of this output, and the entry's global number leads back to it.
   */
  lemma RecordedIndexNamesItsOutput(db: Db, live: seq<Stored>, i: nat, j: nat)
    requires Describes(db, live) && i < |live| && j < |live[i].tx.vout|
    ensures |db.tables.indices[i].val| == |live[i].tx.vout|
    ensures var index := db.tables.indices[i].val[j];
            var bucket := Bucket(db.outs, OutputOf(live[i], j).amount);
            && index < |bucket|
            && bucket[index].key == index
            && bucket[index].val.key == OutputOf(live[i], j).key
            && bucket[index].val.outputId < |db.outs.txs|
            && db.outs.txs[bucket[index].val.outputId].val == OutTx(live[i].hash, j)
  {
    var s := live[i];
    var before := AllOutputs(live[..i]);
    var all := AllOutputs(live);
    var k := |before| + j;
    OutputPosition(live, i, j);
    BucketOfEntry(all, k);
    assert Bucket(db.outs, all[k].amount) == BucketOf(all, all[k].amount);
    assert DescribesRow(db.tables, live, i);
    assert RecordsIndex(db.tables.indices[i].val[j], before, s, j);
  }
}
