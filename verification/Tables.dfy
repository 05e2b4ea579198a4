/** Results of operations that can fail, with the failure-compatible members that `:-` needs. */
module Results {
  datatype Option<+T> = None | Some(value: T)

  datatype Result<+T, +E> = Ok(value: T) | Err(error: E) {
    predicate IsFailure() {
      Err?
    }

    function PropagateFailure<U>(): Result<U, E>
      requires Err?
    {
      Err(error)
    }

    function Extract(): T
      requires Ok?
    {
      value
    }
  }
}

/**
 The key-ordered tables of the LMDB back end.  A table is the sequence of its rows in key order.
 `MDB_APPEND`/`MDB_APPENDDUP` accept a row only when its key exceeds every stored key, a lookup
 finds the row with exactly the given key, and a deletion removes that row wherever it stands.
 */
module Tables {
  datatype Row<V> = Row(key: nat, val: V)

  type Table<V> = seq<Row<V>>

  /** The keys are 0, 1, 2, ... without gaps. */
  ghost predicate Dense<V>(t: Table<V>) {
    forall i :: 0 <= i < |t| ==> t[i].key == i
  }

  /** The position of the first row with key `k`, or `|t|` when there is none. */
  function Position<V>(t: Table<V>, k: nat): (p: nat)
    ensures p <= |t|
    ensures p < |t| ==> t[p].key == k
    ensures forall i :: 0 <= i < p ==> t[i].key != k
  {
    if t == [] || t[0].key == k then 0 else 1 + Position(t[1..], k)
  }

  predicate CanAppend<V>(t: Table<V>, k: nat) {
    t == [] || t[|t| - 1].key < k
  }

  function Append<V>(t: Table<V>, k: nat, v: V): Table<V> {
    t + [Row(k, v)]
  }

  function Delete<V>(t: Table<V>, p: nat): Table<V>
    requires p < |t|
  {
    t[..p] + t[p + 1..]
  }

  /** In a dense table the key is the position. */
  lemma {:induction false} DensePosition<V>(t: Table<V>, k: nat)
    requires Dense(t)
    ensures Position(t, k) == if k < |t| then k else |t|
  {
    assert k < |t| ==> t[k].key == k;
  }

  /** Appending the next key to a dense table is accepted, and deleting that key undoes it. */
  lemma {:induction false} AppendDelete<V>(t: Table<V>, v: V)
    requires Dense(t)
    ensures CanAppend(t, |t|)
    ensures Dense(Append(t, |t|, v))
    ensures Position(Append(t, |t|, v), |t|) == |t|
    ensures Delete(Append(t, |t|, v), |t|) == t
  {
    DensePosition(Append(t, |t|, v), |t|);
  }
}
