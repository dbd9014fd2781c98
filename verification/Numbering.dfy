/** The numbering of the store's entries: counters kept in memory, and what they must exceed. */
module Numbering {
  import opened BlockchainTypes
  import opened Ledger
  import opened IndexStore

  /** A store, or a batch for one, with the counters that number its entries. */
  datatype Counted = Counted(store: Store, counters: Counters)

  /** What getNextTxoIndex returns: one more than the counter, or than the number of entries stored. */
  function NextIndex(db: Store, c: Counters, prefix: Prefix): nat {
    1 + if prefix in c then c[prefix] else |Indices(db, prefix)|
  }

  /** No counter lags behind an index in use. */
  ghost predicate Covers(db: Store, c: Counters) {
    forall prefix, i :: i in InUse(db, prefix) ==> 1 <= i && (prefix in c ==> i <= c[prefix])
  }

  /** Every prefix in use has its counter in memory, as in a process that began with an empty database. */
  ghost predicate AllCached(db: Store, c: Counters) {
    forall prefix, i :: i in InUse(db, prefix) ==> prefix in c
  }

  /** The next index is above every index in use under the prefix. */
  ghost predicate NextIsFresh(db: Store, c: Counters, prefix: Prefix) {
    forall i :: i in InUse(db, prefix) ==> i < NextIndex(db, c, prefix)
  }

  /** While every prefix in use has a counter, every next index is new: above every index stored under the prefix,
      and above every place that an undo list still names, even where the entry itself is gone. */
  lemma NextIndexIsNew(db: Store, c: Counters, prefix: Prefix)
    requires Covers(db, c) && (prefix in c || AllCached(db, c))
    ensures NextIsFresh(db, c, prefix)
  {
    if prefix !in c {
      assert forall i :: i in InUse(db, prefix) ==> prefix in c;
    }
  }

  function FirstIndices(n: nat): (s: set<nat>)
    ensures |s| == n
    ensures forall i :: i in s <==> 1 <= i <= n
  {
    if n == 0 then {} else FirstIndices(n - 1) + {n}
  }

  /** The stored indices have no hole, and no undo list names a place beyond them. */
  ghost predicate Dense(db: Store, prefix: Prefix) {
    && Indices(db, prefix) == FirstIndices(|Indices(db, prefix)|)
    && forall i :: i in InUse(db, prefix) ==> i <= |Indices(db, prefix)|
  }

  lemma IndicesInUse(db: Store, prefix: Prefix)
    ensures Indices(db, prefix) <= InUse(db, prefix)
  {
  }

  /** A prefix that this process reads for the first time: the next index is above all indices in use exactly when
      the prefix is dense. */
  lemma RestartIsSafeIff(db: Store, c: Counters, prefix: Prefix)
    requires Covers(db, c) && prefix !in c
    ensures NextIsFresh(db, c, prefix) <==> Dense(db, prefix)
  {
    IndicesInUse(db, prefix);
    hide Indices, InUse;
    var s, r := Indices(db, prefix), FirstIndices(|Indices(db, prefix)|);
    if NextIsFresh(db, c, prefix) {
      assert s <= r;
      assert |r - s| == |r| - |s|;
      assert r == s + (r - s);
    }
  }

  /** Counters c' hand out new indices wherever counters c do. */
  ghost predicate NoLessFresh(db: Store, c: Counters, c': Counters) {
    forall prefix :: NextIsFresh(db, c, prefix) ==> NextIsFresh(db, c', prefix)
  }

  lemma NextCovers(db: Store, c: Counters, prefix: Prefix)
    requires Covers(db, c) && NextIsFresh(db, c, prefix)
    ensures var n := NextIndex(db, c, prefix);
      && n !in InUse(db, prefix) && Covers(db, c[prefix := n]) && NoLessFresh(db, c, c[prefix := n])
  {
    hide InUse, Indices;
    var n := NextIndex(db, c, prefix);
    var c' := c[prefix := n];
    forall p, i | i in InUse(db, p)
      ensures 1 <= i && (p in c' ==> i <= c'[p])
    {
    }
    forall p | NextIsFresh(db, c, p)
      ensures NextIsFresh(db, c', p)
    {
    }
  }

  /** A batch names only what its process has counted. */
  lemma BatchNext(db: Store, batch: Store, c: Counters, prefix: Prefix)
    requires Covers(batch, c) && AllCached(batch, c)
    ensures var n := NextIndex(db, c, prefix);
      n !in InUse(batch, prefix) && Covers(batch, c[prefix := n]) && AllCached(batch, c[prefix := n])
  {
    hide InUse, Indices;
  }

  lemma UnusedIsUnnamed(db: Store, a: Address, n: nat)
    requires n !in InUse(db, AddressTxo(a))
    ensures Unnamed(db.txos, Place(a, n))
  {
    var k := Place(a, n);
    assert k in db.txos.entries ==> k.index in Indices(db, AddressTxo(a));
    forall e | e in db.txos.undo
      ensures db.txos.undo[e] != k
    {
      assert db.txos.undo[e].address == a ==> db.txos.undo[e].index in InUse(db, AddressTxo(a));
    }
  }

  lemma UnusedUndo(db: Store, hash: Hash, m: nat)
    ensures m !in InUse(db, BlockTxo(hash)) ==> UndoKey(hash, m) !in db.txos.undo
    ensures m !in InUse(db, BlockSpent(hash)) ==> UndoKey(hash, m) !in db.marks.undo
  {
    assert UndoKey(hash, m) in db.txos.undo ==> UndoKey(hash, m).index in Indices(db, BlockTxo(hash));
    assert UndoKey(hash, m) in db.marks.undo ==> UndoKey(hash, m).index in Indices(db, BlockSpent(hash));
  }

  lemma CreditInUse(batch: Store, hash: Hash, height: nat, pay: Pay, n: nat, m: nat, prefix: Prefix, i: nat)
    requires i in InUse(batch.(txos := PutTxo(batch.txos, hash, height, pay, n, m)), prefix)
    ensures i in InUse(batch, prefix) || (prefix == AddressTxo(pay.address) && i == n) ||
      (prefix == BlockTxo(hash) && i == m)
  {
  }

  lemma SpendInUse(batch: Store, hash: Hash, o: Outpoint, spender: Spender, n: nat, prefix: Prefix, i: nat)
    requires i in InUse(batch.(marks := PutMark(batch.marks, hash, o, spender, n)), prefix)
    ensures i in InUse(batch, prefix) || (prefix == BlockSpent(hash) && i == n)
  {
  }

  lemma WrittenInUse(t: Store, db: Store, batch: Store, prefix: Prefix, i: nat)
    requires t.txos == db.txos.Write(batch.txos) && t.marks == db.marks.Write(batch.marks) && i in InUse(t, prefix)
    ensures i in InUse(db, prefix) || i in InUse(batch, prefix)
  {
  }

  lemma ClearedInUse(t: Store, db: Store, prefix: Prefix, i: nat)
    requires t.txos.entries.Keys <= db.txos.entries.Keys && t.txos.undo == db.txos.undo && t.marks.undo == db.marks.undo
    requires i in InUse(t, prefix)
    ensures i in InUse(db, prefix)
  {
  }
}
