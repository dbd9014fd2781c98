/** Numbering without holes: what a process leaves behind that only ever extended the chain. */
module TightNumbering {
  import opened BlockchainTypes
  import opened Ledger
  import opened IndexStore
  import opened Numbering
  import opened BlockIndexer

  /** Every prefix is in use from 1 up to its counter, or to its number of entries, without holes. */
  ghost predicate Tight(db: Store, c: Counters) {
    forall prefix :: InUse(db, prefix) == Indices(db, prefix) == FirstIndices(NextIndex(db, c, prefix) - 1)
  }

  lemma TightIsFresh(db: Store, c: Counters, block: Block, solver: Solver)
    requires Tight(db, c)
    ensures Covers(db, c) && ReadsFresh(db, c, block, solver)
  {
    hide InUse, Indices;
  }

  lemma ReopenedIsTight(db: Store, c: Counters)
    requires Tight(db, c)
    ensures Tight(db, map[])
  {
    hide InUse, Indices;
  }

  /** The batch holds just the numbers that were handed out since counters c0. */
  ghost predicate BatchTight(db: Store, c0: Counters, p: Counted) {
    c0.Keys <= p.counters.Keys && forall prefix :: TightAt(db, c0, p, prefix)
  }

  ghost predicate TightAt(db: Store, c0: Counters, p: Counted, prefix: Prefix) {
    var first, next := NextIndex(db, c0, prefix), NextIndex(db, p.counters, prefix);
    && first <= next && InUse(p.store, prefix) == Indices(p.store, prefix)
    && forall i :: i in Indices(p.store, prefix) <==> first <= i < next
  }

  lemma CreditIndices(batch: Store, hash: Hash, height: nat, pay: Pay, n: nat, m: nat, prefix: Prefix)
    requires UndoKey(hash, m) !in batch.txos.undo
    ensures var batch' := batch.(txos := PutTxo(batch.txos, hash, height, pay, n, m));
      Indices(batch', prefix) == Indices(batch, prefix)
        + (if prefix == AddressTxo(pay.address) then {n} else {}) + (if prefix == BlockTxo(hash) then {m} else {})
  {
    var batch' := batch.(txos := PutTxo(batch.txos, hash, height, pay, n, m));
    match prefix
    case AddressTxo(a) =>
      assert a == pay.address ==> Place(a, n) in batch'.txos.entries;
      assert forall k :: k in batch.txos.entries ==> k in batch'.txos.entries;
    case BlockTxo(h) =>
      assert h == hash ==> UndoKey(h, m) in batch'.txos.undo;
      assert forall e :: e in batch.txos.undo ==> e in batch'.txos.undo;
    case BlockSpent(h) =>
  }

  lemma SpendIndices(batch: Store, hash: Hash, o: Outpoint, spender: Spender, n: nat, prefix: Prefix)
    ensures var batch' := batch.(marks := PutMark(batch.marks, hash, o, spender, n));
      && Indices(batch', prefix) == Indices(batch, prefix) + (if prefix == BlockSpent(hash) then {n} else {})
  {
    var batch' := batch.(marks := PutMark(batch.marks, hash, o, spender, n));
    match prefix
    case AddressTxo(a) =>
    case BlockTxo(h) =>
    case BlockSpent(h) =>
      assert h == hash ==> UndoKey(h, n) in batch'.marks.undo;
      assert forall e :: e in batch.marks.undo ==> e in batch'.marks.undo;
  }

  lemma CreditTight(db: Store, c0: Counters, p: Counted, block: Block, pay: Pay)
    requires BatchTight(db, c0, p)
    ensures BatchTight(db, c0, PutCredit(db, p, block, pay))
  {
    hide TightAt, InUse, Indices, PutTxo;
    forall prefix
      ensures TightAt(db, c0, PutCredit(db, p, block, pay), prefix)
    {
      CreditTightAt(db, c0, p, block, pay, prefix);
    }
  }

  lemma CreditTightAt(db: Store, c0: Counters, p: Counted, block: Block, pay: Pay, prefix: Prefix)
    requires TightAt(db, c0, p, prefix) && TightAt(db, c0, p, BlockTxo(block.blockHash))
    ensures TightAt(db, c0, PutCredit(db, p, block, pay), prefix)
  {
    hide InUse, Indices, PutTxo, PutCredit, NextIndex;
    var hash := block.blockHash;
    var n, m := NextIndex(db, p.counters, AddressTxo(pay.address)), NextIndex(db, p.counters, BlockTxo(hash));
    CreditCounts(db, p, block, pay, prefix);
    IndexIsStored(p.store, hash, m);
    CreditNames(p.store, hash, block.height, pay, n, m, prefix);
  }

  lemma CreditCounts(db: Store, p: Counted, block: Block, pay: Pay, prefix: Prefix)
    ensures var A, B, p' := AddressTxo(pay.address), BlockTxo(block.blockHash), PutCredit(db, p, block, pay);
      && p'.store == p.store.(txos := PutTxo(p.store.txos, block.blockHash, block.height, pay,
                                             NextIndex(db, p.counters, A), NextIndex(db, p.counters, B)))
      && NextIndex(db, p'.counters, prefix)
        == NextIndex(db, p.counters, prefix) + if prefix == A || prefix == B then 1 else 0
  {
    hide Indices, PutTxo;
  }

  lemma CreditNames(batch: Store, hash: Hash, height: nat, pay: Pay, n: nat, m: nat, prefix: Prefix)
    requires UndoKey(hash, m) !in batch.txos.undo && InUse(batch, prefix) == Indices(batch, prefix)
    ensures var batch' := batch.(txos := PutTxo(batch.txos, hash, height, pay, n, m));
      InUse(batch', prefix) == Indices(batch', prefix) == Indices(batch, prefix)
        + (if prefix == AddressTxo(pay.address) then {n} else {}) + (if prefix == BlockTxo(hash) then {m} else {})
  {
    hide InUse, Indices, PutTxo;
    var batch' := batch.(txos := PutTxo(batch.txos, hash, height, pay, n, m));
    CreditIndices(batch, hash, height, pay, n, m, prefix);
    IndicesInUse(batch', prefix);
    forall i | i in InUse(batch', prefix)
      ensures i in Indices(batch', prefix)
    {
      CreditInUse(batch, hash, height, pay, n, m, prefix, i);
    }
  }

  lemma IndexIsStored(db: Store, hash: Hash, m: nat)
    ensures UndoKey(hash, m) in db.txos.undo ==> m in Indices(db, BlockTxo(hash))
  {
    assert UndoKey(hash, m) in db.txos.undo ==> UndoKey(hash, m).index in Indices(db, BlockTxo(hash));
  }

  lemma SpendTight(db: Store, c0: Counters, p: Counted, block: Block, tx: Transaction, txi: TransactionInput)
    requires BatchTight(db, c0, p)
    ensures BatchTight(db, c0, PutSpend(db, p, block, tx, txi))
  {
    hide TightAt, InUse, Indices, PutMark;
    forall prefix
      ensures TightAt(db, c0, PutSpend(db, p, block, tx, txi), prefix)
    {
      SpendTightAt(db, c0, p, block, tx, txi, prefix);
    }
  }

  lemma SpendTightAt(db: Store, c0: Counters, p: Counted, block: Block, tx: Transaction, txi: TransactionInput,
                     prefix: Prefix)
    requires TightAt(db, c0, p, prefix)
    ensures TightAt(db, c0, PutSpend(db, p, block, tx, txi), prefix)
  {
    hide InUse, Indices, PutMark;
    if !txi.coinbase {
      var p' := PutSpend(db, p, block, tx, txi);
      var o, spender := Outpoint(txi.txHash, txi.txoIndex), Spender(block.blockHash, tx.txHash, txi.index);
      var n := NextIndex(db, p.counters, BlockSpent(block.blockHash));
      SpendIndices(p.store, block.blockHash, o, spender, n, prefix);
      IndicesInUse(p'.store, prefix);
      forall i | i in InUse(p'.store, prefix)
        ensures i in Indices(p'.store, prefix)
      {
        SpendInUse(p.store, block.blockHash, o, spender, n, prefix, i);
      }
    }
  }

  lemma {:induction false} CreditsTight(db: Store, c0: Counters, p: Counted, block: Block, pays: seq<Pay>)
    requires BatchTight(db, c0, p)
    ensures BatchTight(db, c0, PutCredits(db, p, block, pays))
  {
    hide BatchTight, PutCredit;
    if pays != [] {
      var n := |pays| - 1;
      CreditsTight(db, c0, p, block, pays[..n]);
      CreditTight(db, c0, PutCredits(db, p, block, pays[..n]), block, pays[n]);
    }
  }

  lemma {:induction false} SpendsTight(db: Store, c0: Counters, p: Counted, block: Block, tx: Transaction, n: nat)
    requires BatchTight(db, c0, p) && n <= |tx.inputs|
    ensures BatchTight(db, c0, PutSpends(db, p, block, tx, n))
  {
    hide BatchTight, PutSpend;
    if n > 0 {
      SpendsTight(db, c0, p, block, tx, n - 1);
      SpendTight(db, c0, PutSpends(db, p, block, tx, n - 1), block, tx, tx.inputs[n - 1]);
    }
  }

  lemma {:induction false} TxsTight(db: Store, c0: Counters, p: Counted, block: Block, t: nat, solver: Solver)
    requires BatchTight(db, c0, p) && t <= |block.transactions|
    ensures BatchTight(db, c0, PutTxs(db, p, block, t, solver))
  {
    hide BatchTight, PutCredits, PutSpends;
    if t > 0 {
      var tx := block.transactions[t - 1];
      var pays := AllPays(Creates(tx), solver);
      TxsTight(db, c0, p, block, t - 1, solver);
      CreditsTight(db, c0, PutTxs(db, p, block, t - 1, solver), block, pays);
      SpendsTight(db, c0, PutCredits(db, PutTxs(db, p, block, t - 1, solver), block, pays), block, tx, |tx.inputs|);
    }
  }

  lemma WrittenIndices(db: Store, batch: Store, prefix: Prefix)
    ensures Indices(Written(db, batch), prefix) == Indices(db, prefix) + Indices(batch, prefix)
  {
    var t := Written(db, batch);
    assert forall k :: k in t.txos.entries <==> k in db.txos.entries || k in batch.txos.entries;
    assert forall e :: e in t.txos.undo <==> e in db.txos.undo || e in batch.txos.undo;
    assert forall e :: e in t.marks.undo <==> e in db.marks.undo || e in batch.marks.undo;
  }

  lemma WrittenIsTight(db: Store, c0: Counters, p: Counted)
    requires Tight(db, c0) && BatchTight(db, c0, p)
    ensures Tight(Written(db, p.store), p.counters)
  {
    hide InUse, Indices, Written;
    var t, c := Written(db, p.store), p.counters;
    forall prefix
      ensures InUse(t, prefix) == Indices(t, prefix) == FirstIndices(NextIndex(t, c, prefix) - 1)
    {
      WrittenIndices(db, p.store, prefix);
      IndicesInUse(t, prefix);
      WrittenNames(db, p.store, prefix);
      assert TightAt(db, c0, p, prefix);
      assert prefix !in c ==> NextIndex(db, c0, prefix) == NextIndex(db, c, prefix);
      assert prefix !in c ==> Indices(t, prefix) == Indices(db, prefix);
      assert NextIndex(t, c, prefix) == NextIndex(db, c, prefix);
      assert forall i :: i in Indices(t, prefix) <==> 1 <= i < NextIndex(db, c, prefix);
    }
  }

  lemma WrittenNames(db: Store, batch: Store, prefix: Prefix)
    ensures InUse(Written(db, batch), prefix) <= InUse(db, prefix) + InUse(batch, prefix)
  {
    forall i | i in InUse(Written(db, batch), prefix)
      ensures i in InUse(db, prefix) || i in InUse(batch, prefix)
    {
      WrittenInUse(Written(db, batch), db, batch, prefix, i);
    }
  }

  /** A further block on top of the chain leaves the numbering tight. */
  lemma ExtendedIsTight(p: Counted, block: Block, solver: Solver)
    requires Tight(p.store, p.counters) && block.height !in p.store.blockAt
    ensures MakeRoom(p.store, block) == p.store.(highestBlock := MakeRoom(p.store, block).highestBlock)
    ensures var after := Indexed(p, block, solver); Tight(after.store, after.counters)
  {
    hide BatchTight, PutTxs, Written;
    var room := MakeRoom(p.store, block);
    assert forall prefix ::
      Indices(room, prefix) == Indices(p.store, prefix) && InUse(room, prefix) == InUse(p.store, prefix);
    var empty := Counted(EMPTY.(blockAt := map[block.height := block.blockHash]), p.counters);
    NothingYet(room, empty);
    TxsTight(room, p.counters, empty, block, |block.transactions|, solver);
    WrittenIsTight(room, p.counters, BatchOf(p, block, solver));
  }

  lemma NothingYet(db: Store, p: Counted)
    requires p.store.txos == EMPTY.txos && p.store.marks == EMPTY.marks
    ensures BatchTight(db, p.counters, p)
  {
    forall prefix
      ensures TightAt(db, p.counters, p, prefix)
    {
      assert Indices(p.store, prefix) == InUse(p.store, prefix) == {};
    }
  }

  lemma SameNumbers(db: Store, room: Store, c: Counters)
    requires Tight(db, c) && room == db.(highestBlock := room.highestBlock)
    ensures Tight(room, c)
  {
    assert forall prefix :: Indices(room, prefix) == Indices(db, prefix) && InUse(room, prefix) == InUse(db, prefix);
  }

  lemma StartIsTight()
    ensures Tight(EMPTY, map[])
  {
    assert forall prefix :: Indices(EMPTY, prefix) == InUse(EMPTY, prefix) == {};
  }

  /** Every number that the next block asks for will be new: all counters are in memory, or numbering has no holes and
      nothing stands at the height yet. */
  ghost predicate Numberable(p: Counted, height: nat) {
    AllCached(p.store, p.counters) || (Tight(p.store, p.counters) && height !in p.store.blockAt)
  }

  lemma NumberableIsFresh(p: Counted, block: Block, solver: Solver)
    requires Covers(p.store, p.counters) && Numberable(p, block.height)
    ensures ReadsFresh(MakeRoom(p.store, block), p.counters, block, solver)
    ensures var after := Indexed(p, block, solver);
      Tight(p.store, p.counters) && block.height !in p.store.blockAt ==> Tight(after.store, after.counters)
  {
    hide Tight, ReadsFresh, Covers, MakeRoom, Indexed, AllCached;
    if AllCached(p.store, p.counters) {
      CachedReadsFresh(p.store, p.counters, block, solver);
    }
    if Tight(p.store, p.counters) && block.height !in p.store.blockAt {
      ExtendedIsTight(p, block, solver);
      SameNumbers(p.store, MakeRoom(p.store, block), p.counters);
      TightIsFresh(MakeRoom(p.store, block), p.counters, block, solver);
    }
  }
}
