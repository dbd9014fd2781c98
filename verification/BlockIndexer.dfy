/** The indexer proper: it stores the outputs and the spends of one block at a time, and undoes
    those of a block that another one replaces at its height. */
module BlockIndexer {
  import opened BlockchainTypes
  import opened Ledger
  import opened IndexStore
  import opened Spenders
  import opened Numbering
  import opened MempoolMonitor

  // ---------- What indexing a block does to the store and the counters ----------

  /** One turn of the address loop: a credit at the next index of its address, and its undo entry. */
  function PutCredit(db: Store, p: Counted, block: Block, pay: Pay): Counted {
    var n := NextIndex(db, p.counters, AddressTxo(pay.address));
    var c := p.counters[AddressTxo(pay.address) := n];
    var m := NextIndex(db, c, BlockTxo(block.blockHash));
    Counted(p.store.(txos := PutTxo(p.store.txos, block.blockHash, block.height, pay, n, m)),
            c[BlockTxo(block.blockHash) := m])
  }

  function PutCredits(db: Store, p: Counted, block: Block, pays: seq<Pay>): Counted {
    if pays == [] then p
    else PutCredit(db, PutCredits(db, p, block, pays[..|pays| - 1]), block, pays[|pays| - 1])
  }

  /** One turn of the input loop: a marker, and its undo entry; nothing for a coinbase input. */
  function PutSpend(db: Store, p: Counted, block: Block, tx: Transaction, txi: TransactionInput): Counted {
    if txi.coinbase then p
    else
      var n := NextIndex(db, p.counters, BlockSpent(block.blockHash));
      var o, spender := Outpoint(txi.txHash, txi.txoIndex), Spender(block.blockHash, tx.txHash, txi.index);
      Counted(p.store.(marks := PutMark(p.store.marks, block.blockHash, o, spender, n)),
              p.counters[BlockSpent(block.blockHash) := n])
  }

  function PutSpends(db: Store, p: Counted, block: Block, tx: Transaction, n: nat): Counted
    requires n <= |tx.inputs|
  {
    if n == 0 then p else PutSpend(db, PutSpends(db, p, block, tx, n - 1), block, tx, tx.inputs[n - 1])
  }

  /** The batch after the first t transactions: of each, the outputs and then the inputs. */
  function PutTxs(db: Store, p: Counted, block: Block, t: nat, solver: Solver): Counted
    requires t <= |block.transactions|
  {
    if t == 0 then p
    else
      var tx := block.transactions[t - 1];
      var credited := PutCredits(db, PutTxs(db, p, block, t - 1, solver), block, AllPays(Creates(tx), solver));
      PutSpends(db, credited, block, tx, |tx.inputs|)
  }

  /** What a block's undo lists name is deleted; the lists themselves stay. */
  function ClearedStore(db: Store, hash: Hash): Store {
    db.(txos := db.txos.(entries := db.txos.entries - db.txos.Named(hash)),
        marks := db.marks.(markers := db.marks.markers - db.marks.Named(hash)))
  }

  /** The undo step, where a block stands at the height; and the highest block so far. */
  function MakeRoom(db: Store, block: Block): Store {
    var cleared := if block.height in db.blockAt then ClearedStore(db, db.blockAt[block.height]) else db;
    if db.highestBlock == None || db.highestBlock.value < block.height then
      cleared.(highestBlock := Some(block.height))
    else cleared
  }

  function Written(db: Store, batch: Store): Store {
    Store(db.blockAt + batch.blockAt, db.txos.Write(batch.txos), db.marks.Write(batch.marks), db.highestBlock)
  }

  predicate IsIndexed(db: Store, block: Block) {
    block.height in db.blockAt && db.blockAt[block.height] == block.blockHash
  }

  function BatchOf(p: Counted, block: Block, solver: Solver): Counted {
    var batch := EMPTY.(blockAt := map[block.height := block.blockHash]);
    PutTxs(MakeRoom(p.store, block), Counted(batch, p.counters), block, |block.transactions|, solver)
  }

  /** The store and the counters after a block was sent to the indexer, whatever stood in them before. */
  function Indexed(p: Counted, block: Block, solver: Solver): Counted {
    if IsIndexed(p.store, block) then p
    else
      var batch := BatchOf(p, block, solver);
      Counted(Written(MakeRoom(p.store, block), batch.store), batch.counters)
  }

  lemma {:induction false} PutCreditsConcat(db: Store, p: Counted, block: Block, ps: seq<Pay>, qs: seq<Pay>)
    ensures PutCredits(db, PutCredits(db, p, block, ps), block, qs) == PutCredits(db, p, block, ps + qs)
  {
    hide PutCredit;
    if qs == [] {
      assert ps + qs == ps;
    } else {
      assert (ps + qs)[..|ps + qs| - 1] == ps + qs[..|qs| - 1];
      PutCreditsConcat(db, p, block, ps, qs[..|qs| - 1]);
    }
  }

  // ---------- Fresh numbers make a clean batch ----------

  /** Every number that the block asks for is new. */
  ghost predicate ReadsFresh(db: Store, c: Counters, block: Block, solver: Solver) {
    && NextIsFresh(db, c, BlockTxo(block.blockHash)) && NextIsFresh(db, c, BlockSpent(block.blockHash))
    && AddressesFresh(db, c, AllPays(AllCreates(block.transactions), solver))
  }

  ghost predicate AddressesFresh(db: Store, c: Counters, pays: seq<Pay>) {
    forall i :: 0 <= i < |pays| ==> NextIsFresh(db, c, AddressTxo(pays[i].address))
  }

  /** A batch under construction: the credits and spends of the rows, at unused numbers. */
  ghost predicate Filling(db: Store, c0: Counters, p: Counted, block: Block, row: TxoRow, markRow: MarkRow) {
    && row.hash == markRow.hash == block.blockHash
    && PendingTxos(db.txos, p.store.txos, row, block.height) && PendingMarks(db.marks, p.store.marks, markRow)
    && Covers(db, p.counters) && Covers(p.store, p.counters) && AllCached(p.store, p.counters)
    && NoLessFresh(db, c0, p.counters) && c0.Keys <= p.counters.Keys
  }

  lemma FreshEnough(db: Store, c0: Counters, c: Counters, c': Counters, prefix: Prefix)
    requires NoLessFresh(db, c0, c)
    ensures NextIsFresh(db, c0, prefix) ==> NextIsFresh(db, c, prefix)
    ensures NoLessFresh(db, c, c') ==> NoLessFresh(db, c0, c')
  {
  }

  lemma CreditCounted(batch: Store, c: Counters, hash: Hash, height: nat, pay: Pay, n: nat, m: nat)
    requires Covers(batch, c) && AllCached(batch, c)
    requires AddressTxo(pay.address) in c && c[AddressTxo(pay.address)] == n >= 1
    requires BlockTxo(hash) in c && c[BlockTxo(hash)] == m >= 1
    ensures var batch' := batch.(txos := PutTxo(batch.txos, hash, height, pay, n, m));
      Covers(batch', c) && AllCached(batch', c)
  {
    hide InUse;
    var batch' := batch.(txos := PutTxo(batch.txos, hash, height, pay, n, m));
    forall prefix, i | i in InUse(batch', prefix)
      ensures 1 <= i && prefix in c && i <= c[prefix]
    {
      CreditInUse(batch, hash, height, pay, n, m, prefix, i);
    }
  }

  lemma SpendCounted(batch: Store, c: Counters, hash: Hash, o: Outpoint, spender: Spender, n: nat)
    requires Covers(batch, c) && AllCached(batch, c) && BlockSpent(hash) in c && c[BlockSpent(hash)] == n >= 1
    ensures var batch' := batch.(marks := PutMark(batch.marks, hash, o, spender, n));
      Covers(batch', c) && AllCached(batch', c)
  {
    hide InUse;
    var batch' := batch.(marks := PutMark(batch.marks, hash, o, spender, n));
    forall prefix, i | i in InUse(batch', prefix)
      ensures 1 <= i && prefix in c && i <= c[prefix]
    {
      SpendInUse(batch, hash, o, spender, n, prefix, i);
    }
  }

  lemma CreditStep(db: Store, c0: Counters, p: Counted, block: Block, row: TxoRow, markRow: MarkRow, pay: Pay)
    returns (row': TxoRow)
    requires Filling(db, c0, p, block, row, markRow)
    requires NextIsFresh(db, c0, AddressTxo(pay.address)) && NextIsFresh(db, c0, BlockTxo(block.blockHash))
    ensures Filling(db, c0, PutCredit(db, p, block, pay), block, row', markRow) && row'.pays == row.pays + [pay]
  {
    hide PendingTxos, PendingMarks, Covers, AllCached, NoLessFresh, NextIsFresh, NextIndex, PutTxo, Unnamed, InUse;
    var hash, A, B := block.blockHash, AddressTxo(pay.address), BlockTxo(block.blockHash);
    var c, batch := p.counters, p.store;
    var n := NextIndex(db, c, A);
    var c1 := c[A := n];
    var m := NextIndex(db, c1, B);
    var c2 := c1[B := m];
    FreshEnough(db, c0, c, c1, A);
    NextCovers(db, c, A);
    FreshEnough(db, c0, c, c1, B);
    FreshEnough(db, c0, c1, c2, B);
    NextCovers(db, c1, B);
    FreshEnough(db, c0, c1, c2, B);
    BatchNext(db, batch, c, A);
    BatchNext(db, batch, c1, B);
    UnusedIsUnnamed(db, pay.address, n);
    UnusedIsUnnamed(batch, pay.address, n);
    UnusedUndo(db, hash, m);
    UnusedUndo(batch, hash, m);
    UnnamedIsAbsent(batch.txos, Place(pay.address, n));
    PendingTxo(db.txos, batch.txos, row, block.height, pay, n, m);
    NextIsPositive(db, c, A);
    NextIsPositive(db, c1, B);
    CreditCounted(batch, c2, hash, block.height, pay, n, m);
    row' := WithTxo(row, pay, n, m);
  }

  lemma UnnamedIsAbsent(t: Txos, k: Place)
    requires Unnamed(t, k)
    ensures k !in t.entries
  {
  }

  lemma NextIsPositive(db: Store, c: Counters, prefix: Prefix)
    ensures NextIndex(db, c, prefix) >= 1
  {
  }

  lemma SpendStep(db: Store, c0: Counters, p: Counted, block: Block, row: TxoRow, markRow: MarkRow, tx: Transaction,
      txi: TransactionInput) returns (markRow': MarkRow)
    requires Filling(db, c0, p, block, row, markRow) && NextIsFresh(db, c0, BlockSpent(block.blockHash))
    ensures Filling(db, c0, PutSpend(db, p, block, tx, txi), block, row, markRow')
    ensures markRow'.spends == markRow.spends + if txi.coinbase then [] else [Outpoint(txi.txHash, txi.txoIndex)]
  {
    hide PendingTxos, PendingMarks, Covers, AllCached, NoLessFresh, NextIsFresh, NextIndex, PutMark, InUse;
    markRow' := markRow;
    if !txi.coinbase {
      var hash, S := block.blockHash, BlockSpent(block.blockHash);
      var o, spender := Outpoint(txi.txHash, txi.txoIndex), Spender(hash, tx.txHash, txi.index);
      var c, batch := p.counters, p.store;
      var n := NextIndex(db, c, S);
      FreshEnough(db, c0, c, c[S := n], S);
      NextCovers(db, c, S);
      BatchNext(db, batch, c, S);
      UnusedUndo(db, hash, n);
      UnusedUndo(batch, hash, n);
      PendingMark(db.marks, batch.marks, markRow, o, spender, n);
      NextIsPositive(db, c, S);
      SpendCounted(batch, c[S := n], hash, o, spender, n);
      markRow' := WithMark(markRow, o, n);
    }
  }

  lemma {:induction false} CreditsFill(db: Store, c0: Counters, p: Counted, block: Block, row: TxoRow, markRow: MarkRow,
      pays: seq<Pay>) returns (row': TxoRow)
    requires Filling(db, c0, p, block, row, markRow)
    requires AddressesFresh(db, c0, pays) && NextIsFresh(db, c0, BlockTxo(block.blockHash))
    ensures Filling(db, c0, PutCredits(db, p, block, pays), block, row', markRow) && row'.pays == row.pays + pays
  {
    hide Filling, NextIsFresh, PutCredit;
    row' := row;
    if pays != [] {
      var n := |pays| - 1;
      var row1 := CreditsFill(db, c0, p, block, row, markRow, pays[..n]);
      row' := CreditStep(db, c0, PutCredits(db, p, block, pays[..n]), block, row1, markRow, pays[n]);
      assert pays == pays[..n] + [pays[n]];
    }
  }

  lemma {:induction false} SpendsFill(db: Store, c0: Counters, p: Counted, block: Block, row: TxoRow, markRow: MarkRow,
      tx: Transaction, n: nat) returns (markRow': MarkRow)
    requires Filling(db, c0, p, block, row, markRow) && NextIsFresh(db, c0, BlockSpent(block.blockHash))
    requires n <= |tx.inputs|
    ensures Filling(db, c0, PutSpends(db, p, block, tx, n), block, row, markRow')
    ensures markRow'.spends == markRow.spends + SpendsUpTo(tx, n)
  {
    hide Filling, NextIsFresh, PutSpend;
    markRow' := markRow;
    if n > 0 {
      var markRow1 := SpendsFill(db, c0, p, block, row, markRow, tx, n - 1);
      markRow' := SpendStep(db, c0, PutSpends(db, p, block, tx, n - 1), block, row, markRow1, tx, tx.inputs[n - 1]);
    }
  }

  lemma {:induction false} TxsFill(db: Store, c0: Counters, p: Counted, block: Block, solver: Solver, t: nat)
    returns (row: TxoRow, markRow: MarkRow)
    requires t <= |block.transactions| && ReadsFresh(db, c0, block, solver)
    requires Filling(db, c0, p, block, TxoRow(block.blockHash, [], []), MarkRow(block.blockHash, [], []))
    ensures Filling(db, c0, PutTxs(db, p, block, t, solver), block, row, markRow)
    ensures RowsUpTo(row, markRow, block, solver, t)
  {
    hide Filling, NextIsFresh, PutCredits, PutSpends, RowsUpTo, Creates, Spends, AllPays, AddressesFresh;
    row, markRow := TxoRow(block.blockHash, [], []), MarkRow(block.blockHash, [], []);
    if t == 0 {
      NoRowsYet(row, markRow, block, solver);
    } else {
      var tx := block.transactions[t - 1];
      var row0, markRow0 := TxsFill(db, c0, p, block, solver, t - 1);
      var p0 := PutTxs(db, p, block, t - 1, solver);
      var pays := AllPays(Creates(tx), solver);
      PartIsFresh(db, c0, block, solver, t - 1);
      row := CreditsFill(db, c0, p0, block, row0, markRow0, pays);
      markRow := SpendsFill(db, c0, PutCredits(db, p0, block, pays), block, row, markRow0, tx, |tx.inputs|);
      SpendsAre(tx);
      RowsStep(row0, markRow0, row, markRow, block, solver, t - 1);
    }
  }

  lemma SpendsAre(tx: Transaction)
    ensures Spends(tx) == SpendsUpTo(tx, |tx.inputs|)
  {
  }

  /** Freshness for a block is freshness for each of its transactions. */
  lemma PartIsFresh(db: Store, c: Counters, block: Block, solver: Solver, t: nat)
    requires AddressesFresh(db, c, AllPays(AllCreates(block.transactions), solver)) && t < |block.transactions|
    ensures AddressesFresh(db, c, AllPays(Creates(block.transactions[t]), solver))
  {
    PaysAreAmong(block.transactions, solver, t);
    hide NextIsFresh, AllPays, AllCreates, Creates;
    var pays, all := AllPays(Creates(block.transactions[t]), solver), AllPays(AllCreates(block.transactions), solver);
    forall i | 0 <= i < |pays|
      ensures NextIsFresh(db, c, AddressTxo(pays[i].address))
    {
      assert pays[i] in all;
    }
  }

  lemma {:induction false} PaysAreAmong(txs: seq<Transaction>, solver: Solver, t: nat)
    requires t < |txs|
    ensures forall pay :: pay in AllPays(Creates(txs[t]), solver) ==> pay in AllPays(AllCreates(txs), solver)
  {
    hide Creates, AllPays;
    var n := |txs| - 1;
    AllPaysConcat(AllCreates(txs[..n]), Creates(txs[n]), solver);
    if t < n {
      PaysAreAmong(txs[..n], solver, t);
      assert txs[..n][t] == txs[t];
    }
  }

  /** The row of a block: its credits in the order of its outputs, and its spends. */
  ghost predicate RowsOf(row: TxoRow, markRow: MarkRow, block: Block, solver: Solver) {
    && row.hash == markRow.hash == block.blockHash
    && row.pays == AllPays(AllCreates(block.transactions), solver)
    && markRow.spends == AllSpends(block.transactions)
  }

  /** The rows hold the credits and the spends of the first t transactions. */
  ghost predicate RowsUpTo(row: TxoRow, markRow: MarkRow, block: Block, solver: Solver, t: nat)
    requires t <= |block.transactions|
  {
    && row.pays == AllPays(AllCreates(block.transactions[..t]), solver)
    && markRow.spends == AllSpends(block.transactions[..t])
  }

  lemma NoRowsYet(row: TxoRow, markRow: MarkRow, block: Block, solver: Solver)
    requires row.pays == [] && markRow.spends == []
    ensures RowsUpTo(row, markRow, block, solver, 0)
  {
  }

  lemma RowsStep(row: TxoRow, markRow: MarkRow, row': TxoRow, markRow': MarkRow, block: Block, solver: Solver, t: nat)
    requires t < |block.transactions| && RowsUpTo(row, markRow, block, solver, t)
    requires row'.pays == row.pays + AllPays(Creates(block.transactions[t]), solver)
    requires markRow'.spends == markRow.spends + Spends(block.transactions[t])
    ensures RowsUpTo(row', markRow', block, solver, t + 1)
  {
    hide AllPays, Creates, Spends;
    assert block.transactions[..t + 1][..t] == block.transactions[..t];
    AllPaysConcat(AllCreates(block.transactions[..t]), Creates(block.transactions[t]), solver);
  }

  lemma AllRows(row: TxoRow, markRow: MarkRow, block: Block, solver: Solver)
    requires RowsUpTo(row, markRow, block, solver, |block.transactions|)
    requires row.hash == markRow.hash == block.blockHash
    ensures RowsOf(row, markRow, block, solver)
  {
    assert block.transactions[..|block.transactions|] == block.transactions;
  }

  lemma WithoutNext(held: seq<Transaction>, txs: seq<Transaction>, t: nat)
    requires t < |txs|
    ensures WithoutTransactions(held, txs[..t + 1])
      == WithoutTransaction(WithoutTransactions(held, txs[..t]), txs[t].txHash)
  {
    assert txs[..t + 1][..t] == txs[..t];
  }

  /** The rows are those of the chain, and the store names the chain's blocks by height. */
  ghost predicate Reflects(db: Store, rows: seq<TxoRow>, markRows: seq<MarkRow>, chain: seq<Block>, solver: Solver) {
    && |rows| == |markRows| == |chain|
    && (forall h :: 0 <= h < |chain| ==> chain[h].height == h && RowsOf(rows[h], markRows[h], chain[h], solver))
    && (forall h: nat :: h in db.blockAt <==> h < |chain|)
    && (forall h :: 0 <= h < |chain| ==> db.blockAt[h] == chain[h].blockHash)
    && db.highestBlock == if chain == [] then None else Some(|chain| - 1)
  }

  function SpendsOf(block: Block): set<Outpoint> {
    AsSet(AllSpends(block.transactions))
  }

  /** The outpoints marked as spent once the block stands in the chain. */
  function MarkedAfter(chain: seq<Block>, marked: set<Outpoint>, block: Block): set<Outpoint>
    requires block.height <= |chain|
  {
    marked - (if block.height < |chain| then SpendsOf(chain[block.height]) else {}) + SpendsOf(block)
  }

  function WithoutTransactions(held: seq<Transaction>, txs: seq<Transaction>): seq<Transaction> {
    if txs == [] then held
    else WithoutTransaction(WithoutTransactions(held, txs[..|txs| - 1]), txs[|txs| - 1].txHash)
  }

  /** The mempool's transactions once the block was sent: a block that is indexed already takes none away. */
  function HeldAfter(db: Store, held: seq<Transaction>, block: Block): seq<Transaction> {
    if IsIndexed(db, block) then held else WithoutTransactions(held, block.transactions)
  }

  ghost function VacatedRows(rows: seq<TxoRow>, block: Block): seq<TxoRow>
    requires block.height <= |rows|
  {
    if block.height < |rows| then rows[block.height := Vacant(rows[block.height])]
    else rows + [TxoRow(block.blockHash, [], [])]
  }

  /** The store, laid out for the blocks of the chain. */
  ghost predicate Consistent(db: Store, rows: seq<TxoRow>, markRows: seq<MarkRow>, known: map<Hash, seq<Outpoint>>,
      chain: seq<Block>, solver: Solver)
  {
    && TxosLaid(db.txos, rows) && MarksLaid(db.marks, markRows, known) && Reflects(db, rows, markRows, chain, solver)
    && MarkersName(db.marks.markers, chain)
  }

  lemma RoomIs(db: Store, rows: seq<TxoRow>, markRows: seq<MarkRow>, chain: seq<Block>, solver: Solver, block: Block)
    requires Reflects(db, rows, markRows, chain, solver) && block.height <= |chain|
    ensures MakeRoom(db, block) ==
      if block.height < |chain| then ClearedStore(db, chain[block.height].blockHash)
      else db.(highestBlock := Some(block.height))
    ensures IsIndexed(db, block) <==> block.height < |chain| && chain[block.height].blockHash == block.blockHash
  {
    hide RowsOf, ClearedStore;
  }

  /** After the undo step nothing is left of the block that stood at the height. */
  lemma ClearStep(db: Store, db': Store, rows: seq<TxoRow>, markRows: seq<MarkRow>, known: map<Hash, seq<Outpoint>>,
      chain: seq<Block>, block: Block, solver: Solver)
    requires Consistent(db, rows, markRows, known, chain, solver) && block.height <= |chain|
    requires forall h :: 0 <= h < |chain| && h != block.height ==> chain[h].blockHash != block.blockHash
    requires db' == MakeRoom(db, block)
    ensures |rows| == |chain|
    ensures TxosLaid(db'.txos, VacatedRows(rows, block)) && MarksLaid(db'.marks, markRows, known)
    ensures db'.marks.markers.Keys
      == db.marks.markers.Keys - if block.height < |chain| then SpendsOf(chain[block.height]) else {}
  {
    hide TxosLaid, MarkersName;
    RoomIs(db, rows, markRows, chain, solver, block);
    hide MakeRoom;
    if block.height < |chain| {
      ClearRow(db.txos, rows, block.height);
      UndoneIsSpends(db.marks, markRows, known, block.height);
    } else {
      AppendRow(db.txos, rows, block.blockHash);
    }
  }

  lemma CoversRoom(db: Store, c: Counters, block: Block)
    ensures Covers(db, c) ==> Covers(MakeRoom(db, block), c)
    ensures AllCached(db, c) ==> AllCached(MakeRoom(db, block), c)
  {
    var room := MakeRoom(db, block);
    forall prefix, i | i in InUse(room, prefix)
      ensures i in InUse(db, prefix)
    {
      ClearedInUse(room, db, prefix, i);
    }
  }

  lemma ReflectsPlaced(db: Store, db': Store, rows: seq<TxoRow>, markRows: seq<MarkRow>, chain: seq<Block>,
      solver: Solver, row: TxoRow, markRow: MarkRow, block: Block)
    requires Reflects(db, rows, markRows, chain, solver) && block.height <= |chain|
    requires RowsOf(row, markRow, block, solver)
    requires db'.blockAt == db.blockAt[block.height := block.blockHash]
    requires db'.highestBlock == if block.height < |chain| then db.highestBlock else Some(block.height)
    ensures var h := block.height;
      Reflects(db', PlaceAt(rows, h, row), PlaceAt(markRows, h, markRow), PlaceAt(chain, h, block), solver)
  {
    hide RowsOf;
  }

  // ---------- What the markers say ----------

  /** Every marker of a batch is that of an input of its block. */
  ghost predicate BatchNames(markers: map<Outpoint, Spender>, block: Block) {
    forall o :: o in markers ==> MarkedBy(block, o, markers[o])
  }

  lemma SpendNames(db: Store, p: Counted, block: Block, tx: Transaction, i: nat)
    requires BatchNames(p.store.marks.markers, block) && tx in block.transactions && i < |tx.inputs|
    ensures BatchNames(PutSpend(db, p, block, tx, tx.inputs[i]).store.marks.markers, block)
  {
    hide NextIndex, MarkedBy;
    var txi := tx.inputs[i];
    if !txi.coinbase {
      var o, m := Outpoint(txi.txHash, txi.txoIndex), Spender(block.blockHash, tx.txHash, txi.index);
      assert MarkedBy(block, o, m) by { InputIsSpender(block, tx, i, o, m); }
    }
  }

  lemma InputIsSpender(block: Block, tx: Transaction, i: nat, o: Outpoint, m: Spender)
    requires InputSpends(block, tx, i, o, m)
    ensures MarkedBy(block, o, m)
  {
  }

  lemma {:induction false} SpendsName(db: Store, p: Counted, block: Block, tx: Transaction, n: nat)
    requires BatchNames(p.store.marks.markers, block) && tx in block.transactions && n <= |tx.inputs|
    ensures BatchNames(PutSpends(db, p, block, tx, n).store.marks.markers, block)
  {
    hide BatchNames, PutSpend;
    if n > 0 {
      SpendsName(db, p, block, tx, n - 1);
      SpendNames(db, PutSpends(db, p, block, tx, n - 1), block, tx, n - 1);
    }
  }

  lemma {:induction false} CreditsKeepMarks(db: Store, p: Counted, block: Block, pays: seq<Pay>)
    ensures PutCredits(db, p, block, pays).store.marks == p.store.marks
  {
    if pays != [] { CreditsKeepMarks(db, p, block, pays[..|pays| - 1]); }
  }

  lemma {:induction false} TxsName(db: Store, p: Counted, block: Block, t: nat, solver: Solver)
    requires BatchNames(p.store.marks.markers, block) && t <= |block.transactions|
    ensures BatchNames(PutTxs(db, p, block, t, solver).store.marks.markers, block)
  {
    hide BatchNames, PutCredits, PutSpends;
    if t > 0 {
      var tx, p0 := block.transactions[t - 1], PutTxs(db, p, block, t - 1, solver);
      var pays := AllPays(Creates(tx), solver);
      TxsName(db, p, block, t - 1, solver);
      CreditsKeepMarks(db, p0, block, pays);
      SpendsName(db, PutCredits(db, p0, block, pays), block, tx, |tx.inputs|);
    }
  }

  /** The markers that stay are of blocks that stay, and the new ones are of the new block. */
  lemma PlacedNames(markers: map<Outpoint, Spender>, room: map<Outpoint, Spender>, batch: map<Outpoint, Spender>,
      chain: seq<Block>, block: Block)
    requires MarkersName(markers, chain) && BatchNames(batch, block) && block.height <= |chain|
    requires forall o :: o in room ==> o in markers && room[o] == markers[o]
    requires block.height < |chain| ==> forall o :: o in room ==> o !in SpendsOf(chain[block.height])
    ensures MarkersName(room + batch, PlaceAt(chain, block.height, block))
  {
    hide MarkedBy, SpendsOf;
    var chain' := PlaceAt(chain, block.height, block);
    forall o | o in room + batch
      ensures exists h :: 0 <= h < |chain'| && MarkedBy(chain'[h], o, (room + batch)[o])
    {
      if o in batch {
        assert chain'[block.height] == block;
      } else {
        var h :| 0 <= h < |chain| && MarkedBy(chain[h], o, markers[o]);
        SpentIsOf(chain[h], o, markers[o]);
        assert chain'[h] == chain[h];
      }
    }
  }

  lemma SpentIsOf(b: Block, o: Outpoint, m: Spender)
    requires MarkedBy(b, o, m)
    ensures o in SpendsOf(b)
  {
    MarkedIsSpent(b, o, m);
  }

  lemma RoomMarkers(db: Store, block: Block)
    ensures var room := MakeRoom(db, block).marks.markers;
      forall o :: o in room ==> o in db.marks.markers && room[o] == db.marks.markers[o]
  {
  }

  lemma PendingMarksAll(m: Marks, batch: Marks, row: MarkRow)
    requires PendingMarks(m, batch, row)
    ensures batch.markers.Keys == AsSet(row.spends)
  {
  }

  /** Writing the batch of the block, once there is room, leaves the store laid out for the new chain. */
  lemma WriteStep(db: Store, cleared: Store, batch: Store, rows: seq<TxoRow>, markRows: seq<MarkRow>,
      known: map<Hash, seq<Outpoint>>, chain: seq<Block>, block: Block, solver: Solver, row: TxoRow, markRow: MarkRow)
    requires Consistent(db, rows, markRows, known, chain, solver) && block.height <= |chain|
    requires forall h :: 0 <= h < |chain| && h != block.height ==> chain[h].blockHash != block.blockHash
    requires block.blockHash in known ==> known[block.blockHash] == AllSpends(block.transactions)
    requires cleared == MakeRoom(db, block)
    requires PendingTxos(cleared.txos, batch.txos, row, block.height) &&
      PendingMarks(cleared.marks, batch.marks, markRow)
    requires RowsOf(row, markRow, block, solver) && batch.blockAt == map[block.height := block.blockHash]
    requires BatchNames(batch.marks.markers, block)
    ensures |rows| == |markRows| == |chain|
    ensures Consistent(
      Written(cleared, batch), PlaceAt(rows, block.height, row), PlaceAt(markRows, block.height, markRow),
      known[block.blockHash := AllSpends(block.transactions)], PlaceAt(chain, block.height, block), solver)
    ensures Written(cleared, batch).marks.markers.Keys == MarkedAfter(chain, db.marks.markers.Keys, block)
    ensures NothingOverwritten(db.txos, Written(cleared, batch).txos)
  {
    hide *;
    WriteOverwritesNothing(db, cleared, batch, block, row);
    ClearStep(db, cleared, rows, markRows, known, chain, block, solver);
    VacatedIsApart(db, rows, markRows, known, chain, block, solver, row, markRow);
    var vacated := VacatedRows(rows, block);
    WriteRow(cleared.txos, batch.txos, vacated, block.height, row);
    WriteMarks(cleared.marks, batch.marks, markRows, known, block.height, markRow);
    PendingMarksAll(cleared.marks, batch.marks, markRow);
    WrittenIsConsistent(db, cleared, batch, rows, markRows, known, chain, block, solver, row, markRow);
  }

  /** Entries and undo lists may go or come, but no key changes its value, and undo lists only grow. */
  ghost predicate NothingOverwritten(t: Txos, t': Txos) {
    && (forall k :: k in t.entries && k in t'.entries ==> t'.entries[k] == t.entries[k])
    && (forall e :: e in t.undo ==> e in t'.undo && t'.undo[e] == t.undo[e])
  }

  lemma WriteOverwritesNothing(db: Store, cleared: Store, batch: Store, block: Block, row: TxoRow)
    requires cleared == MakeRoom(db, block) && PendingTxos(cleared.txos, batch.txos, row, block.height)
    ensures NothingOverwritten(db.txos, Written(cleared, batch).txos)
  {
    forall k | k in batch.txos.entries
      ensures k !in db.txos.entries || k !in cleared.txos.entries
    {
    }
    assert forall k :: k in batch.txos.entries ==> k !in cleared.txos.entries;
  }

  lemma VacatedIsApart(db: Store, rows: seq<TxoRow>, markRows: seq<MarkRow>, known: map<Hash, seq<Outpoint>>,
      chain: seq<Block>, block: Block, solver: Solver, row: TxoRow, markRow: MarkRow)
    requires Consistent(db, rows, markRows, known, chain, solver) && block.height <= |chain|
    requires forall h :: 0 <= h < |chain| && h != block.height ==> chain[h].blockHash != block.blockHash
    requires RowsOf(row, markRow, block, solver)
    ensures |rows| == |markRows| == |chain|
    ensures row.hash == markRow.hash == block.blockHash && markRow.spends == AllSpends(block.transactions)
    ensures var vacated := VacatedRows(rows, block);
      && block.height < |vacated| && vacated[block.height].slots == []
      && (forall g :: 0 <= g < |vacated| && g != block.height ==> vacated[g].hash != row.hash)
      && vacated[block.height := row] == PlaceAt(rows, block.height, row)
  {
  }

  lemma WrittenIsConsistent(db: Store, cleared: Store, batch: Store, rows: seq<TxoRow>, markRows: seq<MarkRow>,
      known: map<Hash, seq<Outpoint>>, chain: seq<Block>, block: Block, solver: Solver, row: TxoRow, markRow: MarkRow)
    requires Consistent(db, rows, markRows, known, chain, solver) && block.height <= |chain|
    requires |rows| == |markRows| == |chain| && RowsOf(row, markRow, block, solver)
    requires cleared == MakeRoom(db, block) && batch.blockAt == map[block.height := block.blockHash]
    requires TxosLaid(cleared.txos.Write(batch.txos), PlaceAt(rows, block.height, row))
    requires MarksLaid(cleared.marks.Write(batch.marks), PlaceAt(markRows, block.height, markRow),
                       known[block.blockHash := AllSpends(block.transactions)])
    requires batch.marks.markers.Keys == AsSet(markRow.spends) && BatchNames(batch.marks.markers, block)
    requires cleared.marks.markers.Keys
      == db.marks.markers.Keys - if block.height < |chain| then SpendsOf(chain[block.height]) else {}
    ensures Consistent(
      Written(cleared, batch), PlaceAt(rows, block.height, row), PlaceAt(markRows, block.height, markRow),
      known[block.blockHash := AllSpends(block.transactions)], PlaceAt(chain, block.height, block), solver)
    ensures Written(cleared, batch).marks.markers.Keys == MarkedAfter(chain, db.marks.markers.Keys, block)
  {
    hide TxosLaid, MarksLaid, Reflects, RowsOf, SpendsOf, AllSpends, AsSet, PlaceAt, MakeRoom, Written, MarkersName,
      BatchNames;
    RoomParts(db, rows, markRows, chain, solver, block);
    WrittenParts(cleared, batch);
    RoomMarkers(db, block);
    PlacedNames(db.marks.markers, cleared.marks.markers, batch.marks.markers, chain, block);
    ReflectsPlaced(db, Written(cleared, batch), rows, markRows, chain, solver, row, markRow, block);
    RowNamesSpends(row, markRow, block, solver);
  }

  lemma WrittenParts(db: Store, batch: Store)
    ensures var t := Written(db, batch);
      && t.blockAt == db.blockAt + batch.blockAt && t.highestBlock == db.highestBlock
      && t.txos == db.txos.Write(batch.txos) && t.marks == db.marks.Write(batch.marks)
      && t.marks.markers == db.marks.markers + batch.marks.markers
      && t.marks.markers.Keys == db.marks.markers.Keys + batch.marks.markers.Keys
  {
  }

  lemma RoomParts(db: Store, rows: seq<TxoRow>, markRows: seq<MarkRow>, chain: seq<Block>, solver: Solver,
      block: Block)
    requires Reflects(db, rows, markRows, chain, solver) && block.height <= |chain|
    ensures var room := MakeRoom(db, block);
      && room.blockAt == db.blockAt
      && room.highestBlock == if block.height < |chain| then db.highestBlock else Some(block.height)
  {
    hide Reflects;
    RoomIs(db, rows, markRows, chain, solver, block);
    hide MakeRoom;
  }

  lemma RowNamesSpends(row: TxoRow, markRow: MarkRow, block: Block, solver: Solver)
    requires RowsOf(row, markRow, block, solver)
    ensures AsSet(markRow.spends) == SpendsOf(block)
  {
  }

  lemma BlockAtHeight(db: Store, rows: seq<TxoRow>, markRows: seq<MarkRow>, known: map<Hash, seq<Outpoint>>,
      chain: seq<Block>, solver: Solver)
    requires Consistent(db, rows, markRows, known, chain, solver)
    ensures |rows| == |markRows| == |chain|
    ensures forall h: nat :: h in db.blockAt <==> h < |chain|
    ensures forall h :: 0 <= h < |chain| ==> db.blockAt[h] == chain[h].blockHash
    ensures db.highestBlock == if chain == [] then None else Some(|chain| - 1)
  {
  }

  lemma CoversWritten(db: Store, batch: Store, c: Counters)
    requires Covers(db, c) && Covers(batch, c)
    ensures Covers(Written(db, batch), c)
    ensures AllCached(db, c) && AllCached(batch, c) ==> AllCached(Written(db, batch), c)
  {
    var t := Written(db, batch);
    forall prefix, i | i in InUse(t, prefix)
      ensures i in InUse(db, prefix) || i in InUse(batch, prefix)
    {
      WrittenInUse(t, db, batch, prefix, i);
    }
  }

  /** What the indexer keeps the store laid out for: the block continues the chain or replaces one of its blocks,
      its hash stands at no other height, and never came with other spends. */
  ghost predicate Placeable(chain: seq<Block>, known: map<Hash, seq<Outpoint>>, block: Block) {
    && block.height <= |chain|
    && (forall h :: 0 <= h < |chain| && h != block.height ==> chain[h].blockHash != block.blockHash)
    && (block.blockHash in known ==> known[block.blockHash] == AllSpends(block.transactions))
  }

  /** The block is new at its height, can be placed, and every number it asks for is new. */
  ghost predicate Accepts(p: Counted, chain: seq<Block>, known: map<Hash, seq<Outpoint>>, block: Block,
      solver: Solver) {
    && !IsIndexed(p.store, block) && Placeable(chain, known, block)
    && ReadsFresh(MakeRoom(p.store, block), p.counters, block, solver)
  }

  /** In a process that began with an empty database every number is new. */
  lemma CachedReadsFresh(db: Store, c: Counters, block: Block, solver: Solver)
    requires Covers(db, c) && AllCached(db, c)
    ensures ReadsFresh(MakeRoom(db, block), c, block, solver)
  {
    hide MakeRoom, InUse, NextIndex;
    var room := MakeRoom(db, block);
    CoversRoom(db, c, block);
    forall prefix
      ensures NextIsFresh(room, c, prefix)
    {
      NextIndexIsNew(room, c, prefix);
    }
  }

  lemma EmptyFills(db: Store, p: Counted, block: Block)
    requires Covers(db, p.counters)
    requires p.store == EMPTY.(blockAt := map[block.height := block.blockHash])
    ensures Filling(db, p.counters, p, block, TxoRow(block.blockHash, [], []), MarkRow(block.blockHash, [], []))
  {
    assert forall prefix :: InUse(p.store, prefix) == {};
  }

  lemma FillingGives(db: Store, c0: Counters, p: Counted, block: Block, row: TxoRow, markRow: MarkRow)
    requires Filling(db, c0, p, block, row, markRow)
    ensures row.hash == markRow.hash == block.blockHash
    ensures PendingTxos(db.txos, p.store.txos, row, block.height) && PendingMarks(db.marks, p.store.marks, markRow)
    ensures Covers(db, p.counters) && Covers(p.store, p.counters) && AllCached(p.store, p.counters)
    ensures AllCached(db, c0) ==> AllCached(db, p.counters)
  {
  }

  lemma {:induction false} BlockAtStays(db: Store, p: Counted, block: Block, t: nat, solver: Solver)
    requires t <= |block.transactions|
    ensures PutTxs(db, p, block, t, solver).store.blockAt == p.store.blockAt
  {
    if t > 0 {
      var tx := block.transactions[t - 1];
      var p0 := PutTxs(db, p, block, t - 1, solver);
      var pays := AllPays(Creates(tx), solver);
      BlockAtStays(db, p, block, t - 1, solver);
      CreditsKeepBlocks(db, p0, block, pays);
      SpendsKeepBlocks(db, PutCredits(db, p0, block, pays), block, tx, |tx.inputs|);
    }
  }

  lemma {:induction false} CreditsKeepBlocks(db: Store, p: Counted, block: Block, pays: seq<Pay>)
    ensures PutCredits(db, p, block, pays).store.blockAt == p.store.blockAt
  {
    if pays != [] { CreditsKeepBlocks(db, p, block, pays[..|pays| - 1]); }
  }

  lemma {:induction false} SpendsKeepBlocks(db: Store, p: Counted, block: Block, tx: Transaction, n: nat)
    requires n <= |tx.inputs|
    ensures PutSpends(db, p, block, tx, n).store.blockAt == p.store.blockAt
  {
    if n > 0 { SpendsKeepBlocks(db, p, block, tx, n - 1); }
  }

  /** A block that can be placed, and for which every number is new, leaves the store laid out for the new chain;
      what it does to the markers is exactly the outgoing and incoming spends, and no entry is overwritten. */
  lemma IndexedIsConsistent(p: Counted, rows: seq<TxoRow>, markRows: seq<MarkRow>, known: map<Hash, seq<Outpoint>>,
      chain: seq<Block>, block: Block, solver: Solver) returns (row: TxoRow, markRow: MarkRow)
    requires Consistent(p.store, rows, markRows, known, chain, solver) && Covers(p.store, p.counters)
    requires Accepts(p, chain, known, block, solver)
    ensures |rows| == |markRows| == |chain|
    ensures var after := Indexed(p, block, solver);
      && Consistent(after.store, PlaceAt(rows, block.height, row), PlaceAt(markRows, block.height, markRow),
                    known[block.blockHash := AllSpends(block.transactions)], PlaceAt(chain, block.height, block),
                      solver)
      && after.store.marks.markers.Keys == MarkedAfter(chain, p.store.marks.markers.Keys, block)
      && NothingOverwritten(p.store.txos, after.store.txos)
      && Covers(after.store, after.counters)
      && (AllCached(p.store, p.counters) ==> AllCached(after.store, after.counters))
  {
    hide *;
    AcceptsMeans(p, chain, known, block, solver);
    var room, batch := RoomAndBatch(p, block, solver);
    CoversRoom(p.store, p.counters, block);
    row, markRow := BatchIsClean(p, block, solver, room, batch);
    PlaceableMeans(chain, known, block);
    WriteStep(p.store, room, batch.store, rows, markRows, known, chain, block, solver, row, markRow);
    CoversWritten(room, batch.store, batch.counters);
  }

  lemma RoomAndBatch(p: Counted, block: Block, solver: Solver) returns (room: Store, batch: Counted)
    ensures room == MakeRoom(p.store, block) && batch == BatchOf(p, block, solver)
    ensures !IsIndexed(p.store, block) ==>
      Indexed(p, block, solver) == Counted(Written(room, batch.store), batch.counters)
  {
    room, batch := MakeRoom(p.store, block), BatchOf(p, block, solver);
  }

  lemma AcceptsMeans(p: Counted, chain: seq<Block>, known: map<Hash, seq<Outpoint>>, block: Block, solver: Solver)
    requires Accepts(p, chain, known, block, solver)
    ensures !IsIndexed(p.store, block) && Placeable(chain, known, block)
    ensures ReadsFresh(MakeRoom(p.store, block), p.counters, block, solver)
  {
  }

  lemma PlaceableMeans(chain: seq<Block>, known: map<Hash, seq<Outpoint>>, block: Block)
    requires Placeable(chain, known, block)
    ensures block.height <= |chain|
    ensures forall h :: 0 <= h < |chain| && h != block.height ==> chain[h].blockHash != block.blockHash
    ensures block.blockHash in known ==> known[block.blockHash] == AllSpends(block.transactions)
  {
  }

  lemma BatchIsClean(p: Counted, block: Block, solver: Solver, room: Store, batch: Counted)
    returns (row: TxoRow, markRow: MarkRow)
    requires room == MakeRoom(p.store, block) && batch == BatchOf(p, block, solver)
    requires Covers(room, p.counters) && ReadsFresh(room, p.counters, block, solver)
    ensures RowsOf(row, markRow, block, solver)
    ensures PendingTxos(room.txos, batch.store.txos, row, block.height)
    ensures PendingMarks(room.marks, batch.store.marks, markRow)
    ensures batch.store.blockAt == map[block.height := block.blockHash]
    ensures BatchNames(batch.store.marks.markers, block)
    ensures Covers(room, batch.counters) && Covers(batch.store, batch.counters) &&
      AllCached(batch.store, batch.counters)
    ensures AllCached(room, p.counters) ==> AllCached(room, batch.counters)
  {
    hide MakeRoom, ReadsFresh, Filling, RowsUpTo, RowsOf, PutTxs, Covers, AllCached, PendingTxos, PendingMarks;
    var empty := Counted(EMPTY.(blockAt := map[block.height := block.blockHash]), p.counters);
    EmptyFills(room, empty, block);
    row, markRow := TxsFill(room, p.counters, empty, block, solver, |block.transactions|);
    FillingGives(room, p.counters, batch, block, row, markRow);
    AllRows(row, markRow, block, solver);
    BlockAtStays(room, empty, block, |block.transactions|, solver);
    TxsName(room, empty, block, |block.transactions|, solver);
  }

  class BlockIndexer {
    const addressesOf: Solver
    const mempoolMonitor: MempoolMonitor
    var db: Store
    var nextTxoIndex: Counters

    /** The blocks now in the index, by height, and what the store holds for each. */
    ghost var chain: seq<Block>
    ghost var rows: seq<TxoRow>
    ghost var markRows: seq<MarkRow>

    /** What every block ever indexed spends, by block hash. */
    ghost var known: map<Hash, seq<Outpoint>>

    ghost predicate Valid()
      reads this, mempoolMonitor
    {
      && mempoolMonitor.Valid() && mempoolMonitor.addressesOf == addressesOf
      && Covers(db, nextTxoIndex)
      && Consistent(db, rows, markRows, known, chain, addressesOf)
    }

    /** A fresh process on an empty database. */
    constructor (monitor: MempoolMonitor)
      requires monitor.Valid()
      ensures Valid() && chain == [] && known == map[] && AllCached(db, nextTxoIndex)
      ensures db == EMPTY && nextTxoIndex == map[] && mempoolMonitor == monitor
    {
      mempoolMonitor, addressesOf := monitor, monitor.addressesOf;
      db, nextTxoIndex, chain, rows, markRows, known := EMPTY, map[], [], [], [], map[];
      new;
      assert forall prefix :: InUse(EMPTY, prefix) == {};
    }

    /** A fresh process on the database that an earlier one left: the counters are gone. */
    constructor Reopen(monitor: MempoolMonitor, before: BlockIndexer)
      requires monitor.Valid() && before.Valid() && monitor.addressesOf == before.addressesOf
      ensures Valid() && nextTxoIndex == map[] && mempoolMonitor == monitor
      ensures db == before.db && chain == before.chain && known == before.known
    {
      mempoolMonitor, addressesOf := monitor, monitor.addressesOf;
      db, nextTxoIndex := before.db, map[];
      chain, rows, markRows, known := before.chain, before.rows, before.markRows, before.known;
    }

    method GetNextTxoIndex(prefix: Prefix) returns (next: nat)
      modifies this`nextTxoIndex
      ensures next == NextIndex(db, old(nextTxoIndex), prefix)
      ensures nextTxoIndex == old(nextTxoIndex)[prefix := next]
    {
      if prefix !in nextTxoIndex {
        var todo := Indices(db, prefix);
        nextTxoIndex := nextTxoIndex[prefix := 1];
        while todo != {}
          invariant todo <= Indices(db, prefix)
          invariant prefix in nextTxoIndex && nextTxoIndex[prefix] + |todo| == 1 + |Indices(db, prefix)|
          invariant nextTxoIndex == old(nextTxoIndex)[prefix := nextTxoIndex[prefix]]
          decreases |todo|
        {
          var i :| i in todo;
          todo := todo - {i};
          nextTxoIndex := nextTxoIndex[prefix := nextTxoIndex[prefix] + 1];
        }
      } else {
        nextTxoIndex := nextTxoIndex[prefix := nextTxoIndex[prefix] + 1];
      }
      next := nextTxoIndex[prefix];
    }

    /** Undoes a block: deletes the entries and the markers that its undo lists name. */
    method ClearBlockTxos(blockHash: Hash)
      modifies this`db
      ensures db == ClearedStore(old(db), blockHash)
    {
      var places: set<Place> := {};
      var todo := Indices(db, BlockTxo(blockHash));
      while todo != {}
        invariant todo <= Indices(db, BlockTxo(blockHash))
        invariant places == set e | e in db.txos.undo.Keys && e.hash == blockHash && e.index !in todo :: db.txos.undo[e]
        decreases |todo|
      {
        var i :| i in todo;
        todo := todo - {i};
        assert UndoKey(blockHash, i) in db.txos.undo;
        places := places + {db.txos.undo[UndoKey(blockHash, i)]};
      }
      assert places == db.txos.Named(blockHash);
      var outpoints: set<Outpoint> := {};
      todo := Indices(db, BlockSpent(blockHash));
      while todo != {}
        invariant todo <= Indices(db, BlockSpent(blockHash))
        invariant outpoints == set e | e in db.marks.undo.Keys && e.hash == blockHash && e.index !in todo ::
          db.marks.undo[e]
        decreases |todo|
      {
        var i :| i in todo;
        todo := todo - {i};
        assert UndoKey(blockHash, i) in db.marks.undo;
        outpoints := outpoints + {db.marks.undo[UndoKey(blockHash, i)]};
      }
      assert outpoints == db.marks.Named(blockHash);
      db := db.(txos := db.txos.(entries := db.txos.entries - places),
                marks := db.marks.(markers := db.marks.markers - outpoints));
    }

    method HasIndexedBlock(blockHash: Hash, blockHeight: nat) returns (found: bool)
      ensures found <==> blockHeight in db.blockAt && db.blockAt[blockHeight] == blockHash
      ensures Valid() ==> (found <==> blockHeight < |chain| && chain[blockHeight].blockHash == blockHash)
    {
      found := blockHeight in db.blockAt && db.blockAt[blockHeight] == blockHash;
    }

    /** The loop over the addresses of one output. */
    method PutOutput(batch0: Store, block: Block, tx: Transaction, out: TransactionOutput) returns (batch: Store)
      modifies this`nextTxoIndex
      ensures Counted(batch, nextTxoIndex) == PutCredits(
        db, Counted(batch0, old(nextTxoIndex)), block,
        PaysTo(Txo(Outpoint(tx.txHash, out.index), out.value, out.script), addressesOf(out.script)))
    {
      hide NextIndex, PaysTo;
      batch := batch0;
      var addresses := addressesOf(out.script);
      ghost var p0, u := Counted(batch0, nextTxoIndex), Txo(Outpoint(tx.txHash, out.index), out.value, out.script);
      NoPays(u, addresses);
      for i := 0 to |addresses|
        invariant Counted(batch, nextTxoIndex) == PutCredits(db, p0, block, PaysTo(u, addresses[..i]))
      {
        var n := GetNextTxoIndex(AddressTxo(addresses[i]));
        var m := GetNextTxoIndex(BlockTxo(block.blockHash));
        var key := Place(addresses[i], n);
        batch := batch.(txos := Txos(
          batch.txos.entries[key := TxoRecord(Outpoint(tx.txHash, out.index), block.height, out.value)],
          batch.txos.undo[UndoKey(block.blockHash, m) := key]));
        PaysNext(u, addresses, i);
      }
      assert addresses[..|addresses|] == addresses;
    }

    /** The loop over the outputs of one transaction. */
    method PutOutputs(batch0: Store, block: Block, tx: Transaction) returns (batch: Store)
      modifies this`nextTxoIndex
      ensures Counted(batch, nextTxoIndex) ==
        PutCredits(db, Counted(batch0, old(nextTxoIndex)), block, AllPays(Creates(tx), addressesOf))
    {
      hide PutCredits, PaysTo;
      batch := batch0;
      ghost var p0, created := Counted(batch0, nextTxoIndex), Creates(tx);
      NoCredits(db, p0, block);
      for i := 0 to |tx.outputs|
        invariant Counted(batch, nextTxoIndex) == PutCredits(db, p0, block, AllPays(created[..i], addressesOf))
      {
        batch := PutOutput(batch, block, tx, tx.outputs[i]);
        assert created[..i + 1][..i] == created[..i];
        PutCreditsConcat(db, p0, block, AllPays(created[..i], addressesOf),
          PaysTo(created[i], addressesOf(created[i].script)));
      }
      assert created[..|created|] == created;
    }

    /** The loop over the inputs of one transaction. */
    method PutInputs(batch0: Store, block: Block, tx: Transaction) returns (batch: Store)
      modifies this`nextTxoIndex
      ensures Counted(batch, nextTxoIndex) == PutSpends(db, Counted(batch0, old(nextTxoIndex)), block, tx, |tx.inputs|)
    {
      hide NextIndex;
      batch := batch0;
      ghost var p0 := Counted(batch0, nextTxoIndex);
      for i := 0 to |tx.inputs|
        invariant Counted(batch, nextTxoIndex) == PutSpends(db, p0, block, tx, i)
      {
        var txi := tx.inputs[i];
        if !txi.coinbase {
          var o, spender := Outpoint(txi.txHash, txi.txoIndex), Spender(block.blockHash, tx.txHash, txi.index);
          var n := GetNextTxoIndex(BlockSpent(block.blockHash));
          batch := batch.(marks := Marks(
            batch.marks.markers[o := spender],
            batch.marks.undo[UndoKey(block.blockHash, n) := o]));
        }
      }
    }

    /** The loop over the transactions: fills the batch of a block, and tells the mempool. */
    method PutTransactions(batch0: Store, block: Block) returns (batch: Store)
      modifies this`nextTxoIndex, mempoolMonitor
      ensures Counted(batch, nextTxoIndex) ==
        PutTxs(db, Counted(batch0, old(nextTxoIndex)), block, |block.transactions|, addressesOf)
      ensures old(mempoolMonitor.Valid()) ==>
        mempoolMonitor.Valid() && mempoolMonitor.held ==
          WithoutTransactions(old(mempoolMonitor.held), block.transactions)
    {
      hide MempoolMonitor.Valid, PutCredits, PutSpends, AllPays, Creates, PutTxs, WithoutTransactions;
      NoTxs(db, Counted(batch0, nextTxoIndex), block, addressesOf, mempoolMonitor.held);
      batch := batch0;
      ghost var p0 := Counted(batch0, nextTxoIndex);
      for t := 0 to |block.transactions|
        invariant old(mempoolMonitor.Valid()) ==>
          mempoolMonitor.Valid() && mempoolMonitor.held ==
            WithoutTransactions(old(mempoolMonitor.held), block.transactions[..t])
        invariant Counted(batch, nextTxoIndex) == PutTxs(db, p0, block, t, addressesOf)
      {
        var tx := block.transactions[t];
        batch := PutOutputs(batch, block, tx);
        batch := PutInputs(batch, block, tx);
        mempoolMonitor.TransactionIndexed(tx.txHash);
        PutTxsNext(db, p0, block, t, addressesOf);
        WithoutNext(old(mempoolMonitor.held), block.transactions, t);
      }
      assert block.transactions[..|block.transactions|] == block.transactions;
    }

    /** Adds a block at its height, in place of a different block that stands there. */
    method IndexBlock(block: Block) returns (ok: bool)
      modifies this, mempoolMonitor
      ensures ok
      ensures Counted(db, nextTxoIndex) == Indexed(old(Counted(db, nextTxoIndex)), block, addressesOf)
      ensures old(mempoolMonitor.Valid()) ==>
        mempoolMonitor.Valid() && mempoolMonitor.held == HeldAfter(old(db), old(mempoolMonitor.held), block)
      ensures IsIndexed(old(db), block) ==>
        (old(Valid()) ==> Valid()) && chain == old(chain) && known == old(known)
      ensures old(Valid()) && Accepts(old(Counted(db, nextTxoIndex)), old(chain), old(known), block, addressesOf) ==>
        && Valid() && chain == PlaceAt(old(chain), block.height, block) && MarkersName(db.marks.markers, chain)
        && db.marks.markers.Keys == MarkedAfter(old(chain), old(db).marks.markers.Keys, block)
        && NothingOverwritten(old(db).txos, db.txos)
        && known == old(known)[block.blockHash := AllSpends(block.transactions)]
        && (AllCached(old(db), old(nextTxoIndex)) ==> AllCached(db, nextTxoIndex))
    {
      hide *;
      ghost var p0 := Counted(db, nextTxoIndex);
      ghost var clean := Valid() && Accepts(p0, chain, known, block, addressesOf);
      ghost var row, markRow := TxoRow("", [], []), MarkRow("", [], []);
      if clean {
        Unfold();
        row, markRow := IndexedIsConsistent(p0, rows, markRows, known, chain, block, addressesOf);
        AcceptsMeans(p0, chain, known, block, addressesOf);
        PlaceableMeans(chain, known, block);
      }
      IndexedIs(p0, block, addressesOf);
      HeldIs(db, mempoolMonitor.held, block);
      if block.height in db.blockAt && db.blockAt[block.height] == block.blockHash {
        return true;
      } else if block.height in db.blockAt {
        ClearBlockTxos(db.blockAt[block.height]);
      }
      if db.highestBlock == None || db.highestBlock.value < block.height {
        db := db.(highestBlock := Some(block.height));
      }
      RoomMade(p0.store, db, block);
      var batch := EMPTY.(blockAt := map[block.height := block.blockHash]);
      batch := PutTransactions(batch, block);
      db := Written(db, batch);
      if clean {
        rows, markRows := PlaceAt(rows, block.height, row), PlaceAt(markRows, block.height, markRow);
        chain := PlaceAt(chain, block.height, block);
        known := known[block.blockHash := AllSpends(block.transactions)];
        Fold();
        MarkersAreNamed();
      }
      return true;
    }

    lemma Unfold()
      requires Valid()
      ensures mempoolMonitor.Valid() && mempoolMonitor.addressesOf == addressesOf
      ensures Covers(db, nextTxoIndex) && Consistent(db, rows, markRows, known, chain, addressesOf)
    {
    }

    lemma MarkersAreNamed()
      requires Valid()
      ensures MarkersName(db.marks.markers, chain)
    {
    }

    lemma Fold()
      requires mempoolMonitor.Valid() && mempoolMonitor.addressesOf == addressesOf
      requires Covers(db, nextTxoIndex) && Consistent(db, rows, markRows, known, chain, addressesOf)
      ensures Valid()
    {
    }
  }

  lemma IndexedIs(p: Counted, block: Block, solver: Solver)
    ensures IsIndexed(p.store, block) <==>
      block.height in p.store.blockAt && p.store.blockAt[block.height] == block.blockHash
    ensures IsIndexed(p.store, block) ==> Indexed(p, block, solver) == p
    ensures !IsIndexed(p.store, block) ==>
      var room, batch := MakeRoom(p.store, block), EMPTY.(blockAt := map[block.height := block.blockHash]);
      var filled := PutTxs(room, Counted(batch, p.counters), block, |block.transactions|, solver);
      Indexed(p, block, solver) == Counted(Written(room, filled.store), filled.counters)
  {
  }

  lemma HeldIs(db: Store, held: seq<Transaction>, block: Block)
    ensures HeldAfter(db, held, block) ==
      if IsIndexed(db, block) then held else WithoutTransactions(held, block.transactions)
  {
  }

  lemma RoomMade(db: Store, db': Store, block: Block)
    requires var cleared := if block.height in db.blockAt then ClearedStore(db, db.blockAt[block.height]) else db;
      db' == if cleared.highestBlock == None || cleared.highestBlock.value < block.height
        then cleared.(highestBlock := Some(block.height)) else cleared
    ensures db' == MakeRoom(db, block)
  {
  }

  lemma NoTxs(db: Store, p: Counted, block: Block, solver: Solver, held: seq<Transaction>)
    ensures PutTxs(db, p, block, 0, solver) == p && WithoutTransactions(held, block.transactions[..0]) == held
  {
  }

  lemma PutTxsNext(db: Store, p: Counted, block: Block, t: nat, solver: Solver)
    requires t < |block.transactions|
    ensures var tx := block.transactions[t];
      var credited := PutCredits(db, PutTxs(db, p, block, t, solver), block, AllPays(Creates(tx), solver));
      PutTxs(db, p, block, t + 1, solver) == PutSpends(db, credited, block, tx, |tx.inputs|)
  {
  }

  lemma NoPays(u: Txo, addresses: seq<Address>)
    ensures PaysTo(u, addresses[..0]) == []
  {
  }

  lemma PaysNext(u: Txo, addresses: seq<Address>, i: nat)
    requires i < |addresses|
    ensures PaysTo(u, addresses[..i + 1]) == PaysTo(u, addresses[..i]) + [Pay(addresses[i], u)]
  {
  }

  lemma NoCredits(db: Store, p: Counted, block: Block)
    ensures PutCredits(db, p, block, []) == p
  {
  }
}
