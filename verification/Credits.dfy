/** What the entries of the index say: the outputs of the blocks of the chain that pay an address. */
module Credits {
  import opened BlockchainTypes
  import opened Ledger
  import opened IndexStore
  import opened BlockIndexer

  /** The output at position i of the transaction pays the address, and the record names it and its value. */
  ghost predicate OutputPays(tx: Transaction, i: nat, solver: Solver, a: Address, u: Txo) {
    && i < |tx.outputs| && a in solver(tx.outputs[i].script)
    && u.point.txHash == tx.txHash && u.point.index == tx.outputs[i].index
    && u.value == tx.outputs[i].value && u.script == tx.outputs[i].script
  }

  ghost predicate SomePays(txs: seq<Transaction>, solver: Solver, a: Address, u: Txo) {
    exists tx, i :: tx in txs && OutputPays(tx, i, solver, a, u)
  }

  lemma {:induction false} PaysIff(us: seq<Txo>, solver: Solver, pay: Pay)
    ensures pay in AllPays(us, solver) <==> pay.txo in us && pay.address in solver(pay.txo.script)
  {
    if us != [] {
      var n := |us| - 1;
      PaysIff(us[..n], solver, pay);
      PaysOfOne(us[n], solver(us[n].script), pay);
      assert us == us[..n] + [us[n]];
    }
  }

  lemma PaysOfOne(u: Txo, addresses: seq<Address>, pay: Pay)
    ensures pay in PaysTo(u, addresses) <==> pay.txo == u && pay.address in addresses
  {
    if pay.txo == u && pay.address in addresses {
      var j :| 0 <= j < |addresses| && addresses[j] == pay.address;
      assert PaysTo(u, addresses)[j] == pay;
    }
  }

  lemma CreatesIff(tx: Transaction, solver: Solver, a: Address, u: Txo)
    ensures u in Creates(tx) && a in solver(u.script) <==> exists i :: OutputPays(tx, i, solver, a, u)
  {
    if i: nat :| OutputPays(tx, i, solver, a, u) { assert Creates(tx)[i] == u; }
    if u in Creates(tx) && a in solver(u.script) {
      var i :| 0 <= i < |tx.outputs| && Creates(tx)[i] == u;
      assert OutputPays(tx, i, solver, a, u);
    }
  }

  lemma {:induction false} CreatedIff(txs: seq<Transaction>, solver: Solver, a: Address, u: Txo)
    ensures u in AllCreates(txs) && a in solver(u.script) <==> SomePays(txs, solver, a, u)
  {
    hide Creates, OutputPays;
    if txs != [] {
      var n := |txs| - 1;
      CreatedIff(txs[..n], solver, a, u);
      CreatesIff(txs[n], solver, a, u);
      assert txs == txs[..n] + [txs[n]];
    }
  }

  /** The record stands at some place of the address. */
  ghost predicate HasRecord(db: Store, a: Address, r: TxoRecord) {
    exists k :: k in db.txos.entries && k.address == a && db.txos.entries[k] == r
  }

  /** The record is that of an output of the chain's block at its height that pays the address. */
  ghost predicate PaidAt(chain: seq<Block>, solver: Solver, a: Address, r: TxoRecord) {
    r.height < |chain| &&
    exists u :: SomePays(chain[r.height].transactions, solver, a, u) && u.point == r.point && u.value == r.value
  }

  lemma RowsAt(db: Store, rows: seq<TxoRow>, markRows: seq<MarkRow>, known: map<Hash, seq<Outpoint>>,
      chain: seq<Block>, solver: Solver, h: nat)
    requires Consistent(db, rows, markRows, known, chain, solver)
    ensures |rows| == |chain|
    ensures h < |chain| ==>
      RowStored(db.txos, rows[h], h) && rows[h].pays == AllPays(AllCreates(chain[h].transactions), solver)
  {
  }

  lemma EntryHasRow(db: Store, rows: seq<TxoRow>, k: Place) returns (h: nat, p: nat)
    requires TxosLaid(db.txos, rows) && k in db.txos.entries
    ensures h < |rows| && RowStored(db.txos, rows[h], h) && p < |rows[h].slots| && rows[h].slots[p].key == k
  {
    assert Owned(rows, k);
    h :| 0 <= h < |rows| && HasKey(rows[h], k);
    p :| 0 <= p < |rows[h].slots| && rows[h].slots[p].key == k;
    assert RowStored(db.txos, rows[h], h);
  }

  /** The entries of an address are exactly the outputs of the chain that pay it, each with its outpoint, its block's
      height and its value. */
  lemma EntryIff(db: Store, rows: seq<TxoRow>, markRows: seq<MarkRow>, known: map<Hash, seq<Outpoint>>,
      chain: seq<Block>, solver: Solver, a: Address, r: TxoRecord)
    requires Consistent(db, rows, markRows, known, chain, solver)
    ensures HasRecord(db, a, r) <==> PaidAt(chain, solver, a, r)
  {
    hide Consistent, HasRecord, PaidAt;
    if HasRecord(db, a, r) { ListedIsPaid(db, rows, markRows, known, chain, solver, a, r); }
    if PaidAt(chain, solver, a, r) { PaidIsListed(db, rows, markRows, known, chain, solver, a, r); }
  }

  lemma ListedIsPaid(db: Store, rows: seq<TxoRow>, markRows: seq<MarkRow>, known: map<Hash, seq<Outpoint>>,
      chain: seq<Block>, solver: Solver, a: Address, r: TxoRecord)
    requires Consistent(db, rows, markRows, known, chain, solver) && HasRecord(db, a, r)
    ensures PaidAt(chain, solver, a, r)
  {
    var k :| k in db.txos.entries && k.address == a && db.txos.entries[k] == r;
    var h, p := EntryHasRow(db, rows, k);
    hide Consistent, SomePays, AllPays, AllCreates, HasRecord;
    RowsAt(db, rows, markRows, known, chain, solver, h);
    assert SlotStored(db.txos, rows[h].hash, rows[h].pays[p], rows[h].slots[p], h);
    var pay := rows[h].pays[p];
    PaysIff(AllCreates(chain[h].transactions), solver, pay);
    CreatedIff(chain[h].transactions, solver, a, pay.txo);
  }

  lemma PaidIsListed(db: Store, rows: seq<TxoRow>, markRows: seq<MarkRow>, known: map<Hash, seq<Outpoint>>,
      chain: seq<Block>, solver: Solver, a: Address, r: TxoRecord)
    requires Consistent(db, rows, markRows, known, chain, solver) && PaidAt(chain, solver, a, r)
    ensures HasRecord(db, a, r)
  {
    hide Consistent, SomePays, AllPays, AllCreates;
    var h := r.height;
    var u :| SomePays(chain[h].transactions, solver, a, u) && u.point == r.point && u.value == r.value;
    RowsAt(db, rows, markRows, known, chain, solver, h);
    CreatedIff(chain[h].transactions, solver, a, u);
    PaysIff(AllCreates(chain[h].transactions), solver, Pay(a, u));
    var p :| 0 <= p < |rows[h].pays| && rows[h].pays[p] == Pay(a, u);
    assert SlotStored(db.txos, rows[h].hash, rows[h].pays[p], rows[h].slots[p], h);
  }
}
