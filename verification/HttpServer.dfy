/** The query side of the index: the loops of addressBalance, and what the two balances mean. */
module HttpServer {
  import opened BlockchainTypes
  import opened Ledger
  import opened IndexStore
  import opened Spenders
  import opened Numbering
  import opened BlockIndexer
  import opened MempoolMonitor
  import opened Reorg

  /** What an index entry adds to a balance when the outpoints in spent are gone. */
  function EntryValue(r: TxoRecord, spent: set<Outpoint>): int {
    if r.point in spent then 0 else r.value
  }

  /** The value of the first n credits of a row that lie on the address's places numbered in s. */
  function RowTotal(row: TxoRow, n: nat, a: Address, s: set<nat>, spent: set<Outpoint>): int
    requires n <= |row.slots| && n <= |row.pays|
  {
    if n == 0 then 0
    else
      var key, u := row.slots[n - 1].key, row.pays[n - 1].txo;
      RowTotal(row, n - 1, a, s, spent) +
      if key.address == a && key.index in s && u.point !in spent then u.value else 0
  }

  ghost predicate Parallel(rows: seq<TxoRow>) {
    forall h :: 0 <= h < |rows| ==> |rows[h].slots| == |rows[h].pays|
  }

  function Total(rows: seq<TxoRow>, n: nat, a: Address, s: set<nat>, spent: set<Outpoint>): int
    requires Parallel(rows) && n <= |rows|
  {
    if n == 0 then 0 else Total(rows, n - 1, a, s, spent) + RowTotal(rows[n - 1], |rows[n - 1].slots|, a, s, spent)
  }

  lemma {:induction false} RowTotalMisses(row: TxoRow, n: nat, a: Address, s: set<nat>, spent: set<Outpoint>, k: nat)
    requires n <= |row.slots| && n <= |row.pays|
    requires forall p :: 0 <= p < n ==> row.slots[p].key != Place(a, k)
    ensures RowTotal(row, n, a, s, spent) == RowTotal(row, n, a, s - {k}, spent)
  {
    if n > 0 { RowTotalMisses(row, n - 1, a, s, spent, k); }
  }

  lemma {:induction false} RowTotalHits(t: Txos, row: TxoRow, h: nat, n: nat, p: nat, a: Address, s: set<nat>,
      spent: set<Outpoint>, k: nat)
    requires RowStored(t, row, h) && p < n <= |row.slots| && k in s && row.slots[p].key == Place(a, k)
    ensures Place(a, k) in t.entries
    ensures RowTotal(row, n, a, s, spent) ==
      RowTotal(row, n, a, s - {k}, spent) + EntryValue(t.entries[Place(a, k)], spent)
  {
    assert SlotStored(t, row.hash, row.pays[p], row.slots[p], h);
    if p == n - 1 {
      RowTotalMisses(row, n - 1, a, s, spent, k);
    } else {
      RowTotalHits(t, row, h, n - 1, p, a, s, spent, k);
    }
  }

  lemma {:induction false} TotalMisses(rows: seq<TxoRow>, n: nat, a: Address, s: set<nat>, spent: set<Outpoint>, k: nat)
    requires Parallel(rows) && n <= |rows|
    requires forall h :: 0 <= h < n ==> !HasKey(rows[h], Place(a, k))
    ensures Total(rows, n, a, s, spent) == Total(rows, n, a, s - {k}, spent)
  {
    if n > 0 {
      TotalMisses(rows, n - 1, a, s, spent, k);
      assert !HasKey(rows[n - 1], Place(a, k));
      RowTotalMisses(rows[n - 1], |rows[n - 1].slots|, a, s, spent, k);
    }
  }

  lemma {:induction false} TotalHits(t: Txos, rows: seq<TxoRow>, n: nat, g: nat, a: Address, s: set<nat>,
      spent: set<Outpoint>, k: nat)
    requires Stored(t, rows) && Apart(rows) && Parallel(rows) && g < n <= |rows| && k in s &&
      HasKey(rows[g], Place(a, k))
    ensures Place(a, k) in t.entries
    ensures Total(rows, n, a, s, spent) == Total(rows, n, a, s - {k}, spent) + EntryValue(t.entries[Place(a, k)], spent)
  {
    assert RowStored(t, rows[g], g);
    if g == n - 1 {
      TotalMisses(rows, n - 1, a, s, spent, k);
      var p :| 0 <= p < |rows[g].slots| && rows[g].slots[p].key == Place(a, k);
      RowTotalHits(t, rows[g], g, |rows[g].slots|, p, a, s, spent, k);
    } else {
      TotalHits(t, rows, n - 1, g, a, s, spent, k);
      assert !HasKey(rows[n - 1], Place(a, k));
      RowTotalMisses(rows[n - 1], |rows[n - 1].slots|, a, s, spent, k);
    }
  }

  /** Every entry of the address is one credit of one block: visiting it takes its value off the total. */
  lemma TotalVisit(t: Txos, rows: seq<TxoRow>, a: Address, s: set<nat>, spent: set<Outpoint>, k: nat)
    requires TxosLaid(t, rows) && Parallel(rows) && k in s && Place(a, k) in t.entries
    ensures Total(rows, |rows|, a, s, spent) ==
      Total(rows, |rows|, a, s - {k}, spent) + EntryValue(t.entries[Place(a, k)], spent)
  {
    assert Owned(rows, Place(a, k));
    var g :| 0 <= g < |rows| && HasKey(rows[g], Place(a, k));
    TotalHits(t, rows, |rows|, g, a, s, spent, k);
  }

  lemma {:induction false} TotalNone(rows: seq<TxoRow>, n: nat, a: Address, spent: set<Outpoint>)
    requires Parallel(rows) && n <= |rows|
    ensures Total(rows, n, a, {}, spent) == 0
  {
    if n > 0 {
      TotalNone(rows, n - 1, a, spent);
      RowTotalNone(rows[n - 1], |rows[n - 1].slots|, a, spent);
    }
  }

  lemma {:induction false} RowTotalNone(row: TxoRow, n: nat, a: Address, spent: set<Outpoint>)
    requires n <= |row.slots| && n <= |row.pays|
    ensures RowTotal(row, n, a, {}, spent) == 0
  {
    if n > 0 { RowTotalNone(row, n - 1, a, spent); }
  }

  lemma StoredIsParallel(t: Txos, rows: seq<TxoRow>)
    requires TxosLaid(t, rows)
    ensures Parallel(rows)
  {
    forall h | 0 <= h < |rows|
      ensures |rows[h].slots| == |rows[h].pays|
    {
      assert RowStored(t, rows[h], h);
    }
  }

  /** The value that a list of credits gives an address. */
  function PayTotal(pays: seq<Pay>, a: Address, spent: set<Outpoint>): int {
    if pays == [] then 0
    else
      var pay := pays[|pays| - 1];
      PayTotal(pays[..|pays| - 1], a, spent) +
      if pay.address == a && pay.txo.point !in spent then pay.txo.value else 0
  }

  lemma {:induction false} PayTotalConcat(ps: seq<Pay>, qs: seq<Pay>, a: Address, spent: set<Outpoint>)
    ensures PayTotal(ps + qs, a, spent) == PayTotal(ps, a, spent) + PayTotal(qs, a, spent)
  {
    if qs == [] {
      assert ps + qs == ps;
    } else {
      assert (ps + qs)[..|ps + qs| - 1] == ps + qs[..|qs| - 1];
      PayTotalConcat(ps, qs[..|qs| - 1], a, spent);
    }
  }

  lemma OneMore(addresses: seq<Address>, a: Address)
    requires addresses != []
    ensures var n := |addresses| - 1;
      multiset(addresses)[a] == multiset(addresses[..n])[a] + if addresses[n] == a then 1 else 0
  {
    assert addresses == addresses[..|addresses| - 1] + [addresses[|addresses| - 1]];
  }

  lemma Distribute(x: int, m: int)
    ensures x * (m + 1) == x * m + x
  {
  }

  lemma {:induction false} PaysToTotal(u: Txo, addresses: seq<Address>, a: Address, spent: set<Outpoint>)
    ensures PayTotal(PaysTo(u, addresses), a, spent) == if u.point in spent then 0 else u.value * multiset(addresses)[a]
  {
    if addresses != [] {
      var n := |addresses| - 1;
      PaysToTotal(u, addresses[..n], a, spent);
      assert PaysTo(u, addresses)[..n] == PaysTo(u, addresses[..n]);
      OneMore(addresses, a);
      Distribute(u.value, multiset(addresses[..n])[a]);
    }
  }

  lemma {:induction false} AllPaysTotal(us: seq<Txo>, solver: Solver, a: Address, spent: set<Outpoint>)
    ensures PayTotal(AllPays(us, solver), a, spent) == Worth(us, solver, a, spent)
  {
    if us != [] {
      var before, u := us[..|us| - 1], us[|us| - 1];
      AllPaysTotal(before, solver, a, spent);
      PayTotalConcat(AllPays(before, solver), PaysTo(u, solver(u.script)), a, spent);
      PaysToTotal(u, solver(u.script), a, spent);
    }
  }

  lemma {:induction false} RowTotalIsPayTotal(t: Txos, row: TxoRow, h: nat, n: nat, a: Address, spent: set<Outpoint>,
      s: set<nat>)
    requires RowStored(t, row, h) && n <= |row.slots|
    requires forall k :: Place(a, k) in t.entries ==> k in s
    ensures RowTotal(row, n, a, s, spent) == PayTotal(row.pays[..n], a, spent)
  {
    if n > 0 {
      RowTotalIsPayTotal(t, row, h, n - 1, a, spent, s);
      assert SlotStored(t, row.hash, row.pays[n - 1], row.slots[n - 1], h);
      assert row.pays[..n][..n - 1] == row.pays[..n - 1];
      var key := row.slots[n - 1].key;
      assert key.address == a ==> key == Place(a, key.index);
    }
  }

  lemma RowIsWorth(t: Txos, row: TxoRow, markRow: MarkRow, h: nat, block: Block, solver: Solver, a: Address,
      s: set<nat>, spent: set<Outpoint>)
    requires RowStored(t, row, h) && RowsOf(row, markRow, block, solver)
    requires forall k :: Place(a, k) in t.entries ==> k in s
    ensures RowTotal(row, |row.slots|, a, s, spent) == Worth(AllCreates(block.transactions), solver, a, spent)
  {
    hide RowTotal, Worth, AllPays;
    RowTotalIsPayTotal(t, row, h, |row.slots|, a, spent, s);
    assert row.pays[..|row.slots|] == row.pays;
    AllPaysTotal(AllCreates(block.transactions), solver, a, spent);
  }

  /** Over all its entries the total of an address is its part of everything the chain created. */
  lemma {:induction false} TotalIsWorth(t: Txos, rows: seq<TxoRow>, markRows: seq<MarkRow>, chain: seq<Block>,
      solver: Solver, n: nat, a: Address, s: set<nat>, spent: set<Outpoint>)
    requires Stored(t, rows) && Parallel(rows) && |rows| == |markRows| == |chain| && n <= |rows|
    requires forall h :: 0 <= h < |chain| ==> RowsOf(rows[h], markRows[h], chain[h], solver)
    requires forall k :: Place(a, k) in t.entries ==> k in s
    ensures Total(rows, n, a, s, spent) == Worth(AllCreates(Transactions(chain[..n])), solver, a, spent)
  {
    hide RowsOf, RowStored, RowTotal, Worth;
    if n == 0 {
      EmptyChainIsWorthNothing(chain, solver, a, spent);
    } else {
      TotalIsWorth(t, rows, markRows, chain, solver, n - 1, a, s, spent);
      RowIsWorth(t, rows[n - 1], markRows[n - 1], n - 1, chain[n - 1], solver, a, s, spent);
      TransactionsStep(chain, n);
      AllCreatesConcat(Transactions(chain[..n - 1]), chain[n - 1].transactions);
      WorthConcat(AllCreates(Transactions(chain[..n - 1])), AllCreates(chain[n - 1].transactions), solver, a, spent);
    }
  }

  lemma EmptyChainIsWorthNothing(chain: seq<Block>, solver: Solver, a: Address, spent: set<Outpoint>)
    ensures Worth(AllCreates(Transactions(chain[..0])), solver, a, spent) == 0
  {
  }

  lemma TransactionsStep(chain: seq<Block>, n: nat)
    requires 0 < n <= |chain|
    ensures Transactions(chain[..n]) == Transactions(chain[..n - 1]) + chain[n - 1].transactions
  {
    assert chain[..n][..n - 1] == chain[..n - 1];
  }

  lemma {:induction false} AllCreatesConcat(a: seq<Transaction>, b: seq<Transaction>)
    ensures AllCreates(a + b) == AllCreates(a) + AllCreates(b)
  {
    if b == [] {
      assert a + b == a;
    } else {
      assert (a + b)[..|a + b| - 1] == a + b[..|b| - 1];
      AllCreatesConcat(a, b[..|b| - 1]);
    }
  }

  // ---------- The mempool overlay ----------

  /** Every outpoint that an input of the transactions names, a coinbase input's included. */
  function InputsOf(tx: Transaction): set<Outpoint> {
    set i | 0 <= i < |tx.inputs| :: Outpoint(tx.inputs[i].txHash, tx.inputs[i].txoIndex)
  }

  function AllInputs(txs: seq<Transaction>): set<Outpoint> {
    set i, o | 0 <= i < |txs| && o in InputsOf(txs[i]) :: o
  }

  lemma SpentInIsInput(txs: seq<Transaction>, o: Outpoint)
    ensures SpentIn(txs, o) <==> o in AllInputs(txs)
  {
    forall i | 0 <= i < |txs|
      ensures SpentBy(txs[i], o) <==> o in InputsOf(txs[i])
    {
    }
  }

  /** The value of a list of outputs, each as often as it is listed. */
  function ListTotal(us: seq<Txo>, spent: set<Outpoint>): int {
    if us == [] then 0
    else ListTotal(us[..|us| - 1], spent) + if us[|us| - 1].point in spent then 0 else us[|us| - 1].value
  }

  lemma {:induction false} ListTotalConcat(us: seq<Txo>, vs: seq<Txo>, spent: set<Outpoint>)
    ensures ListTotal(us + vs, spent) == ListTotal(us, spent) + ListTotal(vs, spent)
  {
    if vs == [] {
      assert us + vs == us;
    } else {
      assert (us + vs)[..|us + vs| - 1] == us + vs[..|vs| - 1];
      ListTotalConcat(us, vs[..|vs| - 1], spent);
    }
  }

  lemma {:induction false} CopiesTotal(u: Txo, addresses: seq<Address>, a: Address, spent: set<Outpoint>)
    ensures ListTotal(Copies(u, addresses, a), spent) ==
      if u.point in spent then 0 else u.value * multiset(addresses)[a]
  {
    if addresses != [] {
      var n := |addresses| - 1;
      CopiesTotal(u, addresses[..n], a, spent);
      OneMore(addresses, a);
      Distribute(u.value, multiset(addresses[..n])[a]);
      if addresses[n] == a {
        ListTotalConcat(Copies(u, addresses[..n], a), [u], spent);
        assert [u][..0] == [];
      } else {
        assert Copies(u, addresses, a) == Copies(u, addresses[..n], a);
      }
    }
  }

  lemma {:induction false} PaidToTotal(us: seq<Txo>, solver: Solver, a: Address, spent: set<Outpoint>)
    ensures ListTotal(PaidTo(us, solver, a), spent) == Worth(us, solver, a, spent)
  {
    if us != [] {
      var before, u := us[..|us| - 1], us[|us| - 1];
      PaidToTotal(before, solver, a, spent);
      ListTotalConcat(PaidTo(before, solver, a), Copies(u, solver(u.script), a), spent);
      CopiesTotal(u, solver(u.script), a, spent);
    }
  }

  /** The confirmed balance counts what the blocks of the chain created and no marker spends; the
      unconfirmed one leaves aside what the mempool spends, and adds what it creates. */
  method AddressBalance(index: BlockIndexer, address: Address) returns (balance: int, unconfirmedBalance: int)
    requires index.Valid()
    ensures var created, marked := AllCreates(Transactions(index.chain)), index.db.marks.markers.Keys;
      var held := index.mempoolMonitor.held;
      && balance == Worth(created, index.addressesOf, address, marked)
      && unconfirmedBalance == Worth(created, index.addressesOf, address, marked + AllInputs(held))
                               + Worth(AllCreates(held), index.addressesOf, address, AllInputs(held))
  {
    hide AllCreates, AllInputs, SpentIn, Worth, PaidTo, Consistent;
    var indexed := EntriesOf(index, address);
    balance, unconfirmedBalance := indexed.0, indexed.1;
    var mempoolOutputs := index.mempoolMonitor.GetTxos(address);
    ghost var held := index.mempoolMonitor.held;
    for i := 0 to |mempoolOutputs|
      invariant unconfirmedBalance == indexed.1 + ListTotal(mempoolOutputs[..i], AllInputs(held))
    {
      var txo := mempoolOutputs[i];
      assert mempoolOutputs[..i + 1][..i] == mempoolOutputs[..i];
      var spender := index.mempoolMonitor.OutpointSpend(txo.point.txHash, txo.point.index);
      SpentInIsInput(held, txo.point);
      if spender == "" {
        unconfirmedBalance := unconfirmedBalance + txo.value;
      }
    }
    assert mempoolOutputs[..|mempoolOutputs|] == mempoolOutputs;
    PaidToTotal(AllCreates(held), index.addressesOf, address, AllInputs(held));
  }

  /** The loop over the index entries of the address. */
  method EntriesOf(index: BlockIndexer, address: Address) returns (r: (int, int))
    requires index.Valid()
    ensures var created, marked := AllCreates(Transactions(index.chain)), index.db.marks.markers.Keys;
      && r.0 == Worth(created, index.addressesOf, address, marked)
      && r.1 == Worth(created, index.addressesOf, address, marked + AllInputs(index.mempoolMonitor.held))
  {
    hide TxosLaid, MarksLaid, Covers, Reflects;
    var db := index.db;
    var balance, unconfirmedBalance := 0, 0;
    var todo := Indices(db, AddressTxo(address));
    ghost var all, rows, marked, held := todo, index.rows, db.marks.markers.Keys, index.mempoolMonitor.held;
    ghost var gone := marked + AllInputs(held);
    StoredIsParallel(db.txos, rows);
    while todo != {}
      invariant todo <= all
      invariant balance + Total(rows, |rows|, address, todo, marked) == Total(rows, |rows|, address, all, marked)
      invariant unconfirmedBalance + Total(rows, |rows|, address, todo, gone) == Total(rows, |rows|, address, all, gone)
      decreases |todo|
    {
      var k :| k in todo;
      assert Place(address, k) in db.txos.entries;
      TotalVisit(db.txos, rows, address, todo, marked, k);
      TotalVisit(db.txos, rows, address, todo, gone, k);
      todo := todo - {k};
      var txo := db.txos.entries[Place(address, k)];
      if txo.point !in db.marks.markers {
        balance := balance + txo.value;
        var spender := index.mempoolMonitor.OutpointSpend(txo.point.txHash, txo.point.index);
        SpentInIsInput(held, txo.point);
        if spender == "" {
          unconfirmedBalance := unconfirmedBalance + txo.value;
        }
      }
    }
    TotalNone(rows, |rows|, address, marked);
    TotalNone(rows, |rows|, address, gone);
    AllEntries(db, rows, index.markRows, index.known, index.chain, index.addressesOf, address, marked);
    AllEntries(db, rows, index.markRows, index.known, index.chain, index.addressesOf, address, gone);
    r := (balance, unconfirmedBalance);
  }

  lemma AllEntries(db: Store, rows: seq<TxoRow>, markRows: seq<MarkRow>, known: map<Hash, seq<Outpoint>>,
      chain: seq<Block>, solver: Solver, a: Address, spent: set<Outpoint>)
    requires Consistent(db, rows, markRows, known, chain, solver) && Parallel(rows)
    ensures Total(rows, |rows|, a, Indices(db, AddressTxo(a)), spent)
      == Worth(AllCreates(Transactions(chain)), solver, a, spent)
  {
    hide Apart, AllOwned, UndoNamesOwner, MarksLaid, Stored;
    forall k | Place(a, k) in db.txos.entries
      ensures k in Indices(db, AddressTxo(a))
    {
      assert Place(a, k).index == k;
    }
    TotalIsWorth(db.txos, rows, markRows, chain, solver, |rows|, a, Indices(db, AddressTxo(a)), spent);
    assert chain[..|rows|] == chain;
  }

  // ---------- Who spends an output ----------

  /** The spender of an output: that of its marker, or else one in the mempool if those are asked for. */
  method OutpointSpend(index: BlockIndexer, txid: Hash, vout: nat, unconfirmed: bool)
    returns (spent: bool, spender: Hash)
    requires index.Valid()
    ensures var o, chain, held := Outpoint(txid, vout), index.chain, index.mempoolMonitor.held;
      ValidChain(chain) && Agrees(chain, index.db.marks.markers.Keys) ==>
        && (spent <==> SpentOn(chain, o) || (unconfirmed && SpentIn(held, o)))
        && (SpentOn(chain, o) ==> SpenderOn(chain, o, spender))
        && (spent && !SpentOn(chain, o) ==>
              exists i :: 0 <= i < |held| && held[i].txHash == spender && SpentBy(held[i], o))
  {
    hide AllSpends, SpentBy;
    spent, spender := false, "";
    var o := Outpoint(txid, vout);
    if o in index.db.marks.markers {
      spent, spender := true, index.db.marks.markers[o].txHash;
      MarkerNames(index, o);
    } else if unconfirmed {
      var mempoolSpend := index.mempoolMonitor.OutpointSpend(txid, vout);
      if mempoolSpend != "" { spent, spender := true, mempoolSpend; }
    }
  }

  /** Every input of the chain that spends the outpoint is of the transaction with this hash, and there is one. */
  ghost predicate SpenderOn(chain: seq<Block>, o: Outpoint, spender: Hash) {
    && (exists h, m :: 0 <= h < |chain| && MarkedBy(chain[h], o, m))
    && (forall h, m :: 0 <= h < |chain| && MarkedBy(chain[h], o, m) ==> m.txHash == spender)
  }

  lemma MarkerNames(index: BlockIndexer, o: Outpoint)
    requires index.Valid() && o in index.db.marks.markers
    ensures var markers, chain := index.db.marks.markers, index.chain;
      ValidChain(chain) && Agrees(chain, markers.Keys) ==> SpentOn(chain, o) && SpenderOn(chain, o, markers[o].txHash)
  {
    hide TxosLaid, MarksLaid, Covers, Reflects, MarkedBy, ValidChain;
    var markers, chain := index.db.marks.markers, index.chain;
    if ValidChain(chain) && Agrees(chain, markers.Keys) {
      SpentMarkerIff(chain, markers, o, markers[o]);
      forall h, m | 0 <= h < |chain| && MarkedBy(chain[h], o, m)
        ensures m.txHash == markers[o].txHash
      {
        SpentMarkerIff(chain, markers, o, m);
      }
    }
  }

  // ---------- What the balances mean ----------

  /** On a valid chain with the right markers, the balance is that of the plain replay. */
  lemma BalanceIsReplay(chain: seq<Block>, marked: set<Outpoint>, solver: Solver, a: Address)
    requires ValidChain(chain) && Agrees(chain, marked)
    ensures Worth(AllCreates(Transactions(chain)), solver, a, marked) == Balance(Replay(Transactions(chain)), solver, a)
  {
    MarkersGiveReplay(chain, marked);
    WorthWithout(AllCreates(Transactions(chain)), solver, a, marked, {});
    assert marked + {} == marked;
  }

  lemma {:induction false} SpendableParts(a: seq<Transaction>, b: seq<Transaction>)
    requires Spendable(a + b)
    ensures Spendable(a)
    ensures forall i, j :: 0 <= i < |a| && 0 <= j < |b| ==> a[i].txHash != b[j].txHash
  {
    if b == [] {
      assert a + b == a;
    } else {
      var n := |b| - 1;
      assert (a + b)[..|a + b| - 1] == a + b[..n] && (a + b)[|a + b| - 1] == b[n];
      SpendableParts(a, b[..n]);
      forall i | 0 <= i < |a|
        ensures a[i].txHash != b[n].txHash
      {
        assert (a + b[..n])[i] == a[i];
      }
    }
  }

  lemma {:induction false} WorthIgnores(us: seq<Txo>, solver: Solver, a: Address, s: set<Outpoint>, t: set<Outpoint>)
    requires forall i :: 0 <= i < |us| ==> us[i].point !in s
    ensures Worth(us, solver, a, s + t) == Worth(us, solver, a, t)
  {
    if us != [] { WorthIgnores(us[..|us| - 1], solver, a, s, t); }
  }

  lemma {:induction false} WorthTakeOut(txs: seq<Transaction>, i: nat, solver: Solver, a: Address, s: set<Outpoint>)
    requires i < |txs|
    ensures Worth(AllCreates(txs), solver, a, s)
      == Worth(AllCreates(txs[..i] + txs[i + 1..]), solver, a, s) + Worth(Creates(txs[i]), solver, a, s)
  {
    assert txs == txs[..i] + [txs[i]] + txs[i + 1..];
    AllCreatesConcat(txs[..i] + [txs[i]], txs[i + 1..]);
    AllCreatesConcat(txs[..i], [txs[i]]);
    AllCreatesConcat(txs[..i], txs[i + 1..]);
    WorthConcat(AllCreates(txs[..i] + [txs[i]]), AllCreates(txs[i + 1..]), solver, a, s);
    WorthConcat(AllCreates(txs[..i]), Creates(txs[i]), solver, a, s);
    WorthConcat(AllCreates(txs[..i]), AllCreates(txs[i + 1..]), solver, a, s);
    assert AllCreates([txs[i]]) == Creates(txs[i]);
  }

  lemma TakeOut<T>(s: seq<T>, i: nat)
    requires i < |s|
    ensures multiset(s) == multiset(s[..i] + s[i + 1..]) + multiset{s[i]}
  {
    assert s == s[..i] + ([s[i]] + s[i + 1..]);
  }

  lemma LastOf<T>(ms: seq<T>, held: seq<T>) returns (i: nat)
    requires ms != [] && multiset(ms) == multiset(held)
    ensures i < |held| && held[i] == ms[|ms| - 1]
    ensures multiset(ms[..|ms| - 1]) == multiset(held[..i] + held[i + 1..])
  {
    var n := |ms| - 1;
    assert ms[n] in multiset(held);
    i :| 0 <= i < |held| && held[i] == ms[n];
    TakeOut(ms, n);
    TakeOut(held, i);
    assert ms[..n] + ms[n + 1..] == ms[..n];
    var m, h := multiset(ms[..n]), multiset(held[..i] + held[i + 1..]);
    assert m == m + multiset{ms[n]} - multiset{ms[n]} && h == h + multiset{ms[n]} - multiset{ms[n]};
  }

  lemma {:induction false} WorthOfPermutation(ms: seq<Transaction>, held: seq<Transaction>, solver: Solver, a: Address,
      s: set<Outpoint>)
    requires multiset(ms) == multiset(held)
    ensures Worth(AllCreates(ms), solver, a, s) == Worth(AllCreates(held), solver, a, s)
  {
    if ms == [] {
      assert |multiset(held)| == 0;
      assert held == [];
    } else {
      var n := |ms| - 1;
      var i := LastOf(ms, held);
      WorthOfPermutation(ms[..n], held[..i] + held[i + 1..], solver, a, s);
      WorthTakeOut(held, i, solver, a, s);
      WorthConcat(AllCreates(ms[..n]), Creates(ms[n]), solver, a, s);
    }
  }

  lemma {:induction false} SpendsAreInputs(tx: Transaction, n: nat)
    requires n <= |tx.inputs| && forall i :: 0 <= i < n ==> !tx.inputs[i].coinbase
    ensures forall o :: o in SpendsUpTo(tx, n) <==>
      exists i :: 0 <= i < n && o == Outpoint(tx.inputs[i].txHash, tx.inputs[i].txoIndex)
  {
    if n > 0 { SpendsAreInputs(tx, n - 1); }
  }

  /** Without coinbase transactions the mempool's inputs are its spends, in whatever order it is listed. */
  lemma {:induction false} InputsAreSpends(ms: seq<Transaction>)
    requires forall i, j :: 0 <= i < |ms| && 0 <= j < |ms[i].inputs| ==> !ms[i].inputs[j].coinbase
    ensures AllInputs(ms) == AsSet(AllSpends(ms))
  {
    if ms != [] {
      var n := |ms| - 1;
      InputsAreSpends(ms[..n]);
      SpendsAreInputs(ms[n], |ms[n].inputs|);
      assert InputsOf(ms[n]) == AsSet(Spends(ms[n]));
      assert AllInputs(ms) == AllInputs(ms[..n]) + InputsOf(ms[n]) by {
        assert forall i :: 0 <= i < n ==> ms[..n][i] == ms[i];
      }
    }
  }

  lemma SameInputs(ms: seq<Transaction>, held: seq<Transaction>)
    requires multiset(ms) == multiset(held)
    ensures AllInputs(ms) == AllInputs(held)
  {
    forall tx
      ensures tx in ms <==> tx in held
    {
      assert tx in multiset(ms) <==> tx in multiset(held);
    }
    assert forall o :: o in AllInputs(ms) <==> exists tx :: tx in ms && o in InputsOf(tx);
    assert forall o :: o in AllInputs(held) <==> exists tx :: tx in held && o in InputsOf(tx);
  }

  /** The unconfirmed balance is that of the chain's transactions followed by the mempool's, in any
      order in which each spends only what is then unspent. */
  lemma UnconfirmedIsReplay(chain: seq<Block>, marked: set<Outpoint>, held: seq<Transaction>, ms: seq<Transaction>,
      solver: Solver, a: Address)
    requires Agrees(chain, marked) && multiset(ms) == multiset(held)
    requires Spendable(Transactions(chain) + ms)
    requires forall i, j :: 0 <= i < |ms| && 0 <= j < |ms[i].inputs| ==> !ms[i].inputs[j].coinbase
    ensures Worth(AllCreates(Transactions(chain)), solver, a, marked + AllInputs(held))
            + Worth(AllCreates(held), solver, a, AllInputs(held))
      == Balance(Replay(Transactions(chain) + ms), solver, a)
  {
    hide *;
    var txs, m := Transactions(chain), AllInputs(held);
    IsValid(chain, ms);
    SpendableParts(txs, ms);
    MarkersGiveReplay(chain, marked);
    ReplayIsCreatedMinusSpent(txs);
    ReplayIsCreatedMinusSpent(txs + ms);
    AsSetConcat(AllSpends(txs), AllSpends(ms));
    BalanceIsWorth(Replay(txs + ms), solver, a);
    AllSpendsConcat(txs, ms);
    AllCreatesConcat(txs, ms);
    InputsAreSpends(ms);
    SameInputs(ms, held);
    assert AsSet(AllSpends(txs + ms)) == marked + m;
    WorthWithout(AllCreates(txs + ms), solver, a, marked + m, {});
    assert marked + m + {} == marked + m;
    WorthConcat(AllCreates(txs), AllCreates(ms), solver, a, marked + m);
    MempoolIsNew(txs, ms, marked);
    WorthIgnores(AllCreates(ms), solver, a, marked, m);
    WorthOfPermutation(ms, held, solver, a, m);
  }

  lemma IsValid(chain: seq<Block>, ms: seq<Transaction>)
    requires Spendable(Transactions(chain) + ms)
    ensures ValidChain(chain)
  {
    SpendableParts(Transactions(chain), ms);
  }

  lemma AsSetConcat<T>(s: seq<T>, t: seq<T>)
    ensures AsSet(s + t) == AsSet(s) + AsSet(t)
    ensures forall x :: x in AsSet(s) <==> x in s
  {
  }

  lemma BalanceIsWorth(us: seq<Txo>, solver: Solver, a: Address)
    ensures Balance(us, solver, a) == Worth(us, solver, a, {})
  {
  }

  lemma CreatedOnce(txs: seq<Transaction>, ms: seq<Transaction>, o: Outpoint)
    requires forall i, j :: 0 <= i < |txs| && 0 <= j < |ms| ==> txs[i].txHash != ms[j].txHash
    requires Holds(AllCreates(txs), o)
    ensures !Holds(AllCreates(ms), o)
  {
    CreatedBySome(txs, o);
    if Holds(AllCreates(ms), o) { CreatedBySome(ms, o); }
  }

  /** What the chain spends is no mempool output. */
  lemma MempoolIsNew(txs: seq<Transaction>, ms: seq<Transaction>, spent: set<Outpoint>)
    requires forall i, j :: 0 <= i < |txs| && 0 <= j < |ms| ==> txs[i].txHash != ms[j].txHash
    requires forall o :: o in spent ==> Holds(AllCreates(txs), o)
    ensures forall i :: 0 <= i < |AllCreates(ms)| ==> AllCreates(ms)[i].point !in spent
  {
    forall o | o in spent
      ensures !Holds(AllCreates(ms), o)
    {
      CreatedOnce(txs, ms, o);
    }
  }
}
