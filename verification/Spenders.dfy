/** What a spent marker says: the block, the transaction and the input that spend an output. */
module Spenders {
  import opened BlockchainTypes
  import opened Ledger
  import opened IndexStore

  /** The input is not that of a coinbase, and names the outpoint. */
  predicate NamesOutpoint(txi: TransactionInput, o: Outpoint) {
    !txi.coinbase && txi.txHash == o.txHash && txi.txoIndex == o.index
  }

  ghost predicate InputSpends(b: Block, tx: Transaction, i: nat, o: Outpoint, m: Spender) {
    && tx in b.transactions && i < |tx.inputs| && NamesOutpoint(tx.inputs[i], o)
    && m.blockHash == b.blockHash && m.txHash == tx.txHash && m.index == tx.inputs[i].index
  }

  /** The marker is that of an input of the block which names the outpoint. */
  ghost predicate MarkedBy(b: Block, o: Outpoint, m: Spender) {
    exists tx, i :: InputSpends(b, tx, i, o, m)
  }

  /** Every marker is that of an input of a block of the chain. */
  ghost predicate MarkersName(markers: map<Outpoint, Spender>, chain: seq<Block>) {
    forall o :: o in markers ==> exists h :: 0 <= h < |chain| && MarkedBy(chain[h], o, markers[o])
  }

  lemma {:induction false} NamedIsSpent(tx: Transaction, n: nat, i: nat, o: Outpoint)
    requires i < n <= |tx.inputs| && NamesOutpoint(tx.inputs[i], o)
    ensures o in SpendsUpTo(tx, n)
  {
    var txi := tx.inputs[n - 1];
    var last := if txi.coinbase then [] else [Outpoint(txi.txHash, txi.txoIndex)];
    assert SpendsUpTo(tx, n) == SpendsUpTo(tx, n - 1) + last;
    if i < n - 1 { NamedIsSpent(tx, n - 1, i, o); } else { assert last[0] == o; }
  }

  lemma {:induction false} SpentIsAmong(txs: seq<Transaction>, tx: Transaction, o: Outpoint)
    requires tx in txs && o in Spends(tx)
    ensures o in AllSpends(txs)
  {
    hide Spends;
    var n := |txs| - 1;
    if tx in txs[..n] { SpentIsAmong(txs[..n], tx, o); } else { assert txs == txs[..n] + [txs[n]]; }
  }

  /** What a marker of the block names is among the block's spends. */
  lemma MarkedIsSpent(b: Block, o: Outpoint, m: Spender)
    requires MarkedBy(b, o, m)
    ensures o in AllSpends(b.transactions)
  {
    var tx, i :| InputSpends(b, tx, i, o, m);
    NamedIsSpent(tx, |tx.inputs|, i, o);
    SpentIsAmong(b.transactions, tx, o);
  }

  // ---------- One input for each marker ----------

  lemma {:induction false} OneInput(tx: Transaction, n: nat, i: nat, j: nat, o: Outpoint)
    requires n <= |tx.inputs| && NoDuplicates(SpendsUpTo(tx, n)) && i < n && j < n
    requires NamesOutpoint(tx.inputs[i], o) && NamesOutpoint(tx.inputs[j], o)
    ensures i == j
  {
    if i < n - 1 { NamedIsSpent(tx, n - 1, i, o); }
    if j < n - 1 { NamedIsSpent(tx, n - 1, j, o); }
    if i < n - 1 || j < n - 1 {
      var last := tx.inputs[n - 1];
      NoDuplicatesParts(SpendsUpTo(tx, n - 1), if last.coinbase then [] else [Outpoint(last.txHash, last.txoIndex)]);
      OneInput(tx, n - 1, i, j, o);
    }
  }

  lemma {:induction false} OneTransaction(txs: seq<Transaction>, tx: Transaction, ux: Transaction, o: Outpoint)
    requires NoDuplicates(AllSpends(txs)) && tx in txs && ux in txs && o in Spends(tx) && o in Spends(ux)
    ensures tx == ux && NoDuplicates(Spends(tx))
  {
    hide Spends;
    var n := |txs| - 1;
    assert txs == txs[..n] + [txs[n]];
    if tx in txs[..n] { SpentIsAmong(txs[..n], tx, o); }
    if ux in txs[..n] { SpentIsAmong(txs[..n], ux, o); }
    NoDuplicatesParts(AllSpends(txs[..n]), Spends(txs[n]));
    if tx in txs[..n] || ux in txs[..n] { OneTransaction(txs[..n], tx, ux, o); }
  }

  /** A block that spends nothing twice leaves no doubt about the marker of an outpoint. */
  lemma OneMarker(b: Block, o: Outpoint, m: Spender, m': Spender)
    requires NoDuplicates(AllSpends(b.transactions)) && MarkedBy(b, o, m) && MarkedBy(b, o, m')
    ensures m == m'
  {
    var tx, i :| InputSpends(b, tx, i, o, m);
    var ux, j :| InputSpends(b, ux, j, o, m');
    NamedIsSpent(tx, |tx.inputs|, i, o);
    NamedIsSpent(ux, |ux.inputs|, j, o);
    OneTransaction(b.transactions, tx, ux, o);
    OneInput(tx, |tx.inputs|, i, j, o);
  }
}
