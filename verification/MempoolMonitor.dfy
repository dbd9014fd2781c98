/** The in-memory copy of the mempool: transactions by hash, and their outputs by address. */
module MempoolMonitor {
  import opened BlockchainTypes
  import opened Ledger

  /** One copy of u for every time the addresses name a. */
  function Copies(u: Txo, addresses: seq<Address>, a: Address): seq<Txo> {
    if addresses == [] then []
    else Copies(u, addresses[..|addresses| - 1], a) + if addresses[|addresses| - 1] == a then [u] else []
  }

  /** The outputs among us that pay a, in order, each as often as its script names a. */
  function PaidTo(us: seq<Txo>, solver: Solver, a: Address): seq<Txo> {
    if us == [] then []
    else
      var u := us[|us| - 1];
      PaidTo(us[..|us| - 1], solver, a) + Copies(u, solver(u.script), a)
  }

  function NotOf(us: seq<Txo>, txid: Hash): seq<Txo> {
    if us == [] then []
    else
      var u := us[|us| - 1];
      NotOf(us[..|us| - 1], txid) + if u.point.txHash != txid then [u] else []
  }

  function WithoutTransaction(txs: seq<Transaction>, txid: Hash): seq<Transaction> {
    if txs == [] then []
    else
      var tx := txs[|txs| - 1];
      WithoutTransaction(txs[..|txs| - 1], txid) + if tx.txHash != txid then [tx] else []
  }

  /** The map holds exactly the transactions of the list, each under its own hash. */
  ghost predicate ByHash(held: seq<Transaction>, m: map<Hash, Transaction>) {
    && DistinctTxids(held)
    && (forall tx :: tx in held ==> tx.txHash != "" && tx.txHash in m && m[tx.txHash] == tx)
    && (forall k :: k in m ==> m[k] in held && m[k].txHash == k)
  }

  ghost predicate DistinctTxids(txs: seq<Transaction>) {
    forall i, j :: 0 <= i < j < |txs| ==> txs[i].txHash != txs[j].txHash
  }

  function Listed(lists: Lists, a: Address): seq<Txo> {
    if a in lists then lists[a] else []
  }

  type Lists = map<Address, seq<Txo>>

  /** Every list was extended by the outputs among us that pay its address. */
  ghost predicate Extended(before: Lists, after: Lists, us: seq<Txo>, solver: Solver) {
    forall a :: Listed(after, a) == Listed(before, a) + PaidTo(us, solver, a)
  }

  /** Every list was extended by the output u, as often as the addresses name its address. */
  ghost predicate ExtendedBy(before: Lists, after: Lists, u: Txo, addresses: seq<Address>) {
    forall a :: Listed(after, a) == Listed(before, a) + Copies(u, addresses, a)
  }

  /** Every list was cleared of the outputs of a transaction. */
  ghost predicate Cleared(before: Lists, after: Lists, txid: Hash) {
    forall a :: Listed(after, a) == NotOf(Listed(before, a), txid)
  }

  class MempoolMonitor {
    const addressesOf: Solver
    var mempoolTransactions: map<Hash, Transaction>
    var addressMempoolTransactions: Lists

    /** The transactions now held, in the order in which they were added. */
    ghost var held: seq<Transaction>

    ghost predicate Valid()
      reads this
    {
      && ByHash(held, mempoolTransactions)
      && ListsOf(addressMempoolTransactions, held, addressesOf)
    }

    constructor (solver: Solver)
      ensures Valid() && held == [] && addressesOf == solver
    {
      addressesOf := solver;
      mempoolTransactions, addressMempoolTransactions, held := map[], map[], [];
    }

    /** One step of the watcher: a transaction of the node's mempool, under the id the node gives it. */
    method AddTransaction(txid: Hash, tx: Transaction)
      modifies this
      ensures txid in old(mempoolTransactions) ==>
        mempoolTransactions == old(mempoolTransactions) && addressMempoolTransactions == old(addressMempoolTransactions)
      ensures txid !in old(mempoolTransactions) ==>
        && mempoolTransactions == old(mempoolTransactions)[txid := tx]
        && Extended(old(addressMempoolTransactions), addressMempoolTransactions, Creates(tx), addressesOf)
      ensures old(Valid()) && (txid in old(mempoolTransactions) || tx.txHash == txid != "") ==>
        && Valid() && held == if txid in old(mempoolTransactions) then old(held) else old(held) + [tx]
    {
      hide Extended, ByHash, AllCreates, Creates, ListsOf;
      if txid !in mempoolTransactions {
        ghost var valid := Valid() && tx.txHash == txid != "";
        if valid { ByHashAdd(held, mempoolTransactions, tx); }
        mempoolTransactions := mempoolTransactions[txid := tx];
        AddOutputs(tx);
        held := held + [tx];
        if valid {
          ListsAdd(old(held), tx, old(addressMempoolTransactions), addressMempoolTransactions, addressesOf);
        }
      }
    }

    /** The loop of that step over the outputs. */
    method AddOutputs(tx: Transaction)
      modifies this`addressMempoolTransactions
      ensures Extended(old(addressMempoolTransactions), addressMempoolTransactions, Creates(tx), addressesOf)
    {
      hide Extended, ExtendedBy;
      ghost var lists, created := addressMempoolTransactions, Creates(tx);
      ExtendedByNone(lists, addressesOf);
      for i := 0 to |tx.outputs|
        invariant Extended(lists, addressMempoolTransactions, created[..i], addressesOf)
      {
        var u := Txo(Outpoint(tx.txHash, tx.outputs[i].index), tx.outputs[i].value, tx.outputs[i].script);
        ghost var before := addressMempoolTransactions;
        AddOutput(u);
        assert created[..i + 1] == created[..i] + [u];
        ExtendedStep(lists, before, addressMempoolTransactions, created[..i], u, addressesOf);
      }
      assert created[..|created|] == created;
    }

    /** The inner loop of that step: the output goes on the list of every address its script names. */
    method AddOutput(u: Txo)
      modifies this`addressMempoolTransactions
      ensures ExtendedBy(old(addressMempoolTransactions), addressMempoolTransactions, u, addressesOf(u.script))
    {
      hide ExtendedBy;
      var addresses := addressesOf(u.script);
      ghost var lists := addressMempoolTransactions;
      ExtendedByNowhere(lists, u);
      for j := 0 to |addresses|
        invariant ExtendedBy(lists, addressMempoolTransactions, u, addresses[..j])
      {
        var address := addresses[j];
        ghost var before := addressMempoolTransactions;
        if address !in addressMempoolTransactions {
          addressMempoolTransactions := addressMempoolTransactions[address := []];
        }
        addressMempoolTransactions :=
          addressMempoolTransactions[address := addressMempoolTransactions[address] + [u]];
        assert addresses[..j + 1] == addresses[..j] + [address];
        assert addressMempoolTransactions == before[address := Listed(before, address) + [u]];
        ExtendedByStep(lists, before, u, addresses[..j], address);
      }
      assert addresses[..|addresses|] == addresses;
    }

    /** A transaction was indexed as part of a block and leaves the mempool. */
    method TransactionIndexed(txid: Hash)
      modifies this
      ensures mempoolTransactions == old(mempoolTransactions) - {txid}
      ensures if txid in old(mempoolTransactions)
        then Cleared(old(addressMempoolTransactions), addressMempoolTransactions, txid)
        else addressMempoolTransactions == old(addressMempoolTransactions)
      ensures old(Valid()) ==> Valid() && held == WithoutTransaction(old(held), txid)
    {
      hide ByHash, Cleared, AllCreates, ListsOf;
      ghost var valid := Valid();
      if valid { ByHashRemove(held, mempoolTransactions, txid); }
      if txid in mempoolTransactions {
        mempoolTransactions := mempoolTransactions - {txid};
        RemoveOutputs(txid);
        held := WithoutTransaction(held, txid);
        if valid {
          ListsRemove(old(held), txid, old(addressMempoolTransactions), addressMempoolTransactions, addressesOf);
        }
      }
    }

    /** The first pass over the address lists collects the lists that change, the second stores them. */
    method RemoveOutputs(txid: Hash)
      modifies this`addressMempoolTransactions
      ensures Cleared(old(addressMempoolTransactions), addressMempoolTransactions, txid)
    {
      hide NotOf;
      ghost var lists := addressMempoolTransactions;
      var changed := ChangedLists(txid);
      var todo := changed.Keys;
      while todo != {}
        invariant todo <= changed.Keys
        invariant forall a ::
          Listed(addressMempoolTransactions, a) == if a in changed.Keys - todo then changed[a] else Listed(lists, a)
        decreases |todo|
      {
        var a :| a in todo;
        todo := todo - {a};
        addressMempoolTransactions := addressMempoolTransactions[a := changed[a]];
      }
    }

    method ChangedLists(txid: Hash) returns (changed: map<Address, seq<Txo>>)
      ensures forall a :: NotOf(Listed(addressMempoolTransactions, a), txid)
                       == if a in changed then changed[a] else Listed(addressMempoolTransactions, a)
    {
      changed := map[];
      var todo := addressMempoolTransactions.Keys;
      while todo != {}
        invariant forall a :: a !in todo ==>
          NotOf(Listed(addressMempoolTransactions, a), txid)
          == if a in changed then changed[a] else Listed(addressMempoolTransactions, a)
        invariant changed.Keys !! todo && todo <= addressMempoolTransactions.Keys
        decreases |todo|
      {
        var a :| a in todo;
        todo := todo - {a};
        var newVector, itemsRemoved := Filter(addressMempoolTransactions[a], txid);
        if itemsRemoved { changed := changed[a := newVector]; }
      }
    }

    static method Filter(txos: seq<Txo>, txid: Hash) returns (newVector: seq<Txo>, itemsRemoved: bool)
      ensures newVector == NotOf(txos, txid)
      ensures !itemsRemoved ==> newVector == txos
    {
      newVector, itemsRemoved := [], false;
      for i := 0 to |txos|
        invariant newVector == NotOf(txos[..i], txid)
        invariant !itemsRemoved ==> newVector == txos[..i]
      {
        assert txos[..i + 1][..i] == txos[..i];
        if txos[i].point.txHash != txid { newVector := newVector + [txos[i]]; } else { itemsRemoved := true; }
      }
      assert txos[..|txos|] == txos;
    }

    /** Some held transaction that spends the outpoint, or the empty string when none does. */
    method OutpointSpend(txid: Hash, vout: nat) returns (spender: Hash)
      requires Valid()
      ensures spender == "" <==> !SpentIn(held, Outpoint(txid, vout))
      ensures spender != "" ==>
        exists i :: 0 <= i < |held| && held[i].txHash == spender && SpentBy(held[i], Outpoint(txid, vout))
    {
      var todo := mempoolTransactions.Keys;
      while todo != {}
        invariant todo <= mempoolTransactions.Keys
        invariant forall k :: k in mempoolTransactions && k !in todo ==>
          !SpentBy(mempoolTransactions[k], Outpoint(txid, vout))
        decreases |todo|
      {
        var k :| k in todo;
        todo := todo - {k};
        var tx := mempoolTransactions[k];
        for i := 0 to |tx.inputs|
          invariant forall j :: 0 <= j < i ==> tx.inputs[j].txHash != txid || tx.inputs[j].txoIndex != vout
        {
          if tx.inputs[i].txHash == txid && tx.inputs[i].txoIndex == vout { return tx.txHash; }
        }
      }
      return "";
    }

    method GetTxos(address: Address) returns (txos: seq<Txo>)
      requires Valid()
      ensures txos == PaidTo(AllCreates(held), addressesOf, address)
    {
      if address !in addressMempoolTransactions { return []; }
      return addressMempoolTransactions[address];
    }
  }

  ghost predicate SpentBy(tx: Transaction, o: Outpoint) {
    exists i :: 0 <= i < |tx.inputs| && tx.inputs[i].txHash == o.txHash && tx.inputs[i].txoIndex == o.index
  }

  ghost predicate SpentIn(txs: seq<Transaction>, o: Outpoint) {
    exists i :: 0 <= i < |txs| && SpentBy(txs[i], o)
  }

  lemma ExtendedByNowhere(lists: Lists, u: Txo)
    ensures ExtendedBy(lists, lists, u, [])
  {
  }

  lemma ExtendedByStep(lists: Lists, before: Lists, u: Txo, addresses: seq<Address>, address: Address)
    requires ExtendedBy(lists, before, u, addresses)
    ensures ExtendedBy(lists, before[address := Listed(before, address) + [u]], u, addresses + [address])
  {
    var after := before[address := Listed(before, address) + [u]];
    assert (addresses + [address])[..|addresses|] == addresses;
    forall a
      ensures Listed(after, a) == Listed(lists, a) + Copies(u, addresses + [address], a)
    {
      assert Listed(before, a) == Listed(lists, a) + Copies(u, addresses, a);
      assert Listed(after, a) == Listed(before, a) + if a == address then [u] else [];
    }
  }

  lemma ExtendedByNone(lists: Lists, solver: Solver)
    ensures Extended(lists, lists, [], solver)
  {
  }

  lemma ExtendedStep(lists: Lists, before: Lists, after: Lists, us: seq<Txo>, u: Txo, solver: Solver)
    requires Extended(lists, before, us, solver) && ExtendedBy(before, after, u, solver(u.script))
    ensures Extended(lists, after, us + [u], solver)
  {
    hide Listed, PaidTo, Copies;
    forall a
      ensures Listed(after, a) == Listed(lists, a) + PaidTo(us + [u], solver, a)
    {
      var paid, more := PaidTo(us, solver, a), Copies(u, solver(u.script), a);
      PaidToNext(us, u, solver, a);
      assert Listed(before, a) == Listed(lists, a) + paid;
      assert Listed(after, a) == Listed(before, a) + more;
      assert Listed(lists, a) + paid + more == Listed(lists, a) + (paid + more);
    }
  }

  lemma PaidToNext(us: seq<Txo>, u: Txo, solver: Solver, a: Address)
    ensures PaidTo(us + [u], solver, a) == PaidTo(us, solver, a) + Copies(u, solver(u.script), a)
  {
    assert (us + [u])[..|us|] == us;
  }

  ghost predicate ListsOf(lists: Lists, held: seq<Transaction>, solver: Solver) {
    forall a :: Listed(lists, a) == PaidTo(AllCreates(held), solver, a)
  }

  lemma ListsAdd(held: seq<Transaction>, tx: Transaction, before: Lists, after: Lists, solver: Solver)
    requires ListsOf(before, held, solver) && Extended(before, after, Creates(tx), solver)
    ensures ListsOf(after, held + [tx], solver)
  {
    hide PaidTo, Creates, Listed;
    assert (held + [tx])[..|held|] == held;
    forall a
      ensures Listed(after, a) == PaidTo(AllCreates(held + [tx]), solver, a)
    {
      PaidToConcat(AllCreates(held), Creates(tx), solver, a);
    }
  }

  lemma ListsRemove(held: seq<Transaction>, txid: Hash, before: Lists, after: Lists, solver: Solver)
    requires ListsOf(before, held, solver) && Cleared(before, after, txid)
    ensures ListsOf(after, WithoutTransaction(held, txid), solver)
  {
    hide PaidTo, Listed, NotOf, AllCreates, WithoutTransaction;
    forall a
      ensures Listed(after, a) == PaidTo(AllCreates(WithoutTransaction(held, txid)), solver, a)
    {
      NotOfPaidTo(held, txid, solver, a);
    }
  }

  lemma {:induction false} PaidToConcat(us: seq<Txo>, vs: seq<Txo>, solver: Solver, a: Address)
    ensures PaidTo(us + vs, solver, a) == PaidTo(us, solver, a) + PaidTo(vs, solver, a)
  {
    hide Copies;
    if vs == [] {
      assert us + vs == us;
    } else {
      assert (us + vs)[..|us + vs| - 1] == us + vs[..|vs| - 1];
      PaidToConcat(us, vs[..|vs| - 1], solver, a);
    }
  }

  lemma {:induction false} NotOfConcat(us: seq<Txo>, vs: seq<Txo>, txid: Hash)
    ensures NotOf(us + vs, txid) == NotOf(us, txid) + NotOf(vs, txid)
  {
    if vs == [] {
      assert us + vs == us;
    } else {
      assert (us + vs)[..|us + vs| - 1] == us + vs[..|vs| - 1];
      NotOfConcat(us, vs[..|vs| - 1], txid);
    }
  }

  lemma {:induction false} NotOfOne(us: seq<Txo>, txid: Hash, solver: Solver, a: Address, hash: Hash)
    requires forall i :: 0 <= i < |us| ==> us[i].point.txHash == hash
    ensures NotOf(PaidTo(us, solver, a), txid) == if hash == txid then [] else PaidTo(us, solver, a)
  {
    if us != [] {
      var before, u := us[..|us| - 1], us[|us| - 1];
      NotOfOne(before, txid, solver, a, hash);
      NotOfCopies(u, solver(u.script), a, txid);
      NotOfConcat(PaidTo(before, solver, a), Copies(u, solver(u.script), a), txid);
    }
  }

  lemma {:induction false} NotOfCopies(u: Txo, addresses: seq<Address>, a: Address, txid: Hash)
    ensures NotOf(Copies(u, addresses, a), txid) == if u.point.txHash == txid then [] else Copies(u, addresses, a)
  {
    if addresses != [] {
      var before := addresses[..|addresses| - 1];
      NotOfCopies(u, before, a, txid);
      NotOfConcat(Copies(u, before, a), if addresses[|addresses| - 1] == a then [u] else [], txid);
    }
  }

  /** Dropping a transaction's outputs from an address list is the list of the other transactions. */
  lemma {:induction false} NotOfPaidTo(txs: seq<Transaction>, txid: Hash, solver: Solver, a: Address)
    ensures NotOf(PaidTo(AllCreates(txs), solver, a), txid)
         == PaidTo(AllCreates(WithoutTransaction(txs, txid)), solver, a)
  {
    if txs != [] {
      var before, tx := txs[..|txs| - 1], txs[|txs| - 1];
      var kept := WithoutTransaction(before, txid);
      NotOfPaidTo(before, txid, solver, a);
      PaidToConcat(AllCreates(before), Creates(tx), solver, a);
      NotOfConcat(PaidTo(AllCreates(before), solver, a), PaidTo(Creates(tx), solver, a), txid);
      NotOfOne(Creates(tx), txid, solver, a, tx.txHash);
      assert (kept + [tx])[..|kept|] == kept;
      PaidToConcat(AllCreates(kept), Creates(tx), solver, a);
      assert tx.txHash == txid ==> WithoutTransaction(txs, txid) == kept;
    }
  }

  lemma ByHashAdd(held: seq<Transaction>, m: map<Hash, Transaction>, tx: Transaction)
    requires ByHash(held, m) && tx.txHash !in m && tx.txHash != ""
    ensures ByHash(held + [tx], m[tx.txHash := tx])
  {
    var m' := m[tx.txHash := tx];
    forall k | k in m'
      ensures m'[k] in held + [tx] && m'[k].txHash == k
    {
      if k == tx.txHash { assert (held + [tx])[|held|] == tx; }
    }
    forall i | 0 <= i < |held|
      ensures held[i].txHash != tx.txHash
    {
      assert held[i] in held;
    }
  }

  lemma ByHashRemove(held: seq<Transaction>, m: map<Hash, Transaction>, txid: Hash)
    requires ByHash(held, m)
    ensures ByHash(WithoutTransaction(held, txid), m - {txid})
    ensures txid !in m ==> WithoutTransaction(held, txid) == held
  {
    hide WithoutTransaction, DistinctTxids;
    RemovalKeepsDistinct(held, txid);
    forall tx: Transaction
      ensures tx in WithoutTransaction(held, txid) <==> tx in held && tx.txHash != txid
    {
      RemovalMembers(held, txid, tx);
    }
    if txid !in m {
      RemovalOfNone(held, txid);
    }
  }

  lemma {:induction false} RemovalMembers(txs: seq<Transaction>, txid: Hash, tx: Transaction)
    ensures tx in WithoutTransaction(txs, txid) <==> tx in txs && tx.txHash != txid
  {
    if txs != [] {
      var before, last := txs[..|txs| - 1], txs[|txs| - 1];
      RemovalMembers(before, txid, tx);
      assert txs == before + [last];
    }
  }

  lemma {:induction false} RemovalKeepsDistinct(txs: seq<Transaction>, txid: Hash)
    requires DistinctTxids(txs)
    ensures DistinctTxids(WithoutTransaction(txs, txid))
  {
    if txs != [] {
      var before, last := txs[..|txs| - 1], txs[|txs| - 1];
      var kept := WithoutTransaction(before, txid);
      RemovalKeepsDistinct(before, txid);
      forall i | 0 <= i < |kept|
        ensures kept[i].txHash != last.txHash
      {
        RemovalMembers(before, txid, kept[i]);
      }
    }
  }

  lemma {:induction false} RemovalOfNone(txs: seq<Transaction>, txid: Hash)
    requires forall tx :: tx in txs ==> tx.txHash != txid
    ensures WithoutTransaction(txs, txid) == txs
  {
    if txs != [] {
      RemovalOfNone(txs[..|txs| - 1], txid);
      assert txs[|txs| - 1] in txs;
    }
  }
}
