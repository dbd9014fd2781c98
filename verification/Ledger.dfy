/** The ledger that the address index stands for: a plain replay of transactions over a list of
    unspent outputs, and its closed form for transaction lists that spend only what exists. */
module Ledger {
  import opened BlockchainTypes

  /** What the script solver makes of an output script. */
  type Solver = Script -> seq<Address>

  /** A transaction output together with the outpoint that names it. */
  datatype Txo = Txo(point: Outpoint, value: nat, script: Script)

  /** The outpoints that the inputs before position n spend; a coinbase input spends none. */
  function SpendsUpTo(tx: Transaction, n: nat): seq<Outpoint>
    requires n <= |tx.inputs|
  {
    if n == 0 then []
    else
      var txi := tx.inputs[n - 1];
      SpendsUpTo(tx, n - 1) + if txi.coinbase then [] else [Outpoint(txi.txHash, txi.txoIndex)]
  }

  function Spends(tx: Transaction): seq<Outpoint> {
    SpendsUpTo(tx, |tx.inputs|)
  }

  function Creates(tx: Transaction): seq<Txo> {
    seq(|tx.outputs|, i requires 0 <= i < |tx.outputs| =>
      Txo(Outpoint(tx.txHash, tx.outputs[i].index), tx.outputs[i].value, tx.outputs[i].script))
  }

  function AllSpends(txs: seq<Transaction>): seq<Outpoint> {
    if txs == [] then [] else AllSpends(txs[..|txs| - 1]) + Spends(txs[|txs| - 1])
  }

  function AllCreates(txs: seq<Transaction>): seq<Txo> {
    if txs == [] then [] else AllCreates(txs[..|txs| - 1]) + Creates(txs[|txs| - 1])
  }

  /** The list us without the outputs that are spent. */
  function Without(us: seq<Txo>, spent: set<Outpoint>): seq<Txo> {
    if us == [] then []
    else
      var u := us[|us| - 1];
      Without(us[..|us| - 1], spent) + if u.point in spent then [] else [u]
  }

  function AsSet<T>(s: seq<T>): set<T> {
    set x | x in s
  }

  /** The plain replay: every transaction removes what it spends and then adds its own outputs. */
  function Replay(txs: seq<Transaction>): seq<Txo> {
    if txs == [] then []
    else
      var tx := txs[|txs| - 1];
      Without(Replay(txs[..|txs| - 1]), AsSet(Spends(tx))) + Creates(tx)
  }

  ghost predicate Holds(us: seq<Txo>, o: Outpoint) {
    exists i :: 0 <= i < |us| && us[i].point == o
  }

  ghost predicate NoDuplicates<T>(s: seq<T>) {
    forall i, j :: 0 <= i < j < |s| ==> s[i] != s[j]
  }

  lemma NoDuplicatesParts<T>(a: seq<T>, b: seq<T>)
    requires NoDuplicates(a + b)
    ensures NoDuplicates(a) && NoDuplicates(b) && forall x :: x in a ==> x !in b
  {
    forall i, j | 0 <= i < j < |a|
      ensures a[i] != a[j]
    {
      assert (a + b)[i] == a[i] && (a + b)[j] == a[j];
    }
    forall i, j | 0 <= i < j < |b|
      ensures b[i] != b[j]
    {
      assert (a + b)[|a| + i] == b[i] && (a + b)[|a| + j] == b[j];
    }
    forall i, j | 0 <= i < |a| && 0 <= j < |b|
      ensures a[i] != b[j]
    {
      assert (a + b)[i] == a[i] && (a + b)[|a| + j] == b[j];
    }
  }

  /** Every transaction spends outputs that are unspent when it comes, each once, and brings a new hash. */
  ghost predicate Spendable(txs: seq<Transaction>) {
    txs != [] ==>
      var before, tx := txs[..|txs| - 1], txs[|txs| - 1];
      && Spendable(before)
      && NoDuplicates(Spends(tx))
      && (forall i :: 0 <= i < |Spends(tx)| ==> Holds(Replay(before), Spends(tx)[i]))
      && (forall i :: 0 <= i < |before| ==> before[i].txHash != tx.txHash)
  }

  lemma {:induction false} WithoutConcat(a: seq<Txo>, b: seq<Txo>, spent: set<Outpoint>)
    ensures Without(a + b, spent) == Without(a, spent) + Without(b, spent)
  {
    if b == [] {
      assert a + b == a;
    } else {
      assert (a + b)[..|a + b| - 1] == a + b[..|b| - 1];
      WithoutConcat(a, b[..|b| - 1], spent);
    }
  }

  lemma {:induction false} WithoutTwice(us: seq<Txo>, s: set<Outpoint>, t: set<Outpoint>)
    ensures Without(Without(us, s), t) == Without(us, s + t)
  {
    if us != [] {
      var u := us[|us| - 1];
      var last := if u.point in s then [] else [u];
      WithoutTwice(us[..|us| - 1], s, t);
      WithoutConcat(Without(us[..|us| - 1], s), last, t);
    }
  }

  lemma {:induction false} WithoutNone(us: seq<Txo>, spent: set<Outpoint>)
    requires forall i :: 0 <= i < |us| ==> us[i].point !in spent
    ensures Without(us, spent) == us
  {
    if us != [] { WithoutNone(us[..|us| - 1], spent); }
  }

  lemma {:induction false} WithoutHolds(us: seq<Txo>, spent: set<Outpoint>, o: Outpoint)
    ensures Holds(Without(us, spent), o) <==> Holds(us, o) && o !in spent
  {
    if us != [] {
      var before, u := us[..|us| - 1], us[|us| - 1];
      WithoutHolds(before, spent, o);
      var w := Without(before, spent);
      assert us == before + [u];
      HoldsConcat(before, [u], o);
      HoldsConcat(w, if u.point in spent then [] else [u], o);
    }
  }

  lemma HoldsConcat(a: seq<Txo>, b: seq<Txo>, o: Outpoint)
    ensures Holds(a + b, o) <==> Holds(a, o) || Holds(b, o)
  {
    if i :| 0 <= i < |a| && a[i].point == o { assert (a + b)[i].point == o; }
    if i :| 0 <= i < |b| && b[i].point == o { assert (a + b)[|a| + i].point == o; }
  }

  /** Whatever a list of transactions created carries the hash of one of them. */
  lemma {:induction false} CreatedBySome(txs: seq<Transaction>, o: Outpoint)
    requires Holds(AllCreates(txs), o)
    ensures exists i :: 0 <= i < |txs| && txs[i].txHash == o.txHash
  {
    var before, tx := txs[..|txs| - 1], txs[|txs| - 1];
    HoldsConcat(AllCreates(before), Creates(tx), o);
    if Holds(AllCreates(before), o) {
      CreatedBySome(before, o);
      var i :| 0 <= i < |before| && before[i].txHash == o.txHash;
      assert txs[i].txHash == o.txHash;
    }
  }

  /** What a further transaction may spend was created before it, under another hash, and is not yet spent. */
  lemma SpendsOfNext(before: seq<Transaction>, tx: Transaction, o: Outpoint)
    requires Spendable(before + [tx]) && o in Spends(tx)
    requires Replay(before) == Without(AllCreates(before), AsSet(AllSpends(before)))
    ensures Holds(AllCreates(before), o) && o !in AllSpends(before) && o.txHash != tx.txHash
  {
    assert (before + [tx])[..|before|] == before;
    WithoutHolds(AllCreates(before), AsSet(AllSpends(before)), o);
    CreatedBySome(before, o);
  }

  /** The closed form of the replay: all outputs ever created, in order, without those ever spent;
      and every spend is of an output that was created, and is its only spend. */
  lemma {:induction false} ReplayIsCreatedMinusSpent(txs: seq<Transaction>)
    requires Spendable(txs)
    ensures Replay(txs) == Without(AllCreates(txs), AsSet(AllSpends(txs)))
    ensures forall o :: o in AllSpends(txs) ==> Holds(AllCreates(txs), o)
    ensures NoDuplicates(AllSpends(txs))
  {
    if txs != [] {
      var before, tx := txs[..|txs| - 1], txs[|txs| - 1];
      var s, t := AsSet(AllSpends(before)), AsSet(Spends(tx));
      assert before + [tx] == txs;
      ReplayIsCreatedMinusSpent(before);
      forall o | o in AllSpends(txs)
        ensures Holds(AllCreates(txs), o) && o.txHash != tx.txHash
        ensures o in Spends(tx) ==> o !in AllSpends(before)
      {
        if o in Spends(tx) { SpendsOfNext(before, tx, o); }
        CreatedBySome(before, o);
        HoldsConcat(AllCreates(before), Creates(tx), o);
      }
      assert AsSet(AllSpends(txs)) == s + t;
      ReplayStep(before, tx, s, t);
    }
  }

  lemma ReplayStep(before: seq<Transaction>, tx: Transaction, s: set<Outpoint>, t: set<Outpoint>)
    requires forall o :: o in s + t ==> o.txHash != tx.txHash
    ensures Without(Without(AllCreates(before), s), t) + Creates(tx)
         == Without(AllCreates(before) + Creates(tx), s + t)
  {
    WithoutTwice(AllCreates(before), s, t);
    WithoutNone(Creates(tx), s + t);
    WithoutConcat(AllCreates(before), Creates(tx), s + t);
  }

  /** What one output pays: its value once for every time its script names the address. */
  function Pays(u: Txo, solver: Solver, a: Address): int {
    u.value * multiset(solver(u.script))[a]
  }

  /** The total that the outputs us pay to an address, leaving aside those that are spent. */
  function Worth(us: seq<Txo>, solver: Solver, a: Address, spent: set<Outpoint>): int {
    if us == [] then 0
    else
      var u := us[|us| - 1];
      Worth(us[..|us| - 1], solver, a, spent) + if u.point in spent then 0 else Pays(u, solver, a)
  }

  function Balance(us: seq<Txo>, solver: Solver, a: Address): int {
    Worth(us, solver, a, {})
  }

  lemma {:induction false} WorthConcat(us: seq<Txo>, vs: seq<Txo>, solver: Solver, a: Address, spent: set<Outpoint>)
    ensures Worth(us + vs, solver, a, spent) == Worth(us, solver, a, spent) + Worth(vs, solver, a, spent)
  {
    if vs == [] {
      assert us + vs == us;
    } else {
      assert (us + vs)[..|us + vs| - 1] == us + vs[..|vs| - 1];
      WorthConcat(us, vs[..|vs| - 1], solver, a, spent);
    }
  }

  lemma {:induction false} WorthWithout(us: seq<Txo>, solver: Solver, a: Address, s: set<Outpoint>, t: set<Outpoint>)
    ensures Worth(Without(us, s), solver, a, t) == Worth(us, solver, a, s + t)
  {
    if us != [] {
      var before, u := us[..|us| - 1], us[|us| - 1];
      WorthWithout(before, solver, a, s, t);
      WorthConcat(Without(before, s), if u.point in s then [] else [u], solver, a, t);
    }
  }
}
