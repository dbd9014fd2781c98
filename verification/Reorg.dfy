/** Histories of the indexer seen from outside: which spent markers are left after blocks have been
    replaced height by height, and exactly when they are those of the resulting chain. */
module Reorg {
  import opened BlockchainTypes
  import opened Ledger
  import opened IndexStore
  import opened Spenders
  import opened BlockIndexer

  function Transactions(chain: seq<Block>): seq<Transaction> {
    if chain == [] then [] else Transactions(chain[..|chain| - 1]) + chain[|chain| - 1].transactions
  }

  /** The markers are exactly the outpoints that the blocks of the chain spend. */
  ghost predicate Agrees(chain: seq<Block>, marked: set<Outpoint>) {
    forall o :: o in marked <==> SpentOn(chain, o)
  }

  ghost predicate SpentOn(chain: seq<Block>, o: Outpoint) {
    exists h :: 0 <= h < |chain| && o in SpendsOf(chain[h])
  }

  /** No two blocks of the chain spend the same outpoint. */
  ghost predicate SpendsOnce(chain: seq<Block>) {
    forall h, h', o ::
      0 <= h < |chain| && 0 <= h' < |chain| && o in SpendsOf(chain[h]) && o in SpendsOf(chain[h']) ==> h == h'
  }

  /** One call keeps the markers right exactly when nothing that the outgoing block spends, and the
      incoming one does not, is spent elsewhere on the chain. */
  lemma StepAgreesIff(chain: seq<Block>, marked: set<Outpoint>, block: Block)
    requires block.height <= |chain| && Agrees(chain, marked)
    ensures Agrees(PlaceAt(chain, block.height, block), MarkedAfter(chain, marked, block))
      <==> (block.height < |chain| ==>
              forall o, g :: o in SpendsOf(chain[block.height]) && o !in SpendsOf(block) && 0 <= g < |chain| &&
                g != block.height
                ==> o !in SpendsOf(chain[g]))
  {
    var h, chain', marked' := block.height, PlaceAt(chain, block.height, block), MarkedAfter(chain, marked, block);
    forall o
      ensures SpentOn(chain', o) <==>
        o in SpendsOf(block) || exists g :: 0 <= g < |chain| && g != h && o in SpendsOf(chain[g])
    {
      if g :| 0 <= g < |chain| && g != h && o in SpendsOf(chain[g]) { assert chain'[g] == chain[g]; }
      assert chain'[h] == block;
    }
    if h < |chain| && Agrees(chain', marked') {
      forall o, g | o in SpendsOf(chain[h]) && o !in SpendsOf(block) && 0 <= g < |chain| && g != h
        ensures o !in SpendsOf(chain[g])
      {
        assert o !in marked';
      }
    }
  }

  /** A height at which the run finds its own block already indexed, and skips it. */
  predicate Kept(chain: seq<Block>, blocks: seq<Block>, k: nat)
    requires k < |blocks|
  {
    k < |chain| && chain[k].blockHash == blocks[k].blockHash
  }

  /** The chain after the blocks of the first n heights went to the indexer, lowest first. */
  function RunChain(chain: seq<Block>, blocks: seq<Block>, n: nat): (r: seq<Block>)
    requires n <= |blocks|
    ensures |r| == if n < |chain| then |chain| else n
  {
    seq(if n < |chain| then |chain| else n, k requires 0 <= k < |chain| || 0 <= k < n =>
      if k < n && !Kept(chain, blocks, k) then blocks[k] else chain[k])
  }

  ghost predicate ByHeight(blocks: seq<Block>) {
    forall j :: 0 <= j < |blocks| ==> blocks[j].height == j
  }

  /** The markers after those n calls. */
  function RunMarks(chain: seq<Block>, marked: set<Outpoint>, blocks: seq<Block>, n: nat): set<Outpoint>
    requires n <= |blocks| && ByHeight(blocks)
  {
    if n == 0 then marked
    else
      var before := RunMarks(chain, marked, blocks, n - 1);
      if Kept(chain, blocks, n - 1) then before
      else MarkedAfter(RunChain(chain, blocks, n - 1), before, blocks[n - 1])
  }

  /** One more call of the run: either its block is skipped, or it goes to its height, over the block
      that stood there from the start. */
  lemma RunStep(chain: seq<Block>, blocks: seq<Block>, n: nat)
    requires n < |blocks| && ByHeight(blocks)
    ensures var met := RunChain(chain, blocks, n);
      && n <= |met| && (n < |met| <==> n < |chain|)
      && (n < |chain| ==> met[n] == chain[n])
      && RunChain(chain, blocks, n + 1) == if Kept(chain, blocks, n) then met else PlaceAt(met, n, blocks[n])
  {
  }

  /** The block that stood at height k was replaced, and spent o. */
  ghost predicate Undone(chain: seq<Block>, blocks: seq<Block>, k: nat, o: Outpoint)
    requires k < |blocks|
  {
    k < |chain| && !Kept(chain, blocks, k) && o in SpendsOf(chain[k])
  }

  ghost predicate UndoneNowhere(chain: seq<Block>, blocks: seq<Block>, from: nat, to: nat, o: Outpoint)
    requires to <= |blocks|
  {
    forall k :: from <= k < to ==> !Undone(chain, blocks, k, o)
  }

  ghost predicate SetAt(chain: seq<Block>, blocks: seq<Block>, j: nat, n: nat, o: Outpoint)
    requires j < n <= |blocks|
  {
    !Kept(chain, blocks, j) && o in SpendsOf(blocks[j]) && UndoneNowhere(chain, blocks, j + 1, n, o)
  }

  /** A marker survives a run when some block set it and no later call undid it. */
  ghost predicate Survives(chain: seq<Block>, marked: set<Outpoint>, blocks: seq<Block>, n: nat, o: Outpoint)
    requires n <= |blocks|
  {
    || (o in marked && UndoneNowhere(chain, blocks, 0, n, o))
    || (exists j :: 0 <= j < n && SetAt(chain, blocks, j, n, o))
  }

  lemma SurvivesStep(chain: seq<Block>, marked: set<Outpoint>, blocks: seq<Block>, m: nat, n: nat, o: Outpoint)
    requires m < |blocks| && n == m + 1
    ensures Survives(chain, marked, blocks, n, o) <==>
      || (Survives(chain, marked, blocks, m, o) && !Undone(chain, blocks, m, o))
      || (!Kept(chain, blocks, m) && o in SpendsOf(blocks[m]))
  {
    forall j | 0 <= j < m
      ensures SetAt(chain, blocks, j, n, o) <==> SetAt(chain, blocks, j, m, o) && !Undone(chain, blocks, m, o)
    {
    }
    assert SetAt(chain, blocks, m, n, o) <==> !Kept(chain, blocks, m) && o in SpendsOf(blocks[m]);
    if j :| 0 <= j < n && SetAt(chain, blocks, j, n, o) {
      assert j < m ==> SetAt(chain, blocks, j, m, o);
    }
    if j :| 0 <= j < m && SetAt(chain, blocks, j, m, o) {
      assert !Undone(chain, blocks, m, o) ==> SetAt(chain, blocks, j, n, o);
    }
  }

  lemma {:induction false} RunKeeps(chain: seq<Block>, marked: set<Outpoint>, blocks: seq<Block>, n: nat, o: Outpoint)
    requires n <= |blocks| && ByHeight(blocks)
    ensures o in RunMarks(chain, marked, blocks, n) <==> Survives(chain, marked, blocks, n, o)
  {
    hide Survives;
    if n > 0 {
      RunKeeps(chain, marked, blocks, n - 1, o);
      RunStep(chain, blocks, n - 1);
      SurvivesStep(chain, marked, blocks, n - 1, n, o);
    } else {
      SurvivesNothing(chain, marked, blocks, o);
    }
  }

  lemma SurvivesNothing(chain: seq<Block>, marked: set<Outpoint>, blocks: seq<Block>, o: Outpoint)
    ensures Survives(chain, marked, blocks, 0, o) <==> o in marked
  {
  }

  /** No new block spends what a replaced block at a greater height spent. */
  ghost predicate NothingMovesDown(chain: seq<Block>, blocks: seq<Block>) {
    forall j, k, o ::
      0 <= j < k < |blocks| && !Kept(chain, blocks, j) && o in SpendsOf(blocks[j]) ==> !Undone(chain, blocks, k, o)
  }

  lemma SurvivorIsSpent(chain: seq<Block>, marked: set<Outpoint>, blocks: seq<Block>, o: Outpoint)
    requires |chain| <= |blocks| && ByHeight(blocks)
    requires Agrees(chain, marked) && SpendsOnce(chain) && NothingMovesDown(chain, blocks)
    ensures Survives(chain, marked, blocks, |blocks|, o) <==> SpentOn(RunChain(chain, blocks, |blocks|), o)
  {
    var n, chain' := |blocks|, RunChain(chain, blocks, |blocks|);
    if SpentOn(chain', o) {
      var h :| 0 <= h < |chain'| && o in SpendsOf(chain'[h]);
      if Kept(chain, blocks, h) {
        assert SpentOn(chain, o);
      } else {
        assert SetAt(chain, blocks, h, n, o);
      }
    }
    if j :| 0 <= j < n && SetAt(chain, blocks, j, n, o) {
      assert o in SpendsOf(chain'[j]);
    } else if Survives(chain, marked, blocks, n, o) {
      var h :| 0 <= h < |chain| && o in SpendsOf(chain[h]);
      assert !Undone(chain, blocks, h, o);
      assert chain'[h] == chain[h];
    }
  }

  /** A reorganisation that reaches at least the old tip leaves the right markers exactly when no
      spend moved to a lower height. */
  lemma ReorgAgreesIff(chain: seq<Block>, marked: set<Outpoint>, blocks: seq<Block>)
    requires |chain| <= |blocks| && ByHeight(blocks)
    requires Agrees(chain, marked) && SpendsOnce(chain) && SpendsOnce(RunChain(chain, blocks, |blocks|))
    ensures Agrees(RunChain(chain, blocks, |blocks|), RunMarks(chain, marked, blocks, |blocks|))
      <==> NothingMovesDown(chain, blocks)
  {
    var n, chain', marked' := |blocks|, RunChain(chain, blocks, |blocks|), RunMarks(chain, marked, blocks, |blocks|);
    forall o
      ensures o in marked' <==> Survives(chain, marked, blocks, n, o)
    {
      RunKeeps(chain, marked, blocks, n, o);
    }
    if NothingMovesDown(chain, blocks) {
      forall o
        ensures o in marked' <==> SpentOn(chain', o)
      {
        SurvivorIsSpent(chain, marked, blocks, o);
      }
    }
    if Agrees(chain', marked') {
      forall j, k, o | 0 <= j < k < n && !Kept(chain, blocks, j) && o in SpendsOf(blocks[j])
        ensures !Undone(chain, blocks, k, o)
      {
        assert o in SpendsOf(chain'[j]);
        assert SpentOn(chain', o) && o in marked';
        if i :| 0 <= i < n && SetAt(chain, blocks, i, n, o) {
          assert o in SpendsOf(chain'[i]);
        }
      }
    }
  }

  /** Extending the chain, or replacing only its tip, needs no proviso. */
  lemma TipOnlyNeedsNoProviso(chain: seq<Block>, blocks: seq<Block>)
    requires forall k :: 0 <= k < |chain| - 1 && k < |blocks| ==> Kept(chain, blocks, k)
    ensures NothingMovesDown(chain, blocks)
  {
    forall j, k, o | 0 <= j < k < |blocks| && !Kept(chain, blocks, j) && o in SpendsOf(blocks[j])
      ensures !Undone(chain, blocks, k, o)
    {
      assert j >= |chain| - 1;
    }
  }

  // ---------- The replay that the markers stand for ----------

  lemma {:induction false} AllSpendsConcat(a: seq<Transaction>, b: seq<Transaction>)
    ensures AllSpends(a + b) == AllSpends(a) + AllSpends(b)
  {
    hide Spends;
    if b == [] {
      assert a + b == a;
    } else {
      var before, tx := b[..|b| - 1], b[|b| - 1];
      assert (a + b)[..|a + b| - 1] == a + before && (a + b)[|a + b| - 1] == tx;
      AllSpendsConcat(a, before);
      assert AllSpends(a) + (AllSpends(before) + Spends(tx)) == AllSpends(a) + AllSpends(before) + Spends(tx);
    }
  }

  lemma {:induction false} SpentOnChain(chain: seq<Block>, o: Outpoint)
    ensures SpentOn(chain, o) <==> o in AllSpends(Transactions(chain))
  {
    if chain != [] {
      var n := |chain| - 1;
      SpentOnChain(chain[..n], o);
      AllSpendsConcat(Transactions(chain[..n]), chain[n].transactions);
      if SpentOn(chain, o) && o !in SpendsOf(chain[n]) {
        var h :| 0 <= h < |chain| && o in SpendsOf(chain[h]);
        assert chain[..n][h] == chain[h];
      }
      if h :| 0 <= h < n && o in SpendsOf(chain[..n][h]) {
        assert chain[h] == chain[..n][h];
      }
    }
  }

  lemma {:induction false} NoDuplicatesSpendsOnce(chain: seq<Block>)
    requires NoDuplicates(AllSpends(Transactions(chain)))
    ensures SpendsOnce(chain)
  {
    hide AllSpends, SpendsOnce;
    if chain == [] {
      SpendsOnceEmpty();
    } else {
      var n := |chain| - 1;
      var last := AllSpends(chain[n].transactions);
      AllSpendsConcat(Transactions(chain[..n]), chain[n].transactions);
      NoDuplicatesParts(AllSpends(Transactions(chain[..n])), last);
      NoDuplicatesSpendsOnce(chain[..n]);
      forall h, o | 0 <= h < n && o in SpendsOf(chain[h])
        ensures o !in SpendsOf(chain[n])
      {
        assert chain[..n][h] == chain[h];
        SpentOnChain(chain[..n], o);
      }
      SpendsOnceExtends(chain[..n], chain);
    }
  }

  lemma SpendsOnceEmpty()
    ensures SpendsOnce([])
  {
  }

  lemma SpendsOnceExtends(before: seq<Block>, chain: seq<Block>)
    requires chain != [] && before == chain[..|chain| - 1] && SpendsOnce(before)
    requires forall h, o :: 0 <= h < |before| && o in SpendsOf(chain[h]) ==> o !in SpendsOf(chain[|before|])
    ensures SpendsOnce(chain)
  {
    hide SpendsOf;
    assert forall h :: 0 <= h < |before| ==> before[h] == chain[h];
  }

  /** A chain on which every block spends only what the blocks before it left unspent. */
  ghost predicate ValidChain(chain: seq<Block>) {
    Spendable(Transactions(chain))
  }

  /** The outputs of the chain that carry no marker are those that the plain replay leaves. */
  lemma MarkersGiveReplay(chain: seq<Block>, marked: set<Outpoint>)
    requires ValidChain(chain) && Agrees(chain, marked)
    ensures Without(AllCreates(Transactions(chain)), marked) == Replay(Transactions(chain))
    ensures marked == AsSet(AllSpends(Transactions(chain))) && SpendsOnce(chain)
  {
    ReplayIsCreatedMinusSpent(Transactions(chain));
    NoDuplicatesSpendsOnce(chain);
    forall o
      ensures o in marked <==> o in AsSet(AllSpends(Transactions(chain)))
    {
      SpentOnChain(chain, o);
    }
    assert marked == AsSet(AllSpends(Transactions(chain)));
  }

  // ---------- The proviso is needed ----------

  /** A coin, and the transaction that spends it. */
  function Mint(): Transaction {
    Transaction(
      [TransactionInput(0, ZERO_HASH, 4294967295, 0, true, [], [])], [TransactionOutput(50, [], 0)],
      "mint", "mint", 0, 0, 1, 0)
  }

  function Redeem(): Transaction {
    Transaction([TransactionInput(0, "mint", 0, 0, false, [], [])], [], "spend", "spend", 0, 0, 1, 0)
  }

  function BlockOf(hash: Hash, height: nat, txs: seq<Transaction>): Block {
    Block("", 0, hash, "", "", height, 0, 0, 0, 0, 1, txs, true)
  }

  lemma MintAndRedeem()
    ensures Spends(Mint()) == [] && Spends(Redeem()) == [Outpoint("mint", 0)]
    ensures Creates(Mint()) == [Txo(Outpoint("mint", 0), 50, [])] && Creates(Redeem()) == []
    ensures Mint().txHash != Redeem().txHash
  {
    assert SpendsUpTo(Mint(), 1) == [] && SpendsUpTo(Redeem(), 1) == [Outpoint("mint", 0)];
  }

  /** The spender stood at height 1, and moves to height 0. */
  function OldChain(): (r: seq<Block>)
    ensures |r| == 2
  {
    [BlockOf("old0", 0, [Mint()]), BlockOf("old1", 1, [Redeem()])]
  }

  function NewBlocks(): (r: seq<Block>)
    ensures |r| == 2 && ByHeight(r)
  {
    [BlockOf("new0", 0, [Mint(), Redeem()]), BlockOf("new1", 1, [])]
  }

  function MintPoint(): Outpoint {
    Outpoint("mint", 0)
  }

  lemma Minted()
    ensures Spendable([Mint()]) && Replay([Mint()]) == [Txo(MintPoint(), 50, [])]
    ensures AllSpends([Mint()]) == [] && AllCreates([Mint()]) == [Txo(MintPoint(), 50, [])]
  {
    hide Mint;
    MintAndRedeem();
    assert [Mint()][..0] == [];
    assert Spendable([]);
  }

  lemma MintThenSpend(txs: seq<Transaction>)
    requires txs == [Mint(), Redeem()]
    ensures Spendable(txs) && Replay(txs) == []
    ensures AllSpends(txs) == [MintPoint()] && AllCreates(txs) == [Txo(MintPoint(), 50, [])]
  {
    hide Mint, Redeem, Creates, Spends, Holds, Without, AsSet;
    MintAndRedeem();
    Minted();
    var u := Txo(MintPoint(), 50, []);
    assert txs[..1] == [Mint()] && txs[1] == Redeem();
    SpendsTheOne(u);
  }

  lemma SpendsTheOne(u: Txo)
    ensures Holds([u], u.point) && Without([u], AsSet([u.point])) == []
  {
    assert [u][0].point == u.point && AsSet([u.point]) == {u.point};
    assert [u][..0] == [];
  }

  lemma TransactionsOfTwo(a: Block, b: Block)
    ensures Transactions([a, b]) == a.transactions + b.transactions
  {
    assert [a][..0] == [] && [a, b][..1] == [a];
    assert Transactions([a]) == a.transactions;
  }

  lemma BothChains()
    ensures Transactions(OldChain()) == Transactions(NewBlocks()) == [Mint(), Redeem()]
    ensures SpendsOf(OldChain()[1]) == SpendsOf(NewBlocks()[0]) == {MintPoint()}
    ensures SpendsOf(OldChain()[0]) == SpendsOf(NewBlocks()[1]) == {}
  {
    hide Mint, Redeem, Spends;
    MintAndRedeem();
    TransactionsOfTwo(OldChain()[0], OldChain()[1]);
    TransactionsOfTwo(NewBlocks()[0], NewBlocks()[1]);
    Minted();
    MintThenSpend([Mint(), Redeem()]);
    assert [Redeem()][..0] == [];
    assert AllSpends([Redeem()]) == [MintPoint()];
  }

  lemma MovedDownRun()
    ensures RunChain(OldChain(), NewBlocks(), 2) == NewBlocks()
    ensures RunMarks(OldChain(), {MintPoint()}, NewBlocks(), 2) == {}
  {
    hide SpendsOf, Mint, Redeem, MintPoint;
    BothChains();
    var chain, blocks := OldChain(), NewBlocks();
    assert RunChain(chain, blocks, 0) == chain;
    assert RunChain(chain, blocks, 1)[1] == chain[1];
    assert RunMarks(chain, {MintPoint()}, blocks, 1) == {MintPoint()};
  }

  /** The first call sets the marker, the second removes it: the spent coin counts again. */
  lemma SpendMovedDown()
    ensures var chain, blocks, marked := OldChain(), NewBlocks(), {MintPoint()};
      && ValidChain(chain) && Agrees(chain, marked) && ValidChain(blocks) && RunChain(chain, blocks, 2) == blocks
      && Replay(Transactions(blocks)) == []
      && Without(AllCreates(Transactions(blocks)), RunMarks(chain, marked, blocks, 2)) == [Txo(MintPoint(), 50, [])]
      && !NothingMovesDown(chain, blocks)
  {
    hide SpendsOf, Mint, Redeem, Transactions, RunChain, RunMarks, Replay, AllCreates, Spendable, MintPoint, Agrees,
      NothingMovesDown, OldChain, NewBlocks, Without;
    BothChains();
    MintThenSpend([Mint(), Redeem()]);
    MovedDownRun();
    WithoutNone([Txo(MintPoint(), 50, [])], {});
    RedeemMovesDown();
  }

  lemma RedeemMovesDown()
    ensures Agrees(OldChain(), {MintPoint()}) && !NothingMovesDown(OldChain(), NewBlocks())
  {
    hide SpendsOf, Mint, Redeem, MintPoint, Transactions;
    BothChains();
    assert SpentOn(OldChain(), MintPoint());
    assert Undone(OldChain(), NewBlocks(), 1, MintPoint());
  }

  // ---------- Who spent an output ----------

  lemma {:induction false} BlockSpendsOnce(chain: seq<Block>, h: nat)
    requires NoDuplicates(AllSpends(Transactions(chain))) && h < |chain|
    ensures NoDuplicates(AllSpends(chain[h].transactions))
  {
    hide AllSpends;
    var n := |chain| - 1;
    AllSpendsConcat(Transactions(chain[..n]), chain[n].transactions);
    NoDuplicatesParts(AllSpends(Transactions(chain[..n])), AllSpends(chain[n].transactions));
    if h < n {
      assert chain[..n][h] == chain[h];
      BlockSpendsOnce(chain[..n], h);
    }
  }

  /** On a valid chain with the right markers, the marker of an outpoint is m exactly when m is the block, the
      transaction and the index of an input of the chain that spends it. */
  lemma SpentMarkerIff(chain: seq<Block>, markers: map<Outpoint, Spender>, o: Outpoint, m: Spender)
    requires ValidChain(chain) && Agrees(chain, markers.Keys) && MarkersName(markers, chain)
    ensures o in markers && markers[o] == m <==> exists h :: 0 <= h < |chain| && MarkedBy(chain[h], o, m)
  {
    hide MarkedBy, ValidChain, AllSpends;
    SpendsOnceOn(chain);
    ValidSpendsNothingTwice(chain);
    if h :| 0 <= h < |chain| && MarkedBy(chain[h], o, m) {
      MarkedIsSpent(chain[h], o, m);
      assert o in SpendsOf(chain[h]);
      var g :| 0 <= g < |chain| && MarkedBy(chain[g], o, markers[o]);
      MarkedIsSpent(chain[g], o, markers[o]);
      assert o in SpendsOf(chain[g]);
      BlockSpendsOnce(chain, h);
      OneMarker(chain[h], o, m, markers[o]);
    }
  }

  lemma ValidSpendsNothingTwice(chain: seq<Block>)
    requires ValidChain(chain)
    ensures NoDuplicates(AllSpends(Transactions(chain)))
  {
    ReplayIsCreatedMinusSpent(Transactions(chain));
  }

  // ---------- Every history ----------

  /** A history: the longest chain of one update after another, as sent to the indexer. */
  function FinalChain(chain: seq<Block>, history: seq<seq<Block>>): seq<Block> {
    if history == [] then chain
    else
      var n := |history| - 1;
      RunChain(FinalChain(chain, history[..n]), history[n], |history[n]|)
  }

  ghost predicate AllByHeight(history: seq<seq<Block>>) {
    forall i :: 0 <= i < |history| ==> ByHeight(history[i])
  }

  function FinalMarks(chain: seq<Block>, marked: set<Outpoint>, history: seq<seq<Block>>): set<Outpoint>
    requires AllByHeight(history)
  {
    if history == [] then marked
    else
      var n := |history| - 1;
      RunMarks(FinalChain(chain, history[..n]), FinalMarks(chain, marked, history[..n]), history[n], |history[n]|)
  }

  /** No update comes with a shorter chain than the one before it. */
  ghost predicate Grows(chain: seq<Block>, history: seq<seq<Block>>) {
    history == [] ||
    var n := |history| - 1;
    Grows(chain, history[..n]) && |FinalChain(chain, history[..n])| <= |history[n]|
  }

  /** Every update leaves a valid chain, and moves no spend to a lower height. */
  ghost predicate Sound(chain: seq<Block>, history: seq<seq<Block>>) {
    history == [] ||
    var n := |history| - 1;
    && Sound(chain, history[..n]) && NothingMovesDown(FinalChain(chain, history[..n]), history[n])
    && ValidChain(FinalChain(chain, history))
  }

  lemma FinalNext(chain: seq<Block>, marked: set<Outpoint>, history: seq<seq<Block>>, blocks: seq<Block>)
    requires AllByHeight(history) && ByHeight(blocks)
    ensures AllByHeight(history + [blocks])
    ensures FinalChain(chain, history + [blocks]) == RunChain(FinalChain(chain, history), blocks, |blocks|)
    ensures FinalMarks(chain, marked, history + [blocks]) ==
      RunMarks(FinalChain(chain, history), FinalMarks(chain, marked, history), blocks, |blocks|)
    ensures Grows(chain, history) && |FinalChain(chain, history)| <= |blocks| ==> Grows(chain, history + [blocks])
  {
    assert (history + [blocks])[..|history|] == history;
  }

  /** Over any such history, from an empty database, the unmarked outputs are the plain replay of the final chain. */
  lemma {:induction false} HistoryGivesReplay(chain: seq<Block>, marked: set<Outpoint>, history: seq<seq<Block>>)
    requires ValidChain(chain) && Agrees(chain, marked)
    requires AllByHeight(history) && Grows(chain, history) && Sound(chain, history)
    ensures var final := FinalChain(chain, history);
      && ValidChain(final) && Agrees(final, FinalMarks(chain, marked, history))
      && Without(AllCreates(Transactions(final)), FinalMarks(chain, marked, history)) == Replay(Transactions(final))
  {
    hide ValidChain, Agrees, NothingMovesDown, RunChain, RunMarks;
    if history != [] {
      var n := |history| - 1;
      var before, blocks := FinalChain(chain, history[..n]), history[n];
      HistoryGivesReplay(chain, marked, history[..n]);
      SpendsOnceOn(before);
      SpendsOnceOn(FinalChain(chain, history));
      ReorgAgreesIff(before, FinalMarks(chain, marked, history[..n]), blocks);
    }
    MarkersGiveReplay(FinalChain(chain, history), FinalMarks(chain, marked, history));
  }

  lemma SpendsOnceOn(chain: seq<Block>)
    requires ValidChain(chain)
    ensures SpendsOnce(chain)
  {
    ReplayIsCreatedMinusSpent(Transactions(chain));
    NoDuplicatesSpendsOnce(chain);
  }
}
