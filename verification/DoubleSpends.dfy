/** The report of conflicting spends: which transactions of orphaned blocks spend an outpoint that the
    main chain spends elsewhere, grouped by the pair of transactions in conflict. */
module DoubleSpends {
  import opened BlockchainTypes

  datatype PotentialDoubleSpend = PotentialDoubleSpend(tx: Transaction, block: Block)
  datatype DoubleSpentOutpoint = DoubleSpentOutpoint(outpoint: Outpoint, alsoSpentInTx: Transaction,
      alsoSpentInBlock: Block)
  datatype DoubleSpend = DoubleSpend(tx: Transaction, block: Block, outpoints: seq<DoubleSpentOutpoint>)

  // ---------- Collecting the spends of every outpoint ----------

  /** The spends of an outpoint by the inputs before position n. */
  function SpendsByInputs(block: Block, tx: Transaction, n: nat, o: Outpoint): seq<PotentialDoubleSpend>
    requires n <= |tx.inputs|
  {
    if n == 0 then []
    else
      var txi := tx.inputs[n - 1];
      SpendsByInputs(block, tx, n - 1, o) +
      if txi.txHash != ZERO_HASH && Outpoint(txi.txHash, txi.txoIndex) == o then [PotentialDoubleSpend(tx, block)]
      else []
  }

  function SpendsByTxs(block: Block, n: nat, o: Outpoint): seq<PotentialDoubleSpend>
    requires n <= |block.transactions|
  {
    if n == 0 then []
    else
      var tx := block.transactions[n - 1];
      SpendsByTxs(block, n - 1, o) + SpendsByInputs(block, tx, |tx.inputs|, o)
  }

  /** All spends of an outpoint in a list of blocks, in order. */
  function SpendsIn(blocks: seq<Block>, o: Outpoint): seq<PotentialDoubleSpend> {
    if blocks == [] then []
    else
      var b := blocks[|blocks| - 1];
      SpendsIn(blocks[..|blocks| - 1], o) + SpendsByTxs(b, |b.transactions|, o)
  }

  /** The lists numbered 0, 1, 2, ... up to the first number that is absent, from number n back. */
  function BlocksUpTo(doubleBlocks: map<nat, seq<Block>>, n: nat): seq<Block>
    requires forall i :: 0 <= i < n ==> i in doubleBlocks
  {
    if n == 0 then [] else BlocksUpTo(doubleBlocks, n - 1) + doubleBlocks[n - 1]
  }

  type SpendMap = map<Outpoint, seq<PotentialDoubleSpend>>

  function SpendsListed(spends: SpendMap, o: Outpoint): seq<PotentialDoubleSpend> {
    if o in spends then spends[o] else []
  }

  ghost predicate NoEmptyList(spends: SpendMap) {
    forall o :: o in spends ==> spends[o] != []
  }

  /** Every list was extended by the spends of the first n inputs of a transaction. */
  ghost predicate AddedInputs(before: SpendMap, after: SpendMap, block: Block, tx: Transaction, n: nat)
    requires n <= |tx.inputs|
  {
    NoEmptyList(after) && forall o ::
      SpendsListed(after, o) == SpendsListed(before, o) + SpendsByInputs(block, tx, n, o)
  }

  /** Every list was extended by the spends of the first n transactions of a block. */
  ghost predicate AddedTxs(before: SpendMap, after: SpendMap, block: Block, n: nat)
    requires n <= |block.transactions|
  {
    NoEmptyList(after) && forall o :: SpendsListed(after, o) == SpendsListed(before, o) + SpendsByTxs(block, n, o)
  }

  /** The lists hold all spends of the blocks. */
  ghost predicate Collected(spends: SpendMap, blocks: seq<Block>) {
    NoEmptyList(spends) && forall o :: SpendsListed(spends, o) == SpendsIn(blocks, o)
  }

  /** What becomes of the lists at one input. */
  function AfterInput(spends: SpendMap, block: Block, tx: Transaction, txi: TransactionInput): SpendMap {
    var key := Outpoint(txi.txHash, txi.txoIndex);
    if txi.txHash == ZERO_HASH then
      spends else spends[key := SpendsListed(spends, key) + [PotentialDoubleSpend(tx, block)]]
  }

  lemma SpendsListedAfter(spends: SpendMap, key: Outpoint, added: seq<PotentialDoubleSpend>, o: Outpoint)
    ensures var after := spends[key := SpendsListed(spends, key) + added];
      SpendsListed(after, o) == SpendsListed(spends, o) + if o == key then added else []
  {
  }

  lemma NoEmptyAfter(spends: SpendMap, block: Block, tx: Transaction, txi: TransactionInput)
    requires NoEmptyList(spends)
    ensures NoEmptyList(AfterInput(spends, block, tx, txi))
  {
  }

  lemma AddedInput(before: SpendMap, spends: SpendMap, block: Block, tx: Transaction, i: nat)
    requires i < |tx.inputs| && AddedInputs(before, spends, block, tx, i)
    ensures AddedInputs(before, AfterInput(spends, block, tx, tx.inputs[i]), block, tx, i + 1)
  {
    hide SpendsListed, NoEmptyList;
    var txi, after := tx.inputs[i], AfterInput(spends, block, tx, tx.inputs[i]);
    var key, added := Outpoint(txi.txHash, txi.txoIndex), [PotentialDoubleSpend(tx, block)];
    NoEmptyAfter(spends, block, tx, txi);
    forall o
      ensures SpendsListed(after, o) == SpendsListed(before, o) + SpendsByInputs(block, tx, i + 1, o)
    {
      assert SpendsListed(spends, o) == SpendsListed(before, o) + SpendsByInputs(block, tx, i, o);
      if txi.txHash != ZERO_HASH { SpendsListedAfter(spends, key, added, o); }
    }
  }

  lemma NoInputYet(spends: SpendMap, block: Block, tx: Transaction)
    requires NoEmptyList(spends)
    ensures AddedInputs(spends, spends, block, tx, 0)
  {
  }

  lemma NoTxYet(spends: SpendMap, block: Block)
    requires NoEmptyList(spends)
    ensures AddedTxs(spends, spends, block, 0)
  {
  }

  method CollectTx(spends0: SpendMap, block: Block, tx: Transaction) returns (spends: SpendMap)
    requires NoEmptyList(spends0)
    ensures AddedInputs(spends0, spends, block, tx, |tx.inputs|)
  {
    hide AddedInputs, NoEmptyList;
    spends := spends0;
    NoInputYet(spends0, block, tx);
    for i := 0 to |tx.inputs|
      invariant AddedInputs(spends0, spends, block, tx, i)
    {
      AddedInput(spends0, spends, block, tx, i);
      var txi := tx.inputs[i];
      if txi.txHash != ZERO_HASH {
        var key, spend := Outpoint(txi.txHash, txi.txoIndex), PotentialDoubleSpend(tx, block);
        if key !in spends {
          assert [] + [spend] == [spend];
          spends := spends[key := [spend]];
        } else {
          spends := spends[key := spends[key] + [spend]];
        }
      }
    }
  }

  lemma AddedTx(before: SpendMap, spends: SpendMap, after: SpendMap, block: Block, t: nat)
    requires t < |block.transactions| && AddedTxs(before, spends, block, t)
    requires var tx := block.transactions[t]; AddedInputs(spends, after, block, tx, |tx.inputs|)
    ensures AddedTxs(before, after, block, t + 1)
  {
    hide SpendsByInputs, SpendsListed;
    var tx := block.transactions[t];
    forall o
      ensures SpendsListed(after, o) == SpendsListed(before, o) + SpendsByTxs(block, t + 1, o)
    {
      var added := SpendsByInputs(block, tx, |tx.inputs|, o);
      assert SpendsListed(spends, o) == SpendsListed(before, o) + SpendsByTxs(block, t, o);
      assert SpendsListed(after, o) == SpendsListed(spends, o) + added;
    }
  }

  lemma AddedKeepsLists(before: SpendMap, after: SpendMap, block: Block, n: nat)
    requires n <= |block.transactions| && AddedTxs(before, after, block, n)
    ensures NoEmptyList(after)
  {
  }

  method CollectBlock(spends0: SpendMap, block: Block) returns (spends: SpendMap)
    requires NoEmptyList(spends0)
    ensures AddedTxs(spends0, spends, block, |block.transactions|)
  {
    hide AddedTxs, AddedInputs, NoEmptyList;
    spends := spends0;
    NoTxYet(spends0, block);
    for t := 0 to |block.transactions|
      invariant AddedTxs(spends0, spends, block, t)
    {
      ghost var before := spends;
      AddedKeepsLists(spends0, spends, block, t);
      spends := CollectTx(spends, block, block.transactions[t]);
      AddedTx(spends0, before, spends, block, t);
    }
  }

  lemma AddedBlock(spends: SpendMap, after: SpendMap, blocks: seq<Block>, block: Block)
    requires Collected(spends, blocks) && AddedTxs(spends, after, block, |block.transactions|)
    ensures Collected(after, blocks + [block])
  {
    hide SpendsByTxs, SpendsListed;
    assert (blocks + [block])[..|blocks|] == blocks;
    forall o
      ensures SpendsListed(after, o) == SpendsIn(blocks + [block], o)
    {
      assert SpendsListed(spends, o) == SpendsIn(blocks, o);
      assert SpendsListed(after, o) == SpendsListed(spends, o) + SpendsByTxs(block, |block.transactions|, o);
    }
  }

  lemma CollectedKeepsLists(spends: SpendMap, blocks: seq<Block>)
    requires Collected(spends, blocks)
    ensures NoEmptyList(spends)
  {
  }

  method CollectBlocks(spends0: SpendMap, ghost before: seq<Block>, blocks: seq<Block>) returns (spends: SpendMap)
    requires Collected(spends0, before)
    ensures Collected(spends, before + blocks)
  {
    hide Collected, AddedTxs, NoEmptyList;
    spends := spends0;
    assert before + blocks[..0] == before;
    for j := 0 to |blocks|
      invariant Collected(spends, before + blocks[..j])
    {
      ghost var was := spends;
      CollectedKeepsLists(spends, before + blocks[..j]);
      spends := CollectBlock(spends, blocks[j]);
      AddedBlock(was, spends, before + blocks[..j], blocks[j]);
      assert before + blocks[..j + 1] == before + blocks[..j] + [blocks[j]];
    }
    assert blocks[..|blocks|] == blocks;
  }

  lemma NothingCollected()
    ensures Collected(map[], [])
  {
  }

  method Collect(doubleBlocks: map<nat, seq<Block>>) returns (spends: SpendMap, ghost n: nat)
    ensures (forall i :: 0 <= i < n ==> i in doubleBlocks) && n !in doubleBlocks
    ensures Collected(spends, BlocksUpTo(doubleBlocks, n))
  {
    hide Collected;
    spends := map[];
    NothingCollected();
    var i: nat := 0;
    ghost var left := doubleBlocks.Keys;
    while i in doubleBlocks
      invariant forall k :: 0 <= k < i ==> k in doubleBlocks
      invariant forall k :: k in doubleBlocks && i <= k ==> k in left
      invariant Collected(spends, BlocksUpTo(doubleBlocks, i))
      decreases |left|
    {
      spends := CollectBlocks(spends, BlocksUpTo(doubleBlocks, i), doubleBlocks[i]);
      left := left - {i};
      i := i + 1;
    }
    n := i;
  }

  // ---------- Grouping the conflicts ----------

  /** Who is in conflict: the main chain's transaction and the other one, each with its block. */
  datatype Conflict = Conflict(mainBlock: Hash, mainTx: Hash, otherBlock: Hash, otherTx: Hash)

  /** One reported outpoint, and the conflict it is reported under. */
  datatype Entry = Entry(conflict: Conflict, outpoint: Outpoint)

  function ConflictOf(g: DoubleSpend, d: DoubleSpentOutpoint): Conflict {
    Conflict(g.block.blockHash, g.tx.txHash, d.alsoSpentInBlock.blockHash, d.alsoSpentInTx.txHash)
  }

  function GroupEntries(g: DoubleSpend): seq<Entry> {
    seq(|g.outpoints|, i requires 0 <= i < |g.outpoints| =>
      Entry(ConflictOf(g, g.outpoints[i]), g.outpoints[i].outpoint))
  }

  function Entries(groups: seq<DoubleSpend>): seq<Entry> {
    if groups == [] then [] else Entries(groups[..|groups| - 1]) + GroupEntries(groups[|groups| - 1])
  }

  /** The conflict that a group stands for: that of its first outpoint. */
  function ClassOf(g: DoubleSpend): Conflict
    requires g.outpoints != []
  {
    ConflictOf(g, g.outpoints[0])
  }

  /** All outpoints of a group are in the same conflict. */
  ghost predicate OneClass(g: DoubleSpend) {
    g.outpoints != [] && forall k :: 0 <= k < |g.outpoints| ==> ConflictOf(g, g.outpoints[k]) == ClassOf(g)
  }

  /** Every group stands for one conflict, and no two groups for the same. */
  ghost predicate WellGrouped(groups: seq<DoubleSpend>) {
    && (forall i :: 0 <= i < |groups| ==> OneClass(groups[i]))
    && (forall i, j :: 0 <= i < j < |groups| ==> ClassOf(groups[i]) != ClassOf(groups[j]))
  }

  function WithOutpoint(g: DoubleSpend, d: DoubleSpentOutpoint): DoubleSpend {
    g.(outpoints := g.outpoints + [d])
  }

  lemma GroupGrows(g: DoubleSpend, d: DoubleSpentOutpoint)
    ensures GroupEntries(WithOutpoint(g, d)) == GroupEntries(g) + [Entry(ConflictOf(g, d), d.outpoint)]
  {
  }

  lemma OfConcat(a: seq<Entry>, b: seq<Entry>)
    ensures multiset(a + b) == multiset(a) + multiset(b)
  {
  }

  lemma {:induction false} EntriesGrow(groups: seq<DoubleSpend>, i: nat, d: DoubleSpentOutpoint)
    requires i < |groups|
    ensures multiset(Entries(groups[i := WithOutpoint(groups[i], d)]))
      == multiset(Entries(groups)) + multiset{Entry(ConflictOf(groups[i], d), d.outpoint)}
  {
    hide GroupEntries, ConflictOf, WithOutpoint;
    var n := |groups| - 1;
    var groups' := groups[i := WithOutpoint(groups[i], d)];
    if i == n {
      assert groups'[..n] == groups[..n];
      GroupGrows(groups[n], d);
      assert Entries(groups') == Entries(groups) + [Entry(ConflictOf(groups[i], d), d.outpoint)];
    } else {
      assert groups'[..n] == groups[..n][i := WithOutpoint(groups[i], d)];
      EntriesGrow(groups[..n], i, d);
      OfConcat(Entries(groups'[..n]), GroupEntries(groups[n]));
      OfConcat(Entries(groups[..n]), GroupEntries(groups[n]));
    }
  }

  lemma EntriesAppend(groups: seq<DoubleSpend>, main: PotentialDoubleSpend, d: DoubleSpentOutpoint)
    ensures var g := DoubleSpend(main.tx, main.block, [d]);
      Entries(groups + [g]) == Entries(groups) + [Entry(ClassOf(g), d.outpoint)]
  {
    var g := DoubleSpend(main.tx, main.block, [d]);
    assert (groups + [g])[..|groups|] == groups;
    assert GroupEntries(g) == [Entry(ClassOf(g), d.outpoint)];
  }

  /** None of the first n groups stands for the conflict c. */
  ghost predicate NoneIs(groups: seq<DoubleSpend>, n: nat, c: Conflict)
    requires n <= |groups| && WellGrouped(groups)
  {
    forall k :: 0 <= k < n ==> ClassOf(groups[k]) != c
  }

  lemma JoinsGroup(groups: seq<DoubleSpend>, i: nat, j: nat, d: DoubleSpentOutpoint)
    requires WellGrouped(groups) && i < |groups| && j < |groups[i].outpoints|
    requires ConflictOf(groups[i], groups[i].outpoints[j]) == ConflictOf(groups[i], d)
    ensures WellGrouped(groups[i := WithOutpoint(groups[i], d)])
  {
    var groups', g := groups[i := WithOutpoint(groups[i], d)], WithOutpoint(groups[i], d);
    assert ClassOf(g) == ClassOf(groups[i]) == ConflictOf(groups[i], d);
    forall k | 0 <= k < |g.outpoints|
      ensures ConflictOf(g, g.outpoints[k]) == ClassOf(g)
    {
      if k < |groups[i].outpoints| {
        assert ConflictOf(g, g.outpoints[k]) == ConflictOf(groups[i], groups[i].outpoints[k]);
      }
    }
    forall k, l | 0 <= k < l < |groups'|
      ensures ClassOf(groups'[k]) != ClassOf(groups'[l])
    {
      assert ClassOf(groups[k]) != ClassOf(groups[l]);
    }
  }

  lemma OpensGroup(groups: seq<DoubleSpend>, g: DoubleSpend)
    requires WellGrouped(groups) && |g.outpoints| == 1 && NoneIs(groups, |groups|, ClassOf(g))
    ensures WellGrouped(groups + [g])
  {
  }

  lemma GroupNonEmpty(groups: seq<DoubleSpend>, i: nat)
    requires WellGrouped(groups) && i < |groups|
    ensures groups[i].outpoints != []
  {
  }

  /** The group list with one more conflicting outpoint: in the group of its conflict, or in a new one. */
  method AddConflict(groups0: seq<DoubleSpend>, main: PotentialDoubleSpend, dso: DoubleSpentOutpoint,
      ghost blocks: seq<Block>)
    returns (groups: seq<DoubleSpend>)
    requires WellGrouped(groups0) && Recorded(groups0, blocks)
    requires MainRecord(main, blocks) && OutpointRecord(dso, blocks)
    ensures WellGrouped(groups) && Recorded(groups, blocks)
    ensures multiset(Entries(groups)) == multiset(Entries(groups0))
      + multiset{Entry(ConflictOf(DoubleSpend(main.tx, main.block, []), dso), dso.outpoint)}
  {
    hide WellGrouped, Entries, WithOutpoint, Recorded, MainRecord, OutpointRecord;
    groups := groups0;
    ghost var c := ConflictOf(DoubleSpend(main.tx, main.block, []), dso);
    for i := 0 to |groups|
      invariant groups == groups0
      invariant NoneIs(groups0, i, c)
    {
      GroupNonEmpty(groups0, i);
      if groups[i].block.blockHash == main.block.blockHash && groups[i].tx.txHash == main.tx.txHash {
        for j := 0 to |groups[i].outpoints|
          invariant groups == groups0
          invariant j > 0 ==> ClassOf(groups0[i]) != c
        {
          var existing := groups[i].outpoints[j];
          if existing.alsoSpentInBlock.blockHash == dso.alsoSpentInBlock.blockHash
             && existing.alsoSpentInTx.txHash == dso.alsoSpentInTx.txHash {
            JoinsGroup(groups, i, j, dso);
            EntriesGrow(groups, i, dso);
            JoinsRecords(groups, i, dso, blocks);
            groups := groups[i := WithOutpoint(groups[i], dso)];
            return;
          }
        }
      }
    }
    OpensGroup(groups, DoubleSpend(main.tx, main.block, [dso]));
    EntriesAppend(groups, main, dso);
    OpensRecords(groups, main, dso, blocks);
    groups := groups + [DoubleSpend(main.tx, main.block, [dso])];
  }

  /** The position of the first spend in a block of the main chain, or the length of the list. */
  function FirstMain(spends: seq<PotentialDoubleSpend>): (i: nat)
    ensures i <= |spends|
    ensures i < |spends| ==> spends[i].block.mainChain
    ensures forall k :: 0 <= k < i ==> !spends[k].block.mainChain
  {
    if spends == [] then 0
    else
      var i := FirstMain(spends[..|spends| - 1]);
      if i < |spends| - 1 || spends[|spends| - 1].block.mainChain then i else |spends|
  }

  predicate Differs(s: PotentialDoubleSpend, main: PotentialDoubleSpend) {
    s.tx.txHash != main.tx.txHash && s.block.blockHash != main.block.blockHash
  }

  function EntryOf(o: Outpoint, main: PotentialDoubleSpend, s: PotentialDoubleSpend): Entry {
    Entry(Conflict(main.block.blockHash, main.tx.txHash, s.block.blockHash, s.tx.txHash), o)
  }

  /** What the spends of an outpoint give to report, against one main-chain spend. */
  function Against(o: Outpoint, main: PotentialDoubleSpend, spends: seq<PotentialDoubleSpend>): seq<Entry> {
    if spends == [] then []
    else
      var s := spends[|spends| - 1];
      Against(o, main, spends[..|spends| - 1]) + if Differs(s, main) then [EntryOf(o, main, s)] else []
  }

  function ToReport(o: Outpoint, spends: seq<PotentialDoubleSpend>): seq<Entry> {
    if FirstMain(spends) < |spends| then Against(o, spends[FirstMain(spends)], spends) else []
  }

  lemma {:induction false} AgainstHasOutpoint(o: Outpoint, main: PotentialDoubleSpend,
      spends: seq<PotentialDoubleSpend>)
    ensures forall e :: e in multiset(Against(o, main, spends)) ==> e.outpoint == o
  {
    if spends != [] { AgainstHasOutpoint(o, main, spends[..|spends| - 1]); }
  }

  /** The spends of one outpoint, each compared with the main chain's. */
  method AddSpends(groups0: seq<DoubleSpend>, o: Outpoint, main: PotentialDoubleSpend,
      spends: seq<PotentialDoubleSpend>, ghost blocks: seq<Block>)
    returns (groups: seq<DoubleSpend>)
    requires WellGrouped(groups0) && Recorded(groups0, blocks)
    requires MainRecord(main, blocks) && forall s :: s in spends ==> IsSpender(blocks, o, s.block, s.tx)
    ensures WellGrouped(groups) && Recorded(groups, blocks) &&
      multiset(Entries(groups)) == multiset(Entries(groups0)) + multiset(Against(o, main, spends))
  {
    hide WellGrouped, Entries, Against, Recorded, MainRecord, IsSpender;
    groups := groups0;
    NothingAgainst(o, main, spends);
    for j := 0 to |spends|
      invariant WellGrouped(groups) && Recorded(groups, blocks)
      invariant multiset(Entries(groups)) == multiset(Entries(groups0)) + multiset(Against(o, main, spends[..j]))
    {
      AgainstStep(o, main, spends, j);
      if spends[j].tx.txHash != main.tx.txHash && spends[j].block.blockHash != main.block.blockHash {
        assert spends[j] in spends;
        groups := AddConflict(groups, main, DoubleSpentOutpoint(o, spends[j].tx, spends[j].block), blocks);
      }
    }
    assert spends[..|spends|] == spends;
  }

  lemma NothingAgainst(o: Outpoint, main: PotentialDoubleSpend, spends: seq<PotentialDoubleSpend>)
    ensures multiset(Against(o, main, spends[..0])) == multiset{}
    ensures |spends| == 1 && spends[0] == main ==> Against(o, main, spends) == []
  {
    assert |spends| == 1 ==> Against(o, main, spends[..0]) == [];
  }

  /** The conflicts of one outpoint. */
  method AddOutpoint(groups0: seq<DoubleSpend>, o: Outpoint, spends: seq<PotentialDoubleSpend>,
      ghost blocks: seq<Block>)
    returns (groups: seq<DoubleSpend>)
    requires WellGrouped(groups0) && Recorded(groups0, blocks)
    requires forall s :: s in spends ==> IsSpender(blocks, o, s.block, s.tx)
    ensures WellGrouped(groups) && Recorded(groups, blocks) &&
      multiset(Entries(groups)) == multiset(Entries(groups0)) + multiset(ToReport(o, spends))
  {
    hide WellGrouped, Entries, Against, Recorded, SpendsOutpoint;
    groups := groups0;
    for i := 0 to |spends|
      invariant groups == groups0
      invariant forall k :: 0 <= k < i ==> !spends[k].block.mainChain
    {
      if spends[i].block.mainChain {
        assert FirstMain(spends) == i;
        if |spends| > 1 {
          assert spends[i] in spends;
          groups := AddSpends(groups, o, spends[i], spends, blocks);
        } else {
          NothingAgainst(o, spends[i], spends);
        }
        return;
      }
    }
  }

  /** A spend that stands for a group: of a supplied block of the main chain. */
  ghost predicate MainRecord(main: PotentialDoubleSpend, blocks: seq<Block>) {
    main.block in blocks && main.block.mainChain && main.tx in main.block.transactions
  }

  /** An entry of a group: a transaction of a supplied block that spends the outpoint. */
  ghost predicate OutpointRecord(d: DoubleSpentOutpoint, blocks: seq<Block>) {
    IsSpender(blocks, d.outpoint, d.alsoSpentInBlock, d.alsoSpentInTx)
  }

  ghost predicate RecordedGroup(g: DoubleSpend, blocks: seq<Block>) {
    && MainRecord(PotentialDoubleSpend(g.tx, g.block), blocks)
    && forall k :: 0 <= k < |g.outpoints| ==> OutpointRecord(g.outpoints[k], blocks)
  }

  /** All that is reported are records of supplied blocks. */
  ghost predicate Recorded(groups: seq<DoubleSpend>, blocks: seq<Block>) {
    forall i :: 0 <= i < |groups| ==> RecordedGroup(groups[i], blocks)
  }

  lemma JoinsRecords(groups: seq<DoubleSpend>, i: nat, d: DoubleSpentOutpoint, blocks: seq<Block>)
    requires Recorded(groups, blocks) && i < |groups| && OutpointRecord(d, blocks)
    ensures Recorded(groups[i := WithOutpoint(groups[i], d)], blocks)
  {
    hide MainRecord, OutpointRecord;
    var g := WithOutpoint(groups[i], d);
    assert RecordedGroup(groups[i], blocks);
    assert RecordedGroup(g, blocks);
  }

  lemma OpensRecords(groups: seq<DoubleSpend>, main: PotentialDoubleSpend, d: DoubleSpentOutpoint, blocks: seq<Block>)
    requires Recorded(groups, blocks) && MainRecord(main, blocks) && OutpointRecord(d, blocks)
    ensures Recorded(groups + [DoubleSpend(main.tx, main.block, [d])], blocks)
  {
    hide MainRecord, OutpointRecord;
    assert RecordedGroup(DoubleSpend(main.tx, main.block, [d]), blocks);
  }

  lemma ListedAreSpenders(spends: SpendMap, blocks: seq<Block>, o: Outpoint)
    requires Collected(spends, blocks) && o in spends
    ensures forall s :: s in spends[o] ==> IsSpender(blocks, o, s.block, s.tx)
  {
    hide SpendsIn, SpendsOutpoint;
    CollectedIs(spends, blocks, o);
    forall s | s in spends[o]
      ensures IsSpender(blocks, o, s.block, s.tx)
    {
      SpendsInIff(blocks, o, s);
    }
  }

  lemma AgainstStep(o: Outpoint, main: PotentialDoubleSpend, spends: seq<PotentialDoubleSpend>, j: nat)
    requires j < |spends|
    ensures multiset(Against(o, main, spends[..j + 1])) == multiset(Against(o, main, spends[..j]))
      + if Differs(spends[j], main) then multiset{EntryOf(o, main, spends[j])} else multiset{}
  {
    assert spends[..j + 1][..j] == spends[..j];
  }

  /** How often an outpoint is reported under a conflict. */
  ghost function Times(groups: seq<DoubleSpend>, e: Entry): nat {
    multiset(Entries(groups))[e]
  }

  /** How often the spends of its outpoint ask for it to be reported. */
  ghost function Due(spends: seq<PotentialDoubleSpend>, e: Entry): nat {
    multiset(ToReport(e.outpoint, spends))[e]
  }

  lemma DueElsewhere(o: Outpoint, spends: seq<PotentialDoubleSpend>, e: Entry)
    requires e.outpoint != o
    ensures multiset(ToReport(o, spends))[e] == 0
  {
    if FirstMain(spends) < |spends| { AgainstHasOutpoint(o, spends[FirstMain(spends)], spends); }
  }

  /** The whole report over the blocks of the branches in question: whatever the order in which the
      outpoints come, each is reported as often, and under those conflicts, as its spends ask. */
  method AnalyzeDoubleBlocks(doubleBlocks: map<nat, seq<Block>>) returns (doubleSpends: seq<DoubleSpend>, ghost n: nat)
    ensures (forall i :: 0 <= i < n ==> i in doubleBlocks) && n !in doubleBlocks
    ensures WellGrouped(doubleSpends) && Recorded(doubleSpends, BlocksUpTo(doubleBlocks, n))
    ensures forall e :: Times(doubleSpends, e) == Due(SpendsIn(BlocksUpTo(doubleBlocks, n), e.outpoint), e)
    ensures var blocks := BlocksUpTo(doubleBlocks, n);
      SuppliedOnce(blocks) && (forall o :: OnceOnMain(blocks, o)) ==> ReportsConflicts(doubleSpends, blocks)
  {
    hide SuppliedOnce, OnceOnMain, ReportsConflicts, Due, Times, Recorded;
    doubleSpends, n := AnalyzeSpends(doubleBlocks);
    if SuppliedOnce(BlocksUpTo(doubleBlocks, n)) && forall o :: OnceOnMain(BlocksUpTo(doubleBlocks, n), o) {
      ReportIsConflicts(doubleSpends, BlocksUpTo(doubleBlocks, n));
    }
  }

  /** The two loops of the report. */
  method AnalyzeSpends(doubleBlocks: map<nat, seq<Block>>) returns (doubleSpends: seq<DoubleSpend>, ghost n: nat)
    ensures (forall i :: 0 <= i < n ==> i in doubleBlocks) && n !in doubleBlocks
    ensures WellGrouped(doubleSpends) && Recorded(doubleSpends, BlocksUpTo(doubleBlocks, n))
    ensures forall e :: Times(doubleSpends, e) == Due(SpendsIn(BlocksUpTo(doubleBlocks, n), e.outpoint), e)
  {
    hide WellGrouped, Entries, ToReport, BlocksUpTo, Collected, RecordedGroup, IsSpender;
    var potentialDoubleSpends;
    potentialDoubleSpends, n := Collect(doubleBlocks);
    ghost var blocks := BlocksUpTo(doubleBlocks, n);
    doubleSpends := [];
    NothingReported(potentialDoubleSpends);
    var todo := potentialDoubleSpends.Keys;
    while todo != {}
      invariant WellGrouped(doubleSpends) && Recorded(doubleSpends, blocks) && todo <= potentialDoubleSpends.Keys
      invariant forall e ::
        Times(doubleSpends, e) == if e.outpoint in todo then
          0 else Due(SpendsListed(potentialDoubleSpends, e.outpoint), e)
      decreases |todo|
    {
      var o :| o in todo;
      todo := todo - {o};
      ghost var before := doubleSpends;
      ListedAreSpenders(potentialDoubleSpends, blocks, o);
      doubleSpends := AddOutpoint(doubleSpends, o, potentialDoubleSpends[o], blocks);
      forall e
        ensures Times(doubleSpends, e) ==
          if e.outpoint in todo then 0 else Due(SpendsListed(potentialDoubleSpends, e.outpoint), e)
      {
        assert Times(before, e) ==
          if e.outpoint in todo + {o} then 0 else Due(SpendsListed(potentialDoubleSpends, e.outpoint), e);
        if e.outpoint != o { DueElsewhere(o, potentialDoubleSpends[o], e); }
      }
    }
    forall e
      ensures Times(doubleSpends, e) == Due(SpendsIn(BlocksUpTo(doubleBlocks, n), e.outpoint), e)
    {
      CollectedIs(potentialDoubleSpends, BlocksUpTo(doubleBlocks, n), e.outpoint);
    }
  }

  lemma CollectedIs(spends: SpendMap, blocks: seq<Block>, o: Outpoint)
    requires Collected(spends, blocks)
    ensures SpendsListed(spends, o) == SpendsIn(blocks, o)
  {
  }

  lemma NothingReported(spends: map<Outpoint, seq<PotentialDoubleSpend>>)
    ensures WellGrouped([])
    ensures forall e ::
      Times([], e) == if e.outpoint in spends.Keys then 0 else Due(SpendsListed(spends, e.outpoint), e)
  {
  }

  // ---------- What the report says ----------

  lemma {:induction false} AgainstContains(o: Outpoint, main: PotentialDoubleSpend, spends: seq<PotentialDoubleSpend>,
      e: Entry)
    ensures multiset(Against(o, main, spends))[e] > 0 <==> exists i :: 0 <= i < |spends| && Gives(o, main, spends[i], e)
  {
    if spends == [] {
      NothingAgainst(o, main, spends);
    } else {
      hide Against, Gives;
      var n := |spends| - 1;
      AgainstContains(o, main, spends[..n], e);
      AgainstStep(o, main, spends, n);
      GivesMeans(o, main, spends[n], e);
      assert spends[..n + 1] == spends;
      assert forall i :: 0 <= i < n ==> spends[..n][i] == spends[i];
    }
  }

  /** The spend is in conflict with the main chain's, and e is how that is reported. */
  ghost predicate Gives(o: Outpoint, main: PotentialDoubleSpend, s: PotentialDoubleSpend, e: Entry) {
    Differs(s, main) && e == EntryOf(o, main, s)
  }

  lemma GivesMeans(o: Outpoint, main: PotentialDoubleSpend, s: PotentialDoubleSpend, e: Entry)
    ensures Gives(o, main, s, e) <==> Differs(s, main) && multiset{EntryOf(o, main, s)}[e] > 0
  {
  }

  /** The main chain spends the outpoint at most once. */
  ghost predicate OneMainSpend(spends: seq<PotentialDoubleSpend>) {
    forall i, j :: 0 <= i < j < |spends| && spends[i].block.mainChain ==> !spends[j].block.mainChain
  }

  /** An outpoint is reported under a conflict exactly when the main chain spends it in one of the two
      transactions, and the other, in another block, spends it too. */
  lemma ReportedIff(spends: seq<PotentialDoubleSpend>, e: Entry)
    requires OneMainSpend(spends)
    ensures Due(spends, e) > 0 <==>
      exists i, j :: 0 <= i < |spends| && 0 <= j < |spends| && spends[i].block.mainChain
        && Gives(e.outpoint, spends[i], spends[j], e)
  {
    var f := FirstMain(spends);
    if f < |spends| {
      AgainstContains(e.outpoint, spends[f], spends, e);
    }
    forall i | 0 <= i < |spends| && spends[i].block.mainChain
      ensures i == f
    {
    }
  }

  lemma {:induction false} AgainstOnce(o: Outpoint, main: PotentialDoubleSpend, spends: seq<PotentialDoubleSpend>,
      e: Entry)
    requires forall i, j :: 0 <= i < j < |spends| ==>
      spends[i].block.blockHash != spends[j].block.blockHash || spends[i].tx.txHash != spends[j].tx.txHash
    ensures multiset(Against(o, main, spends))[e] <= 1
  {
    if spends != [] {
      var n := |spends| - 1;
      AgainstOnce(o, main, spends[..n], e);
      if e == EntryOf(o, main, spends[n]) {
        AgainstContains(o, main, spends[..n], e);
        assert forall i :: 0 <= i < n ==> spends[..n][i] == spends[i];
      }
    }
  }

  /** When no spend is listed twice, nothing is reported twice. */
  lemma ReportedOnce(spends: seq<PotentialDoubleSpend>, e: Entry)
    requires Different(spends)
    ensures Due(spends, e) <= 1
  {
    if FirstMain(spends) < |spends| { AgainstOnce(e.outpoint, spends[FirstMain(spends)], spends, e); }
  }

  /** The outpoints of a group, read off the report as a whole: the groups are its conflict classes. */
  lemma {:induction false} GroupIsClass(groups: seq<DoubleSpend>, i: nat, e: Entry)
    requires WellGrouped(groups) && i < |groups|
    requires e.conflict == ClassOf(groups[i])
    ensures Times(groups, e) == multiset(GroupEntries(groups[i]))[e]
  {
    hide OneClass, GroupEntries;
    var n := |groups| - 1;
    if i == n {
      NotInOthers(groups[..n], e);
    } else {
      GroupIsClass(groups[..n], i, e);
      GroupHasClass(groups[n], e);
    }
  }

  lemma GroupHasClass(g: DoubleSpend, e: Entry)
    requires OneClass(g) && ClassOf(g) != e.conflict
    ensures multiset(GroupEntries(g))[e] == 0
  {
    assert forall x :: x in GroupEntries(g) ==> x.conflict == ClassOf(g);
  }

  lemma {:induction false} NotInOthers(groups: seq<DoubleSpend>, e: Entry)
    requires WellGrouped(groups) && NoneIs(groups, |groups|, e.conflict)
    ensures Times(groups, e) == 0
  {
    hide OneClass, GroupEntries;
    if groups != [] {
      var n := |groups| - 1;
      NotInOthers(groups[..n], e);
      GroupHasClass(groups[n], e);
    }
  }

  // ---------- The report in terms of the blocks ----------

  predicate SpendsAt(txi: TransactionInput, o: Outpoint) {
    txi.txHash != ZERO_HASH && Outpoint(txi.txHash, txi.txoIndex) == o
  }

  /** Some input of the transaction names the outpoint; the zero hash names none. */
  predicate SpendsOutpoint(tx: Transaction, o: Outpoint) {
    exists i :: 0 <= i < |tx.inputs| && SpendsAt(tx.inputs[i], o)
  }

  lemma {:induction false} InputsHold(block: Block, tx: Transaction, n: nat, o: Outpoint, s: PotentialDoubleSpend)
    requires n <= |tx.inputs|
    ensures s in SpendsByInputs(block, tx, n, o) <==>
      s == PotentialDoubleSpend(tx, block) && exists i :: 0 <= i < n && SpendsAt(tx.inputs[i], o)
  {
    if n > 0 {
      InputsHold(block, tx, n - 1, o, s);
      var before := SpendsByInputs(block, tx, n - 1, o);
      if SpendsAt(tx.inputs[n - 1], o) {
        assert SpendsByInputs(block, tx, n, o) == before + [PotentialDoubleSpend(tx, block)];
      } else {
        assert SpendsByInputs(block, tx, n, o) == before;
      }
    }
  }

  lemma {:induction false} TxsHold(block: Block, n: nat, o: Outpoint, s: PotentialDoubleSpend)
    requires n <= |block.transactions|
    ensures s in SpendsByTxs(block, n, o) <==>
      s.block == block && s.tx in block.transactions[..n] && SpendsOutpoint(s.tx, o)
  {
    hide SpendsByInputs, SpendsAt;
    if n > 0 {
      var tx := block.transactions[n - 1];
      TxsHold(block, n - 1, o, s);
      InputsHold(block, tx, |tx.inputs|, o, s);
      assert block.transactions[..n] == block.transactions[..n - 1] + [tx];
    }
  }

  /** The collector holds exactly the spends of the outpoint by transactions of the blocks. */
  lemma {:induction false} SpendsInIff(blocks: seq<Block>, o: Outpoint, s: PotentialDoubleSpend)
    ensures s in SpendsIn(blocks, o) <==>
      s.block in blocks && s.tx in s.block.transactions && SpendsOutpoint(s.tx, o)
  {
    hide SpendsByTxs, SpendsOutpoint;
    if blocks != [] {
      var n := |blocks| - 1;
      var b := blocks[n];
      SpendsInIff(blocks[..n], o, s);
      TxsHold(b, |b.transactions|, o, s);
      assert b.transactions[..|b.transactions|] == b.transactions;
      assert blocks == blocks[..n] + [b];
    }
  }

  /** No block, no transaction of a block, and no outpoint of a transaction is there twice. */
  ghost predicate SuppliedOnce(blocks: seq<Block>) {
    && (forall i, j :: 0 <= i < j < |blocks| ==> blocks[i].blockHash != blocks[j].blockHash)
    && (forall i :: 0 <= i < |blocks| ==> TransactionsOnce(blocks[i]))
  }

  ghost predicate TransactionsOnce(block: Block) {
    && (forall i, j :: 0 <= i < j < |block.transactions| ==>
          block.transactions[i].txHash != block.transactions[j].txHash)
    && (forall i :: 0 <= i < |block.transactions| ==> InputsOnce(block.transactions[i]))
  }

  ghost predicate InputsOnce(tx: Transaction) {
    forall i, j, o :: 0 <= i < j < |tx.inputs| && SpendsAt(tx.inputs[i], o) ==> !SpendsAt(tx.inputs[j], o)
  }

  /** No two spends of the list are by the same transaction of the same block. */
  ghost predicate Different(spends: seq<PotentialDoubleSpend>) {
    forall i, j :: 0 <= i < j < |spends| ==>
      spends[i].block.blockHash != spends[j].block.blockHash || spends[i].tx.txHash != spends[j].tx.txHash
  }

  lemma DifferentConcat(a: seq<PotentialDoubleSpend>, b: seq<PotentialDoubleSpend>)
    requires Different(a) && Different(b)
    requires forall x, y :: x in a && y in b ==> x.block.blockHash != y.block.blockHash || x.tx.txHash != y.tx.txHash
    ensures Different(a + b)
  {
  }

  lemma {:induction false} InputsAreDifferent(block: Block, tx: Transaction, n: nat, o: Outpoint)
    requires n <= |tx.inputs| && InputsOnce(tx)
    ensures |SpendsByInputs(block, tx, n, o)| <= 1
    ensures SpendsByInputs(block, tx, n, o) != [] ==> exists i :: 0 <= i < n && SpendsAt(tx.inputs[i], o)
  {
    if n > 0 { InputsAreDifferent(block, tx, n - 1, o); }
  }

  lemma {:induction false} TxsAreDifferent(block: Block, n: nat, o: Outpoint)
    requires n <= |block.transactions| && TransactionsOnce(block)
    ensures Different(SpendsByTxs(block, n, o))
  {
    hide SpendsByInputs, SpendsOutpoint, SpendsAt, InputsOnce;
    if n > 0 {
      var tx := block.transactions[n - 1];
      var a, b := SpendsByTxs(block, n - 1, o), SpendsByInputs(block, tx, |tx.inputs|, o);
      TxsAreDifferent(block, n - 1, o);
      InputsAreDifferent(block, tx, |tx.inputs|, o);
      forall x, y | x in a && y in b
        ensures x.tx.txHash != y.tx.txHash
      {
        TxsHold(block, n - 1, o, x);
        InputsHold(block, tx, |tx.inputs|, o, y);
      }
      DifferentConcat(a, b);
    }
  }

  lemma {:induction false} SpendsAreDifferent(blocks: seq<Block>, o: Outpoint)
    requires SuppliedOnce(blocks)
    ensures Different(SpendsIn(blocks, o))
  {
    hide SpendsByTxs, SpendsOutpoint, TransactionsOnce;
    if blocks != [] {
      var n := |blocks| - 1;
      var a, b := SpendsIn(blocks[..n], o), SpendsByTxs(blocks[n], |blocks[n].transactions|, o);
      SpendsAreDifferent(blocks[..n], o);
      TxsAreDifferent(blocks[n], |blocks[n].transactions|, o);
      forall x, y | x in a && y in b
        ensures x.block.blockHash != y.block.blockHash
      {
        SpendsInIff(blocks[..n], o, x);
        TxsHold(blocks[n], |blocks[n].transactions|, o, y);
      }
      DifferentConcat(a, b);
    }
  }

  /** A transaction of a supplied block spends the outpoint. */
  ghost predicate IsSpender(blocks: seq<Block>, o: Outpoint, b: Block, tx: Transaction) {
    b in blocks && tx in b.transactions && SpendsOutpoint(tx, o)
  }

  /** The main chain spends the outpoint at most once. */
  ghost predicate OnceOnMain(blocks: seq<Block>, o: Outpoint) {
    forall b: Block, tx, c: Block, ux ::
      b.mainChain && c.mainChain && IsSpender(blocks, o, b, tx) && IsSpender(blocks, o, c, ux) ==> b == c && tx == ux
  }

  /** The main chain spends the outpoint of the entry in the one transaction of its conflict, and another block in the
      other. */
  ghost predicate InConflict(blocks: seq<Block>, e: Entry) {
    exists b: Block, tx, c: Block, ux ::
      && IsSpender(blocks, e.outpoint, b, tx) && b.mainChain && IsSpender(blocks, e.outpoint, c, ux)
      && tx.txHash != ux.txHash && b.blockHash != c.blockHash
      && e.conflict == Conflict(b.blockHash, tx.txHash, c.blockHash, ux.txHash)
  }

  lemma MainAtMostOnce(blocks: seq<Block>, o: Outpoint)
    requires SuppliedOnce(blocks) && OnceOnMain(blocks, o)
    ensures OneMainSpend(SpendsIn(blocks, o)) && Different(SpendsIn(blocks, o))
  {
    hide SuppliedOnce, SpendsIn, SpendsOutpoint;
    SpendsAreDifferent(blocks, o);
    var spends := SpendsIn(blocks, o);
    forall i, j | 0 <= i < j < |spends| && spends[i].block.mainChain
      ensures !spends[j].block.mainChain
    {
      SpendsInIff(blocks, o, spends[i]);
      SpendsInIff(blocks, o, spends[j]);
      assert IsSpender(blocks, o, spends[i].block, spends[i].tx) && IsSpender(blocks, o, spends[j].block, spends[j].tx);
    }
  }

  lemma GivesConflict(blocks: seq<Block>, e: Entry, s: PotentialDoubleSpend, t: PotentialDoubleSpend)
    requires s in SpendsIn(blocks, e.outpoint) && t in SpendsIn(blocks, e.outpoint)
    requires s.block.mainChain && Gives(e.outpoint, s, t, e)
    ensures InConflict(blocks, e)
  {
    hide SpendsIn, SpendsOutpoint;
    SpendsInIff(blocks, e.outpoint, s);
    SpendsInIff(blocks, e.outpoint, t);
    assert IsSpender(blocks, e.outpoint, s.block, s.tx) && IsSpender(blocks, e.outpoint, t.block, t.tx);
  }

  lemma ConflictGives(blocks: seq<Block>, e: Entry)
    requires InConflict(blocks, e)
    ensures exists i, j :: var spends := SpendsIn(blocks, e.outpoint);
      && 0 <= i < |spends| && 0 <= j < |spends| && spends[i].block.mainChain &&
        Gives(e.outpoint, spends[i], spends[j], e)
  {
    hide SpendsIn, SpendsOutpoint;
    var spends := SpendsIn(blocks, e.outpoint);
    var b, tx, c, ux :|
      && IsSpender(blocks, e.outpoint, b, tx) && b.mainChain && IsSpender(blocks, e.outpoint, c, ux)
      && tx.txHash != ux.txHash && b.blockHash != c.blockHash
      && e.conflict == Conflict(b.blockHash, tx.txHash, c.blockHash, ux.txHash);
    var s, t := PotentialDoubleSpend(tx, b), PotentialDoubleSpend(ux, c);
    SpendsInIff(blocks, e.outpoint, s);
    SpendsInIff(blocks, e.outpoint, t);
    var i :| 0 <= i < |spends| && spends[i] == s;
    var j :| 0 <= j < |spends| && spends[j] == t;
    assert Gives(e.outpoint, spends[i], spends[j], e);
  }

  /** When everything is supplied once, and the main chain spends the outpoint at most once, an entry is due once if
      its two transactions are in conflict over the outpoint, and never otherwise. */
  lemma ReportIff(blocks: seq<Block>, e: Entry)
    requires SuppliedOnce(blocks) && OnceOnMain(blocks, e.outpoint)
    ensures Due(SpendsIn(blocks, e.outpoint), e) == if InConflict(blocks, e) then 1 else 0
  {
    hide SuppliedOnce, OnceOnMain, SpendsIn, InConflict, Due, Gives;
    var spends := SpendsIn(blocks, e.outpoint);
    MainAtMostOnce(blocks, e.outpoint);
    ReportedIff(spends, e);
    ReportedOnce(spends, e);
    if Due(spends, e) > 0 {
      var i, j :| 0 <= i < |spends| && 0 <= j < |spends| && spends[i].block.mainChain
        && Gives(e.outpoint, spends[i], spends[j], e);
      GivesConflict(blocks, e, spends[i], spends[j]);
    }
    if InConflict(blocks, e) { ConflictGives(blocks, e); }
  }

  /** The report in full: exactly the conflicts, each outpoint once. */
  ghost predicate ReportsConflicts(groups: seq<DoubleSpend>, blocks: seq<Block>) {
    forall e :: Times(groups, e) == if InConflict(blocks, e) then 1 else 0
  }

  lemma ReportIsConflicts(groups: seq<DoubleSpend>, blocks: seq<Block>)
    requires SuppliedOnce(blocks) && forall o :: OnceOnMain(blocks, o)
    requires forall e :: Times(groups, e) == Due(SpendsIn(blocks, e.outpoint), e)
    ensures ReportsConflicts(groups, blocks)
  {
    hide SuppliedOnce, OnceOnMain, SpendsIn, InConflict, Due, Times;
    forall e
      ensures Times(groups, e) == if InConflict(blocks, e) then 1 else 0
    {
      ReportIff(blocks, e);
    }
  }
}
