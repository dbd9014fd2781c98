/** The fork choice, and the two walks that use it: parent to child when the index is updated, and
    level by level when double spends are looked for. */
module BlockFileWatcher {
  import opened BlockchainTypes
  import opened Ledger
  import opened IndexStore
  import opened Numbering
  import opened TightNumbering
  import opened BlockForest
  import opened BlockIndexer
  import opened Reorg
  import opened HttpServer

  /** The number of candidates still in the race. */
  function Alive(next: seq<Hash>): (n: nat)
    ensures n <= |next|
  {
    if next == [] then 0 else Alive(next[..|next| - 1]) + if next[|next| - 1] != "" then 1 else 0
  }

  lemma {:induction false} AliveUpdate(next: seq<Hash>, i: nat, h: Hash)
    requires i < |next|
    ensures Alive(next[i := h]) == Alive(next) - (if next[i] != "" then 1 else 0) + (if h != "" then 1 else 0)
  {
    var n := |next| - 1;
    if i == n {
      assert next[i := h][..n] == next[..n];
    } else {
      assert next[i := h][..n] == next[..n][i := h];
      AliveUpdate(next[..n], i, h);
    }
  }

  lemma {:induction false} AliveOne(next: seq<Hash>, i: nat, j: nat)
    requires i < j < |next| && next[i] != "" && next[j] != ""
    ensures Alive(next) >= 2
  {
    var n := |next| - 1;
    if j < n { AliveOne(next[..n], i, j); } else { AliveSome(next[..n], i); }
  }
  lemma {:induction false} AliveSome(next: seq<Hash>, i: nat)
    requires i < |next| && next[i] != ""
    ensures Alive(next) >= 1
  {
    var n := |next| - 1;
    if i < n { AliveSome(next[..n], i); }
  }
  lemma {:induction false} AliveAll(next: seq<Hash>)
    requires forall i :: 0 <= i < |next| ==> next[i] != ""
    ensures Alive(next) == |next|
  {
    if next != [] { AliveAll(next[..|next| - 1]); }
  }
  lemma {:induction false} AliveNone(next: seq<Hash>)
    requires forall i :: 0 <= i < |next| ==> next[i] == ""
    ensures Alive(next) == 0
  {
    if next != [] { AliveNone(next[..|next| - 1]); }
  }

  class BlockFileWatcher {
    const blockIndexer: BlockIndexer

    /** What the block reader returns for a file name, a position and a height. */
    const readBlock: (string, nat, nat) -> Block

    var blocks: BlockMap
    var blocksByHeight: map<nat, seq<ScannedBlock>>
    var blockHeight: nat

    constructor (indexer: BlockIndexer, reader: (string, nat, nat) -> Block)
      ensures blockIndexer == indexer && readBlock == reader
      ensures blocks == map[] && blocksByHeight == map[]
    {
      blockIndexer, readBlock := indexer, reader;
      blocks, blocksByHeight, blockHeight := map[], map[], 0;
    }

    /** The loop that looks for a block's hash in a list. */
    static method IsAmong(matchingBlocks: seq<ScannedBlock>, blockHash: Hash) returns (blockFound: bool)
      ensures blockFound <==> HasHash(matchingBlocks, blockHash)
    {
      blockFound := false;
      for j := 0 to |matchingBlocks|
        invariant blockFound <==> exists i :: 0 <= i < j && matchingBlocks[i].blockHash == blockHash
      {
        if matchingBlocks[j].blockHash == blockHash { blockFound := true; }
      }
    }

    /** Adds what one block file holds, a block that is there already left out. */
    method ScanBlocks(scanned: seq<ScannedBlock>)
      modifies this`blocks
      ensures blocks == Group(old(blocks), scanned)
    {
      for i := 0 to |scanned|
        invariant blocks == Group(old(blocks), scanned[..i])
      {
        var block := scanned[i];
        assert scanned[..i + 1][..i] == scanned[..i];
        if block.previousBlockHash !in blocks {
          blocks := blocks[block.previousBlockHash := []];
        }
        var matchingBlocks := blocks[block.previousBlockHash];
        var blockFound := IsAmong(matchingBlocks, block.blockHash);
        if !blockFound {
          blocks := blocks[block.previousBlockHash := blocks[block.previousBlockHash] + [block]];
        }
      }
      assert scanned[..|scanned|] == scanned;
    }

    /** The block files of the directory, one after another. */
    method ScanBlockFiles(files: seq<seq<ScannedBlock>>)
      modifies this`blocks
      ensures blocks == Group(old(blocks), Flat(files))
    {
      for i := 0 to |files|
        invariant blocks == Group(old(blocks), Flat(files[..i]))
      {
        GroupTwice(old(blocks), Flat(files[..i]), files[i]);
        assert files[..i + 1][..i] == files[..i];
        ScanBlocks(files[i]);
      }
      assert files[..|files|] == files;
    }

    /** The race: every turn moves one candidate's pointer one block on, to the best block of a fork,
        and the last pointer that is not at an end names the candidate. */
    method FindLongestChain(matchingBlocks: seq<ScannedBlock>, ghost lv: Levels, ghost floor: nat)
      returns (best: ScannedBlock)
      requires matchingBlocks != []
      requires Forest(blocks, lv) && NoEmptyLists(blocks, lv, floor) && floor <= lv.bound
      requires forall b :: b in matchingBlocks ==> b.blockHash != "" && lv.depth(b.blockHash) >= floor
      ensures best == matchingBlocks[Choice(blocks, lv, matchingBlocks)]
      decreases lv.bound - floor
    {
      hide RaceState, Choice, Height, Alive;
      var n := |matchingBlocks|;
      var next: seq<Hash> := [];
      for i := 0 to n
        invariant |next| == i
        invariant forall j :: 0 <= j < i ==> next[j] == matchingBlocks[j].blockHash
      {
        next := next + [matchingBlocks[i].blockHash];
      }
      RaceStarts(blocks, lv, matchingBlocks, next, floor);
      ghost var top := Height(blocks, lv, matchingBlocks[Choice(blocks, lv, matchingBlocks)].blockHash);
      ghost var round: nat := 0;
      while true
        invariant RaceState(blocks, lv, matchingBlocks, next, 0, round, floor)
        invariant |next| == n && Alive(next) >= 1
        decreases top - round
      {
        for i := 0 to n
          invariant RaceState(blocks, lv, matchingBlocks, next, i, round, floor)
          invariant |next| == n && Alive(next) >= 1
        {
          var countChains := 0;
          for k := 0 to n
            invariant countChains == Alive(next[..k])
          {
            AliveStep(next, k);
            if next[k] != "" { countChains := countChains + 1; }
          }
          assert next[..n] == next;
          if countChains == 1 {
            for k := 0 to n
              invariant forall j :: 0 <= j < k ==> next[j] == ""
            {
              if next[k] != "" {
                LastAlive(blocks, lv, matchingBlocks, next, i, round, floor, k);
                return matchingBlocks[k];
              }
            }
            AliveNone(next);
            assert false;
          }
          if next[i] !in blocks {
            RaceEnds(blocks, lv, matchingBlocks, next, i, round, floor);
            next := next[i := ""];
          } else {
            RaceMeets(blocks, lv, matchingBlocks, next, i, round, floor);
            var successors := blocks[next[i]];
            var bestBlock := successors[0];
            if |successors| > 1 {
              bestBlock := FindLongestChain(successors, lv, lv.depth(next[i]) + 1);
            } else {
              OnlyChoice(blocks, lv, successors);
            }
            RaceAdvances(blocks, lv, matchingBlocks, next, i, round, floor);
            next := next[i := bestBlock.blockHash];
          }
        }
        RaceRound(blocks, lv, matchingBlocks, next, round, floor);
        round := round + 1;
        TopAlive(blocks, lv, matchingBlocks, next, round, floor);
      }
    }

    /** Files the blocks of one level under their height, the one on the main chain marked, and collects
        their successors. Looking a leaf up leaves an empty list under its hash. */
    method IndexBlocksByHeight(height: nat, matchingBlocks: seq<ScannedBlock>, blockOnMainChain: ScannedBlock)
      returns (followUpBlocks: seq<ScannedBlock>)
      modifies this`blocks, this`blocksByHeight
      ensures var known := FiledAt(old(blocksByHeight), height);
        && followUpBlocks == NextLevel(old(blocks), Fresh(matchingBlocks, known))
        && blocksByHeight == old(blocksByHeight)[height :=
          known + MarkAll(Fresh(matchingBlocks, known), blockOnMainChain.blockHash)]
      ensures LeavesAdded(old(blocks), blocks, matchingBlocks)
    {
      hide *;
      ghost var before, filed, main := blocks, blocksByHeight, blockOnMainChain.blockHash;
      ghost var known := FiledAt(blocksByHeight, height);
      followUpBlocks := [];
      if height !in blocksByHeight {
        blocksByHeight := blocksByHeight[height := []];
      }
      var matchingKnownBlocks := blocksByHeight[height];
      NothingFiled(before, filed, height, matchingBlocks, main);
      for i := 0 to |matchingBlocks|
        invariant matchingKnownBlocks == known && height in blocksByHeight
        invariant Filing(before, filed, height, Fresh(matchingBlocks[..i], known), main, followUpBlocks, blocksByHeight)
        invariant LeavesAdded(before, blocks, matchingBlocks)
      {
        var matchingBlock := matchingBlocks[i];
        FreshStep(matchingBlocks, i, known);
        FilingStep(
          before, filed, height, Fresh(matchingBlocks[..i], known), main,
          followUpBlocks, blocksByHeight, matchingBlock);
        LeafAdded(before, blocks, matchingBlocks, i);
        if matchingBlock.blockHash == blockOnMainChain.blockHash {
          matchingBlock := matchingBlock.(mainChain := true);
        }
        var blockFound := IsAmong(matchingKnownBlocks, matchingBlock.blockHash);
        if !blockFound {
          blocksByHeight := blocksByHeight[height := blocksByHeight[height] + [matchingBlock]];
          if matchingBlock.blockHash !in blocks {
            blocks := blocks[matchingBlock.blockHash := []];
          }
          followUpBlocks := followUpBlocks + blocks[matchingBlock.blockHash];
        }
      }
      FilingEnds(before, filed, height, Fresh(matchingBlocks, known), main, followUpBlocks, blocksByHeight);
      assert matchingBlocks[..|matchingBlocks|] == matchingBlocks;
    }

    /** The level walk with which the search for double spends begins. */
    method DumpDoubleSpends(files: seq<seq<ScannedBlock>>, ghost lv: Levels) returns (ghost best: seq<ScannedBlock>)
      requires blocks == map[] && blocksByHeight == map[] && ForestScan(Flat(files), lv)
      modifies this`blocks, this`blocksByHeight
      ensures var scan := Group(map[], Flat(files));
        && Forest(scan, lv) && best == BestChain(scan, lv, ZERO_HASH)
        && Filed(blocksByHeight, scan, best, |best|)
    {
      hide *;
      ScanBlockFiles(files);
      ghost var scan := blocks;
      if ZERO_HASH !in blocks { blocks := blocks[ZERO_HASH := []]; }
      var matchingBlocks := blocks[ZERO_HASH];
      ghost var prev := ZERO_HASH;
      best := WalkStarts(Flat(files), scan, blocks, lv, matchingBlocks);
      NothingFiledYet(blocksByHeight, scan, best);
      var i := 0;
      while |matchingBlocks| > 0
        invariant i <= |best| && Forest(scan, lv) && HashesAreUnique(scan) && Unmarked(scan)
        invariant best == BestChain(scan, lv, ZERO_HASH)
        invariant MapState(scan, blocks, lv, i) && ListState(scan, lv, i, matchingBlocks, prev, best)
        invariant Filed(blocksByHeight, scan, best, i)
        decreases |best| - i
      {
        ghost var level, before := matchingBlocks, blocks;
        LevelMeets(scan, blocks, lv, i, level, prev, best);
        FiledStep(blocksByHeight, scan, lv, best, i, level, prev);
        i := i + 1;
        var blockOnMainChain := FindLongestChain(matchingBlocks, lv, lv.depth(ZERO_HASH) + i);
        matchingBlocks := IndexBlocksByHeight(i, matchingBlocks, blockOnMainChain);
        LevelAdvances(scan, before, blocks, lv, i - 1, level, prev, best, matchingBlocks);
        prev := blockOnMainChain.blockHash;
      }
      ChoiceIsBest(scan, lv, i, matchingBlocks, prev, best);
    }

    method BestBlock(matchingBlocks: seq<ScannedBlock>, ghost lv: Levels) returns (best: ScannedBlock)
      requires matchingBlocks != [] && Forest(blocks, lv) && NoEmptyLists(blocks, lv, 0)
      requires forall b :: b in matchingBlocks ==> b.blockHash != ""
      ensures best == matchingBlocks[Choice(blocks, lv, matchingBlocks)]
    {
      best := matchingBlocks[0];
      if |matchingBlocks| > 1 {
        best := FindLongestChain(matchingBlocks, lv, 0);
      } else {
        OnlyChoice(blocks, lv, matchingBlocks);
      }
    }

    /** The next block of the chain goes to the indexer, unless it is indexed at this height already. */
    method ProcessNextBlock(prevBlockHash: Hash, ghost lv: Levels) returns (processed: Hash)
      requires Forest(blocks, lv) && NoEmptyLists(blocks, lv, 0)
      modifies blockIndexer, blockIndexer.mempoolMonitor
      ensures Children(blocks, prevBlockHash) == [] ==>
        && processed == "" && NumbersOf(blockIndexer) == old(NumbersOf(blockIndexer))
        && (old(blockIndexer.Valid()) ==> blockIndexer.Valid() && ViewOf(blockIndexer) == old(ViewOf(blockIndexer)))
      ensures Children(blocks, prevBlockHash) != [] ==>
        var b := Children(blocks, prevBlockHash)[Choice(blocks, lv, Children(blocks, prevBlockHash))];
        var full := readBlock(b.fileName, b.filePosition, blockHeight);
        && processed == b.blockHash != ""
        && NumbersOf(blockIndexer) ==
          SentTo(old(NumbersOf(blockIndexer)), b, full, blockHeight, blockIndexer.addressesOf)
        && (old(blockIndexer.Valid() &&
          MayTake(NumbersOf(blockIndexer), ViewOf(blockIndexer), b, full, blockHeight)) ==>
              && blockIndexer.Valid() && Advanced(old(ViewOf(blockIndexer)), ViewOf(blockIndexer), full)
              && (old(Cached(blockIndexer)) ==> Cached(blockIndexer)))
    {
      if prevBlockHash !in blocks { return ""; }
      var matchingBlocks := blocks[prevBlockHash];
      if |matchingBlocks| > 0 {
        hide Choice, Forest, MayTake, SentTo, Advanced, Cached, NumbersOf, ViewOf, BlockIndexer.Valid;
        NamedBlocks(blocks, lv, prevBlockHash);
        var bestBlock := BestBlock(matchingBlocks, lv);
        IndexOne(bestBlock);
        return bestBlock.blockHash;
      } else {
        return "";
      }
    }

    /** One update: scan the block files, then follow the fork choice from the genesis block to a tip. */
    method UpdateIndex(files: seq<seq<ScannedBlock>>, ghost lv: Levels) returns (ghost path: seq<ScannedBlock>)
      requires blockIndexer.Valid() && blocks == map[]
      requires ForestScan(Flat(files), lv) && Faithful(Flat(files), readBlock)
      requires Follows(ViewOf(blockIndexer), Flat(files), readBlock)
      requires MayNumber(
        NumbersOf(blockIndexer), blockIndexer.chain, ReadChain(readBlock, Picked(Flat(files), lv)),
          Cached(blockIndexer))
      modifies this, blockIndexer, blockIndexer.mempoolMonitor
      ensures blockIndexer.Valid() && blocks == map[]
      ensures path == Picked(Flat(files), lv)
      ensures Linked(Flat(files), ZERO_HASH, path) && Chosen(Flat(files), ZERO_HASH, path)
      ensures blockHeight == |path| && ByHeight(ReadChain(readBlock, path)) && |old(blockIndexer.chain)| <= |path|
      ensures WalkState(old(ViewOf(blockIndexer)), ViewOf(blockIndexer), ReadChain(readBlock, path), |path|)
      ensures Follows(ViewOf(blockIndexer), Flat(files), readBlock)
      ensures old(Cached(blockIndexer)) ==> Cached(blockIndexer)
      ensures Cached(blockIndexer) || Tight(blockIndexer.db, blockIndexer.nextTxoIndex)
    {
      hide *;
      ghost var scanned, s0, cached := Flat(files), ViewOf(blockIndexer), Cached(blockIndexer);
      ViewIs(blockIndexer);
      FollowsReads(scanned, lv, readBlock, s0);
      FollowsIs(s0, scanned, readBlock);
      blockHeight := 0;
      ScanBlockFiles(files);
      path := UpdateFacts(scanned, lv, readBlock, s0);
      NoShorter(scanned, path, s0);
      ghost var full := ReadChain(readBlock, path);
      var processedBlock := WalkOn(ZERO_HASH, lv, scanned, path, s0, cached);
      while processedBlock != ""
        invariant blocks == Group(map[], scanned) && blockIndexer.Valid()
        invariant blockHeight + (if processedBlock == "" then 0 else 1) <= |path|
        invariant processedBlock == "" ==> blockHeight == |path|
        invariant processedBlock != "" ==>
          processedBlock == path[blockHeight].blockHash
          && lv.depth(processedBlock) == lv.depth(ZERO_HASH) + blockHeight + 1
          && BestChain(blocks, lv, processedBlock) == path[blockHeight + 1..]
        invariant WalkState(s0, ViewOf(blockIndexer), full, blockHeight + if processedBlock == "" then 0 else 1)
        invariant MayNumber(NumbersOf(blockIndexer), s0.chain, full, cached)
        decreases |path| - blockHeight
      {
        blockHeight := blockHeight + 1;
        var nextBlock := processedBlock;
        processedBlock := WalkOn(nextBlock, lv, scanned, path, s0, cached);
      }
      blocks := map[];
      WalkEnds(scanned, lv, readBlock, path, s0, ViewOf(blockIndexer));
      NumberingEnds(blockIndexer, s0.chain, full, cached);
    }

    /** The watcher over a time: an update for every change of the block files, which only grow. */
    method RunUpdates(snapshots: seq<seq<seq<ScannedBlock>>>, ghost lvs: seq<Levels>)
      returns (ghost history: seq<seq<Block>>)
      requires blockIndexer.Valid() && Cached(blockIndexer) && blocks == map[]
      requires Growing(snapshots, lvs, readBlock)
      requires snapshots != [] ==> Follows(ViewOf(blockIndexer), Flat(snapshots[0]), readBlock)
      modifies this, blockIndexer, blockIndexer.mempoolMonitor
      ensures blockIndexer.Valid() && Cached(blockIndexer) && blocks == map[]
      ensures HistoryOf(snapshots, lvs, readBlock, history) && Grows(old(blockIndexer.chain), history)
      ensures ViewOf(blockIndexer).chain == FinalChain(old(ViewOf(blockIndexer)).chain, history)
      ensures ViewOf(blockIndexer).marked
        == FinalMarks(old(ViewOf(blockIndexer)).chain, old(ViewOf(blockIndexer)).marked, history)
      ensures snapshots != [] ==> Follows(ViewOf(blockIndexer), Flat(snapshots[|snapshots| - 1]), readBlock)
    {
      hide *;
      ghost var s0 := ViewOf(blockIndexer);
      ViewIs(blockIndexer);
      GrowingLengths(snapshots, lvs, readBlock);
      history := [];
      NoHistory(s0, lvs, readBlock);
      for i := 0 to |snapshots|
        invariant blockIndexer.Valid() && Cached(blockIndexer) && blocks == map[]
        invariant HistoryOf(snapshots[..i], lvs[..i], readBlock, history) && Grows(s0.chain, history)
        invariant Ran(s0, history, ViewOf(blockIndexer))
        invariant i > 0 ==> Follows(ViewOf(blockIndexer), Flat(snapshots[i - 1]), readBlock)
        invariant i == 0 ==> ViewOf(blockIndexer) == s0
      {
        ghost var s := ViewOf(blockIndexer);
        ViewIs(blockIndexer);
        NextScan(snapshots, lvs, readBlock, i, s);
        CachedMayNumber(blockIndexer, readBlock, Flat(snapshots[i]), lvs[i]);
        ghost var path := UpdateIndex(snapshots[i], lvs[i]);
        NextHistory(snapshots, lvs, readBlock, history, i, s0, s, ViewOf(blockIndexer), path);
        history := history + [ReadChain(readBlock, path)];
      }
      assert snapshots[..|snapshots|] == snapshots && lvs[..|snapshots|] == lvs;
      RanIs(s0, history, ViewOf(blockIndexer), snapshots, lvs, readBlock);
    }

    /** From an empty index on: after any number of updates, the balances of an address are those of the plain replay of
        the chain, as long as no update moved a spend to a lower height. */
    method UpdatesThenBalance(snapshots: seq<seq<seq<ScannedBlock>>>, ghost lvs: seq<Levels>, address: Address)
      returns (balance: int, unconfirmedBalance: int, ghost history: seq<seq<Block>>)
      requires blockIndexer.Valid() && Cached(blockIndexer) && blocks == map[]
      requires ViewOf(blockIndexer) == View([], {}, map[]) && Growing(snapshots, lvs, readBlock)
      modifies this, blockIndexer, blockIndexer.mempoolMonitor
      ensures blockIndexer.Valid() && HistoryOf(snapshots, lvs, readBlock, history) && Grows([], history)
      ensures blockIndexer.chain == FinalChain([], history)
      ensures Sound([], history) ==>
        balance == Balance(Replay(Transactions(blockIndexer.chain)), blockIndexer.addressesOf, address)
      ensures Sound([], history) ==> UnconfirmedIs(blockIndexer, address, unconfirmedBalance)
    {
      hide *;
      ghost var s0 := ViewOf(blockIndexer);
      ViewIs(blockIndexer);
      if snapshots != [] { NewFollows(s0, Flat(snapshots[0]), readBlock); }
      history := RunUpdates(snapshots, lvs);
      ViewIs(blockIndexer);
      balance, unconfirmedBalance := AddressBalance(blockIndexer, address);
      if Sound([], history) {
        HistoryIsByHeight(snapshots, lvs, readBlock, history);
        EmptyIsValid();
        HistoryGivesReplay([], {}, history);
        BalanceIsReplay(blockIndexer.chain, blockIndexer.db.marks.markers.Keys, blockIndexer.addressesOf, address);
        UnconfirmedHolds(blockIndexer, address, unconfirmedBalance);
      }
    }

    method WalkOn(prevBlockHash: Hash, ghost lv: Levels, ghost scanned: seq<ScannedBlock>,
        ghost path: seq<ScannedBlock>, ghost s0: View, ghost cached: bool)
      returns (processed: Hash)
      requires blockIndexer.Valid() && blocks == Group(map[], scanned) && Grouped(blocks, scanned)
      requires ForestScan(scanned, lv) && Forest(blocks, lv) && path == BestChain(blocks, lv, ZERO_HASH)
      requires Readable(scanned, readBlock, s0) && AtLevels(s0.chain, lv)
      requires blockHeight <= |path| && BestChain(blocks, lv, prevBlockHash) == path[blockHeight..]
      requires lv.depth(prevBlockHash) == lv.depth(ZERO_HASH) + blockHeight
      requires ByHeight(ReadChain(readBlock, path))
      requires WalkState(s0, ViewOf(blockIndexer), ReadChain(readBlock, path), blockHeight)
      requires MayNumber(NumbersOf(blockIndexer), s0.chain, ReadChain(readBlock, path), cached)
      modifies blockIndexer, blockIndexer.mempoolMonitor
      ensures blockIndexer.Valid()
      ensures MayNumber(NumbersOf(blockIndexer), s0.chain, ReadChain(readBlock, path), cached)
      ensures if blockHeight == |path| then
          processed == "" && WalkState(s0, ViewOf(blockIndexer), ReadChain(readBlock, path), blockHeight)
        else
          && processed == path[blockHeight].blockHash != ""
          && lv.depth(processed) == lv.depth(ZERO_HASH) + blockHeight + 1
          && BestChain(blocks, lv, processed) == path[blockHeight + 1..]
          && WalkState(s0, ViewOf(blockIndexer), ReadChain(readBlock, path), blockHeight + 1)
    {
      hide *;
      ghost var full, s, p := ReadChain(readBlock, path), ViewOf(blockIndexer), NumbersOf(blockIndexer);
      CachedIs(blockIndexer);
      WalkMeets(blockIndexer, blocks, scanned, lv, readBlock, s0, path, blockHeight, prevBlockHash, cached);
      processed := ProcessNextBlock(prevBlockHash, lv);
      if blockHeight < |path| {
        CachedIs(blockIndexer);
        StepNumbers(
          p, NumbersOf(blockIndexer), s0, s, full, blockHeight, path[blockHeight], cached, blockIndexer.addressesOf);
        WalkStep(s0, s, ViewOf(blockIndexer), full, blockHeight);
      }
    }

    method IndexOne(bestBlock: ScannedBlock)
      modifies blockIndexer, blockIndexer.mempoolMonitor
      ensures var full := readBlock(bestBlock.fileName, bestBlock.filePosition, blockHeight);
        && NumbersOf(blockIndexer)
          == SentTo(old(NumbersOf(blockIndexer)), bestBlock, full, blockHeight, blockIndexer.addressesOf)
        && (old(blockIndexer.Valid() &&
          MayTake(NumbersOf(blockIndexer), ViewOf(blockIndexer), bestBlock, full, blockHeight)) ==>
              && blockIndexer.Valid() && Advanced(old(ViewOf(blockIndexer)), ViewOf(blockIndexer), full)
              && (old(Cached(blockIndexer)) ==> Cached(blockIndexer)))
    {
      hide BlockIndexer.Valid, Accepts, Indexed, MarkedAfter, AllSpends, NothingOverwritten, WithoutTransactions;
      hide Placeable, AllCached, Tight, MayTake, IsIndexed;
      ghost var full := readBlock(bestBlock.fileName, bestBlock.filePosition, blockHeight);
      if blockIndexer.Valid() && MayTake(NumbersOf(blockIndexer), ViewOf(blockIndexer), bestBlock, full, blockHeight) {
        FitsMeans(blockIndexer, bestBlock, full, blockHeight);
      }
      var found := blockIndexer.HasIndexedBlock(bestBlock.blockHash, blockHeight);
      if !found {
        var fullBlock := readBlock(bestBlock.fileName, bestBlock.filePosition, blockHeight);
        var ok := blockIndexer.IndexBlock(fullBlock);
      }
    }
  }

  function FiledAt(byHeight: map<nat, seq<ScannedBlock>>, height: nat): seq<ScannedBlock> {
    if height in byHeight then byHeight[height] else []
  }

  /** The blocks whose hash is not known yet. */
  function Fresh(cs: seq<ScannedBlock>, known: seq<ScannedBlock>): seq<ScannedBlock> {
    if cs == [] then []
    else Fresh(cs[..|cs| - 1], known) + if HasHash(known, cs[|cs| - 1].blockHash) then [] else [cs[|cs| - 1]]
  }

  function MarkAll(cs: seq<ScannedBlock>, main: Hash): (marked: seq<ScannedBlock>)
    ensures |marked| == |cs|
  {
    seq(|cs|, i requires 0 <= i < |cs| => cs[i].(mainChain := cs[i].mainChain || cs[i].blockHash == main))
  }

  lemma FreshStep(cs: seq<ScannedBlock>, i: nat, known: seq<ScannedBlock>)
    requires i < |cs|
    ensures Fresh(cs[..i + 1], known)
      == if HasHash(known, cs[i].blockHash) then Fresh(cs[..i], known) else Fresh(cs[..i], known) + [cs[i]]
  {
    assert cs[..i + 1][..i] == cs[..i];
  }

  /** What filing the blocks cs adds under a height, and what follows up. */
  ghost predicate Filing(blocks: BlockMap, filed: map<nat, seq<ScannedBlock>>, height: nat, cs: seq<ScannedBlock>,
      main: Hash, followUp: seq<ScannedBlock>, byHeight: map<nat, seq<ScannedBlock>>)
  {
    && followUp == NextLevel(blocks, cs)
    && byHeight == filed[height := FiledAt(filed, height) + MarkAll(cs, main)]
  }

  lemma FilingStep(blocks: BlockMap, filed: map<nat, seq<ScannedBlock>>, height: nat, cs: seq<ScannedBlock>,
      main: Hash, followUp: seq<ScannedBlock>, byHeight: map<nat, seq<ScannedBlock>>, b: ScannedBlock)
    requires Filing(blocks, filed, height, cs, main, followUp, byHeight) && height in byHeight
    ensures var marked := if b.blockHash == main then b.(mainChain := true) else b;
      Filing(blocks, filed, height, cs + [b], main, followUp + Children(blocks, b.blockHash),
             byHeight[height := byHeight[height] + [marked]])
  {
    assert (cs + [b])[..|cs|] == cs;
    var marked := if b.blockHash == main then b.(mainChain := true) else b;
    assert MarkAll(cs + [b], main) == MarkAll(cs, main) + [marked];
    assert byHeight[height] + [marked] == FiledAt(filed, height) + MarkAll(cs + [b], main);
  }

  lemma FilingEnds(blocks: BlockMap, filed: map<nat, seq<ScannedBlock>>, height: nat, cs: seq<ScannedBlock>,
      main: Hash, followUp: seq<ScannedBlock>, byHeight: map<nat, seq<ScannedBlock>>)
    ensures Filing(blocks, filed, height, cs, main, followUp, byHeight) ==>
      && followUp == NextLevel(blocks, cs)
      && byHeight == filed[height := FiledAt(filed, height) + MarkAll(cs, main)]
  {
  }

  /** Nothing changed but that blocks without successors may now have an empty list. */
  ghost predicate LeavesAdded(blocks: BlockMap, blocks': BlockMap, cs: seq<ScannedBlock>) {
    && SameChildren(blocks, blocks')
    && (forall h :: h in blocks' && h !in blocks ==> exists i :: 0 <= i < |cs| && cs[i].blockHash == h)
    && blocks.Keys <= blocks'.Keys
  }

  lemma NothingFiled(blocks: BlockMap, filed: map<nat, seq<ScannedBlock>>, height: nat, cs: seq<ScannedBlock>,
      main: Hash)
    ensures LeavesAdded(blocks, blocks, cs)
    ensures var byHeight := if height in filed then filed else filed[height := []];
      FiledAt(filed, height) == byHeight[height] &&
        Filing(blocks, filed, height, Fresh(cs[..0], byHeight[height]), main, [], byHeight)
  {
    assert MarkAll([], main) == [];
    assert FiledAt(filed, height) + [] == FiledAt(filed, height);
  }

  lemma LeafAdded(blocks: BlockMap, blocks': BlockMap, cs: seq<ScannedBlock>, i: nat)
    requires LeavesAdded(blocks, blocks', cs) && i < |cs|
    ensures var h := cs[i].blockHash;
      var blocks'' := if h in blocks' then blocks' else blocks'[h := []];
      LeavesAdded(blocks, blocks'', cs) && blocks''[h] == Children(blocks, h)
  {
    assert Children(blocks, cs[i].blockHash) == Children(blocks', cs[i].blockHash);
  }

  /** Level b of the scan, filed: the same blocks in the same order, the one on the main chain marked
      and no other. */
  ghost predicate OneMarked(filed: seq<ScannedBlock>, level: seq<ScannedBlock>, main: ScannedBlock) {
    && |filed| == |level|
    && exists c :: 0 <= c < |level| && level[c] == main
         && forall j :: 0 <= j < |level| ==> filed[j] == level[j].(mainChain := j == c)
  }

  /** The first n levels, from height one, and nothing else. */
  ghost predicate Filed(byHeight: map<nat, seq<ScannedBlock>>, scan: BlockMap, best: seq<ScannedBlock>, n: nat) {
    && n <= |best|
    && (forall h: nat :: h in byHeight <==> 1 <= h <= n)
    && (forall i :: 0 <= i < n ==> OneMarked(byHeight[i + 1], Level(scan, ZERO_HASH, i), best[i]))
  }

  /** Before level i is walked: only levels already walked have got empty lists. */
  ghost predicate MapState(scan: BlockMap, blocks: BlockMap, lv: Levels, i: nat) {
    && Forest(blocks, lv) && SameChildren(scan, blocks)
    && NoEmptyLists(blocks, lv, lv.depth(ZERO_HASH) + i + 1)
  }

  ghost predicate OnLevel(cs: seq<ScannedBlock>, lv: Levels, d: nat) {
    forall b :: b in cs ==> b.blockHash != "" && !b.mainChain && lv.depth(b.blockHash) == d < lv.bound
  }

  /** The list is the level, and its choice is the next block of the best chain, which so far ends in prev. */
  ghost predicate ListState(scan: BlockMap, lv: Levels, i: nat, cs: seq<ScannedBlock>, prev: Hash,
      best: seq<ScannedBlock>)
    requires Forest(scan, lv)
  {
    && cs == Level(scan, ZERO_HASH, i) && DistinctHashes(cs) && OnLevel(cs, lv, lv.depth(ZERO_HASH) + i + 1)
    && i <= |best| && BestChain(scan, lv, prev) == best[i..]
    && (cs == [] <==> Children(scan, prev) == [])
    && (cs != [] ==>
          cs[Choice(scan, lv, cs)] == Children(scan, prev)[Choice(scan, lv, Children(scan, prev))])
  }

  lemma NothingFiledYet(byHeight: map<nat, seq<ScannedBlock>>, scan: BlockMap, best: seq<ScannedBlock>)
    requires byHeight == map[]
    ensures Filed(byHeight, scan, best, 0)
  {
  }

  lemma ScanIsForest(scanned: seq<ScannedBlock>, scan: BlockMap, lv: Levels)
    requires ForestScan(scanned, lv) && scan == Group(map[], scanned)
    ensures Forest(scan, lv) && HashesAreUnique(scan) && Unmarked(scan)
  {
    hide Forest, HashesAreUnique, Group, GroupOf;
    GroupIsGrouped(scanned);
    GroupedIsForest(scan, scanned, lv);
    GroupedIsUnmarked(scan, scanned, lv);
  }

  lemma GroupedIsUnmarked(scan: BlockMap, scanned: seq<ScannedBlock>, lv: Levels)
    requires Grouped(scan, scanned) && ForestScan(scanned, lv)
    ensures Unmarked(scan) && forall h :: h in scan ==> scan[h] != []
  {
    forall h, i | h in scan && 0 <= i < |scan[h]|
      ensures !scan[h][i].mainChain
    {
      assert GroupOf(scan[h], scanned, h);
    }
    assert forall h :: h in scan ==> GroupOf(scan[h], scanned, h);
  }

  lemma ZeroHashIsSome()
    ensures ZERO_HASH != ""
  {
  }

  lemma MapStarts(scan: BlockMap, blocks: BlockMap, lv: Levels)
    requires Forest(scan, lv) && (forall h :: h in scan ==> scan[h] != []) && lv.depth(ZERO_HASH) < lv.bound
    requires blocks == if ZERO_HASH in scan then scan else scan[ZERO_HASH := []]
    ensures MapState(scan, blocks, lv, 0)
  {
    ZeroHashIsSome();
    hide ZERO_HASH;
    forall h | h in blocks
      ensures blocks[h] == if h in scan then scan[h] else []
      ensures h in scan || h == ZERO_HASH
    {
    }
    forall h, i | h in blocks && 0 <= i < |blocks[h]|
      ensures blocks[h][i].blockHash != "" && lv.depth(blocks[h][i].blockHash) == lv.depth(h) + 1 < lv.bound
    {
      assert h in scan && blocks[h] == scan[h];
    }
    assert Forest(blocks, lv);
    hide Forest;
    assert SameChildren(scan, blocks);
  }

  lemma ListStarts(scan: BlockMap, lv: Levels, cs: seq<ScannedBlock>)
    requires Forest(scan, lv) && HashesAreUnique(scan) && Unmarked(scan) && cs == Children(scan, ZERO_HASH)
    ensures ListState(scan, lv, 0, cs, ZERO_HASH, BestChain(scan, lv, ZERO_HASH))
  {
    hide Choice, BestChain;
    var best := BestChain(scan, lv, ZERO_HASH);
    assert best[0..] == best;
  }

  lemma WalkStarts(scanned: seq<ScannedBlock>, scan: BlockMap, blocks: BlockMap, lv: Levels, cs: seq<ScannedBlock>)
    returns (best: seq<ScannedBlock>)
    requires ForestScan(scanned, lv) && scan == Group(map[], scanned)
    requires blocks == if ZERO_HASH in scan then scan else scan[ZERO_HASH := []]
    requires cs == blocks[ZERO_HASH]
    ensures Forest(scan, lv) && HashesAreUnique(scan) && Unmarked(scan) && best == BestChain(scan, lv, ZERO_HASH)
    ensures MapState(scan, blocks, lv, 0) && ListState(scan, lv, 0, cs, ZERO_HASH, best)
  {
    hide Forest, HashesAreUnique, Unmarked, MapState, ListState, Group, BestChain, Grouped;
    ScanIsForest(scanned, scan, lv);
    GroupIsGrouped(scanned);
    GroupedIsUnmarked(scan, scanned, lv);
    MapStarts(scan, blocks, lv);
    ListStarts(scan, lv, cs);
    best := BestChain(scan, lv, ZERO_HASH);
  }

  ghost predicate Unmarked(scan: BlockMap) {
    forall h, i :: h in scan && 0 <= i < |scan[h]| ==> !scan[h][i].mainChain
  }

  /** The choice at a level is the block of the best chain at that height. */
  lemma ChoiceIsBest(scan: BlockMap, lv: Levels, i: nat, cs: seq<ScannedBlock>, prev: Hash, best: seq<ScannedBlock>)
    requires Forest(scan, lv) && ListState(scan, lv, i, cs, prev, best)
    ensures if cs == [] then i == |best|
      else i < |best| && cs[Choice(scan, lv, cs)] == best[i] && BestChain(scan, lv, best[i].blockHash) == best[i + 1..]
  {
    hide Choice, Height, Level;
    if cs != [] {
      assert BestChain(scan, lv, prev)[0] == best[i..][0] && best[i..][1..] == best[i + 1..];
    }
  }

  /** What the race asks of a level, and what it finds. */
  lemma LevelMeets(scan: BlockMap, blocks: BlockMap, lv: Levels, i: nat, cs: seq<ScannedBlock>, prev: Hash,
      best: seq<ScannedBlock>)
    requires Forest(scan, lv) && MapState(scan, blocks, lv, i) && ListState(scan, lv, i, cs, prev, best) && cs != []
    ensures Forest(blocks, lv) && NoEmptyLists(blocks, lv, lv.depth(ZERO_HASH) + i + 1) &&
      lv.depth(ZERO_HASH) + i + 1 <= lv.bound
    ensures forall b :: b in cs ==> b.blockHash != "" && lv.depth(b.blockHash) >= lv.depth(ZERO_HASH) + i + 1
    ensures i < |best| && cs[Choice(blocks, lv, cs)] == best[i]
  {
    hide Choice, Height, BestChain, Level;
    ChoiceIsBest(scan, lv, i, cs, prev, best);
    ChoiceUnchanged(scan, blocks, lv, cs);
    assert cs[0] in cs;
  }

  lemma FreshAll(cs: seq<ScannedBlock>)
    ensures Fresh(cs, []) == cs
  {
    if cs != [] {
      var n := |cs| - 1;
      FreshAll(cs[..n]);
      assert !HasHash([], cs[n].blockHash);
      assert cs == cs[..n] + [cs[n]];
    }
  }

  lemma MarkOne(cs: seq<ScannedBlock>, c: nat)
    requires c < |cs| && DistinctHashes(cs) && forall b :: b in cs ==> !b.mainChain
    ensures OneMarked(MarkAll(cs, cs[c].blockHash), cs, cs[c])
  {
    forall j | 0 <= j < |cs|
      ensures MarkAll(cs, cs[c].blockHash)[j] == cs[j].(mainChain := j == c)
    {
      assert cs[j] in cs;
    }
  }

  lemma FiledStep(byHeight: map<nat, seq<ScannedBlock>>, scan: BlockMap, lv: Levels, best: seq<ScannedBlock>, i: nat,
      cs: seq<ScannedBlock>, prev: Hash)
    requires Forest(scan, lv) && ListState(scan, lv, i, cs, prev, best) && cs != []
    requires Filed(byHeight, scan, best, i)
    ensures i < |best|
    ensures var known := FiledAt(byHeight, i + 1);
      && Fresh(cs, known) == cs
      && Filed(byHeight[i + 1 := known + MarkAll(Fresh(cs, known), best[i].blockHash)], scan, best, i + 1)
  {
    hide *;
    ChoiceIsBest(scan, lv, i, cs, prev, best);
    ListFacts(scan, lv, i, cs, prev, best);
    FreshAll(cs);
    MarkOne(cs, Choice(scan, lv, cs));
    FiledExtends(byHeight, scan, best, i, MarkAll(cs, best[i].blockHash));
  }

  lemma ListFacts(scan: BlockMap, lv: Levels, i: nat, cs: seq<ScannedBlock>, prev: Hash, best: seq<ScannedBlock>)
    requires Forest(scan, lv) && ListState(scan, lv, i, cs, prev, best)
    ensures cs == Level(scan, ZERO_HASH, i) && DistinctHashes(cs) && forall b :: b in cs ==> !b.mainChain
  {
  }

  lemma FiledExtends(byHeight: map<nat, seq<ScannedBlock>>, scan: BlockMap, best: seq<ScannedBlock>, i: nat,
      marked: seq<ScannedBlock>)
    requires Filed(byHeight, scan, best, i) && i < |best|
    requires OneMarked(marked, Level(scan, ZERO_HASH, i), best[i])
    ensures FiledAt(byHeight, i + 1) == [] && FiledAt(byHeight, i + 1) + marked == marked
    ensures Filed(byHeight[i + 1 := marked], scan, best, i + 1)
  {
    hide OneMarked, Level;
  }

  lemma SameChildrenTwice(a: BlockMap, b: BlockMap, c: BlockMap)
    requires SameChildren(a, b) && SameChildren(b, c)
    ensures SameChildren(a, c)
  {
    hide Children;
  }

  /** What stands in the map afterwards stood there before, or is one of the list, with an empty list. */
  lemma LeafOrOld(blocks: BlockMap, blocks': BlockMap, lv: Levels, cs: seq<ScannedBlock>, d: nat, h: Hash)
    requires LeavesAdded(blocks, blocks', cs) && OnLevel(cs, lv, d) && h in blocks'
    ensures Children(blocks, h) == blocks'[h]
    ensures h in blocks || (lv.depth(h) == d < lv.bound && h != "")
  {
    assert Children(blocks, h) == Children(blocks', h);
    if h !in blocks {
      var k :| 0 <= k < |cs| && cs[k].blockHash == h;
      assert cs[k] in cs;
    }
  }

  lemma MapAdvances(scan: BlockMap, blocks: BlockMap, blocks': BlockMap, lv: Levels, i: nat, cs: seq<ScannedBlock>)
    requires MapState(scan, blocks, lv, i) && LeavesAdded(blocks, blocks', cs)
    requires OnLevel(cs, lv, lv.depth(ZERO_HASH) + i + 1)
    ensures MapState(scan, blocks', lv, i + 1)
  {
    hide SameChildren, OnLevel;
    forall h | h in blocks'
      ensures Children(blocks, h) == blocks'[h]
      ensures h in blocks || (lv.depth(h) == lv.depth(ZERO_HASH) + i + 1 < lv.bound && h != "")
    {
      LeafOrOld(blocks, blocks', lv, cs, lv.depth(ZERO_HASH) + i + 1, h);
    }
    SameChildrenTwice(scan, blocks, blocks');
    hide LeavesAdded;
    forall h | h in blocks'
      ensures if h in blocks then blocks'[h] == blocks[h] else blocks'[h] == []
    {
    }
  }

  lemma NextOnLevel(scan: BlockMap, lv: Levels, cs: seq<ScannedBlock>, d: nat)
    requires Forest(scan, lv) && Unmarked(scan) && OnLevel(cs, lv, d)
    ensures OnLevel(NextLevel(scan, cs), lv, d + 1)
  {
    forall b | b in NextLevel(scan, cs)
      ensures b.blockHash != "" && !b.mainChain && lv.depth(b.blockHash) == d + 1 < lv.bound
    {
      var j :| 0 <= j < |NextLevel(scan, cs)| && NextLevel(scan, cs)[j] == b;
      var k, m := NextLevelFrom(scan, cs, j);
      assert cs[k] in cs && b == scan[cs[k].blockHash][m];
    }
  }

  lemma ListAdvances(scan: BlockMap, lv: Levels, i: nat, cs: seq<ScannedBlock>, prev: Hash, best: seq<ScannedBlock>)
    requires Forest(scan, lv) && HashesAreUnique(scan) && Unmarked(scan) && ListState(scan, lv, i, cs, prev, best) &&
      cs != []
    ensures i < |best| && ListState(scan, lv, i + 1, NextLevel(scan, cs), best[i].blockHash, best)
  {
    hide Choice, Height, BestChain, Forest, HashesAreUnique, OnLevel, DistinctHashes, NextLevel;
    ChoiceIsBest(scan, lv, i, cs, prev, best);
    LevelChoice(scan, lv, cs);
    NextOnLevel(scan, lv, cs, lv.depth(ZERO_HASH) + i + 1);
    NextLevelDistinct(scan, cs);
  }

  lemma {:induction false} NextLevelUnchanged(blocks: BlockMap, blocks': BlockMap, cs: seq<ScannedBlock>)
    requires SameChildren(blocks, blocks')
    ensures NextLevel(blocks, cs) == NextLevel(blocks', cs)
  {
    if cs != [] {
      NextLevelUnchanged(blocks, blocks', cs[..|cs| - 1]);
      assert Children(blocks, cs[|cs| - 1].blockHash) == Children(blocks', cs[|cs| - 1].blockHash);
    }
  }

  lemma LevelAdvances(scan: BlockMap, blocks: BlockMap, blocks': BlockMap, lv: Levels, i: nat, cs: seq<ScannedBlock>,
      prev: Hash, best: seq<ScannedBlock>, next: seq<ScannedBlock>)
    requires Forest(scan, lv) && HashesAreUnique(scan) && Unmarked(scan) && cs != []
    requires MapState(scan, blocks, lv, i) && ListState(scan, lv, i, cs, prev, best)
    requires LeavesAdded(blocks, blocks', cs) && next == NextLevel(blocks, cs)
    ensures MapState(scan, blocks', lv, i + 1)
    ensures i < |best| && ListState(scan, lv, i + 1, next, best[i].blockHash, best)
  {
    ListAdvances(scan, lv, i, cs, prev, best);
    MapAdvances(scan, blocks, blocks', lv, i, cs);
    NextLevelUnchanged(scan, blocks, cs);
  }

  lemma NamedBlocks(blocks: BlockMap, lv: Levels, prev: Hash)
    requires Forest(blocks, lv) && prev in blocks
    ensures Children(blocks, prev) == blocks[prev] && forall b :: b in blocks[prev] ==> b.blockHash != ""
  {
  }

  /** What of the indexer the walk is about. */
  datatype View = View(chain: seq<Block>, marked: set<Outpoint>, known: map<Hash, seq<Outpoint>>)

  ghost function ViewOf(index: BlockIndexer): View
    reads index
  {
    View(index.chain, index.db.marks.markers.Keys, index.known)
  }

  ghost function NumbersOf(index: BlockIndexer): Counted
    reads index
  {
    Counted(index.db, index.nextTxoIndex)
  }

  ghost predicate Cached(index: BlockIndexer)
    reads index
  {
    AllCached(index.db, index.nextTxoIndex)
  }

  /** What sending the chosen block does to the store: the scanned hash is looked up first, then the block that was
      read is indexed. */
  function SentTo(p: Counted, b: ScannedBlock, full: Block, height: nat, solver: Solver): Counted {
    if height in p.store.blockAt && p.store.blockAt[height] == b.blockHash then p else Indexed(p, full, solver)
  }

  /** The block may be indexed at this height, and its numbers will be new. */
  ghost predicate MayTake(p: Counted, s: View, b: ScannedBlock, full: Block, height: nat) {
    && MayIndex(full, height, b.blockHash, s.chain, s.known) && height <= |s.chain|
    && (IsIndexed(p.store, full) || Numberable(p, height))
  }

  lemma FitsMeans(index: BlockIndexer, b: ScannedBlock, full: Block, height: nat)
    requires index.Valid() && MayTake(NumbersOf(index), ViewOf(index), b, full, height)
    ensures full.height == height && full.blockHash == b.blockHash && height <= |index.chain|
    ensures IsIndexed(index.db, full) <==> height in index.db.blockAt && index.db.blockAt[height] == b.blockHash
    ensures IsIndexed(index.db, full) <==> height < |index.chain| && index.chain[height].blockHash == full.blockHash
    ensures !IsIndexed(index.db, full) ==>
      Accepts(NumbersOf(index), index.chain, index.known, full, index.addressesOf)
  {
    hide ReadsFresh, Covers, AllCached, Tight, MakeRoom;
    index.Unfold();
    BlockAtHeight(index.db, index.rows, index.markRows, index.known, index.chain, index.addressesOf);
    if !IsIndexed(index.db, full) {
      NumberableIsFresh(NumbersOf(index), full, index.addressesOf);
    }
  }

  /** While the update lasts, numbers stay new: all counters are in memory, or nothing is replaced. */
  ghost predicate MayNumber(p: Counted, chain: seq<Block>, full: seq<Block>, cached: bool) {
    if cached then AllCached(p.store, p.counters)
    else Tight(p.store, p.counters) && forall h :: 0 <= h < |chain| && h < |full| ==> Kept(chain, full, h)
  }

  /** The effect of sending a block to the indexer: none if its hash stands at its height already. */
  ghost predicate Advanced(s: View, s': View, full: Block) {
    && full.height <= |s.chain|
    && if full.height < |s.chain| && s.chain[full.height].blockHash == full.blockHash then s' == s
       else s' == View(PlaceAt(s.chain, full.height, full), MarkedAfter(s.chain, s.marked, full),
                       s.known[full.blockHash := AllSpends(full.transactions)])
  }

  // ---------- One update after another ----------

  /** Scans of block files that only grow, each with levels for it, under a reader that all of them can rely on. */
  ghost predicate Growing(snapshots: seq<seq<seq<ScannedBlock>>>, lvs: seq<Levels>,
      reader: (string, nat, nat) -> Block) {
    && |lvs| == |snapshots|
    && (forall i :: 0 <= i < |snapshots| ==>
          ForestScan(Flat(snapshots[i]), lvs[i]) && Faithful(Flat(snapshots[i]), reader))
    && (forall i, j :: 0 <= i < j < |snapshots| ==> Within(Flat(snapshots[i]), Flat(snapshots[j])))
  }

  ghost predicate Within(scanned: seq<ScannedBlock>, more: seq<ScannedBlock>) {
    forall b :: b in scanned ==> b in more
  }

  /** The chains that the updates index, one for each scan. */
  ghost predicate HistoryOf(snapshots: seq<seq<seq<ScannedBlock>>>, lvs: seq<Levels>,
      reader: (string, nat, nat) -> Block, history: seq<seq<Block>>)
  {
    && |history| == |lvs| == |snapshots| && AllByHeight(history)
    && forall i :: 0 <= i < |snapshots| ==>
         ForestScan(Flat(snapshots[i]), lvs[i]) && history[i] == ReadChain(reader, Picked(Flat(snapshots[i]), lvs[i]))
  }

  ghost predicate Ran(s0: View, history: seq<seq<Block>>, s: View) {
    AllByHeight(history) && s.chain == FinalChain(s0.chain, history) &&
      s.marked == FinalMarks(s0.chain, s0.marked, history)
  }

  lemma NoHistory(s0: View, lvs: seq<Levels>, reader: (string, nat, nat) -> Block)
    ensures HistoryOf([], lvs[..0], reader, []) && Grows(s0.chain, []) && Ran(s0, [], s0)
  {
  }

  lemma GrowingLengths(snapshots: seq<seq<seq<ScannedBlock>>>, lvs: seq<Levels>, reader: (string, nat, nat) -> Block)
    requires Growing(snapshots, lvs, reader)
    ensures |lvs| == |snapshots|
  {
  }

  lemma NextScan(snapshots: seq<seq<seq<ScannedBlock>>>, lvs: seq<Levels>, reader: (string, nat, nat) -> Block, i: nat,
      s: View)
    requires Growing(snapshots, lvs, reader) && i < |snapshots|
    requires Follows(s, Flat(snapshots[if i > 0 then i - 1 else 0]), reader)
    ensures |lvs| == |snapshots| && ForestScan(Flat(snapshots[i]), lvs[i]) && Faithful(Flat(snapshots[i]), reader)
    ensures Follows(s, Flat(snapshots[i]), reader)
  {
    hide Follows, Faithful, ForestScan, Flat;
    if i > 0 {
      FollowsStays(s, Flat(snapshots[i - 1]), Flat(snapshots[i]), reader);
    }
  }

  lemma CachedMayNumber(index: BlockIndexer, reader: (string, nat, nat) -> Block, scanned: seq<ScannedBlock>,
      lv: Levels)
    requires Cached(index) && ForestScan(scanned, lv)
    ensures MayNumber(NumbersOf(index), index.chain, ReadChain(reader, Picked(scanned, lv)), Cached(index))
  {
  }

  lemma NextHistory(snapshots: seq<seq<seq<ScannedBlock>>>, lvs: seq<Levels>, reader: (string, nat, nat) -> Block,
      history: seq<seq<Block>>, i: nat, s0: View, s: View, s': View, path: seq<ScannedBlock>)
    requires Growing(snapshots, lvs, reader) && i < |snapshots|
    requires HistoryOf(snapshots[..i], lvs[..i], reader, history) && Grows(s0.chain, history) && Ran(s0, history, s)
    requires ForestScan(Flat(snapshots[i]), lvs[i]) && path == Picked(Flat(snapshots[i]), lvs[i])
    requires ByHeight(ReadChain(reader, path)) && |s.chain| <= |path|
    requires WalkState(s, s', ReadChain(reader, path), |path|)
    ensures var history' := history + [ReadChain(reader, path)];
      && HistoryOf(snapshots[..i + 1], lvs[..i + 1], reader, history') && Grows(s0.chain, history') &&
        Ran(s0, history', s')
  {
    hide ForestScan, Picked, Linked, Chosen, ReadChain, Flat, RunChain, RunMarks, Grows, FinalChain, FinalMarks,
      ByHeight;
    FinalNext(s0.chain, s0.marked, history, ReadChain(reader, path));
  }

  lemma RanIs(s0: View, history: seq<seq<Block>>, s: View, snapshots: seq<seq<seq<ScannedBlock>>>, lvs: seq<Levels>,
      reader: (string, nat, nat) -> Block)
    requires Ran(s0, history, s)
    ensures AllByHeight(history)
    ensures s.chain == FinalChain(s0.chain, history) && s.marked == FinalMarks(s0.chain, s0.marked, history)
  {
  }

  lemma HistoryIsByHeight(snapshots: seq<seq<seq<ScannedBlock>>>, lvs: seq<Levels>, reader: (string, nat, nat) -> Block,
      history: seq<seq<Block>>)
    requires HistoryOf(snapshots, lvs, reader, history)
    ensures AllByHeight(history)
  {
  }

  lemma EmptyIsValid()
    ensures ValidChain([]) && Agrees([], {})
  {
  }

  /** The held transactions, in an order that respects dependencies, on top of the chain. */
  ghost predicate MempoolOrder(index: BlockIndexer, ms: seq<Transaction>)
    reads index, index.mempoolMonitor
  {
    && multiset(ms) == multiset(index.mempoolMonitor.held) && Spendable(Transactions(index.chain) + ms)
    && forall i, j :: 0 <= i < |ms| && 0 <= j < |ms[i].inputs| ==> !ms[i].inputs[j].coinbase
  }

  /** The amount is the address's balance after the chain and then the mempool, in every such order. */
  ghost predicate UnconfirmedIs(index: BlockIndexer, a: Address, amount: int)
    reads index, index.mempoolMonitor
  {
    forall ms :: MempoolOrder(index, ms) ==>
      amount == Balance(Replay(Transactions(index.chain) + ms), index.addressesOf, a)
  }

  lemma UnconfirmedHolds(index: BlockIndexer, a: Address, amount: int)
    requires Agrees(index.chain, index.db.marks.markers.Keys)
    requires var created, held := AllCreates(Transactions(index.chain)), index.mempoolMonitor.held;
      amount == Worth(created, index.addressesOf, a, index.db.marks.markers.Keys + AllInputs(held))
        + Worth(AllCreates(held), index.addressesOf, a, AllInputs(held))
    ensures UnconfirmedIs(index, a, amount)
  {
    hide Worth, Balance, Replay, AllCreates, AllInputs, Agrees, Spendable;
    forall ms | MempoolOrder(index, ms)
      ensures amount == Balance(Replay(Transactions(index.chain) + ms), index.addressesOf, a)
    {
      UnconfirmedIsReplay(index.chain, index.db.marks.markers.Keys, index.mempoolMonitor.held, ms, index.addressesOf,
        a);
    }
  }

  lemma CachedIs(index: BlockIndexer)
    ensures NumbersOf(index) == Counted(index.db, index.nextTxoIndex)
    ensures Cached(index) <==> AllCached(index.db, index.nextTxoIndex)
  {
  }

  lemma IndexerParts(index: BlockIndexer)
    requires index.Valid()
    ensures index.mempoolMonitor.Valid() && Covers(index.db, index.nextTxoIndex)
    ensures ViewOf(index).chain == index.chain && ViewOf(index).known == index.known
  {
  }

  lemma StepFits(index: BlockIndexer, s0: View, full: seq<Block>, n: nat, b: ScannedBlock, cached: bool)
    requires index.Valid() && ByHeight(full) && n < |full| && WalkState(s0, ViewOf(index), full, n)
    requires MayIndex(full[n], n, b.blockHash, index.chain, index.known)
    requires MayNumber(NumbersOf(index), s0.chain, full, cached)
    ensures MayTake(NumbersOf(index), ViewOf(index), b, full[n], n) && Covers(index.db, index.nextTxoIndex)
    ensures cached || IsIndexed(index.db, full[n]) || n !in index.db.blockAt
  {
    hide Tight, AllCached, RunMarks;
    index.Unfold();
    BlockAtHeight(index.db, index.rows, index.markRows, index.known, index.chain, index.addressesOf);
    RunStep(s0.chain, full, n);
  }

  /** What the walk finds at each step: the next block of the path, and everything that indexing it asks for. */
  lemma WalkMeets(index: BlockIndexer, blocks: BlockMap, scanned: seq<ScannedBlock>, lv: Levels,
      reader: (string, nat, nat) -> Block, s0: View, path: seq<ScannedBlock>, n: nat, prev: Hash, cached: bool)
    requires index.Valid() && Grouped(blocks, scanned) && Forest(blocks, lv) && path == BestChain(blocks, lv, ZERO_HASH)
    requires Readable(scanned, reader, s0) && AtLevels(s0.chain, lv)
    requires n <= |path| && BestChain(blocks, lv, prev) == path[n..] && lv.depth(prev) == lv.depth(ZERO_HASH) + n
    requires ByHeight(ReadChain(reader, path)) && WalkState(s0, ViewOf(index), ReadChain(reader, path), n)
    requires MayNumber(NumbersOf(index), s0.chain, ReadChain(reader, path), cached)
    ensures index.mempoolMonitor.Valid() && NoEmptyLists(blocks, lv, 0) && Covers(index.db, index.nextTxoIndex)
    ensures n == |path| ==> Children(blocks, prev) == []
    ensures n < |path| ==>
      && ReadChain(reader, path)[n] == reader(path[n].fileName, path[n].filePosition, n)
      && Children(blocks, prev) != [] && Children(blocks, prev)[Choice(blocks, lv, Children(blocks, prev))] == path[n]
      && MayTake(NumbersOf(index), ViewOf(index), path[n], ReadChain(reader, path)[n], n)
      && (cached || IsIndexed(index.db, ReadChain(reader, path)[n]) || n !in index.db.blockAt)
      && lv.depth(path[n].blockHash) == lv.depth(ZERO_HASH) + n + 1
      && BestChain(blocks, lv, path[n].blockHash) == path[n + 1..]
  {
    hide WalkState, Readable, AtLevels, Grouped, Forest, Choice, Height, MayIndex, ByHeight, MayNumber, MayTake,
      IsIndexed;
    hide BlockIndexer.Valid, NoEmptyLists, NumbersOf, ViewOf, Covers;
    var full := ReadChain(reader, path);
    PathFacts(blocks, scanned, lv, reader, s0);
    SuccessorsMayBeIndexed(blocks, scanned, lv, reader, s0, ViewOf(index), full, n, prev);
    IndexerParts(index);
    if n < |path| {
      assert path[n..][0] == path[n] && path[n..][1..] == path[n + 1..];
      StepFits(index, s0, full, n, path[n], cached);
    }
  }

  lemma StepNumbers(p: Counted, p': Counted, s0: View, s: View, full: seq<Block>, n: nat, b: ScannedBlock, cached: bool,
      solver: Solver)
    requires ByHeight(full) && n < |full| && WalkState(s0, s, full, n) && MayTake(p, s, b, full[n], n)
    requires Covers(p.store, p.counters) && MayNumber(p, s0.chain, full, cached)
    requires cached || IsIndexed(p.store, full[n]) || n !in p.store.blockAt
    requires p' == SentTo(p, b, full[n], n, solver)
    requires AllCached(p.store, p.counters) ==> AllCached(p'.store, p'.counters)
    ensures MayNumber(p', s0.chain, full, cached)
  {
    hide Tight, AllCached, RunMarks, Covers, Indexed, ReadsFresh;
    if !cached && p' != p {
      NumberableIsFresh(p, full[n], solver);
    }
  }

  lemma NumberingEnds(index: BlockIndexer, chain: seq<Block>, full: seq<Block>, cached: bool)
    requires MayNumber(NumbersOf(index), chain, full, cached)
    ensures cached ==> Cached(index)
    ensures Cached(index) || Tight(index.db, index.nextTxoIndex)
  {
  }

  /** Every scanned block is read with its hash, at whatever height it is asked for, and a hash comes with one list
      of spends only. */
  ghost predicate Faithful(scanned: seq<ScannedBlock>, reader: (string, nat, nat) -> Block) {
    && (forall b, h: nat :: b in scanned ==>
          var full := reader(b.fileName, b.filePosition, h); full.height == h && full.blockHash == b.blockHash)
    && (forall b, c, h: nat, k: nat :: b in scanned && c in scanned && b.blockHash == c.blockHash ==>
          AllSpends(reader(b.fileName, b.filePosition, h).transactions)
          == AllSpends(reader(c.fileName, c.filePosition, k).transactions))
  }

  /** The spends known of a block are those of a scanned block with its hash. */
  ghost predicate KnownFrom(known: map<Hash, seq<Outpoint>>, scanned: seq<ScannedBlock>,
      reader: (string, nat, nat) -> Block)
  {
    forall hash :: hash in known ==> exists b, h: nat ::
      b in scanned && b.blockHash == hash &&
        known[hash] == AllSpends(reader(b.fileName, b.filePosition, h).transactions)
  }

  /** The chain consists of scanned blocks, linked from the genesis predecessor on. */
  ghost predicate OnPath(chain: seq<Block>, scanned: seq<ScannedBlock>) {
    exists q :: Linked(scanned, ZERO_HASH, q) && SameHashes(chain, q)
  }

  ghost predicate SameHashes(chain: seq<Block>, q: seq<ScannedBlock>) {
    |q| == |chain| && forall h :: 0 <= h < |q| ==> q[h].blockHash == chain[h].blockHash
  }

  /** The index was built from blocks of the scan. */
  ghost predicate Follows(s: View, scanned: seq<ScannedBlock>, reader: (string, nat, nat) -> Block) {
    OnPath(s.chain, scanned) && KnownFrom(s.known, scanned, reader)
  }

  lemma NewFollows(s: View, scanned: seq<ScannedBlock>, reader: (string, nat, nat) -> Block)
    requires s.chain == [] && s.known == map[]
    ensures Follows(s, scanned, reader)
  {
    assert Linked(scanned, ZERO_HASH, []) && SameHashes([], []);
  }

  /** Files only grow: an index that was built from a scan was built from every larger one. */
  lemma FollowsStays(s: View, scanned: seq<ScannedBlock>, more: seq<ScannedBlock>, reader: (string, nat, nat) -> Block)
    requires Follows(s, scanned, reader) && Within(scanned, more)
    ensures Follows(s, more, reader)
  {
    var q :| Linked(scanned, ZERO_HASH, q) && SameHashes(s.chain, q);
    LinkedStays(scanned, more, ZERO_HASH, q);
    assert SameHashes(s.chain, q);
  }

  /** For such an index the walk finds its preconditions met, by whatever levels, and a chain no shorter. */
  lemma FollowsReads(scanned: seq<ScannedBlock>, lv: Levels, reader: (string, nat, nat) -> Block, s: View)
    requires ForestScan(scanned, lv) && Faithful(scanned, reader) && Follows(s, scanned, reader)
    ensures Readable(scanned, reader, s) && AtLevels(s.chain, lv)
  {
    hide ForestScan, AllSpends;
    var q :| Linked(scanned, ZERO_HASH, q) && SameHashes(s.chain, q);
    LinkedLevels(scanned, lv, ZERO_HASH, q);
  }

  lemma NoShorter(scanned: seq<ScannedBlock>, path: seq<ScannedBlock>, s: View)
    requires OnPath(s.chain, scanned) && forall q :: Linked(scanned, ZERO_HASH, q) ==> |q| <= |path|
    ensures |s.chain| <= |path|
  {
  }

  lemma FollowsIs(s: View, scanned: seq<ScannedBlock>, reader: (string, nat, nat) -> Block)
    ensures Follows(s, scanned, reader) ==> OnPath(s.chain, scanned)
  {
  }

  /** The path that the fork choice picks from the genesis predecessor on. */
  ghost function Picked(scanned: seq<ScannedBlock>, lv: Levels): (path: seq<ScannedBlock>)
    requires ForestScan(scanned, lv)
    ensures Linked(scanned, ZERO_HASH, path) && Chosen(scanned, ZERO_HASH, path)
  {
    BestChainIsLongestScanned(scanned, lv, ZERO_HASH);
    BestChainIsChosen(scanned, lv, ZERO_HASH);
    BestChain(Group(map[], scanned), lv, ZERO_HASH)
  }

  ghost predicate Readable(scanned: seq<ScannedBlock>, reader: (string, nat, nat) -> Block, s: View) {
    forall b, h: nat :: b in scanned ==>
      var full := reader(b.fileName, b.filePosition, h);
      && full.height == h && full.blockHash == b.blockHash
      && (b.blockHash in s.known ==> s.known[b.blockHash] == AllSpends(full.transactions))
  }

  /** The blocks of the index stand at the heights at which the levels put them. */
  ghost predicate AtLevels(chain: seq<Block>, lv: Levels) {
    forall h :: 0 <= h < |chain| ==> lv.depth(chain[h].blockHash) == lv.depth(ZERO_HASH) + h + 1
  }

  function ReadChain(reader: (string, nat, nat) -> Block, path: seq<ScannedBlock>): (full: seq<Block>)
    ensures |full| == |path|
  {
    seq(|path|, i requires 0 <= i < |path| => reader(path[i].fileName, path[i].filePosition, i))
  }

  /** After n blocks the indexer is where the run of those n blocks leads. */
  ghost predicate WalkState(s0: View, s: View, full: seq<Block>, n: nat)
    requires ByHeight(full)
  {
    && n <= |full|
    && s.chain == RunChain(s0.chain, full, n)
    && s.marked == RunMarks(s0.chain, s0.marked, full, n)
    && (forall h :: h in s.known ==> KnownAt(s0, s, full, n, h))
  }

  /** The spends known under the hash were known before, or are those of one of the first n blocks. */
  ghost predicate KnownAt(s0: View, s: View, full: seq<Block>, n: nat, h: Hash)
    requires n <= |full| && h in s.known
  {
    || (h in s0.known && s.known[h] == s0.known[h])
    || exists k :: 0 <= k < n && full[k].blockHash == h && s.known[h] == AllSpends(full[k].transactions)
  }

  lemma KnownStep(s0: View, s: View, s': View, full: seq<Block>, n: nat)
    requires n < |full|
    requires s'.known == s.known || s'.known == s.known[full[n].blockHash := AllSpends(full[n].transactions)]
    requires forall h :: h in s.known ==> KnownAt(s0, s, full, n, h)
    ensures forall h :: h in s'.known ==> KnownAt(s0, s', full, n + 1, h)
  {
    hide AllSpends;
    forall h | h in s'.known
      ensures KnownAt(s0, s', full, n + 1, h)
    {
      assert h in s.known ==> KnownAt(s0, s, full, n, h);
    }
  }

  lemma WalkStep(s0: View, s: View, s': View, full: seq<Block>, n: nat)
    requires ByHeight(full) && n < |full| && WalkState(s0, s, full, n) && Advanced(s, s', full[n])
    ensures WalkState(s0, s', full, n + 1)
  {
    hide KnownAt, AllSpends;
    RunStep(s0.chain, full, n);
    KnownStep(s0, s, s', full, n);
  }

  lemma {:induction false} BestChainLevels(blocks: BlockMap, scanned: seq<ScannedBlock>, lv: Levels, start: Hash)
    requires Forest(blocks, lv) && Grouped(blocks, scanned)
    ensures var best := BestChain(blocks, lv, start);
      forall i :: 0 <= i < |best| ==> best[i] in scanned && lv.depth(best[i].blockHash) == lv.depth(start) + i + 1
    decreases if start in blocks then lv.bound - lv.depth(start) else 0
  {
    hide Height, Choice;
    var cs, best := Children(blocks, start), BestChain(blocks, lv, start);
    if cs != [] {
      BestChainLevels(blocks, scanned, lv, best[0].blockHash);
      forall i | 0 <= i < |best|
        ensures best[i] in scanned && lv.depth(best[i].blockHash) == lv.depth(start) + i + 1
      {
        assert i > 0 ==> best[i] == BestChain(blocks, lv, best[0].blockHash)[i - 1];
      }
    }
  }

  lemma PathFacts(blocks: BlockMap, scanned: seq<ScannedBlock>, lv: Levels, reader: (string, nat, nat) -> Block,
      s: View)
    requires Forest(blocks, lv) && Grouped(blocks, scanned) && Readable(scanned, reader, s)
    ensures var path := BestChain(blocks, lv, ZERO_HASH);
      var full := ReadChain(reader, path);
      && ByHeight(full)
      && forall i :: 0 <= i < |path| ==>
           full[i].blockHash == path[i].blockHash && lv.depth(full[i].blockHash) == lv.depth(ZERO_HASH) + i + 1
  {
    BestChainLevels(blocks, scanned, lv, ZERO_HASH);
  }

  /** After an update that reaches at least the old tip, the index stands for the longest chain exactly
      when no spend moved to a lower height; its balances are then those of the plain replay. */
  lemma UpdateAgreesIff(s0: View, s: View, full: seq<Block>, solver: Solver, a: Address)
    requires ByHeight(full) && WalkState(s0, s, full, |full|) && |s0.chain| <= |full|
    requires ValidChain(s0.chain) && Agrees(s0.chain, s0.marked) && ValidChain(s.chain)
    ensures |s.chain| == |full| && forall h :: 0 <= h < |full| ==> s.chain[h].blockHash == full[h].blockHash
    ensures Agrees(s.chain, s.marked) <==> NothingMovesDown(s0.chain, full)
    ensures NothingMovesDown(s0.chain, full) ==>
      Worth(AllCreates(Transactions(s.chain)), solver, a, s.marked) == Balance(Replay(Transactions(s.chain)), solver, a)
  {
    hide Worth, Balance, Replay, AllCreates;
    ReplayIsCreatedMinusSpent(Transactions(s0.chain));
    ReplayIsCreatedMinusSpent(Transactions(s.chain));
    NoDuplicatesSpendsOnce(s0.chain);
    NoDuplicatesSpendsOnce(s.chain);
    ReorgAgreesIff(s0.chain, s0.marked, full);
    if NothingMovesDown(s0.chain, full) {
      BalanceIsReplay(s.chain, s.marked, solver, a);
    }
  }

  lemma ViewIs(index: BlockIndexer)
    ensures ViewOf(index) == View(index.chain, index.db.marks.markers.Keys, index.known)
    ensures NumbersOf(index) == Counted(index.db, index.nextTxoIndex)
  {
  }

  lemma UpdateFacts(scanned: seq<ScannedBlock>, lv: Levels, reader: (string, nat, nat) -> Block, s: View)
    returns (path: seq<ScannedBlock>)
    requires ForestScan(scanned, lv) && Readable(scanned, reader, s)
    ensures var blocks := Group(map[], scanned);
      Forest(blocks, lv) && Grouped(blocks, scanned) && path == BestChain(blocks, lv, ZERO_HASH) == path[0..]
    ensures path == Picked(scanned, lv)
    ensures Linked(scanned, ZERO_HASH, path) && Chosen(scanned, ZERO_HASH, path)
    ensures forall q :: Linked(scanned, ZERO_HASH, q) ==> |q| <= |path|
    ensures ByHeight(ReadChain(reader, path)) && WalkState(s, s, ReadChain(reader, path), 0)
  {
    hide *;
    var blocks := Group(map[], scanned);
    GroupIsGrouped(scanned);
    GroupedIsForest(blocks, scanned, lv);
    path := BestChain(blocks, lv, ZERO_HASH);
    BestChainIsLongestScanned(scanned, lv, ZERO_HASH);
    BestChainIsChosen(scanned, lv, ZERO_HASH);
    PickedIs(scanned, lv);
    PathFacts(blocks, scanned, lv, reader, s);
    WalkZero(s, ReadChain(reader, path));
  }

  lemma PickedIs(scanned: seq<ScannedBlock>, lv: Levels)
    requires ForestScan(scanned, lv) && Forest(Group(map[], scanned), lv)
    ensures Picked(scanned, lv) == BestChain(Group(map[], scanned), lv, ZERO_HASH)
  {
  }

  lemma WalkZero(s: View, full: seq<Block>)
    requires ByHeight(full)
    ensures WalkState(s, s, full, 0)
  {
    assert RunChain(s.chain, full, 0) == s.chain;
  }

  /** At the end of the walk the index is built from the scan. */
  lemma WalkEnds(scanned: seq<ScannedBlock>, lv: Levels, reader: (string, nat, nat) -> Block, path: seq<ScannedBlock>,
      s0: View, s: View)
    requires Forest(Group(map[], scanned), lv) && Grouped(Group(map[], scanned), scanned)
    requires path == BestChain(Group(map[], scanned), lv, ZERO_HASH) && Linked(scanned, ZERO_HASH, path)
    requires Readable(scanned, reader, s0) && Follows(s0, scanned, reader) && |s0.chain| <= |path|
    requires ByHeight(ReadChain(reader, path)) && WalkState(s0, s, ReadChain(reader, path), |path|)
    ensures Follows(s, scanned, reader)
  {
    hide Linked, AllSpends, Forest, Grouped, RunMarks, Group;
    var full := ReadChain(reader, path);
    PathFacts(Group(map[], scanned), scanned, lv, reader, s0);
    BestChainLevels(Group(map[], scanned), scanned, lv, ZERO_HASH);
    assert SameHashes(s.chain, path);
    forall hash | hash in s.known
      ensures exists b, h: nat ::
        b in scanned && b.blockHash == hash &&
          s.known[hash] == AllSpends(reader(b.fileName, b.filePosition, h).transactions)
    {
      if k :| 0 <= k < |path| && full[k].blockHash == hash && s.known[hash] == AllSpends(full[k].transactions) {
        assert path[k] in scanned && path[k].blockHash == hash;
      }
    }
  }

  lemma MayBeIndexed(scanned: seq<ScannedBlock>, lv: Levels, reader: (string, nat, nat) -> Block, s0: View, s: View,
      full: seq<Block>, n: nat, b: ScannedBlock)
    requires Readable(scanned, reader, s0) && AtLevels(s.chain, lv)
    requires ByHeight(full) && WalkState(s0, s, full, n)
    requires forall i :: 0 <= i < |full| ==> lv.depth(full[i].blockHash) == lv.depth(ZERO_HASH) + i + 1
    requires b in scanned && lv.depth(b.blockHash) == lv.depth(ZERO_HASH) + n + 1
    ensures MayIndex(reader(b.fileName, b.filePosition, n), n, b.blockHash, s.chain, s.known)
  {
    hide RunChain, RunMarks, AllSpends;
    forall h | 0 <= h < |s.chain| && h != n
      ensures s.chain[h].blockHash != b.blockHash
    {
    }
    if b.blockHash in s.known {
      forall k | 0 <= k < n
        ensures full[k].blockHash != b.blockHash
      {
      }
    }
  }

  lemma SuccessorIsDeeper(blocks: BlockMap, scanned: seq<ScannedBlock>, lv: Levels, prev: Hash, b: ScannedBlock)
    requires Forest(blocks, lv) && Grouped(blocks, scanned) && b in Children(blocks, prev)
    ensures b in scanned && lv.depth(b.blockHash) == lv.depth(prev) + 1
  {
    assert GroupOf(blocks[prev], scanned, prev);
  }

  lemma NowhereEmpty(blocks: BlockMap, scanned: seq<ScannedBlock>, lv: Levels)
    requires Grouped(blocks, scanned)
    ensures NoEmptyLists(blocks, lv, 0)
  {
    forall h | h in blocks
      ensures blocks[h] != []
    {
      assert GroupOf(blocks[h], scanned, h);
    }
  }

  /** At its turn, every successor of the block before it may be indexed. */
  lemma SuccessorsMayBeIndexed(blocks: BlockMap, scanned: seq<ScannedBlock>, lv: Levels,
      reader: (string, nat, nat) -> Block, s0: View, s: View, full: seq<Block>, n: nat, prev: Hash)
    requires Forest(blocks, lv) && Grouped(blocks, scanned) && Readable(scanned, reader, s0) && AtLevels(s0.chain, lv)
    requires ByHeight(full) && WalkState(s0, s, full, n) && lv.depth(prev) == lv.depth(ZERO_HASH) + n
    requires forall i :: 0 <= i < |full| ==> lv.depth(full[i].blockHash) == lv.depth(ZERO_HASH) + i + 1
    ensures forall b :: b in Children(blocks, prev) ==>
      MayIndex(reader(b.fileName, b.filePosition, n), n, b.blockHash, s.chain, s.known)
    ensures AtLevels(s.chain, lv) && n <= |s.chain| && NoEmptyLists(blocks, lv, 0)
  {
    hide RunMarks, Readable, Forest, Grouped, MayIndex, Children, ByHeight, NoEmptyLists;
    RunAtLevels(s0.chain, lv, full, n);
    NowhereEmpty(blocks, scanned, lv);
    forall b | b in Children(blocks, prev)
      ensures MayIndex(reader(b.fileName, b.filePosition, n), n, b.blockHash, s.chain, s.known)
    {
      SuccessorIsDeeper(blocks, scanned, lv, prev, b);
      MayBeIndexed(scanned, lv, reader, s0, s, full, n, b);
    }
  }

  lemma RunAtLevels(chain: seq<Block>, lv: Levels, full: seq<Block>, n: nat)
    requires AtLevels(chain, lv) && n <= |full|
    requires forall i :: 0 <= i < |full| ==> lv.depth(full[i].blockHash) == lv.depth(ZERO_HASH) + i + 1
    ensures AtLevels(RunChain(chain, full, n), lv) && n <= |RunChain(chain, full, n)|
  {
  }

  /** What the indexer asks of a block that comes from the reader: its own height and hash, no other
      height with that hash, and no other content under that hash. */
  ghost predicate MayIndex(full: Block, height: nat, hash: Hash, chain: seq<Block>, known: map<Hash, seq<Outpoint>>) {
    && full.height == height && full.blockHash == hash
    && (forall h :: 0 <= h < |chain| && h != height ==> chain[h].blockHash != hash)
    && (hash in known ==> known[hash] == AllSpends(full.transactions))
  }

  /** Every key at or above this level has successors; the race may start there. */
  ghost predicate NoEmptyLists(blocks: BlockMap, lv: Levels, floor: nat) {
    forall h :: h in blocks && floor <= lv.depth(h) ==> blocks[h] != []
  }

  /** In this round the pointers before i have moved and the others have not: a pointer that has moved
      so many steps stands that much lower than its candidate, or its candidate was no higher. */
  ghost predicate RaceState(blocks: BlockMap, lv: Levels, cs: seq<ScannedBlock>, next: seq<Hash>, i: nat, round: nat,
      floor: nat)
    requires Forest(blocks, lv)
  {
    && |next| == |cs| && i <= |cs|
    && forall j :: 0 <= j < |cs| ==>
         var steps := if j < i then round + 1 else round;
         var h := Height(blocks, lv, cs[j].blockHash);
         if next[j] == "" then h <= steps
         else lv.depth(next[j]) >= floor && Height(blocks, lv, next[j]) + steps == h
  }

  lemma RaceStarts(blocks: BlockMap, lv: Levels, cs: seq<ScannedBlock>, next: seq<Hash>, floor: nat)
    requires Forest(blocks, lv) && cs != [] && |next| == |cs|
    requires forall b :: b in cs ==> b.blockHash != "" && lv.depth(b.blockHash) >= floor
    requires forall j :: 0 <= j < |next| ==> next[j] == cs[j].blockHash
    ensures RaceState(blocks, lv, cs, next, 0, 0, floor) && Alive(next) >= 1
  {
    assert forall j :: 0 <= j < |cs| ==> cs[j] in cs;
    AliveAll(next);
  }

  lemma RaceEnds(blocks: BlockMap, lv: Levels, cs: seq<ScannedBlock>, next: seq<Hash>, i: nat, round: nat, floor: nat)
    requires Forest(blocks, lv) && RaceState(blocks, lv, cs, next, i, round, floor) && i < |next| && next[i] !in blocks
    requires Alive(next) >= 2
    ensures RaceState(blocks, lv, cs, next[i := ""], i + 1, round, floor) && Alive(next[i := ""]) >= 1
  {
    hide Height, Alive;
    EndHeight(blocks, lv, next[i]);
    AliveUpdate(next, i, "");
  }

  lemma EndHeight(blocks: BlockMap, lv: Levels, h: Hash)
    requires Forest(blocks, lv) && h !in blocks
    ensures Height(blocks, lv, h) == 1
  {
  }

  /** A pointer that is not at an end meets at least one successor, all one level further on. */
  lemma RaceMeets(blocks: BlockMap, lv: Levels, cs: seq<ScannedBlock>, next: seq<Hash>, i: nat, round: nat, floor: nat)
    requires Forest(blocks, lv) && NoEmptyLists(blocks, lv, floor)
    requires RaceState(blocks, lv, cs, next, i, round, floor) && i < |next| && next[i] in blocks
    ensures blocks[next[i]] != [] && floor <= lv.depth(next[i]) < lv.bound
    ensures forall b :: b in blocks[next[i]] ==> b.blockHash != "" && lv.depth(b.blockHash) == lv.depth(next[i]) + 1
  {
  }

  lemma RaceAdvances(blocks: BlockMap, lv: Levels, cs: seq<ScannedBlock>, next: seq<Hash>, i: nat, round: nat,
      floor: nat)
    requires Forest(blocks, lv) && NoEmptyLists(blocks, lv, floor)
    requires RaceState(blocks, lv, cs, next, i, round, floor) && i < |next| && next[i] in blocks &&
      blocks[next[i]] != []
    requires Alive(next) >= 2
    ensures var b := blocks[next[i]][Choice(blocks, lv, blocks[next[i]])];
      RaceState(blocks, lv, cs, next[i := b.blockHash], i + 1, round, floor) && Alive(next[i := b.blockHash]) >= 1
  {
    hide Height, Alive, Choice;
    HeightStep(blocks, lv, next[i]);
    var b := blocks[next[i]][Choice(blocks, lv, blocks[next[i]])];
    AliveUpdate(next, i, b.blockHash);
  }

  lemma OnlyChoice(blocks: BlockMap, lv: Levels, cs: seq<ScannedBlock>)
    requires Forest(blocks, lv) && |cs| == 1
    ensures Choice(blocks, lv, cs) == 0
  {
  }

  lemma RaceRound(blocks: BlockMap, lv: Levels, cs: seq<ScannedBlock>, next: seq<Hash>, round: nat, floor: nat)
    requires Forest(blocks, lv) && RaceState(blocks, lv, cs, next, |cs|, round, floor)
    ensures RaceState(blocks, lv, cs, next, 0, round + 1, floor)
  {
  }

  lemma TopAlive(blocks: BlockMap, lv: Levels, cs: seq<ScannedBlock>, next: seq<Hash>, round: nat, floor: nat)
    requires Forest(blocks, lv) && cs != []
    requires RaceState(blocks, lv, cs, next, 0, round, floor) && Alive(next) >= 1
    ensures Height(blocks, lv, cs[Choice(blocks, lv, cs)].blockHash) > round
  {
    if forall j :: 0 <= j < |next| ==> next[j] == "" { AliveNone(next); }
    var k :| 0 <= k < |next| && next[k] != "";
    var hs := Heights(blocks, lv, cs);
    assert hs[k] <= hs[LastMax(hs)];
  }

  /** The last pointer left belongs to the candidate that the fork choice names. */
  lemma LastAlive(blocks: BlockMap, lv: Levels, cs: seq<ScannedBlock>, next: seq<Hash>, i: nat, round: nat, floor: nat,
      k: nat)
    requires Forest(blocks, lv) && cs != []
    requires RaceState(blocks, lv, cs, next, i, round, floor) && Alive(next) == 1
    requires k < |next| && next[k] != ""
    ensures Choice(blocks, lv, cs) == k
  {
    forall j | 0 <= j < |next| && j != k
      ensures next[j] == ""
    {
      if next[j] != "" {
        if j < k { AliveOne(next, j, k); } else { AliveOne(next, k, j); }
      }
    }
    ChoiceIs(blocks, lv, cs, k);
  }

  lemma AliveStep(next: seq<Hash>, k: nat)
    requires k < |next|
    ensures Alive(next[..k + 1]) == Alive(next[..k]) + if next[k] != "" then 1 else 0
  {
    assert next[..k + 1][..k] == next[..k];
  }

  function Flat(files: seq<seq<ScannedBlock>>): seq<ScannedBlock> {
    if files == [] then [] else Flat(files[..|files| - 1]) + files[|files| - 1]
  }

  /** The files come in the order in which they are scanned, and their blocks in the order of the file. */
  lemma {:induction false} FlatAt(files: seq<seq<ScannedBlock>>, i: nat, k: nat)
    requires i < |files| && k < |files[i]|
    ensures |Flat(files[..i])| + k < |Flat(files)| && Flat(files)[|Flat(files[..i])| + k] == files[i][k]
  {
    var n := |files| - 1;
    if i < n {
      FlatAt(files[..n], i, k);
      assert files[..n][..i] == files[..i];
    }
  }
}
