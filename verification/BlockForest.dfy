/** The map that the block scanner fills, read as a finite forest, with the two notions the
    fork choice is about: the height of the subtree under a block, and the chains of blocks
    that start at a given hash. Nothing here is an algorithm of the indexer; it is the
    specification that the walks of BlockFileWatcher are proved against. */
module BlockForest {
  import opened BlockchainTypes

  /** Blocks by the hash of their predecessor. */
  type BlockMap = map<Hash, seq<ScannedBlock>>

  /** A level for every hash and a bound on the levels in use: the witness that a map is acyclic. */
  datatype Levels = Levels(depth: Hash -> nat, bound: nat)

  /** Every block sits one level below its predecessor; the empty string is nobody's hash. */
  ghost predicate Forest(blocks: BlockMap, lv: Levels) {
    && "" !in blocks
    && (forall h :: h in blocks ==> lv.depth(h) < lv.bound)
    && (forall h, i :: h in blocks && 0 <= i < |blocks[h]| ==>
          && blocks[h][i].blockHash != ""
          && lv.depth(blocks[h][i].blockHash) == lv.depth(h) + 1 < lv.bound)
  }

  /** A hash names one block, and that block sits under its own predecessor. */
  ghost predicate HashesAreUnique(blocks: BlockMap) {
    && (forall h, i :: h in blocks && 0 <= i < |blocks[h]| ==> blocks[h][i].previousBlockHash == h)
    && (forall h, i, j :: h in blocks && 0 <= i < j < |blocks[h]| ==>
          blocks[h][i].blockHash != blocks[h][j].blockHash)
    && (forall h, i, h', i' :: h in blocks && h' in blocks && 0 <= i < |blocks[h]| && 0 <= i' < |blocks[h']| ==>
          blocks[h][i].blockHash == blocks[h'][i'].blockHash ==> h == h')
  }

  function Children(blocks: BlockMap, h: Hash): seq<ScannedBlock> {
    if h in blocks then blocks[h] else []
  }

  /** The position of the largest element, the last one on ties. */
  ghost function LastMax(s: seq<nat>): (k: nat)
    requires s != []
    ensures k < |s|
    ensures forall j :: 0 <= j < |s| ==> s[j] <= s[k] && (k < j ==> s[j] < s[k])
  {
    if |s| == 1 then 0
    else
      var k := LastMax(s[..|s| - 1]);
      if s[|s| - 1] >= s[k] then |s| - 1 else k
  }

  /** The number of blocks on the longest chain that begins with block h itself. */
  ghost function Height(blocks: BlockMap, lv: Levels, h: Hash): (n: nat)
    requires Forest(blocks, lv)
    ensures n >= 1
    decreases if h in blocks then lv.bound - lv.depth(h) else 0
  {
    if Children(blocks, h) == [] then 1
    else
      var hs := seq(|blocks[h]|, i requires 0 <= i < |blocks[h]| => Height(blocks, lv, blocks[h][i].blockHash));
      1 + hs[LastMax(hs)]
  }

  ghost function Heights(blocks: BlockMap, lv: Levels, cs: seq<ScannedBlock>): (hs: seq<nat>)
    requires Forest(blocks, lv)
    ensures |hs| == |cs|
  {
    seq(|cs|, i requires 0 <= i < |cs| => Height(blocks, lv, cs[i].blockHash))
  }

  /** The fork choice: the position of the candidate with the tallest subtree, the last one on ties. */
  ghost function Choice(blocks: BlockMap, lv: Levels, cs: seq<ScannedBlock>): (k: nat)
    requires Forest(blocks, lv) && cs != []
    ensures k < |cs|
  {
    LastMax(Heights(blocks, lv, cs))
  }

  lemma ChoiceIs(blocks: BlockMap, lv: Levels, cs: seq<ScannedBlock>, k: nat)
    requires Forest(blocks, lv) && k < |cs|
    requires forall j :: 0 <= j < |cs| && j != k ==>
      var hj, hk := Height(blocks, lv, cs[j].blockHash), Height(blocks, lv, cs[k].blockHash);
      hj < hk || (hj == hk && j < k)
    ensures Choice(blocks, lv, cs) == k
  {
    var hs := Heights(blocks, lv, cs);
    var c := LastMax(hs);
    assert hs[k] <= hs[c];
  }

  /** The height of a block with successors is one more than that of the chosen successor. */
  lemma HeightStep(blocks: BlockMap, lv: Levels, h: Hash)
    requires Forest(blocks, lv) && Children(blocks, h) != []
    ensures var cs := blocks[h];
      && Height(blocks, lv, h) == 1 + Height(blocks, lv, cs[Choice(blocks, lv, cs)].blockHash)
      && forall j :: 0 <= j < |cs| ==> Height(blocks, lv, cs[j].blockHash) < Height(blocks, lv, h)
  {
    var cs := blocks[h];
    var hs := seq(|cs|, i requires 0 <= i < |cs| => Height(blocks, lv, cs[i].blockHash));
    assert hs == Heights(blocks, lv, cs);
    forall j | 0 <= j < |cs|
      ensures Height(blocks, lv, cs[j].blockHash) < Height(blocks, lv, h)
    {
      assert hs[j] <= hs[LastMax(hs)];
    }
  }

  /** A chain of blocks, each the successor of the one before, the first a successor of start. */
  ghost predicate IsChain(blocks: BlockMap, start: Hash, p: seq<ScannedBlock>)
    decreases p
  {
    p != [] ==> p[0] in Children(blocks, start) && IsChain(blocks, p[0].blockHash, p[1..])
  }

  /** The chain that follows the fork choice from start to a tip. */
  ghost function BestChain(blocks: BlockMap, lv: Levels, start: Hash): (p: seq<ScannedBlock>)
    requires Forest(blocks, lv)
    decreases if start in blocks then lv.bound - lv.depth(start) else 0
  {
    var cs := Children(blocks, start);
    if cs == [] then []
    else
      var b := cs[Choice(blocks, lv, cs)];
      [b] + BestChain(blocks, lv, b.blockHash)
  }

  /** No chain is longer than the height allows. */
  lemma {:induction false} ChainIsBounded(blocks: BlockMap, lv: Levels, start: Hash, p: seq<ScannedBlock>)
    requires Forest(blocks, lv) && IsChain(blocks, start, p)
    ensures |p| < Height(blocks, lv, start)
    decreases p
  {
    if p != [] {
      HeightStep(blocks, lv, start);
      ChainIsBounded(blocks, lv, p[0].blockHash, p[1..]);
    }
  }

  /** Following the fork choice gives a chain, and one that no other chain from start exceeds. */
  lemma {:induction false} BestChainIsLongest(blocks: BlockMap, lv: Levels, start: Hash)
    requires Forest(blocks, lv)
    ensures IsChain(blocks, start, BestChain(blocks, lv, start))
    ensures |BestChain(blocks, lv, start)| == Height(blocks, lv, start) - 1
    ensures forall q :: IsChain(blocks, start, q) ==> |q| <= |BestChain(blocks, lv, start)|
    decreases if start in blocks then lv.bound - lv.depth(start) else 0
  {
    var cs := Children(blocks, start);
    if cs != [] {
      var b := cs[Choice(blocks, lv, cs)];
      HeightStep(blocks, lv, start);
      BestChainIsLongest(blocks, lv, b.blockHash);
      assert BestChain(blocks, lv, start)[1..] == BestChain(blocks, lv, b.blockHash);
    }
    forall q | IsChain(blocks, start, q)
      ensures |q| <= |BestChain(blocks, lv, start)|
    {
      ChainIsBounded(blocks, lv, start, q);
    }
  }

  /** Only the successors matter: an empty list under a new key changes no height and no choice. */
  ghost predicate SameChildren(blocks: BlockMap, blocks': BlockMap) {
    forall h :: Children(blocks, h) == Children(blocks', h)
  }

  lemma {:induction false} HeightUnchanged(blocks: BlockMap, blocks': BlockMap, lv: Levels, h: Hash)
    requires Forest(blocks, lv) && Forest(blocks', lv) && SameChildren(blocks, blocks')
    ensures Height(blocks, lv, h) == Height(blocks', lv, h)
    decreases if h in blocks then lv.bound - lv.depth(h) else 0
  {
    assert Children(blocks, h) == Children(blocks', h);
    if Children(blocks, h) != [] {
      var cs := blocks[h];
      forall i | 0 <= i < |cs|
        ensures Height(blocks, lv, cs[i].blockHash) == Height(blocks', lv, cs[i].blockHash)
      {
        HeightUnchanged(blocks, blocks', lv, cs[i].blockHash);
      }
      assert Heights(blocks, lv, cs) == Heights(blocks', lv, cs);
      HeightStep(blocks, lv, h);
      HeightStep(blocks', lv, h);
    }
  }

  lemma ChoiceUnchanged(blocks: BlockMap, blocks': BlockMap, lv: Levels, cs: seq<ScannedBlock>)
    requires Forest(blocks, lv) && Forest(blocks', lv) && SameChildren(blocks, blocks') && cs != []
    ensures Choice(blocks, lv, cs) == Choice(blocks', lv, cs)
  {
    forall i | 0 <= i < |cs|
      ensures Height(blocks, lv, cs[i].blockHash) == Height(blocks', lv, cs[i].blockHash)
    {
      HeightUnchanged(blocks, blocks', lv, cs[i].blockHash);
    }
    assert Heights(blocks, lv, cs) == Heights(blocks', lv, cs);
  }

  // ---------- Filling the map from scanned blocks ----------

  predicate HasHash(cs: seq<ScannedBlock>, h: Hash) {
    exists i :: 0 <= i < |cs| && cs[i].blockHash == h
  }

  /** One scanned block: it joins the successors of its predecessor unless its hash is there already. */
  function Add(blocks: BlockMap, b: ScannedBlock): BlockMap {
    var cs := Children(blocks, b.previousBlockHash);
    blocks[b.previousBlockHash := if HasHash(cs, b.blockHash) then cs else cs + [b]]
  }

  function Group(blocks: BlockMap, scanned: seq<ScannedBlock>): BlockMap {
    if scanned == [] then blocks
    else Add(Group(blocks, scanned[..|scanned| - 1]), scanned[|scanned| - 1])
  }

  /** Scanned blocks form a forest: each sits one level below its predecessor, and a hash names one predecessor. */
  ghost predicate ForestScan(scanned: seq<ScannedBlock>, lv: Levels) {
    && lv.depth(ZERO_HASH) < lv.bound
    && (forall b :: b in scanned ==>
          && b.blockHash != "" && b.previousBlockHash != "" && !b.mainChain
          && lv.depth(b.blockHash) == lv.depth(b.previousBlockHash) + 1 < lv.bound)
    && (forall b, b' :: b in scanned && b' in scanned && b.blockHash == b'.blockHash ==>
          b.previousBlockHash == b'.previousBlockHash)
  }

  /** Scanned blocks without a cycle: some ranking falls from every block's predecessor to the block. */
  ghost predicate Acyclic(scanned: seq<ScannedBlock>, rank: Hash -> nat, top: nat) {
    forall b :: b in scanned ==> rank(b.blockHash) < rank(b.previousBlockHash) <= top
  }

  ghost function LevelOf(scanned: seq<ScannedBlock>, rank: Hash -> nat, top: nat, h: Hash): nat
    requires Acyclic(scanned, rank, top)
    decreases if rank(h) <= top then top - rank(h) else 0
  {
    if exists b :: b in scanned && b.blockHash == h then
      var b :| b in scanned && b.blockHash == h;
      1 + LevelOf(scanned, rank, top, b.previousBlockHash)
    else 0
  }

  lemma {:induction false} LevelIsBounded(scanned: seq<ScannedBlock>, rank: Hash -> nat, top: nat, h: Hash)
    requires Acyclic(scanned, rank, top)
    ensures LevelOf(scanned, rank, top, h) <= top
    ensures rank(h) <= top ==> LevelOf(scanned, rank, top, h) + rank(h) <= top
    decreases if rank(h) <= top then top - rank(h) else 0
  {
    if exists b :: b in scanned && b.blockHash == h {
      var b :| b in scanned && b.blockHash == h &&
        LevelOf(scanned, rank, top, h) == 1 + LevelOf(scanned, rank, top, b.previousBlockHash);
      LevelIsBounded(scanned, rank, top, b.previousBlockHash);
    }
  }

  /** The levels are no further assumption: without cycles, and with one predecessor for each hash,
      scanned blocks form a forest. */
  lemma LevelsExist(scanned: seq<ScannedBlock>, rank: Hash -> nat, top: nat) returns (lv: Levels)
    requires Acyclic(scanned, rank, top)
    requires forall b :: b in scanned ==> b.blockHash != "" && b.previousBlockHash != "" && !b.mainChain
    requires forall b, b' :: b in scanned && b' in scanned && b.blockHash == b'.blockHash ==>
      b.previousBlockHash == b'.previousBlockHash
    ensures ForestScan(scanned, lv)
  {
    lv := Levels(h => LevelOf(scanned, rank, top, h), top + 1);
    LevelIsBounded(scanned, rank, top, ZERO_HASH);
    forall b | b in scanned
      ensures lv.depth(b.blockHash) == lv.depth(b.previousBlockHash) + 1 < lv.bound
    {
      LevelIsBounded(scanned, rank, top, b.blockHash);
    }
  }

  /** A list of different scanned blocks, all with the predecessor h. */
  ghost predicate GroupOf(cs: seq<ScannedBlock>, scanned: seq<ScannedBlock>, h: Hash) {
    && cs != []
    && (forall i :: 0 <= i < |cs| ==> cs[i] in scanned && cs[i].previousBlockHash == h)
    && (forall i, j :: 0 <= i < j < |cs| ==> cs[i].blockHash != cs[j].blockHash)
  }

  /** What the map holds after the scan: every scanned hash once, under its predecessor, and nothing else. */
  ghost predicate Grouped(blocks: BlockMap, scanned: seq<ScannedBlock>) {
    && (forall b :: b in scanned ==> HasHash(Children(blocks, b.previousBlockHash), b.blockHash))
    && (forall h :: h in blocks ==> GroupOf(blocks[h], scanned, h))
  }

  lemma NothingGrouped()
    ensures Grouped(map[], [])
  {
  }

  lemma {:induction false} GroupIsGrouped(scanned: seq<ScannedBlock>)
    ensures Grouped(Group(map[], scanned), scanned)
  {
    hide Grouped, Add;
    if scanned == [] {
      NothingGrouped();
    } else {
      var n := |scanned| - 1;
      GroupIsGrouped(scanned[..n]);
      AddKeepsGrouped(Group(map[], scanned[..n]), scanned[..n], scanned[n]);
      assert scanned[..n] + [scanned[n]] == scanned;
    }
  }

  lemma AddKeepsGroups(blocks: BlockMap, scanned: seq<ScannedBlock>, b: ScannedBlock, h: Hash)
    requires forall h :: h in blocks ==> GroupOf(blocks[h], scanned, h)
    requires h in Add(blocks, b)
    ensures GroupOf(Add(blocks, b)[h], scanned + [b], h)
  {
    hide HasHash;
    var cs := Add(blocks, b)[h];
    forall i | 0 <= i < |cs|
      ensures cs[i] in scanned + [b] && cs[i].previousBlockHash == h
    {
      assert (scanned + [b])[|scanned|] == b;
      if h in blocks && i < |blocks[h]| { assert cs[i] == blocks[h][i]; }
    }
    HasHashMeans(Children(blocks, h), b.blockHash);
  }

  lemma HasHashMeans(cs: seq<ScannedBlock>, hash: Hash)
    ensures HasHash(cs, hash) ==> cs != []
    ensures !HasHash(cs, hash) ==> forall i :: 0 <= i < |cs| ==> cs[i].blockHash != hash
  {
  }

  lemma AddKeepsHash(blocks: BlockMap, b: ScannedBlock, h: Hash, hash: Hash)
    requires HasHash(Children(blocks, h), hash)
    ensures HasHash(Children(Add(blocks, b), h), hash)
  {
    var i :| 0 <= i < |Children(blocks, h)| && Children(blocks, h)[i].blockHash == hash;
    assert Children(Add(blocks, b), h)[i].blockHash == hash;
  }

  lemma AddFiles(blocks: BlockMap, b: ScannedBlock)
    ensures HasHash(Children(Add(blocks, b), b.previousBlockHash), b.blockHash)
  {
    var cs := Children(blocks, b.previousBlockHash);
    if !HasHash(cs, b.blockHash) {
      assert Children(Add(blocks, b), b.previousBlockHash)[|cs|] == b;
    }
  }

  lemma AddKeepsGrouped(blocks: BlockMap, scanned: seq<ScannedBlock>, b: ScannedBlock)
    requires Grouped(blocks, scanned)
    ensures Grouped(Add(blocks, b), scanned + [b])
  {
    hide GroupOf, HasHash, Add, Children;
    forall h | h in Add(blocks, b)
      ensures GroupOf(Add(blocks, b)[h], scanned + [b], h)
    {
      AddKeepsGroups(blocks, scanned, b, h);
    }
    forall c | c in scanned + [b]
      ensures HasHash(Children(Add(blocks, b), c.previousBlockHash), c.blockHash)
    {
      if c in scanned { AddKeepsHash(blocks, b, c.previousBlockHash, c.blockHash); } else { AddFiles(blocks, b); }
    }
  }

  lemma GroupedIsForest(blocks: BlockMap, scanned: seq<ScannedBlock>, lv: Levels)
    requires Grouped(blocks, scanned) && ForestScan(scanned, lv)
    ensures Forest(blocks, lv) && HashesAreUnique(blocks)
  {
    forall h | h in blocks
      ensures lv.depth(h) < lv.bound && h != ""
    {
      assert blocks[h][0] in scanned;
    }
  }

  lemma {:induction false} GroupTwice(blocks: BlockMap, s: seq<ScannedBlock>, t: seq<ScannedBlock>)
    ensures Group(Group(blocks, s), t) == Group(blocks, s + t)
  {
    if t == [] {
      assert s + t == s;
    } else {
      assert (s + t)[..|s + t| - 1] == s + t[..|t| - 1];
      GroupTwice(blocks, s, t[..|t| - 1]);
    }
  }

  /** A chain of scanned blocks, with no reference to the map. */
  ghost predicate Linked(scanned: seq<ScannedBlock>, start: Hash, q: seq<ScannedBlock>)
    decreases q
  {
    q != [] ==> q[0] in scanned && q[0].previousBlockHash == start && Linked(scanned, q[0].blockHash, q[1..])
  }

  lemma {:induction false} LinkedIsBounded(blocks: BlockMap, scanned: seq<ScannedBlock>, lv: Levels, start: Hash,
      q: seq<ScannedBlock>)
    requires Forest(blocks, lv) && Grouped(blocks, scanned) && Linked(scanned, start, q)
    ensures |q| < Height(blocks, lv, start)
    decreases q
  {
    if q != [] {
      var cs := Children(blocks, start);
      var i :| 0 <= i < |cs| && cs[i].blockHash == q[0].blockHash;
      HeightStep(blocks, lv, start);
      LinkedIsBounded(blocks, scanned, lv, q[0].blockHash, q[1..]);
    }
  }

  lemma {:induction false} ChainIsLinked(blocks: BlockMap, scanned: seq<ScannedBlock>, start: Hash,
      p: seq<ScannedBlock>)
    requires Grouped(blocks, scanned) && IsChain(blocks, start, p)
    ensures Linked(scanned, start, p)
    decreases p
  {
    if p != [] {
      var i :| 0 <= i < |Children(blocks, start)| && Children(blocks, start)[i] == p[0];
      ChainIsLinked(blocks, scanned, p[0].blockHash, p[1..]);
    }
  }

  /** The chain picked by the fork choice is as long as any chain of the scanned blocks. */
  lemma BestChainIsLongestScanned(scanned: seq<ScannedBlock>, lv: Levels, start: Hash)
    requires ForestScan(scanned, lv)
    ensures Forest(Group(map[], scanned), lv)
    ensures var best := BestChain(Group(map[], scanned), lv, start);
      && Linked(scanned, start, best)
      && forall q :: Linked(scanned, start, q) ==> |q| <= |best|
  {
    var blocks := Group(map[], scanned);
    GroupIsGrouped(scanned);
    GroupedIsForest(blocks, scanned, lv);
    BestChainIsLongest(blocks, lv, start);
    ChainIsLinked(blocks, scanned, start, BestChain(blocks, lv, start));
    forall q | Linked(scanned, start, q)
      ensures |q| <= |BestChain(blocks, lv, start)|
    {
      LinkedIsBounded(blocks, scanned, lv, start, q);
    }
  }

  // ---------- The order of the scan ----------

  /** The position of the first scanned block that has this predecessor and this hash, or the length of the scan. */
  function FirstAt(scanned: seq<ScannedBlock>, prev: Hash, hash: Hash): (k: nat)
    ensures k <= |scanned|
    ensures k < |scanned| ==> scanned[k].previousBlockHash == prev && scanned[k].blockHash == hash
    ensures forall i :: 0 <= i < k ==> !(scanned[i].previousBlockHash == prev && scanned[i].blockHash == hash)
  {
    if scanned == [] then 0
    else
      var n := |scanned| - 1;
      var k := FirstAt(scanned[..n], prev, hash);
      if k == n && !(scanned[n].previousBlockHash == prev && scanned[n].blockHash == hash) then n + 1 else k
  }

  /** No block with this predecessor and this hash was scanned before. */
  ghost predicate ScannedFirst(b: ScannedBlock, scanned: seq<ScannedBlock>) {
    var k := FirstAt(scanned, b.previousBlockHash, b.blockHash);
    k < |scanned| && scanned[k] == b
  }

  ghost predicate Before(a: ScannedBlock, b: ScannedBlock, scanned: seq<ScannedBlock>) {
    FirstAt(scanned, a.previousBlockHash, a.blockHash) < FirstAt(scanned, b.previousBlockHash, b.blockHash)
  }

  /** Each block of the list is the one that was scanned first with its hash, and they come in the order of the scan. */
  ghost predicate InScanOrder(cs: seq<ScannedBlock>, scanned: seq<ScannedBlock>) {
    && (forall i :: 0 <= i < |cs| ==> ScannedFirst(cs[i], scanned))
    && (forall i, j :: 0 <= i < j < |cs| ==> Before(cs[i], cs[j], scanned))
  }

  lemma FirstStays(scanned: seq<ScannedBlock>, b: ScannedBlock, prev: Hash, hash: Hash)
    ensures FirstAt(scanned, prev, hash) < |scanned| ==>
      FirstAt(scanned + [b], prev, hash) == FirstAt(scanned, prev, hash)
    ensures FirstAt(scanned, prev, hash) == |scanned| && b.previousBlockHash == prev && b.blockHash == hash ==>
      FirstAt(scanned + [b], prev, hash) == |scanned|
  {
    assert (scanned + [b])[..|scanned|] == scanned;
  }

  lemma NotYetScanned(blocks: BlockMap, scanned: seq<ScannedBlock>, h: Hash, hash: Hash)
    requires Grouped(blocks, scanned) && !HasHash(Children(blocks, h), hash)
    ensures FirstAt(scanned, h, hash) == |scanned|
  {
    forall i | 0 <= i < |scanned|
      ensures !(scanned[i].previousBlockHash == h && scanned[i].blockHash == hash)
    {
      assert scanned[i] in scanned;
    }
  }

  lemma FirstOfMore(a: ScannedBlock, scanned: seq<ScannedBlock>, b: ScannedBlock)
    requires ScannedFirst(a, scanned)
    ensures ScannedFirst(a, scanned + [b])
    ensures FirstAt(scanned, a.previousBlockHash, a.blockHash) ==
      FirstAt(scanned + [b], a.previousBlockHash, a.blockHash) < |scanned|
  {
    FirstStays(scanned, b, a.previousBlockHash, a.blockHash);
  }

  lemma OrderStays(cs: seq<ScannedBlock>, scanned: seq<ScannedBlock>, b: ScannedBlock)
    requires InScanOrder(cs, scanned)
    ensures InScanOrder(cs, scanned + [b])
  {
    hide FirstAt, ScannedFirst;
    forall i | 0 <= i < |cs|
      ensures ScannedFirst(cs[i], scanned + [b])
      ensures FirstAt(scanned, cs[i].previousBlockHash, cs[i].blockHash) ==
        FirstAt(scanned + [b], cs[i].previousBlockHash, cs[i].blockHash)
    {
      FirstOfMore(cs[i], scanned, b);
    }
  }

  lemma LastIsFirst(scanned: seq<ScannedBlock>, b: ScannedBlock)
    requires FirstAt(scanned, b.previousBlockHash, b.blockHash) == |scanned|
    ensures ScannedFirst(b, scanned + [b])
    ensures forall a :: ScannedFirst(a, scanned) ==> Before(a, b, scanned + [b])
  {
    hide FirstAt;
    FirstStays(scanned, b, b.previousBlockHash, b.blockHash);
    forall a | ScannedFirst(a, scanned)
      ensures Before(a, b, scanned + [b])
    {
      FirstOfMore(a, scanned, b);
    }
  }

  lemma OrderGrows(cs: seq<ScannedBlock>, scanned: seq<ScannedBlock>, b: ScannedBlock)
    requires InScanOrder(cs, scanned) && FirstAt(scanned, b.previousBlockHash, b.blockHash) == |scanned|
    ensures InScanOrder(cs + [b], scanned + [b])
  {
    OrderStays(cs, scanned, b);
    LastIsFirst(scanned, b);
    hide FirstAt, ScannedFirst, Before;
  }

  lemma AddKeepsOrder(blocks: BlockMap, scanned: seq<ScannedBlock>, b: ScannedBlock, h: Hash)
    requires Grouped(blocks, scanned) && InScanOrder(Children(blocks, h), scanned)
    ensures InScanOrder(Children(Add(blocks, b), h), scanned + [b])
  {
    hide FirstAt, InScanOrder, Grouped, HasHash;
    if h == b.previousBlockHash && !HasHash(Children(blocks, h), b.blockHash) {
      NotYetScanned(blocks, scanned, h, b.blockHash);
      OrderGrows(Children(blocks, h), scanned, b);
    } else {
      OrderStays(Children(blocks, h), scanned, b);
    }
  }

  /** Under each predecessor the successors come in the order in which their hashes were first scanned. */
  lemma {:induction false} GroupIsInScanOrder(scanned: seq<ScannedBlock>, h: Hash)
    ensures InScanOrder(Children(Group(map[], scanned), h), scanned)
  {
    hide InScanOrder, Grouped, Add;
    if scanned == [] {
      NoneInOrder(scanned);
    } else {
      var n := |scanned| - 1;
      GroupIsInScanOrder(scanned[..n], h);
      GroupIsGrouped(scanned[..n]);
      AddKeepsOrder(Group(map[], scanned[..n]), scanned[..n], scanned[n], h);
      assert scanned[..n] + [scanned[n]] == scanned;
    }
  }

  lemma NoneInOrder(scanned: seq<ScannedBlock>)
    ensures InScanOrder([], scanned)
  {
  }

  /** The fork choice in terms of the scan alone: no chain from start is longer, and at every block the successor on
      the path is, among the scanned successors from which the longest chains go on, the one whose hash was scanned
      last of all for the first time. */
  ghost predicate Chosen(scanned: seq<ScannedBlock>, start: Hash, p: seq<ScannedBlock>)
    decreases p
  {
    && (forall q :: Linked(scanned, start, q) ==> |q| <= |p|)
    && (p != [] ==>
          && p[0].previousBlockHash == start && ScannedFirst(p[0], scanned)
          && NoneLater(scanned, start, p[0].blockHash, |p| - 1)
          && Chosen(scanned, p[0].blockHash, p[1..]))
  }

  /** No scanned successor of start from which a chain of n blocks goes on was first scanned after this one. */
  ghost predicate NoneLater(scanned: seq<ScannedBlock>, start: Hash, hash: Hash, n: nat) {
    forall c, q :: c in scanned && c.previousBlockHash == start && Linked(scanned, c.blockHash, q) && |q| == n ==>
      FirstAt(scanned, start, c.blockHash) <= FirstAt(scanned, start, hash)
  }

  /** The path that the walk follows is the chosen one. */
  lemma {:induction false} BestChainIsChosen(scanned: seq<ScannedBlock>, lv: Levels, start: Hash)
    requires ForestScan(scanned, lv)
    ensures Forest(Group(map[], scanned), lv)
    ensures Chosen(scanned, start, BestChain(Group(map[], scanned), lv, start))
    decreases lv.bound - lv.depth(start)
  {
    hide FirstAt, Linked, NoneLater, Forest, ForestScan, Group;
    var blocks := Group(map[], scanned);
    BestChainIsLongestScanned(scanned, lv, start);
    var cs := Children(blocks, start);
    if cs != [] {
      var k := Choice(blocks, lv, cs);
      GroupIsInScanOrder(scanned, start);
      ChildrenAreDeeper(scanned, lv, start);
      BestChainIsChosen(scanned, lv, cs[k].blockHash);
      LastOfTallest(scanned, lv, start);
      assert BestChain(blocks, lv, start)[1..] == BestChain(blocks, lv, cs[k].blockHash);
    }
  }

  lemma ChildrenAreDeeper(scanned: seq<ScannedBlock>, lv: Levels, start: Hash)
    requires ForestScan(scanned, lv)
    ensures forall b :: b in Children(Group(map[], scanned), start) ==>
      lv.depth(start) < lv.depth(b.blockHash) < lv.bound
  {
    GroupIsGrouped(scanned);
    hide Group;
  }

  lemma LastOfTallest(scanned: seq<ScannedBlock>, lv: Levels, start: Hash)
    requires ForestScan(scanned, lv) && Forest(Group(map[], scanned), lv)
    requires Children(Group(map[], scanned), start) != []
    ensures var blocks := Group(map[], scanned);
      var cs, p := Children(blocks, start), BestChain(blocks, lv, start);
      p != [] && NoneLater(scanned, start, p[0].blockHash, |p| - 1)
  {
    hide FirstAt, Group, ForestScan, Forest, BestChain, Height, Linked, Choice, Grouped, InScanOrder;
    var blocks := Group(map[], scanned);
    GroupIsGrouped(scanned);
    var cs, p := Children(blocks, start), BestChain(blocks, lv, start);
    BestChainStep(blocks, lv, start);
    forall c, q | c in scanned && c.previousBlockHash == start && Linked(scanned, c.blockHash, q) && |q| == |p| - 1
      ensures FirstAt(scanned, start, c.blockHash) <= FirstAt(scanned, start, p[0].blockHash)
    {
      LinkedIsBounded(blocks, scanned, lv, c.blockHash, q);
      NotAfterChosen(blocks, scanned, lv, start, c);
    }
  }

  lemma NotAfterChosen(blocks: BlockMap, scanned: seq<ScannedBlock>, lv: Levels, start: Hash, c: ScannedBlock)
    requires Forest(blocks, lv) && Grouped(blocks, scanned) && blocks == Group(map[], scanned)
    requires Children(blocks, start) != [] && c in scanned && c.previousBlockHash == start
    requires var cs := Children(blocks, start);
      Height(blocks, lv, c.blockHash) >= Height(blocks, lv, cs[Choice(blocks, lv, cs)].blockHash)
    ensures var cs := Children(blocks, start);
      FirstAt(scanned, start, c.blockHash) <= FirstAt(scanned, start, cs[Choice(blocks, lv, cs)].blockHash)
  {
    GroupIsInScanOrder(scanned, start);
    hide FirstAt, Group, Forest, Height, InScanOrder, Grouped, HasHash;
    var cs := Children(blocks, start);
    var j := PlaceOf(blocks, scanned, c);
    var hs := Heights(blocks, lv, cs);
    assert hs[j] >= hs[LastMax(hs)];
    InScanOrderIs(cs, scanned, j, LastMax(hs));
    assert cs[LastMax(hs)].previousBlockHash == start by {
      SuccessorsOf(blocks, scanned, start, LastMax(hs));
    }
  }

  lemma PlaceOf(blocks: BlockMap, scanned: seq<ScannedBlock>, c: ScannedBlock) returns (j: nat)
    requires Grouped(blocks, scanned) && c in scanned
    ensures var cs := Children(blocks, c.previousBlockHash);
      j < |cs| && cs[j].blockHash == c.blockHash && cs[j].previousBlockHash == c.previousBlockHash
  {
    var cs := Children(blocks, c.previousBlockHash);
    j :| 0 <= j < |cs| && cs[j].blockHash == c.blockHash;
  }

  lemma SuccessorsOf(blocks: BlockMap, scanned: seq<ScannedBlock>, h: Hash, j: nat)
    requires Grouped(blocks, scanned) && j < |Children(blocks, h)|
    ensures Children(blocks, h)[j].previousBlockHash == h
  {
  }

  lemma InScanOrderIs(cs: seq<ScannedBlock>, scanned: seq<ScannedBlock>, i: nat, j: nat)
    requires InScanOrder(cs, scanned) && i <= j < |cs|
    ensures FirstAt(scanned, cs[i].previousBlockHash, cs[i].blockHash)
      <= FirstAt(scanned, cs[j].previousBlockHash, cs[j].blockHash)
  {
    hide FirstAt;
    assert i < j ==> Before(cs[i], cs[j], scanned);
  }

  lemma BestChainStep(blocks: BlockMap, lv: Levels, start: Hash)
    requires Forest(blocks, lv) && Children(blocks, start) != []
    ensures var cs, p := Children(blocks, start), BestChain(blocks, lv, start);
      p != [] && p[0] == cs[Choice(blocks, lv, cs)] && |p| == Height(blocks, lv, p[0].blockHash)
  {
    BestChainIsLongest(blocks, lv, start);
    HeightStep(blocks, lv, start);
  }

  /** That leaves no choice: one scan has one such path. */
  lemma {:induction false} ChosenIsUnique(scanned: seq<ScannedBlock>, start: Hash, p: seq<ScannedBlock>,
      q: seq<ScannedBlock>)
    requires Linked(scanned, start, p) && Chosen(scanned, start, p)
    requires Linked(scanned, start, q) && Chosen(scanned, start, q)
    ensures p == q
    decreases p
  {
    hide FirstAt;
    if p != [] {
      assert p[0] in scanned && q[0] in scanned && |p[1..]| == |q[1..]| == |p| - 1;
      assert p[0] == q[0];
      ChosenIsUnique(scanned, p[0].blockHash, p[1..], q[1..]);
      assert p == [p[0]] + p[1..] && q == [q[0]] + q[1..];
    }
  }

  /** A chain stays linked when more is scanned. */
  lemma {:induction false} LinkedStays(scanned: seq<ScannedBlock>, more: seq<ScannedBlock>, start: Hash,
      q: seq<ScannedBlock>)
    requires Linked(scanned, start, q) && forall b :: b in scanned ==> b in more
    ensures Linked(more, start, q)
    decreases q
  {
    if q != [] { LinkedStays(scanned, more, q[0].blockHash, q[1..]); }
  }

  /** Whatever the levels, a linked chain goes down one level with every block. */
  lemma {:induction false} LinkedLevels(scanned: seq<ScannedBlock>, lv: Levels, start: Hash, q: seq<ScannedBlock>)
    requires ForestScan(scanned, lv) && Linked(scanned, start, q)
    ensures forall i :: 0 <= i < |q| ==> lv.depth(q[i].blockHash) == lv.depth(start) + i + 1
    decreases q
  {
    if q != [] {
      LinkedLevels(scanned, lv, q[0].blockHash, q[1..]);
      forall i | 0 <= i < |q|
        ensures lv.depth(q[i].blockHash) == lv.depth(start) + i + 1
      {
        assert i > 0 ==> q[i] == q[1..][i - 1];
      }
    }
  }

  // ---------- Going level by level ----------

  /** The successors of the blocks of one level, in the order of the level. */
  function NextLevel(blocks: BlockMap, cs: seq<ScannedBlock>): seq<ScannedBlock> {
    if cs == [] then []
    else NextLevel(blocks, cs[..|cs| - 1]) + Children(blocks, cs[|cs| - 1].blockHash)
  }

  function Level(blocks: BlockMap, start: Hash, i: nat): seq<ScannedBlock> {
    if i == 0 then Children(blocks, start) else NextLevel(blocks, Level(blocks, start, i - 1))
  }

  /** Position j of the next level belongs to child m of block k. */
  ghost predicate ChildAt(blocks: BlockMap, cs: seq<ScannedBlock>, j: nat, k: nat, m: nat) {
    && k < |cs| && m < |Children(blocks, cs[k].blockHash)|
    && j == |NextLevel(blocks, cs[..k])| + m
  }

  lemma {:induction false} NextLevelAt(blocks: BlockMap, cs: seq<ScannedBlock>, k: nat)
    requires k < |cs|
    ensures var o, ch := |NextLevel(blocks, cs[..k])|, Children(blocks, cs[k].blockHash);
      o + |ch| <= |NextLevel(blocks, cs)| && NextLevel(blocks, cs)[o..o + |ch|] == ch
  {
    hide Children;
    var n := |cs| - 1;
    assert NextLevel(blocks, cs) == NextLevel(blocks, cs[..n]) + Children(blocks, cs[n].blockHash);
    hide NextLevel;
    if k < n {
      NextLevelAt(blocks, cs[..n], k);
      assert cs[..n][..k] == cs[..k] && cs[..n][k] == cs[k];
      var o, ch := |NextLevel(blocks, cs[..k])|, Children(blocks, cs[k].blockHash);
      SliceInFront(NextLevel(blocks, cs[..n]), Children(blocks, cs[n].blockHash), o, o + |ch|);
    } else {
      SliceBehind(NextLevel(blocks, cs[..n]), Children(blocks, cs[n].blockHash));
    }
  }

  lemma SliceBehind<T>(s: seq<T>, t: seq<T>)
    ensures (s + t)[|s|..|s| + |t|] == t
  {
  }

  lemma SliceInFront<T>(s: seq<T>, t: seq<T>, i: nat, j: nat)
    requires i <= j <= |s|
    ensures (s + t)[i..j] == s[i..j]
  {
  }

  lemma {:induction false} NextLevelFrom(blocks: BlockMap, cs: seq<ScannedBlock>, j: nat) returns (k: nat, m: nat)
    requires j < |NextLevel(blocks, cs)|
    ensures ChildAt(blocks, cs, j, k, m)
    ensures NextLevel(blocks, cs)[j] == Children(blocks, cs[k].blockHash)[m]
  {
    var n := |cs| - 1;
    var o := |NextLevel(blocks, cs[..n])|;
    if j < o {
      k, m := NextLevelFrom(blocks, cs[..n], j);
      assert cs[..n][..k] == cs[..k];
    } else {
      k, m := n, j - o;
    }
  }

  lemma {:induction false} NextLevelGrows(blocks: BlockMap, cs: seq<ScannedBlock>, k: nat, k': nat)
    requires k < k' <= |cs|
    ensures |NextLevel(blocks, cs[..k])| + |Children(blocks, cs[k].blockHash)| <= |NextLevel(blocks, cs[..k'])|
  {
    assert cs[..k'][..k] == cs[..k];
    NextLevelAt(blocks, cs[..k'], k);
  }

  lemma LevelTie(blocks: BlockMap, lv: Levels, cs: seq<ScannedBlock>, j: nat)
    requires Forest(blocks, lv) && cs != [] && j < |NextLevel(blocks, cs)|
    requires Children(blocks, cs[Choice(blocks, lv, cs)].blockHash) != []
    ensures var k, next := Choice(blocks, lv, cs), NextLevel(blocks, cs);
      var ch := Children(blocks, cs[k].blockHash);
      var at := |NextLevel(blocks, cs[..k])| + Choice(blocks, lv, ch);
      var hj, hk := Height(blocks, lv, next[j].blockHash), Height(blocks, lv, ch[Choice(blocks, lv, ch)].blockHash);
      hj < hk || (hj == hk && j <= at)
  {
    var k, next := Choice(blocks, lv, cs), NextLevel(blocks, cs);
    var ch := Children(blocks, cs[k].blockHash);
    var m := Choice(blocks, lv, ch);
    var k', m' := NextLevelFrom(blocks, cs, j);
    var ch' := Children(blocks, cs[k'].blockHash);
    HeightStep(blocks, lv, cs[k].blockHash);
    HeightStep(blocks, lv, cs[k'].blockHash);
    assert next[j] == ch'[m'];
    var hs, hc := Heights(blocks, lv, cs), Heights(blocks, lv, ch);
    assert hs[k'] <= hs[k] && (k < k' ==> hs[k'] < hs[k]);
    if k' < k {
      NextLevelGrows(blocks, cs, k', k);
    } else if k' == k {
      assert hc[m'] <= hc[m] && (m < m' ==> hc[m'] < hc[m]);
    }
  }

  lemma LastLevel(blocks: BlockMap, lv: Levels, cs: seq<ScannedBlock>)
    requires Forest(blocks, lv) && cs != []
    requires Children(blocks, cs[Choice(blocks, lv, cs)].blockHash) == []
    ensures NextLevel(blocks, cs) == []
  {
    var hs := Heights(blocks, lv, cs);
    forall k | 0 <= k < |cs|
      ensures Height(blocks, lv, cs[k].blockHash) == 1
    {
      assert hs[k] <= hs[LastMax(hs)];
    }
    if NextLevel(blocks, cs) != [] {
      var k, m := NextLevelFrom(blocks, cs, 0);
      HeightStep(blocks, lv, cs[k].blockHash);
    }
  }

  /** The fork choice survives the flattening: the choice among all blocks of the next level is the
      choice among the successors of this level's choice. */
  lemma LevelChoice(blocks: BlockMap, lv: Levels, cs: seq<ScannedBlock>)
    requires Forest(blocks, lv) && cs != []
    ensures var b, next := cs[Choice(blocks, lv, cs)], NextLevel(blocks, cs);
      var ch := Children(blocks, b.blockHash);
      if ch == [] then next == [] else next != [] && next[Choice(blocks, lv, next)] == ch[Choice(blocks, lv, ch)]
  {
    hide Choice, Height, NextLevel;
    var k := Choice(blocks, lv, cs);
    var next, ch := NextLevel(blocks, cs), Children(blocks, cs[k].blockHash);
    if ch == [] {
      LastLevel(blocks, lv, cs);
    } else {
      var o, m := |NextLevel(blocks, cs[..k])|, Choice(blocks, lv, ch);
      NextLevelAt(blocks, cs, k);
      assert next[o + m] == next[o..o + |ch|][m];
      forall j | 0 <= j < |next| && j != o + m
        ensures var hj, hk := Height(blocks, lv, next[j].blockHash), Height(blocks, lv, next[o + m].blockHash);
          hj < hk || (hj == hk && j < o + m)
      {
        LevelTie(blocks, lv, cs, j);
      }
      ChoiceIs(blocks, lv, next, o + m);
    }
  }

  ghost predicate DistinctHashes(cs: seq<ScannedBlock>) {
    forall i, j :: 0 <= i < j < |cs| ==> cs[i].blockHash != cs[j].blockHash
  }

  /** No hash occurs twice on a level. */
  lemma NextLevelDistinct(blocks: BlockMap, cs: seq<ScannedBlock>)
    requires HashesAreUnique(blocks) && DistinctHashes(cs)
    ensures DistinctHashes(NextLevel(blocks, cs))
  {
    var next := NextLevel(blocks, cs);
    forall i, j | 0 <= i < j < |next|
      ensures next[i].blockHash != next[j].blockHash
    {
      var k, m := NextLevelFrom(blocks, cs, i);
      var k', m' := NextLevelFrom(blocks, cs, j);
      assert next[i] == blocks[cs[k].blockHash][m] && next[j] == blocks[cs[k'].blockHash][m'];
      if k == k' {
        assert m < m';
      } else {
        assert cs[k].blockHash != cs[k'].blockHash;
      }
    }
  }
}
