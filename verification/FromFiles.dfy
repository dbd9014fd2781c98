/** From block files to the index: what the scanner finds, the block reader reads as the file watcher needs it, over
    all files of a directory and while they grow. */
module FromFiles {
  import opened BlockchainTypes
  import opened Bytes
  import opened Ledger
  import opened FileReader
  import opened BlockReader
  import opened Serialization
  import opened BlockScanner
  import opened BlockForest
  import Watcher = BlockFileWatcher

  /** A block file: records of serialized blocks, and what follows them. */
  datatype BlockFile = BlockFile(name: string, data: seq<Byte>, raws: seq<RawBlock>, tail: seq<Byte>) {
    ghost predicate Sound(magic: seq<Byte>) {
      && (forall i :: 0 <= i < |raws| ==> raws[i].Fits())
      && IsBlockFile(data, magic, Serialized(raws), tail)
    }
  }

  /** What scanning the files one after another finds. */
  function Scans(sha: Sha256, magic: seq<Byte>, files: seq<BlockFile>): seq<seq<ScannedBlock>> {
    seq(|files|, i requires 0 <= i < |files| => Scan(sha, magic, files[i].name, files[i].data, 0))
  }

  /** The reader of the file watcher gives the blocks that ReadBlock finds in the file. */
  ghost predicate ReadsFile(reader: (string, nat, nat) -> Block, sha: Sha256, fileName: string, data: seq<Byte>) {
    forall p, h :: ParseBlock(sha, data, fileName, p, h, false).Read? ==>
      reader(fileName, p, h) == ParseBlock(sha, data, fileName, p, h, false).value
  }

  ghost predicate ReadsAll(reader: (string, nat, nat) -> Block, sha: Sha256, magic: seq<Byte>, files: seq<BlockFile>) {
    forall i :: 0 <= i < |files| ==> files[i].Sound(magic) && ReadsFile(reader, sha, files[i].name, files[i].data)
  }

  /** The outpoints that a serialized block spends, wherever it lies. */
  ghost function RawSpends(sha: Sha256, raw: RawBlock): seq<Outpoint>
    requires raw.Fits()
  {
    AllSpends(raw.Records(sha, 0))
  }

  lemma {:induction false} SameSpends(a: seq<Transaction>, b: seq<Transaction>)
    requires |a| == |b| && forall i :: 0 <= i < |a| ==> a[i].inputs == b[i].inputs
    ensures AllSpends(a) == AllSpends(b)
  {
    if a != [] {
      var n := |a| - 1;
      SameSpends(a[..n], b[..n]);
      SameSpendsUpTo(a[n], b[n], |a[n].inputs|);
    }
  }

  lemma {:induction false} SameSpendsUpTo(a: Transaction, b: Transaction, n: nat)
    requires a.inputs == b.inputs && n <= |a.inputs|
    ensures SpendsUpTo(a, n) == SpendsUpTo(b, n)
  {
    if n > 0 { SameSpendsUpTo(a, b, n - 1); }
  }

  lemma SpendsAnywhere(sha: Sha256, raw: RawBlock, p: nat)
    requires raw.Fits()
    ensures AllSpends(raw.Records(sha, p)) == RawSpends(sha, raw)
  {
    hide RawTransaction.Serialize, RawTransaction.InputRecords;
    SameSpends(raw.Records(sha, p), raw.Records(sha, 0));
  }

  /** A header hash stands for one list of spends. */
  ghost predicate OneContent(sha: Sha256, files: seq<BlockFile>) {
    forall i, j, k, l ::
      0 <= i < |files| && 0 <= j < |files| && 0 <= k < |files[i].raws| && 0 <= l < |files[j].raws| ==>
      SameContent(sha, files[i].raws[k], files[j].raws[l])
  }

  ghost predicate SameContent(sha: Sha256, a: RawBlock, b: RawBlock) {
    a.Fits() && b.Fits() && HashText(sha, a.Header()) == HashText(sha, b.Header()) ==>
      RawSpends(sha, a) == RawSpends(sha, b)
  }

  lemma {:induction false} InFlat(scans: seq<seq<ScannedBlock>>, b: ScannedBlock) returns (i: nat, k: nat)
    requires b in Watcher.Flat(scans)
    ensures i < |scans| && k < |scans[i]| && scans[i][k] == b
  {
    var n := |scans| - 1;
    if b in scans[n] {
      i := n;
      k :| 0 <= k < |scans[n]| && scans[n][k] == b;
    } else {
      i, k := InFlat(scans[..n], b);
    }
  }

  lemma {:induction false} FlatHas(scans: seq<seq<ScannedBlock>>, i: nat, b: ScannedBlock)
    requires i < |scans| && b in scans[i]
    ensures b in Watcher.Flat(scans)
  {
    var n := |scans| - 1;
    if i < n { FlatHas(scans[..n], i, b); }
  }

  /** The block that a scanned one was found as. */
  lemma ReadAs(sha: Sha256, magic: seq<Byte>, f: BlockFile, reader: (string, nat, nat) -> Block, k: nat, h: nat)
    requires f.Sound(magic) && ReadsFile(reader, sha, f.name, f.data) && k < |Scan(sha, magic, f.name, f.data, 0)|
    ensures k < |f.raws|
    ensures var b := Scan(sha, magic, f.name, f.data, 0)[k];
      var full := reader(b.fileName, b.filePosition, h);
      && full.height == h && full.blockHash == b.blockHash == HashText(sha, f.raws[k].Header())
      && AllSpends(full.transactions) == RawSpends(sha, f.raws[k])
  {
    hide Scan, ParseBlock, IsBlockFile, RawBlock.Fits, RawBlock.Header, RawBlock.Records, AllSpends;
    var found := Scan(sha, magic, f.name, f.data, 0);
    ScannedIsRead(sha, f.name, f.data, magic, f.raws, f.tail, h);
    ScanYieldsRecords(sha, f.name, f.data, magic, Serialized(f.raws), f.tail);
    assert ReadsBack(sha, f.name, f.data, found[k], f.raws[k], h);
    SpendsAnywhere(sha, f.raws[k], found[k].filePosition);
  }

  /** Every block scanned from such files comes back from the reader with the scanned hash, at whatever height it is
      asked for. */
  lemma FilesAreFaithful(sha: Sha256, magic: seq<Byte>, files: seq<BlockFile>, reader: (string, nat, nat) -> Block)
    requires ReadsAll(reader, sha, magic, files) && OneContent(sha, files)
    ensures Watcher.Faithful(Watcher.Flat(Scans(sha, magic, files)), reader)
  {
    hide Scan, AllSpends, RawSpends, Watcher.Flat, HashText, RawBlock.Header, RawBlock.Fits, IsBlockFile, ReadsFile;
    var scans := Scans(sha, magic, files);
    forall b, h: nat | b in Watcher.Flat(scans)
      ensures var full := reader(b.fileName, b.filePosition, h); full.height == h && full.blockHash == b.blockHash
    {
      var i, k := InFlat(scans, b);
      ReadAs(sha, magic, files[i], reader, k, h);
    }
    forall b, c, h: nat, g: nat | b in Watcher.Flat(scans) && c in Watcher.Flat(scans) && b.blockHash == c.blockHash
      ensures AllSpends(reader(b.fileName, b.filePosition, h).transactions)
        == AllSpends(reader(c.fileName, c.filePosition, g).transactions)
    {
      var i, k := InFlat(scans, b);
      var j, l := InFlat(scans, c);
      ReadAs(sha, magic, files[i], reader, k, h);
      ReadAs(sha, magic, files[j], reader, l, g);
      assert SameContent(sha, files[i].raws[k], files[j].raws[l]);
    }
  }

  // ---------- Files that grow ----------

  /** The files before are there afterwards, under their names, with at least the same blocks in front. */
  ghost predicate Grown(before: seq<BlockFile>, after: seq<BlockFile>) {
    |before| <= |after| &&
    forall i :: 0 <= i < |before| ==> before[i].name == after[i].name && before[i].raws <= after[i].raws
  }

  lemma GrownFile(sha: Sha256, magic: seq<Byte>, f: BlockFile, g: BlockFile)
    requires f.Sound(magic) && g.Sound(magic) && f.name == g.name && f.raws <= g.raws
    ensures Scan(sha, magic, f.name, f.data, 0) <= Scan(sha, magic, g.name, g.data, 0)
  {
    hide Scan, RawBlock.Fits, RawBlock.Serialize, Scanned, Concat, Framed;
    ScanYieldsRecords(sha, f.name, f.data, magic, Serialized(f.raws), f.tail);
    ScanYieldsRecords(sha, g.name, g.data, magic, Serialized(g.raws), g.tail);
    var a, b := Serialized(f.raws), Serialized(g.raws);
    assert a == b[..|a|];
    forall i | 0 <= i < |a|
      ensures Offset(magic, a, i) == Offset(magic, b, i)
    {
      assert Frames(magic, a)[..i] == Frames(magic, b)[..i];
    }
  }

  lemma GrownScans(sha: Sha256, magic: seq<Byte>, before: seq<BlockFile>, after: seq<BlockFile>)
    requires Grown(before, after) && (forall i :: 0 <= i < |before| ==> before[i].Sound(magic))
    requires forall i :: 0 <= i < |after| ==> after[i].Sound(magic)
    ensures Watcher.Within(Watcher.Flat(Scans(sha, magic, before)), Watcher.Flat(Scans(sha, magic, after)))
  {
    hide Scan, Watcher.Flat, BlockFile.Sound;
    var a, b := Scans(sha, magic, before), Scans(sha, magic, after);
    forall x | x in Watcher.Flat(a)
      ensures x in Watcher.Flat(b)
    {
      var i, k := InFlat(a, x);
      GrownFile(sha, magic, before[i], after[i]);
      assert b[i][k] == x;
      FlatHas(b, i, x);
    }
  }

  lemma FaithfulPart(scanned: seq<ScannedBlock>, more: seq<ScannedBlock>, reader: (string, nat, nat) -> Block)
    requires Watcher.Faithful(more, reader) && Watcher.Within(scanned, more)
    ensures Watcher.Faithful(scanned, reader)
  {
    hide AllSpends;
  }

  /** Directory states that only grow, read from the last of them, are what the watcher asks for over a time. */
  lemma DirectoriesGrow(sha: Sha256, magic: seq<Byte>, states: seq<seq<BlockFile>>,
      snapshots: seq<seq<seq<ScannedBlock>>>,
      lvs: seq<Levels>, reader: (string, nat, nat) -> Block)
    requires |snapshots| == |lvs| == |states| > 0
    requires forall i :: 0 <= i < |states| ==> snapshots[i] == Scans(sha, magic, states[i])
    requires forall i, k :: 0 <= i < |states| && 0 <= k < |states[i]| ==> states[i][k].Sound(magic)
    requires forall i, j :: 0 <= i < j < |states| ==> Grown(states[i], states[j])
    requires var last := states[|states| - 1]; ReadsAll(reader, sha, magic, last) && OneContent(sha, last)
    requires forall i :: 0 <= i < |states| ==> ForestScan(Watcher.Flat(snapshots[i]), lvs[i])
    ensures Watcher.Growing(snapshots, lvs, reader)
  {
    hide ForestScan, Watcher.Flat, Scans, Watcher.Faithful, Watcher.Within, Grown, BlockFile.Sound, OneContent;
    var n := |states| - 1;
    FilesAreFaithful(sha, magic, states[n], reader);
    forall i, j | 0 <= i < j < |states|
      ensures Watcher.Within(Watcher.Flat(snapshots[i]), Watcher.Flat(snapshots[j]))
    {
      GrownScans(sha, magic, states[i], states[j]);
    }
    forall i | 0 <= i < |states|
      ensures Watcher.Faithful(Watcher.Flat(snapshots[i]), reader)
    {
      if i < n { FaithfulPart(Watcher.Flat(snapshots[i]), Watcher.Flat(snapshots[n]), reader); }
    }
  }
}
