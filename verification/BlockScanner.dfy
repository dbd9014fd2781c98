/** Scanning a block file for its blocks: records of a magic number, a size, and the block. */
module BlockScanner {
  import opened BlockchainTypes
  import opened Bytes
  import opened FileReader
  import opened BlockReader
  import opened Serialization

  /** How far to skip to the end of a block of the given size, once its header was read: the 32-bit difference. */
  function Skip(blockSize: nat): nat {
    (blockSize + MAX32 - 80) % MAX32
  }

  function Scanned(sha: Sha256, fileName: string, filePosition: nat, header: seq<Byte>): ScannedBlock
    requires |header| == 80
  {
    ScannedBlock(fileName, filePosition, HashText(sha, header), ReverseHex(header[4..36]), false)
  }

  /** The blocks from a position on. A last record that breaks off is still taken for a block, with zeroes for
      what is missing. */
  function Scan(sha: Sha256, magic: seq<Byte>, fileName: string, data: seq<Byte>, pos: nat): seq<ScannedBlock>
    decreases |data| - pos
  {
    if pos + 4 > |data| || data[pos..pos + 4] != magic then []
    else if pos + 8 > |data| then [Scanned(sha, fileName, MAX64 - 1, ZeroBytes(80))]
    else
      [Scanned(sha, fileName, pos + 8, Filled(data, pos + 8, 80))]
      + if pos + 88 > |data| then []
        else Scan(sha, magic, fileName, data, pos + 88 + Skip(FromLittleEndian(data[pos + 4..pos + 8])))
  }

  class BlockScanner {
    const blockFileName: string
    const blockFileStream: InputStream
    const magic: seq<Byte>
    const sha: Sha256

    constructor (sha: Sha256, magic: seq<Byte>, blockFileName: string, data: seq<Byte>)
      requires |magic| >= 4
      ensures this.sha == sha && this.magic == magic[..4] && this.blockFileName == blockFileName
      ensures fresh(blockFileStream) && blockFileStream.data == data
      ensures blockFileStream.pos == 0 && !blockFileStream.failed
    {
      this.sha, this.magic, this.blockFileName := sha, magic[..4], blockFileName;
      blockFileStream := new InputStream(data);
    }

    /** The blocks still to come, from the cursor on; none after a failed read. */
    ghost function Rest(): seq<ScannedBlock>
      reads blockFileStream
    {
      if blockFileStream.failed then []
      else Scan(sha, magic, blockFileName, blockFileStream.data, blockFileStream.pos)
    }

    /** The cursor is behind the magic number of a record. */
    ghost predicate AtRecord()
      reads blockFileStream
    {
      var s := blockFileStream;
      !s.failed && 4 <= s.pos <= |s.data| && s.data[s.pos - 4..s.pos] == magic
    }

    /** The blocks still to come, with the one of that record. */
    ghost function Pending(): seq<ScannedBlock>
      requires AtRecord()
      reads blockFileStream
    {
      Scan(sha, magic, blockFileName, blockFileStream.data, blockFileStream.pos - 4)
    }

    method MoveNext() returns (found: bool)
      modifies blockFileStream
      ensures found ==> AtRecord() && old(Rest()) == Pending()
      ensures found ==> !old(blockFileStream.failed) && blockFileStream.pos == old(blockFileStream.pos) + 4
      ensures !found ==> old(Rest()) == []
    {
      var buffer := blockFileStream.ReadBytes(4);
      if blockFileStream.failed {
        return false;
      }
      return buffer == magic;
    }

    method HeaderOf(filePosition: nat, blockHeader: seq<Byte>) returns (block: ScannedBlock)
      requires |blockHeader| == 80
      ensures block == Scanned(sha, blockFileName, filePosition, blockHeader)
    {
      var blockHash := HashToReverseHex(sha(sha(blockHeader)));
      var previousBlockHash := HashToReverseHex(blockHeader[4..36]);
      block := ScannedBlock(blockFileName, filePosition, blockHash, previousBlockHash, false);
    }

    method ScanNextBlock() returns (block: ScannedBlock)
      requires AtRecord()
      modifies blockFileStream
      ensures old(Pending()) == [block] + Rest()
      ensures blockFileStream.failed || blockFileStream.pos >= old(blockFileStream.pos) + 84
    {
      hide FromLittleEndian, ZeroBytes, Scanned, Skip;
      var sizeBytes := blockFileStream.ReadBytes(4);
      var blockSize := FromLittleEndian(sizeBytes);
      var filePosition := if blockFileStream.failed then MAX64 - 1 else blockFileStream.pos;
      var blockHeader := blockFileStream.ReadBytes(80);
      block := HeaderOf(filePosition, blockHeader);
      blockFileStream.Seek(blockFileStream.pos + Skip(blockSize));
      if blockFileStream.failed {
        assert old(Pending()) == [block];
      }
    }

    /** The loop that reads a whole file. */
    method ScanFile() returns (blocks: seq<ScannedBlock>)
      requires !blockFileStream.failed && blockFileStream.pos == 0
      modifies blockFileStream
      ensures blocks == Scan(sha, magic, blockFileName, blockFileStream.data, 0)
    {
      hide Scan;
      blocks := [];
      var found := MoveNext();
      while found
        invariant found ==> AtRecord()
        invariant old(Rest()) == blocks + if found then Pending() else []
        decreases if found then |blockFileStream.data| + 1 - blockFileStream.pos else 0
      {
        var block := ScanNextBlock();
        blocks := blocks + [block];
        found := MoveNext();
      }
    }
  }

  /** A block in its record. */
  ghost function Framed(magic: seq<Byte>, block: seq<Byte>): seq<Byte> {
    magic + LittleEndian(|block|, 4) + block
  }

  ghost predicate Framable(blocks: seq<seq<Byte>>) {
    forall i :: 0 <= i < |blocks| ==> 80 <= |blocks[i]| < MAX32
  }

  ghost function Frames(magic: seq<Byte>, blocks: seq<seq<Byte>>): seq<seq<Byte>> {
    seq(|blocks|, i requires 0 <= i < |blocks| => Framed(magic, blocks[i]))
  }

  /** Where the record of a block begins. */
  ghost function Offset(magic: seq<Byte>, blocks: seq<seq<Byte>>, i: nat): nat
    requires i <= |blocks|
  {
    |Concat(Frames(magic, blocks)[..i])|
  }

  /** A file of records, and a tail that does not begin with the magic number. */
  ghost predicate IsBlockFile(data: seq<Byte>, magic: seq<Byte>, blocks: seq<seq<Byte>>, tail: seq<Byte>) {
    && |magic| == 4 && Framable(blocks) && !(magic <= tail)
    && data == Concat(Frames(magic, blocks)) + tail
  }

  ghost function ScannedBlocks(sha: Sha256, magic: seq<Byte>, fileName: string, blocks: seq<seq<Byte>>)
    : seq<ScannedBlock>
    requires Framable(blocks)
  {
    seq(|blocks|, i requires 0 <= i < |blocks| => Scanned(sha, fileName, Offset(magic, blocks, i) + 8, blocks[i][..80]))
  }

  lemma FrameAt(data: seq<Byte>, magic: seq<Byte>, blocks: seq<seq<Byte>>, tail: seq<Byte>, i: nat)
    requires IsBlockFile(data, magic, blocks, tail) && i < |blocks|
    ensures var p, block := Offset(magic, blocks, i), blocks[i];
      && 80 <= |block| < MAX32
      && At(data, p, magic) && At(data, p + 4, LittleEndian(|block|, 4)) && At(data, p + 8, block)
      && p + 8 + |block| == Offset(magic, blocks, i + 1)
  {
    hide LittleEndian, Concat;
    var parts, p, block := Frames(magic, blocks), Offset(magic, blocks, i), blocks[i];
    AtPart(data, 0, parts, i);
    AtConcat(data, p, magic + LittleEndian(|block|, 4), block);
    AtConcat(data, p, magic, LittleEndian(|block|, 4));
  }

  lemma TailAt(data: seq<Byte>, magic: seq<Byte>, blocks: seq<seq<Byte>>, tail: seq<Byte>)
    requires IsBlockFile(data, magic, blocks, tail)
    ensures var p := Offset(magic, blocks, |blocks|); p + 4 > |data| || data[p..p + 4] != magic
  {
    hide Concat;
    var p := Offset(magic, blocks, |blocks|);
    assert Frames(magic, blocks)[..|blocks|] == Frames(magic, blocks);
    assert data[p..] == tail;
    if p + 4 <= |data| {
      assert data[p..p + 4] == tail[..4];
    }
  }

  lemma SkipsBlock(blockSize: nat)
    requires 80 <= blockSize < MAX32
    ensures Skip(blockSize) == blockSize - 80
  {
  }

  lemma ScanStep(sha: Sha256, fileName: string, data: seq<Byte>, magic: seq<Byte>, p: nat, block: seq<Byte>)
    requires |magic| == 4 && 80 <= |block| < MAX32
    requires At(data, p, magic) && At(data, p + 4, LittleEndian(|block|, 4)) && At(data, p + 8, block)
    ensures Scan(sha, magic, fileName, data, p)
      == [Scanned(sha, fileName, p + 8, block[..80])] + Scan(sha, magic, fileName, data, p + 8 + |block|)
  {
    hide LittleEndian, FromLittleEndian, Skip, Scanned;
    NumberAt(data, p + 4, |block|, 4);
    SkipsBlock(|block|);
    assert data[p + 8..p + 88] == data[p + 8..p + 8 + |block|][..80] == block[..80];
  }

  /** A last record that breaks off inside the header is taken for a block whose header ends in zeroes. */
  lemma BrokenRecord(sha: Sha256, fileName: string, data: seq<Byte>, magic: seq<Byte>, p: nat, header: seq<Byte>)
    requires |magic| == 4 && At(data, p, magic) && p + 8 <= |data| < p + 88 && |header| == 80
    requires forall i :: 0 <= i < 80 ==> header[i] == if p + 8 + i < |data| then data[p + 8 + i] else 0
    ensures Scan(sha, magic, fileName, data, p) == [Scanned(sha, fileName, p + 8, header)]
  {
    hide Scanned;
    assert Filled(data, p + 8, 80) == header;
  }

  lemma ScannedTail(sha: Sha256, magic: seq<Byte>, fileName: string, blocks: seq<seq<Byte>>, i: nat)
    requires Framable(blocks) && i < |blocks|
    ensures var all := ScannedBlocks(sha, magic, fileName, blocks);
      |all| == |blocks| &&
      all[i..] == [Scanned(sha, fileName, Offset(magic, blocks, i) + 8, blocks[i][..80])] + all[i + 1..]
  {
    hide Scanned, Offset;
  }

  lemma ScanStops(sha: Sha256, fileName: string, data: seq<Byte>, magic: seq<Byte>, p: nat)
    requires p + 4 > |data| || data[p..p + 4] != magic
    ensures Scan(sha, magic, fileName, data, p) == []
  {
  }

  lemma NoneLeft(sha: Sha256, magic: seq<Byte>, fileName: string, blocks: seq<seq<Byte>>)
    requires Framable(blocks)
    ensures var all := ScannedBlocks(sha, magic, fileName, blocks); |all| == |blocks| && all[|blocks|..] == []
  {
    hide Scanned, Offset;
  }

  /** Scanning from the record of block i on gives the blocks from i on. */
  lemma {:induction false} ScanFrom(sha: Sha256, fileName: string, data: seq<Byte>, magic: seq<Byte>,
      blocks: seq<seq<Byte>>, tail: seq<Byte>, i: nat)
    requires IsBlockFile(data, magic, blocks, tail) && i <= |blocks|
    ensures Scan(sha, magic, fileName, data, Offset(magic, blocks, i)) ==
      ScannedBlocks(sha, magic, fileName, blocks)[i..]
    decreases |blocks| - i
  {
    hide LittleEndian, Concat, Offset, Frames, Scanned, At, Scan, ScannedBlocks;
    if i == |blocks| {
      TailAt(data, magic, blocks, tail);
      ScanStops(sha, fileName, data, magic, Offset(magic, blocks, i));
      NoneLeft(sha, magic, fileName, blocks);
    } else {
      FrameAt(data, magic, blocks, tail, i);
      ScanStep(sha, fileName, data, magic, Offset(magic, blocks, i), blocks[i]);
      ScanFrom(sha, fileName, data, magic, blocks, tail, i + 1);
      ScannedTail(sha, magic, fileName, blocks, i);
    }
  }

  /** Scanning a file yields each block once, in order, at its place. */
  lemma ScanYieldsRecords(sha: Sha256, fileName: string, data: seq<Byte>, magic: seq<Byte>, blocks: seq<seq<Byte>>,
      tail: seq<Byte>)
    requires IsBlockFile(data, magic, blocks, tail)
    ensures Scan(sha, magic, fileName, data, 0) == ScannedBlocks(sha, magic, fileName, blocks)
  {
    ScanFrom(sha, fileName, data, magic, blocks, tail, 0);
    assert Offset(magic, blocks, 0) == 0;
  }

  ghost function Serialized(raws: seq<RawBlock>): seq<seq<Byte>>
    requires forall i :: 0 <= i < |raws| ==> raws[i].Fits()
  {
    seq(|raws|, i requires 0 <= i < |raws| => raws[i].Serialize())
  }

  lemma HeaderIsPrefix(raw: RawBlock)
    requires raw.Fits()
    ensures |raw.Serialize()| >= 80 && raw.Serialize()[..80] == raw.Header() && raw.Header()[4..36] == raw.prevHash
  {
    hide LittleEndian, VarInt, Concat;
  }

  /** The scanner and the reader agree on a block: the reader, sent to the position that was recorded, finds the
      same hash and predecessor, every transaction, and the size that the record states. */
  ghost predicate ReadsBack(sha: Sha256, fileName: string, data: seq<Byte>, found: ScannedBlock, raw: RawBlock,
      height: nat)
    requires raw.Fits()
  {
    var p := found.filePosition;
    && p >= 4 && ParseBlock(sha, data, fileName, p, height, false).Read?
    && var block := ParseBlock(sha, data, fileName, p, height, false).value;
    && block == raw.Record(sha, fileName, p, height, false)
    && block.blockHash == found.blockHash && block.previousBlockHash == found.previousBlockHash
    && ParseNumber(data, p - 4, 4) == Read(block.byteSize, p)
  }

  lemma BlockReadsBack(sha: Sha256, fileName: string, data: seq<Byte>, magic: seq<Byte>, raws: seq<RawBlock>,
      tail: seq<Byte>, i: nat, height: nat)
    requires forall i :: 0 <= i < |raws| ==> raws[i].Fits()
    requires IsBlockFile(data, magic, Serialized(raws), tail) && i < |raws|
    ensures ReadsBack(sha, fileName, data, ScannedBlocks(sha, magic, fileName, Serialized(raws))[i], raws[i], height)
  {
    hide LittleEndian, Concat, ParseBlock, RawBlock.Serialize, RawBlock.Header, RawBlock.Records, Offset;
    var blocks := Serialized(raws);
    var p := Offset(magic, blocks, i) + 8;
    FrameAt(data, magic, blocks, tail, i);
    NumberAt(data, p - 4, |blocks[i]|, 4);
    ReadBlockInvertsSerialize(sha, data, fileName, p, height, false, raws[i]);
    HeaderIsPrefix(raws[i]);
  }

  /** In a file of serialized blocks, the scanner finds each block once, in order, and the reader reads it in full. */
  lemma ScannedIsRead(sha: Sha256, fileName: string, data: seq<Byte>, magic: seq<Byte>, raws: seq<RawBlock>,
      tail: seq<Byte>, height: nat)
    requires forall i :: 0 <= i < |raws| ==> raws[i].Fits()
    requires IsBlockFile(data, magic, Serialized(raws), tail)
    ensures var found := Scan(sha, magic, fileName, data, 0);
      && |found| == |raws|
      && forall i :: 0 <= i < |raws| ==> ReadsBack(sha, fileName, data, found[i], raws[i], height)
  {
    hide Scan, ReadsBack, IsBlockFile, RawBlock.Fits;
    ScanYieldsRecords(sha, fileName, data, magic, Serialized(raws), tail);
    forall i | 0 <= i < |raws|
      ensures ReadsBack(sha, fileName, data, Scan(sha, magic, fileName, data, 0)[i], raws[i], height)
    {
      BlockReadsBack(sha, fileName, data, magic, raws, tail, i, height);
    }
  }
}
