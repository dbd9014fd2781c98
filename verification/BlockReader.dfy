/** Reading the transactions and blocks of a block file. The bytes that identify a transaction leave its witness
    data out, so they are collected again once the whole transaction was read. */
module BlockReader {
  import opened BlockchainTypes
  import opened Bytes
  import opened FileReader

  type Sha256 = seq<Byte> -> seq<Byte>

  /** The text of the double hash. */
  function HashText(sha: Sha256, b: seq<Byte>): Hash {
    ReverseHex(sha(sha(b)))
  }

  /** A hash text is that of some bytes when it reads, last byte first, as their double hash. */
  lemma HashTextIff(sha: Sha256, b: seq<Byte>, text: Hash)
    ensures text == HashText(sha, b) <==> ReadHex(text) == Some(Reversed(sha(sha(b))))
  {
    ReverseHexIff(text, sha(sha(b)));
  }

  function ParseInput(data: seq<Byte>, pos: nat, index: nat): (r: Parsed<TransactionInput>)
    ensures r.Read? ==> pos < r.end <= |data|
  {
    if pos + 36 > |data| then Failed
    else
      match ParseString(data, pos + 36)
      case Failed => Failed
      case Read(script, e) =>
        if e + 4 > |data| then Failed
        else
          var txHash, txoIndex := ReverseHex(data[pos..pos + 32]), FromLittleEndian(data[pos + 32..pos + 36]);
          var coinbase := index == 0 && txHash == ZERO_HASH && txoIndex == 4294967295;
          Read(TransactionInput(index, txHash, txoIndex, FromLittleEndian(data[e..e + 4]), coinbase, script, []), e + 4)
  }

  function ParseOutput(data: seq<Byte>, pos: nat, index: nat): (r: Parsed<TransactionOutput>)
    ensures r.Read? ==> pos < r.end <= |data|
  {
    if pos + 8 > |data| then Failed
    else
      match ParseString(data, pos + 8)
      case Failed => Failed
      case Read(script, e) => Read(TransactionOutput(FromLittleEndian(data[pos..pos + 8]), script, index), e)
  }

  function ParseItem(data: seq<Byte>, pos: nat, index: nat): Parsed<seq<Byte>> {
    ParseString(data, pos)
  }

  /** A list with its length in front. */
  function ParseList<T>(p: (seq<Byte>, nat, nat) -> Parsed<T>, data: seq<Byte>, pos: nat): Parsed<seq<T>> {
    match ParseVarInt(data, pos)
    case Failed => Failed
    case Read(count, e) => Many(p, data, e, count)
  }

  /** The witness data of one input: a list of byte strings. */
  function ParseWitness(data: seq<Byte>, pos: nat, index: nat): Parsed<seq<seq<Byte>>> {
    ParseList(ParseItem, data, pos)
  }

  function NoStacks(count: nat): seq<seq<seq<Byte>>> {
    seq(count, _ => [])
  }

  function ParseWitnesses(segwit: bool, data: seq<Byte>, pos: nat, count: nat): (r: Parsed<seq<seq<seq<Byte>>>>)
    ensures r.Read? ==> |r.value| == count
  {
    if segwit then Many(ParseWitness, data, pos, count) else Read(NoStacks(count), pos)
  }

  /** The inputs, the first of them with their witness data. */
  function WithWitness(inputs: seq<TransactionInput>, stacks: seq<seq<seq<Byte>>>): seq<TransactionInput>
    requires |stacks| <= |inputs|
  {
    seq(|inputs|, i requires 0 <= i < |inputs| =>
      if i < |stacks| then inputs[i].(witnessData := stacks[i]) else inputs[i])
  }

  ghost predicate MovesOn<T(!new)>(p: (seq<Byte>, nat, nat) -> Parsed<T>) {
    forall data: seq<Byte>, pos: nat, i: nat :: p(data, pos, i).Read? ==> pos <= p(data, pos, i).end
  }

  lemma {:induction false} ManyGrows<T(!new)>(p: (seq<Byte>, nat, nat) -> Parsed<T>, data: seq<Byte>, pos: nat,
      count: nat)
    requires MovesOn(p)
    ensures Many(p, data, pos, count).Read? ==> pos <= Many(p, data, pos, count).end
  {
    if count > 0 { ManyGrows(p, data, pos, count - 1); }
  }

  lemma ParseListGrows<T(!new)>(p: (seq<Byte>, nat, nat) -> Parsed<T>, data: seq<Byte>, pos: nat)
    requires MovesOn(p)
    ensures ParseList(p, data, pos).Read? ==> pos <= ParseList(p, data, pos).end
  {
    var r := ParseVarInt(data, pos);
    if r.Read? { ManyGrows(p, data, r.end, r.value); }
  }

  lemma ParseWitnessesGrows(segwit: bool, data: seq<Byte>, pos: nat, count: nat)
    ensures var r := ParseWitnesses(segwit, data, pos, count); r.Read? ==> pos <= r.end
  {
    forall data: seq<Byte>, pos: nat, i: nat | ParseWitness(data, pos, i).Read?
      ensures pos <= ParseWitness(data, pos, i).end
    {
      ParseListGrows(ParseItem, data, pos);
    }
    ManyGrows(ParseWitness, data, pos, count);
  }

  /** What lies between the version and the lock time. */
  datatype Body = Body(inputs: seq<TransactionInput>, outputs: seq<TransactionOutput>, outputsEnd: nat)

  function ParseBody(segwit: bool, data: seq<Byte>, pos: nat): (r: Parsed<Body>)
    ensures r.Read? ==> pos <= r.value.outputsEnd <= r.end
  {
    ParseListGrows(ParseInput, data, pos);
    match ParseList(ParseInput, data, pos)
    case Failed => Failed
    case Read(inputs, middle) =>
      ParseListGrows(ParseOutput, data, middle);
      match ParseList(ParseOutput, data, middle)
      case Failed => Failed
      case Read(outputs, end) =>
        ParseWitnessesGrows(segwit, data, end, |inputs|);
        match ParseWitnesses(segwit, data, end, |inputs|)
        case Failed => Failed
        case Read(stacks, e) => Read(Body(WithWitness(inputs, stacks), outputs, end), e)
  }

  /** Where the sections of a transaction begin. */
  datatype Sections = Sections(start: nat, inputs: nat, outputsEnd: nat, end: nat) {
    predicate In(data: seq<Byte>) {
      start + 4 <= inputs <= outputsEnd && outputsEnd + 4 <= end <= |data|
    }
  }

  /** The serialization before witness data was introduced, cut out of the file. */
  function LegacyBytes(data: seq<Byte>, at: Sections): seq<Byte>
    requires at.In(data)
  {
    data[at.start..at.start + 4] + data[at.inputs..at.outputsEnd] + data[at.end - 4..at.end]
  }

  function Assembled(sha: Sha256, data: seq<Byte>, at: Sections, segwit: bool, body: Body): Transaction
    requires at.In(data)
  {
    var txHash := HashText(sha, LegacyBytes(data, at));
    Transaction(
      body.inputs, body.outputs,
      txHash, if segwit then HashText(sha, data[at.start..at.end]) else txHash,
      at.start, at.end - at.start,
      FromLittleEndian(data[at.start..at.start + 4]), FromLittleEndian(data[at.end - 4..at.end]))
  }

  predicate SegwitMarked(data: seq<Byte>, pos: nat)
    requires pos + 6 <= |data|
  {
    data[pos + 4] == 0 && data[pos + 5] != 0
  }

  function ParseTransaction(sha: Sha256, data: seq<Byte>, pos: nat): (r: Parsed<Transaction>)
    ensures r.Read? ==> pos + 8 <= r.end <= |data| && r.value.byteSize == r.end - pos
  {
    if pos + 6 > |data| then Failed
    else
      var segwit := SegwitMarked(data, pos);
      var start := if segwit then pos + 6 else pos + 4;
      match ParseBody(segwit, data, start)
      case Failed => Failed
      case Read(body, e) =>
        if e + 4 > |data| then Failed
        else Read(Assembled(sha, data, Sections(pos, start, body.outputsEnd, e + 4), segwit, body), e + 4)
  }

  method ReadInput(stream: InputStream, input: nat) returns (txInput: TransactionInput)
    requires !stream.failed
    modifies stream
    ensures stream.Got(ParseInput(stream.data, old(stream.pos), input), txInput)
  {
    txInput := TransactionInput(input, "", 0, 0, false, [], []);
    var hash := ReadHash(stream);
    if stream.failed { return; }
    var txHash := HashToReverseHex(hash);
    var txoIndex := stream.ReadNumber(4);
    if stream.failed { return; }
    var script := ReadString(stream);
    if stream.failed { return; }
    var sequence := stream.ReadNumber(4);
    var coinbase := input == 0 && txHash == ZERO_HASH && txoIndex == 4294967295;
    txInput := TransactionInput(input, txHash, txoIndex, sequence, coinbase, script, []);
  }

  method ReadInputs(stream: InputStream) returns (inputs: seq<TransactionInput>)
    requires !stream.failed
    modifies stream
    ensures stream.Got(ParseList(ParseInput, stream.data, old(stream.pos)), inputs)
  {
    inputs := [];
    var inputCount := ReadVarInt(stream);
    if stream.failed { return; }
    ghost var start := stream.pos;
    for input := 0 to inputCount
      invariant !stream.failed && stream.Got(Many(ParseInput, stream.data, start, input), inputs)
    {
      var txInput := ReadInput(stream, input);
      if stream.failed {
        ManyFails(ParseInput, stream.data, start, input + 1, inputCount);
        return;
      }
      inputs := inputs + [txInput];
    }
  }

  method ReadOutput(stream: InputStream, output: nat) returns (txOutput: TransactionOutput)
    requires !stream.failed
    modifies stream
    ensures stream.Got(ParseOutput(stream.data, old(stream.pos), output), txOutput)
  {
    hide FromLittleEndian, ZeroBytes;
    txOutput := TransactionOutput(0, [], output);
    var value := stream.ReadNumber(8);
    if stream.failed { return; }
    var script := ReadString(stream);
    txOutput := TransactionOutput(value, script, output);
  }

  method ReadOutputs(stream: InputStream) returns (outputs: seq<TransactionOutput>)
    requires !stream.failed
    modifies stream
    ensures stream.Got(ParseList(ParseOutput, stream.data, old(stream.pos)), outputs)
  {
    outputs := [];
    var outputCount := ReadVarInt(stream);
    if stream.failed { return; }
    ghost var start := stream.pos;
    for output := 0 to outputCount
      invariant !stream.failed && stream.Got(Many(ParseOutput, stream.data, start, output), outputs)
    {
      var txOutput := ReadOutput(stream, output);
      if stream.failed {
        ManyFails(ParseOutput, stream.data, start, output + 1, outputCount);
        return;
      }
      outputs := outputs + [txOutput];
    }
  }

  method ReadWitness(stream: InputStream) returns (items: seq<seq<Byte>>)
    requires !stream.failed
    modifies stream
    ensures stream.Got(ParseWitness(stream.data, old(stream.pos), 0), items)
  {
    items := [];
    var witnessItems := ReadVarInt(stream);
    if stream.failed { return; }
    ghost var start := stream.pos;
    for witnessItem := 0 to witnessItems
      invariant !stream.failed && stream.Got(Many(ParseItem, stream.data, start, witnessItem), items)
    {
      var item := ReadString(stream);
      if stream.failed {
        ManyFails(ParseItem, stream.data, start, witnessItem + 1, witnessItems);
        return;
      }
      items := items + [item];
    }
  }

  /** The witness data is put into the inputs that were read before. */
  method ReadWitnesses(stream: InputStream, inputs0: seq<TransactionInput>)
    returns (inputs: seq<TransactionInput>, ghost stacks: seq<seq<seq<Byte>>>)
    requires !stream.failed && forall i :: 0 <= i < |inputs0| ==> inputs0[i].witnessData == []
    modifies stream
    ensures stream.Got(ParseWitnesses(true, stream.data, old(stream.pos), |inputs0|), stacks)
    ensures !stream.failed ==> |stacks| == |inputs0| && inputs == WithWitness(inputs0, stacks)
  {
    inputs, stacks := inputs0, [];
    ghost var start := stream.pos;
    for input := 0 to |inputs0|
      invariant !stream.failed && stream.Got(Many(ParseWitness, stream.data, start, input), stacks)
      invariant |stacks| == input && |inputs| == |inputs0| && inputs == WithWitness(inputs0, stacks)
    {
      var items := ReadWitness(stream);
      if stream.failed {
        ManyFails(ParseWitness, stream.data, start, input + 1, |inputs0|);
        return;
      }
      if |items| > 0 {
        inputs := inputs[input := inputs[input].(witnessData := items)];
      }
      stacks := stacks + [items];
    }
  }

  lemma NoWitnessYet(data: seq<Byte>, pos: nat)
    requires ParseList(ParseInput, data, pos).Read?
    ensures var inputs := ParseList(ParseInput, data, pos).value;
      forall i :: 0 <= i < |inputs| ==> inputs[i].witnessData == []
  {
    var count := ParseVarInt(data, pos);
    var inputs := ParseList(ParseInput, data, pos).value;
    forall i | 0 <= i < |inputs|
      ensures inputs[i].witnessData == []
    {
      ManyValue(ParseInput, data, count.end, count.value, i);
    }
  }

  /** A transaction without witness data keeps its inputs as they are. */
  lemma WithoutWitness(inputs: seq<TransactionInput>, data: seq<Byte>, pos: nat)
    requires forall i :: 0 <= i < |inputs| ==> inputs[i].witnessData == []
    ensures ParseWitnesses(false, data, pos, |inputs|) == Read(NoStacks(|inputs|), pos)
    ensures WithWitness(inputs, NoStacks(|inputs|)) == inputs
  {
  }

  /** Read again the parts that were hashed before witness data was introduced. */
  method ReadLegacyBytes(stream: InputStream, startPosTx: nat, startPosInputs: nat, endPosOutputs: nat, endPosTx: nat)
    returns (txHashBytes: seq<Byte>)
    requires !stream.failed && Sections(startPosTx, startPosInputs, endPosOutputs, endPosTx).In(stream.data)
    modifies stream
    ensures !stream.failed
    ensures txHashBytes == LegacyBytes(stream.data, Sections(startPosTx, startPosInputs, endPosOutputs, endPosTx))
  {
    stream.Seek(startPosTx);
    var version := stream.ReadBytes(4);
    stream.Seek(startPosInputs);
    var middle := stream.ReadBytes(endPosOutputs - startPosInputs);
    stream.Seek(endPosTx - 4);
    var lockTime := stream.ReadBytes(4);
    txHashBytes := version + middle + lockTime;
  }

  /** The stream goes back to the start, and to the end again. */
  method ReadHashes(sha: Sha256, segwit: bool, stream: InputStream, startPosTx: nat, startPosInputs: nat,
      endPosOutputs: nat, endPosTx: nat)
    returns (txHash: Hash, txWitHash: Hash)
    requires !stream.failed && stream.pos == endPosTx
    requires Sections(startPosTx, startPosInputs, endPosOutputs, endPosTx).In(stream.data)
    modifies stream
    ensures !stream.failed && stream.pos == endPosTx
    ensures var at := Sections(startPosTx, startPosInputs, endPosOutputs, endPosTx);
      && txHash == HashText(sha, LegacyBytes(stream.data, at))
      && txWitHash == if segwit then HashText(sha, stream.data[startPosTx..endPosTx]) else txHash
  {
    hide LegacyBytes, ReverseHex, ZeroBytes;
    var txHashBytes := ReadLegacyBytes(stream, startPosTx, startPosInputs, endPosOutputs, endPosTx);
    txHash := HashToReverseHex(sha(sha(txHashBytes)));
    if segwit {
      stream.Seek(startPosTx);
      var transactionBytes := stream.ReadBytes(endPosTx - startPosTx);
      txWitHash := HashToReverseHex(sha(sha(transactionBytes)));
    } else {
      txWitHash := txHash;
    }
    stream.Seek(endPosTx);
  }

  method ReadBody(segwit: bool, stream: InputStream)
    returns (inputs: seq<TransactionInput>, outputs: seq<TransactionOutput>, endPosOutputs: nat)
    requires !stream.failed
    modifies stream
    ensures stream.Got(ParseBody(segwit, stream.data, old(stream.pos)), Body(inputs, outputs, endPosOutputs))
  {
    hide NoStacks, WithWitness, ParseInput, ParseOutput, ParseWitness, ParseList, ParseWitnesses;
    outputs, endPosOutputs := [], 0;
    ghost var data := stream.data;
    ghost var start := stream.pos;
    inputs := ReadInputs(stream);
    if stream.failed { return; }
    NoWitnessYet(data, start);
    outputs := ReadOutputs(stream);
    if stream.failed { return; }
    endPosOutputs := stream.pos;
    if segwit {
      ghost var stacks;
      inputs, stacks := ReadWitnesses(stream, inputs);
    } else {
      WithoutWitness(inputs, data, endPosOutputs);
    }
  }

  method ReadTransaction(sha: Sha256, stream: InputStream) returns (transaction: Transaction)
    requires !stream.failed
    modifies stream
    ensures stream.Got(ParseTransaction(sha, stream.data, old(stream.pos)), transaction)
  {
    hide LegacyBytes, ParseBody, FromLittleEndian, ZeroBytes, HashText;
    transaction := Transaction([], [], "", "", 0, 0, 0, 0);
    var startPosTx := stream.pos;
    var version := stream.ReadNumber(4);
    if stream.failed { return; }

    // A witness transaction has a zero byte and a nonzero one where others have the number of inputs.
    var segwitMarker := stream.ReadBytes(2);
    if stream.failed { return; }
    var segwit := segwitMarker[0] == 0 && segwitMarker[1] != 0;
    if !segwit { stream.Seek(stream.pos - 2); }
    var startPosInputs := stream.pos;

    var inputs, outputs, endPosOutputs := ReadBody(segwit, stream);
    if stream.failed { return; }
    var lockTime := stream.ReadNumber(4);
    if stream.failed { return; }
    var endPosTx := stream.pos;

    var txHash, txWitHash := ReadHashes(sha, segwit, stream, startPosTx, startPosInputs, endPosOutputs, endPosTx);
    transaction := Transaction(
      inputs, outputs, txHash, txWitHash, startPosTx, endPosTx - startPosTx, version, lockTime);
  }

  function TransactionParser(sha: Sha256): (seq<Byte>, nat, nat) -> Parsed<Transaction> {
    (data: seq<Byte>, pos: nat, index: nat) => ParseTransaction(sha, data, pos)
  }

  lemma TransactionsGrow(sha: Sha256)
    ensures MovesOn(TransactionParser(sha))
  {
    forall data: seq<Byte>, pos: nat, i: nat | TransactionParser(sha)(data, pos, i).Read?
      ensures pos <= TransactionParser(sha)(data, pos, i).end
    {
      assert ParseTransaction(sha, data, pos).Read?;
    }
  }

  /** The transactions of a block, unless only its header is wanted. */
  function ParseTransactions(sha: Sha256, headerOnly: bool, data: seq<Byte>, pos: nat): (r: Parsed<seq<Transaction>>)
    ensures r.Read? ==> pos <= r.end
  {
    TransactionsGrow(sha);
    ParseListGrows(TransactionParser(sha), data, pos);
    if headerOnly then Read([], pos) else ParseList(TransactionParser(sha), data, pos)
  }

  /** What the 80 bytes of a header say, before the transactions are known. */
  function HeaderAt(sha: Sha256, data: seq<Byte>, fileName: string, p: nat, blockHeight: nat): Block
    requires p + 80 <= |data|
  {
    Block(
      fileName, p,
      HashText(sha, data[p..p + 80]), ReverseHex(data[p + 4..p + 36]), ReverseHex(data[p + 36..p + 68]),
      blockHeight, 80,
      FromLittleEndian(data[p + 68..p + 72]), FromLittleEndian(data[p + 72..p + 76]),
      FromLittleEndian(data[p + 76..p + 80]), FromLittleEndian(data[p..p + 4]), [], false)
  }

  function ParseBlock(sha: Sha256, data: seq<Byte>, fileName: string, filePosition: nat, blockHeight: nat,
      headerOnly: bool)
    : Parsed<Block>
  {
    if filePosition + 80 > |data| then Failed
    else
      match ParseTransactions(sha, headerOnly, data, filePosition + 80)
      case Failed => Failed
      case Read(txs, end) =>
        var header := HeaderAt(sha, data, fileName, filePosition, blockHeight);
        Read(header.(transactions := txs, byteSize := end - filePosition), end)
  }

  method ReadTransactions(sha: Sha256, stream: InputStream) returns (transactions: seq<Transaction>)
    requires !stream.failed
    modifies stream
    ensures stream.Got(ParseList(TransactionParser(sha), stream.data, old(stream.pos)), transactions)
  {
    hide ParseTransaction;
    transactions := [];
    var txCount := ReadVarInt(stream);
    if stream.failed { return; }
    ghost var start := stream.pos;
    ghost var parser := TransactionParser(sha);
    for tx := 0 to txCount
      invariant !stream.failed && stream.Got(Many(parser, stream.data, start, tx), transactions)
    {
      var transaction := ReadTransaction(sha, stream);
      if stream.failed {
        ManyFails(parser, stream.data, start, tx + 1, txCount);
        return;
      }
      transactions := transactions + [transaction];
    }
  }

  method ReadHeader(sha: Sha256, blockFile: InputStream, fileName: string, filePosition: nat, blockHeight: nat)
    returns (fullBlock: Block)
    requires !blockFile.failed && filePosition + 80 <= |blockFile.data|
    modifies blockFile
    ensures !blockFile.failed && blockFile.pos == filePosition + 80
    ensures fullBlock == HeaderAt(sha, blockFile.data, fileName, filePosition, blockHeight)
  {
    hide FromLittleEndian, ReverseHex, ZeroBytes;
    blockFile.Seek(filePosition);
    var blockHeader := blockFile.ReadBytes(80);
    var blockHash := HashToReverseHex(sha(sha(blockHeader)));
    blockFile.Seek(filePosition);
    var version := blockFile.ReadNumber(4);
    var hash := ReadHash(blockFile);
    var previousBlockHash := HashToReverseHex(hash);
    hash := ReadHash(blockFile);
    var merkleRoot := HashToReverseHex(hash);
    var time := blockFile.ReadNumber(4);
    var bits := blockFile.ReadNumber(4);
    var nonce := blockFile.ReadNumber(4);
    fullBlock := Block(
      fileName, filePosition, blockHash, previousBlockHash, merkleRoot,
      blockHeight, 80, time, bits, nonce, version, [], false);
  }

  /** The block of a file at a position. */
  method ReadBlock(sha: Sha256, data: seq<Byte>, fileName: string, filePosition: nat, blockHeight: nat,
      headerOnly: bool)
    returns (r: Option<Block>)
    ensures match ParseBlock(sha, data, fileName, filePosition, blockHeight, headerOnly)
      case Failed => r == None
      case Read(block, _) => r == Some(block)
  {
    hide ParseList, TransactionParser, HeaderAt;
    var blockFile := new InputStream(data);
    if filePosition + 80 > |data| { return None; }
    var fullBlock := ReadHeader(sha, blockFile, fileName, filePosition, blockHeight);
    var transactions := [];
    if !headerOnly {
      blockFile.Seek(filePosition + 80);
      transactions := ReadTransactions(sha, blockFile);
      if blockFile.failed { return None; }
    }
    assert blockFile.Got(ParseTransactions(sha, headerOnly, data, filePosition + 80), transactions);
    r := Some(fullBlock.(transactions := transactions, byteSize := blockFile.pos - filePosition));
  }
}
