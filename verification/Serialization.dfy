/** The serialization of transactions and blocks (BIP 144), and that the block reader inverts it. */
module Serialization {
  import opened BlockchainTypes
  import opened Bytes
  import opened FileReader
  import opened BlockReader

  const MAX32: nat := 0x1_0000_0000
  const MAX64: nat := 0x1_0000_0000_0000_0000

  datatype RawInput = RawInput(prevHash: seq<Byte>, prevIndex: nat, script: Script, sequence: nat,
      stack: seq<seq<Byte>>)
  {
    ghost predicate Fits() {
      && |prevHash| == 32 && prevIndex < MAX32 && |script| < MAX64 && sequence < MAX32
      && |stack| < MAX64 && forall i :: 0 <= i < |stack| ==> |stack[i]| < MAX64
    }

    ghost function Serialize(): (b: seq<Byte>)
      requires Fits()
    {
      prevHash + LittleEndian(prevIndex, 4) + VarString(script) + LittleEndian(sequence, 4)
    }

    ghost function Items(): seq<seq<Byte>>
      requires Fits()
    {
      seq(|stack|, i requires 0 <= i < |stack| => VarString(stack[i]))
    }

    ghost function SerializeStack(): seq<Byte>
      requires Fits()
    {
      VarInt(|stack|) + Concat(Items())
    }

    ghost function Record(index: nat, segwit: bool): TransactionInput {
      TransactionInput(
        index, ReverseHex(prevHash), prevIndex, sequence,
        index == 0 && prevHash == ZeroBytes(32) && prevIndex == MAX32 - 1, script, if segwit then stack else [])
    }
  }

  datatype RawOutput = RawOutput(value: nat, script: Script) {
    ghost predicate Fits() {
      value < MAX64 && |script| < MAX64
    }

    ghost function Serialize(): (b: seq<Byte>)
      requires Fits()
    {
      LittleEndian(value, 8) + VarString(script)
    }

    ghost function Record(index: nat): TransactionOutput {
      TransactionOutput(value, script, index)
    }
  }

  datatype RawTransaction = RawTransaction(version: nat, inputs: seq<RawInput>, outputs: seq<RawOutput>, lockTime: nat)
  {
    ghost predicate Fits() {
      && version < MAX32 && lockTime < MAX32 && |inputs| < MAX64 && |outputs| < MAX64
      && (forall i :: 0 <= i < |inputs| ==> inputs[i].Fits())
      && (forall i :: 0 <= i < |outputs| ==> outputs[i].Fits())
    }

    ghost function InputParts(): seq<seq<Byte>>
      requires Fits()
    {
      seq(|inputs|, i requires 0 <= i < |inputs| => inputs[i].Serialize())
    }

    ghost function OutputParts(): seq<seq<Byte>>
      requires Fits()
    {
      seq(|outputs|, i requires 0 <= i < |outputs| => outputs[i].Serialize())
    }

    ghost function StackParts(): seq<seq<Byte>>
      requires Fits()
    {
      seq(|inputs|, i requires 0 <= i < |inputs| => inputs[i].SerializeStack())
    }

    ghost function SerializeBody(): (b: seq<Byte>)
      requires Fits()
    {
      (VarInt(|inputs|) + Concat(InputParts())) + (VarInt(|outputs|) + Concat(OutputParts()))
    }

    /** Flag zero stands for the serialization without witness data; any other flag follows a zero marker. */
    ghost function Serialize(flag: Byte): seq<Byte>
      requires Fits()
    {
      LittleEndian(version, 4)
      + (if flag == 0 then SerializeBody() else [0, flag] + SerializeBody() + Concat(StackParts()))
      + LittleEndian(lockTime, 4)
    }

    ghost function InputRecords(segwit: bool): seq<TransactionInput> {
      seq(|inputs|, i requires 0 <= i < |inputs| => inputs[i].Record(i, segwit))
    }

    ghost function OutputRecords(): seq<TransactionOutput> {
      seq(|outputs|, i requires 0 <= i < |outputs| => outputs[i].Record(i))
    }

    /** What the reader should make of it: both identities are hashes of whole serializations (BIP 141). */
    ghost function Record(sha: Sha256, flag: Byte, pos: nat): Transaction
      requires Fits()
    {
      Transaction(
        InputRecords(flag != 0), OutputRecords(),
        HashText(sha, Serialize(0)), HashText(sha, Serialize(flag)),
        pos, |Serialize(flag)|, version, lockTime)
    }
  }

  lemma InputAt(data: seq<Byte>, pos: nat, raw: RawInput, index: nat)
    requires raw.Fits() && At(data, pos, raw.Serialize())
    ensures ParseInput(data, pos, index) == Read(raw.Record(index, false), pos + |raw.Serialize()|)
  {
    hide ParseString, LittleEndian, FromLittleEndian, VarString, ReverseHex, ZeroBytes;
    var p, i, s, q := raw.prevHash, LittleEndian(raw.prevIndex, 4), VarString(raw.script),
      LittleEndian(raw.sequence, 4);
    AtConcat(data, pos, p + i + s, q);
    AtConcat(data, pos, p + i, s);
    AtConcat(data, pos, p, i);
    NumberAt(data, pos + 32, raw.prevIndex, 4);
    VarStringAt(data, pos + 36, raw.script);
    NumberAt(data, pos + 36 + |s|, raw.sequence, 4);
    ZeroHashIff(p);
  }

  lemma OutputAt(data: seq<Byte>, pos: nat, raw: RawOutput, index: nat)
    requires raw.Fits() && At(data, pos, raw.Serialize())
    ensures ParseOutput(data, pos, index) == Read(raw.Record(index), pos + |raw.Serialize()|)
  {
    hide ParseString, LittleEndian, FromLittleEndian, VarString;
    AtConcat(data, pos, LittleEndian(raw.value, 8), VarString(raw.script));
    NumberAt(data, pos, raw.value, 8);
    VarStringAt(data, pos + 8, raw.script);
  }

  lemma ListAt<T>(p: (seq<Byte>, nat, nat) -> Parsed<T>, data: seq<Byte>, pos: nat, values: seq<T>,
      parts: seq<seq<Byte>>)
    requires |parts| < MAX64 && At(data, pos, VarInt(|parts|) + Concat(parts))
    requires ReadsParts(p, data, pos + |VarInt(|parts|)|, values, parts)
    ensures ParseList(p, data, pos) == Read(values, pos + |VarInt(|parts|) + Concat(parts)|)
  {
    hide VarInt, ParseVarInt, At, Concat, ReadsParts, Many;
    AtConcat(data, pos, VarInt(|parts|), Concat(parts));
    VarIntAt(data, pos, |parts|);
    ManyReads(p, data, pos + |VarInt(|parts|)|, values, parts);
  }

  lemma StackAt(data: seq<Byte>, pos: nat, raw: RawInput, index: nat)
    requires raw.Fits() && At(data, pos, raw.SerializeStack())
    ensures ParseWitness(data, pos, index) == Read(raw.stack, pos + |raw.SerializeStack()|)
  {
    hide VarInt, VarString, ParseString, ParseList, Concat;
    var parts, q := raw.Items(), pos + |VarInt(|raw.stack|)|;
    AtConcat(data, pos, VarInt(|parts|), Concat(parts));
    forall i | 0 <= i < |parts|
      ensures ParseItem(data, q + |Concat(parts[..i])|, i) == Read(raw.stack[i], q + |Concat(parts[..i + 1])|)
    {
      AtPart(data, q, parts, i);
      VarStringAt(data, q + |Concat(parts[..i])|, raw.stack[i]);
    }
    ListAt(ParseItem, data, pos, raw.stack, parts);
  }

  lemma InputsAt(data: seq<Byte>, pos: nat, t: RawTransaction)
    requires t.Fits() && At(data, pos, VarInt(|t.inputs|) + Concat(t.InputParts()))
    ensures ParseList(ParseInput, data, pos)
      == Read(t.InputRecords(false), pos + |VarInt(|t.inputs|) + Concat(t.InputParts())|)
  {
    hide VarInt, ParseList, Concat, ParseInput, RawInput.Serialize, RawInput.Record;
    var parts, values, q := t.InputParts(), t.InputRecords(false), pos + |VarInt(|t.inputs|)|;
    AtConcat(data, pos, VarInt(|parts|), Concat(parts));
    forall i | 0 <= i < |parts|
      ensures ParseInput(data, q + |Concat(parts[..i])|, i) == Read(values[i], q + |Concat(parts[..i + 1])|)
    {
      AtPart(data, q, parts, i);
      InputAt(data, q + |Concat(parts[..i])|, t.inputs[i], i);
    }
    ListAt(ParseInput, data, pos, values, parts);
  }

  lemma OutputsAt(data: seq<Byte>, pos: nat, t: RawTransaction)
    requires t.Fits() && At(data, pos, VarInt(|t.outputs|) + Concat(t.OutputParts()))
    ensures ParseList(ParseOutput, data, pos)
      == Read(t.OutputRecords(), pos + |VarInt(|t.outputs|) + Concat(t.OutputParts())|)
  {
    hide VarInt, ParseList, Concat, ParseOutput, RawOutput.Serialize, RawOutput.Record;
    var parts, values, q := t.OutputParts(), t.OutputRecords(), pos + |VarInt(|t.outputs|)|;
    AtConcat(data, pos, VarInt(|parts|), Concat(parts));
    forall i | 0 <= i < |parts|
      ensures ParseOutput(data, q + |Concat(parts[..i])|, i) == Read(values[i], q + |Concat(parts[..i + 1])|)
    {
      AtPart(data, q, parts, i);
      OutputAt(data, q + |Concat(parts[..i])|, t.outputs[i], i);
    }
    ListAt(ParseOutput, data, pos, values, parts);
  }

  ghost function Stacks(t: RawTransaction): seq<seq<seq<Byte>>> {
    seq(|t.inputs|, i requires 0 <= i < |t.inputs| => t.inputs[i].stack)
  }

  lemma StacksAt(data: seq<Byte>, pos: nat, t: RawTransaction)
    requires t.Fits() && At(data, pos, Concat(t.StackParts()))
    ensures ParseWitnesses(true, data, pos, |t.inputs|) == Read(Stacks(t), pos + |Concat(t.StackParts())|)
    ensures WithWitness(t.InputRecords(false), Stacks(t)) == t.InputRecords(true)
  {
    hide Concat, ParseWitness, RawInput.SerializeStack;
    var parts := t.StackParts();
    forall i | 0 <= i < |parts|
      ensures ParseWitness(data, pos + |Concat(parts[..i])|, i) == Read(Stacks(t)[i], pos + |Concat(parts[..i + 1])|)
    {
      AtPart(data, pos, parts, i);
      StackAt(data, pos + |Concat(parts[..i])|, t.inputs[i], i);
    }
    ManyReads(ParseWitness, data, pos, Stacks(t), parts);
  }

  /** The body, with the witness data that follows it in the extended serialization. */
  lemma BodyAt(data: seq<Byte>, pos: nat, t: RawTransaction, segwit: bool)
    requires t.Fits() && At(data, pos, t.SerializeBody())
    requires segwit ==> At(data, pos + |t.SerializeBody()|, Concat(t.StackParts()))
    ensures var end := pos + |t.SerializeBody()|;
      ParseBody(segwit, data, pos) ==
      Read(Body(t.InputRecords(segwit), t.OutputRecords(), end), end + if segwit then |Concat(t.StackParts())| else 0)
  {
    hide VarInt, ParseList, Concat, WithWitness, NoStacks, ParseWitnesses, RawInput.Record, RawOutput.Record;
    var a := VarInt(|t.inputs|) + Concat(t.InputParts());
    var b := VarInt(|t.outputs|) + Concat(t.OutputParts());
    AtConcat(data, pos, a, b);
    InputsAt(data, pos, t);
    OutputsAt(data, pos + |a|, t);
    var end := pos + |t.SerializeBody()|;
    if segwit {
      StacksAt(data, end, t);
    } else {
      NoWitnessYet(data, pos);
      WithoutWitness(t.InputRecords(false), data, end);
    }
  }

  /** Where the body of a serialized transaction begins. */
  ghost function BodyStart(pos: nat, flag: Byte): nat {
    if flag == 0 then pos + 4 else pos + 6
  }

  /** The sections of a serialization, each at its place. */
  lemma SectionsAt(data: seq<Byte>, pos: nat, t: RawTransaction, flag: Byte)
    requires t.Fits() && At(data, pos, t.Serialize(flag))
    ensures At(data, pos, LittleEndian(t.version, 4))
    ensures flag != 0 ==> At(data, pos + 4, [0, flag])
    ensures var start, body := BodyStart(pos, flag), t.SerializeBody();
      var stacks := if flag == 0 then [] else Concat(t.StackParts());
      && At(data, start, body) && At(data, start + |body|, stacks)
      && At(data, start + |body| + |stacks|, LittleEndian(t.lockTime, 4))
      && start + |body| + |stacks| + 4 == pos + |t.Serialize(flag)|
  {
    hide LittleEndian, Concat, RawTransaction.SerializeBody, RawTransaction.StackParts;
    var version, body, lockTime := LittleEndian(t.version, 4), t.SerializeBody(), LittleEndian(t.lockTime, 4);
    var stacks := if flag == 0 then [] else Concat(t.StackParts());
    var marker := if flag == 0 then [] else [0, flag];
    assert t.Serialize(flag) == version + (marker + body + stacks) + lockTime;
    AtConcat(data, pos, version + (marker + body + stacks), lockTime);
    AtConcat(data, pos, version, marker + body + stacks);
    AtConcat(data, pos + 4, marker + body, stacks);
    AtConcat(data, pos + 4, marker, body);
  }

  lemma ByteAt(data: seq<Byte>, pos: nat, b: seq<Byte>, i: nat)
    requires At(data, pos, b) && i < |b|
    ensures pos + i < |data| && data[pos + i] == b[i]
  {
    assert data[pos + i] == data[pos..pos + |b|][i];
  }

  lemma BodyBytes(t: RawTransaction)
    requires t.Fits()
    ensures |t.SerializeBody()| >= 2
    ensures t.SerializeBody()[0] == 0 <==> |t.inputs| == 0
    ensures |t.inputs| == 0 ==> (t.SerializeBody()[1] == 0 <==> |t.outputs| == 0)
  {
    hide LittleEndian;
    var i, o := VarInt(|t.inputs|), VarInt(|t.outputs|);
    var a, b := i + Concat(t.InputParts()), o + Concat(t.OutputParts());
    assert t.SerializeBody() == a + b;
    assert a[0] == i[0] && b[0] == o[0];
    if |t.inputs| == 0 {
      assert t.InputParts() == [];
      assert a == [0];
      assert t.SerializeBody()[1] == b[0];
    }
  }

  /** Without the marker, the first two bytes of the body decide: it is taken for one when there are outputs only. */
  lemma MarkerIff(data: seq<Byte>, pos: nat, t: RawTransaction, flag: Byte)
    requires t.Fits() && At(data, pos, t.Serialize(flag))
    ensures pos + 6 <= |data|
    ensures SegwitMarked(data, pos) <==> flag != 0 || (|t.inputs| == 0 && |t.outputs| > 0)
  {
    hide LittleEndian, At, RawTransaction.SerializeBody, RawTransaction.Serialize, Concat;
    SectionsAt(data, pos, t, flag);
    if flag != 0 {
      ByteAt(data, pos + 4, [0, flag], 0);
      ByteAt(data, pos + 4, [0, flag], 1);
    } else {
      BodyBytes(t);
      ByteAt(data, pos + 4, t.SerializeBody(), 0);
      ByteAt(data, pos + 4, t.SerializeBody(), 1);
    }
  }

  lemma LegacyBytesAt(data: seq<Byte>, pos: nat, t: RawTransaction, flag: Byte)
    requires t.Fits() && At(data, pos, t.Serialize(flag))
    ensures var start, end := BodyStart(pos, flag), pos + |t.Serialize(flag)|;
      var at := Sections(pos, start, start + |t.SerializeBody()|, end);
      at.In(data) && LegacyBytes(data, at) == t.Serialize(0)
  {
    hide LittleEndian, RawTransaction.SerializeBody, Concat, RawTransaction.StackParts;
    SectionsAt(data, pos, t, flag);
  }

  /** The reader inverts the serializer at every position of every file. Serializations without inputs but with
      outputs are not told from extended ones, so they have to be extended. */
  lemma ReadInvertsSerialize(sha: Sha256, data: seq<Byte>, pos: nat, t: RawTransaction, flag: Byte)
    requires t.Fits() && At(data, pos, t.Serialize(flag))
    requires flag != 0 || |t.inputs| > 0 || |t.outputs| == 0
    ensures ParseTransaction(sha, data, pos) == Read(t.Record(sha, flag, pos), pos + |t.Serialize(flag)|)
  {
    hide LittleEndian, FromLittleEndian, RawTransaction.SerializeBody, RawTransaction.InputRecords, Concat;
    hide ParseBody, LegacyBytes, HashText, SegwitMarked, RawTransaction.OutputRecords, RawTransaction.StackParts;
    SectionsAt(data, pos, t, flag);
    MarkerIff(data, pos, t, flag);
    BodyAt(data, BodyStart(pos, flag), t, flag != 0);
    LegacyBytesAt(data, pos, t, flag);
    NumberAt(data, pos, t.version, 4);
    NumberAt(data, pos + |t.Serialize(flag)| - 4, t.lockTime, 4);
  }

  lemma OutputIsShortest(data: seq<Byte>, pos: nat, raw: RawOutput, index: nat)
    requires raw.Fits() && ParseOutput(data, pos, index).Read?
    requires ParseOutput(data, pos, index).value == raw.Record(index)
    ensures ParseOutput(data, pos, index).end >= pos + |raw.Serialize()|
  {
    hide VarInt, LittleEndian, FromLittleEndian, ParseVarInt;
    VarIntIsShortest(data, pos + 8);
  }

  lemma {:induction false} OutputsAreShortest(data: seq<Byte>, pos: nat, t: RawTransaction, n: nat)
    requires t.Fits() && n <= |t.outputs| && Many(ParseOutput, data, pos, n).Read?
    requires Many(ParseOutput, data, pos, n).value == t.OutputRecords()[..n]
    ensures Many(ParseOutput, data, pos, n).end >= pos + |Concat(t.OutputParts()[..n])|
  {
    hide ParseOutput, RawOutput.Serialize, RawOutput.Record;
    if n > 0 {
      var before, parts := Many(ParseOutput, data, pos, n - 1), t.OutputParts()[..n];
      assert before.value == t.OutputRecords()[..n][..n - 1] == t.OutputRecords()[..n - 1];
      OutputsAreShortest(data, pos, t, n - 1);
      assert t.OutputRecords()[..n][n - 1] == t.outputs[n - 1].Record(n - 1);
      OutputIsShortest(data, before.end, t.outputs[n - 1], n - 1);
      assert parts[..n - 1] == t.OutputParts()[..n - 1];
    }
  }

  /** A serialization without inputs, taken for an extended one, cannot give the transaction: too few bytes. */
  lemma TakenForExtended(sha: Sha256, data: seq<Byte>, pos: nat, t: RawTransaction)
    requires t.Fits() && At(data, pos, t.Serialize(0)) && |t.inputs| == 0 && |t.outputs| > 0
    ensures ParseTransaction(sha, data, pos) != Read(t.Record(sha, 0, pos), pos + |t.Serialize(0)|)
  {
    hide LittleEndian, FromLittleEndian, VarInt, HashText, LegacyBytes, ParseOutput, ParseInput, ParseWitnesses, At;
    MarkerIff(data, pos, t, 0);
    var r := ParseTransaction(sha, data, pos);
    if r == Read(t.Record(sha, 0, pos), pos + |t.Serialize(0)|) {
      BodyTooShort(data, pos + 6, t);
      BodyWithoutInputs(t);
    }
  }

  lemma BodyWithoutInputs(t: RawTransaction)
    requires t.Fits() && |t.inputs| == 0
    ensures |t.Serialize(0)| == 9 + |VarInt(|t.outputs|)| + |Concat(t.OutputParts())|
  {
    hide LittleEndian;
    assert t.InputParts() == [];
  }

  lemma BodyTooShort(data: seq<Byte>, pos: nat, t: RawTransaction)
    requires t.Fits() && ParseBody(true, data, pos).Read? && |t.inputs| == 0
    requires var body := ParseBody(true, data, pos).value; |body.inputs| == 0 && body.outputs == t.OutputRecords()
    ensures ParseBody(true, data, pos).end > pos + |VarInt(|t.outputs|)| + |Concat(t.OutputParts())|
  {
    hide VarInt, ParseVarInt, ParseOutput, ParseInput, Concat, ParseWitness, RawOutput.Serialize, RawOutput.Record;
    var inputs := ParseList(ParseInput, data, pos);
    var outputs := ParseList(ParseOutput, data, inputs.end);
    var count := ParseVarInt(data, inputs.end);
    assert ParseVarInt(data, pos).value == 0;
    VarIntIsShortest(data, inputs.end);
    assert t.OutputRecords()[..|t.outputs|] == t.OutputRecords() && t.OutputParts()[..|t.outputs|] == t.OutputParts();
    OutputsAreShortest(data, count.end, t, |t.outputs|);
  }

  /** Exactly the transactions that the reader gives back. */
  lemma ReadInvertsSerializeIff(sha: Sha256, data: seq<Byte>, pos: nat, t: RawTransaction, flag: Byte)
    requires t.Fits() && At(data, pos, t.Serialize(flag))
    ensures ParseTransaction(sha, data, pos) == Read(t.Record(sha, flag, pos), pos + |t.Serialize(flag)|)
      <==> flag != 0 || |t.inputs| > 0 || |t.outputs| == 0
  {
    if flag != 0 || |t.inputs| > 0 || |t.outputs| == 0 {
      ReadInvertsSerialize(sha, data, pos, t, flag);
    } else {
      TakenForExtended(sha, data, pos, t);
    }
  }

  /** A transaction with the flag that it is serialized with. */
  datatype Flagged = Flagged(tx: RawTransaction, flag: Byte) {
    ghost predicate Fits() {
      tx.Fits() && (flag != 0 || |tx.inputs| > 0 || |tx.outputs| == 0)
    }

    ghost function Serialize(): seq<Byte>
      requires Fits()
    {
      tx.Serialize(flag)
    }
  }

  datatype RawBlock = RawBlock(
    version: nat, prevHash: seq<Byte>, merkleRoot: seq<Byte>, time: nat, bits: nat, nonce: nat, entries: seq<Flagged>)
  {
    ghost predicate Fits() {
      && version < MAX32 && |prevHash| == 32 && |merkleRoot| == 32 && time < MAX32 && bits < MAX32 && nonce < MAX32
      && |entries| < MAX64 && forall i :: 0 <= i < |entries| ==> entries[i].Fits()
    }

    ghost function Header(): (b: seq<Byte>)
      requires Fits()
      ensures |b| == 80
    {
      LittleEndian(version, 4) + prevHash + merkleRoot
      + LittleEndian(time, 4) + LittleEndian(bits, 4) + LittleEndian(nonce, 4)
    }

    ghost function Parts(): seq<seq<Byte>>
      requires Fits()
    {
      seq(|entries|, i requires 0 <= i < |entries| => entries[i].Serialize())
    }

    ghost function Serialize(): seq<Byte>
      requires Fits()
    {
      Header() + (VarInt(|entries|) + Concat(Parts()))
    }

    /** The transactions of a block at a position, each with its own position. */
    ghost function Records(sha: Sha256, pos: nat): seq<Transaction>
      requires Fits()
    {
      var q := pos + 80 + |VarInt(|entries|)|;
      seq(|entries|, i requires 0 <= i < |entries| =>
        entries[i].tx.Record(sha, entries[i].flag, q + |Concat(Parts()[..i])|))
    }

    ghost function Record(sha: Sha256, fileName: string, pos: nat, height: nat, headerOnly: bool): Block
      requires Fits()
    {
      Block(
        fileName, pos, HashText(sha, Header()), ReverseHex(prevHash), ReverseHex(merkleRoot),
        height, if headerOnly then 80 else |Serialize()|, time, bits, nonce, version,
        if headerOnly then [] else Records(sha, pos), false)
    }
  }

  lemma HeaderFields(data: seq<Byte>, p: nat, raw: RawBlock)
    requires raw.Fits() && At(data, p, raw.Header())
    ensures p + 80 <= |data| && data[p..p + 80] == raw.Header()
    ensures data[p + 4..p + 36] == raw.prevHash && data[p + 36..p + 68] == raw.merkleRoot
    ensures At(data, p, LittleEndian(raw.version, 4)) && At(data, p + 68, LittleEndian(raw.time, 4))
    ensures At(data, p + 72, LittleEndian(raw.bits, 4)) && At(data, p + 76, LittleEndian(raw.nonce, 4))
  {
    hide LittleEndian;
    var v, t, b, n := LittleEndian(raw.version, 4), LittleEndian(raw.time, 4), LittleEndian(raw.bits, 4),
      LittleEndian(raw.nonce, 4);
    AtConcat(data, p, v + raw.prevHash + raw.merkleRoot + t + b, n);
    AtConcat(data, p, v + raw.prevHash + raw.merkleRoot + t, b);
    AtConcat(data, p, v + raw.prevHash + raw.merkleRoot, t);
    AtConcat(data, p, v + raw.prevHash, raw.merkleRoot);
    AtConcat(data, p, v, raw.prevHash);
  }

  lemma HeaderIsRead(sha: Sha256, data: seq<Byte>, fileName: string, p: nat, height: nat, raw: RawBlock)
    requires raw.Fits() && At(data, p, raw.Header())
    ensures p + 80 <= |data|
    ensures HeaderAt(sha, data, fileName, p, height) == raw.Record(sha, fileName, p, height, true)
  {
    hide LittleEndian, FromLittleEndian, At, RawBlock.Header, HashText;
    HeaderFields(data, p, raw);
    NumberAt(data, p, raw.version, 4);
    NumberAt(data, p + 68, raw.time, 4);
    NumberAt(data, p + 72, raw.bits, 4);
    NumberAt(data, p + 76, raw.nonce, 4);
  }

  lemma TransactionsAt(sha: Sha256, data: seq<Byte>, p: nat, raw: RawBlock)
    requires raw.Fits() && At(data, p + 80, VarInt(|raw.entries|) + Concat(raw.Parts()))
    ensures ParseList(TransactionParser(sha), data, p + 80)
      == Read(raw.Records(sha, p), p + 80 + |VarInt(|raw.entries|) + Concat(raw.Parts())|)
  {
    hide VarInt, ParseList, Concat, ParseTransaction, RawTransaction.Serialize, RawTransaction.Record;
    var parts, values, q := raw.Parts(), raw.Records(sha, p), p + 80 + |VarInt(|raw.entries|)|;
    AtConcat(data, p + 80, VarInt(|parts|), Concat(parts));
    forall i | 0 <= i < |parts|
      ensures TransactionParser(sha)(data, q + |Concat(parts[..i])|, i) == Read(values[i], q + |Concat(parts[..i + 1])|)
    {
      AtPart(data, q, parts, i);
      ReadInvertsSerialize(sha, data, q + |Concat(parts[..i])|, raw.entries[i].tx, raw.entries[i].flag);
    }
    ListAt(TransactionParser(sha), data, p + 80, values, parts);
  }

  /** A serialized block is read back wherever it lies, with its exact size. */
  lemma ReadBlockInvertsSerialize(sha: Sha256, data: seq<Byte>, fileName: string, p: nat, height: nat,
      headerOnly: bool, raw: RawBlock)
    requires raw.Fits() && At(data, p, raw.Serialize())
    ensures var r := ParseBlock(sha, data, fileName, p, height, headerOnly);
      r.Read? && r.value == raw.Record(sha, fileName, p, height, headerOnly)
  {
    hide ParseList, HeaderAt, RawBlock.Header, VarInt, Concat, RawBlock.Records;
    AtConcat(data, p, raw.Header(), VarInt(|raw.entries|) + Concat(raw.Parts()));
    HeaderIsRead(sha, data, fileName, p, height, raw);
    TransactionsAt(sha, data, p, raw);
  }
}
