/** Reading a file front to back: the stream with its cursor, and the variable-length numbers, hashes and
    strings in it. */
module FileReader {
  import opened BlockchainTypes
  import opened Bytes

  /** What reading at a position gives: the value, and the position after it. */
  datatype Parsed<+T> = Failed | Read(value: T, end: nat)

  /** The next n bytes, read into a cleared buffer: what is missing stays zero. */
  function Filled(data: seq<Byte>, pos: nat, n: nat): (b: seq<Byte>)
    ensures |b| == n
  {
    if pos + n <= |data| then data[pos..pos + n]
    else if pos < |data| then data[pos..] + ZeroBytes(pos + n - |data|)
    else ZeroBytes(n)
  }

  /** An input stream over a file. A read that runs out of bytes, and every read and seek after it, fails. */
  class InputStream {
    const data: seq<Byte>
    var pos: nat
    var failed: bool

    constructor (data: seq<Byte>)
      ensures this.data == data && pos == 0 && !failed
    {
      this.data := data;
      pos, failed := 0, false;
    }

    function Next(n: nat): (b: seq<Byte>)
      reads this
      ensures |b| == n
    {
      if failed then ZeroBytes(n) else Filled(data, pos, n)
    }

    method ReadBytes(n: nat) returns (b: seq<Byte>)
      modifies this
      ensures b == old(Next(n))
      ensures failed == (old(failed) || old(pos) + n > |data|)
      ensures !failed ==> pos == old(pos) + n
    {
      b := Next(n);
      if pos + n > |data| {
        failed := true;
      }
      if !failed {
        pos := pos + n;
      }
    }

    method Seek(p: nat)
      modifies this
      ensures failed == old(failed) && (!failed ==> pos == p)
    {
      if !failed {
        pos := p;
      }
    }

    /** The stream has done what a parse prescribes, and the value is its result. */
    ghost predicate Got<T>(parsed: Parsed<T>, value: T)
      reads this
    {
      match parsed
      case Failed => failed
      case Read(v, end) => !failed && value == v && pos == end
    }

    method ReadNumber(n: nat) returns (value: nat)
      requires !failed
      modifies this
      ensures Got(ParseNumber(data, old(pos), n), value)
    {
      var b := ReadBytes(n);
      value := FromLittleEndian(b);
    }
  }

  function ParseNumber(data: seq<Byte>, pos: nat, n: nat): (r: Parsed<nat>)
    ensures r.Read? ==> r.end == pos + n <= |data|
  {
    if pos + n <= |data| then Read(FromLittleEndian(data[pos..pos + n]), pos + n) else Failed
  }

  function ParseVarInt(data: seq<Byte>, pos: nat): (r: Parsed<nat>)
    ensures r.Read? ==> pos < r.end <= |data|
  {
    if pos >= |data| then Failed
    else if data[pos] < 253 then Read(data[pos], pos + 1)
    else if data[pos] == 253 then ParseNumber(data, pos + 1, 2)
    else if data[pos] == 254 then ParseNumber(data, pos + 1, 4)
    else ParseNumber(data, pos + 1, 8)
  }

  function ParseHash(data: seq<Byte>, pos: nat): (r: Parsed<seq<Byte>>)
    ensures r.Read? ==> pos < r.end <= |data|
  {
    if pos + 32 <= |data| then Read(data[pos..pos + 32], pos + 32) else Failed
  }

  function ParseString(data: seq<Byte>, pos: nat): (r: Parsed<seq<Byte>>)
    ensures r.Read? ==> pos < r.end <= |data|
  {
    match ParseVarInt(data, pos)
    case Failed => Failed
    case Read(n, e) => if e + n <= |data| then Read(data[e..e + n], e + n) else Failed
  }

  method ReadVarInt(stream: InputStream) returns (value: nat)
    requires !stream.failed
    modifies stream
    ensures stream.Got(ParseVarInt(stream.data, old(stream.pos)), value)
  {
    var b := stream.ReadBytes(1);
    var prefix := b[0];
    if prefix < 253 {
      return prefix;
    }
    if prefix == 253 {
      value := stream.ReadNumber(2);
    } else if prefix == 254 {
      value := stream.ReadNumber(4);
    } else {
      value := stream.ReadNumber(8);
    }
  }

  method ReadHash(stream: InputStream) returns (hash: seq<Byte>)
    requires !stream.failed
    modifies stream
    ensures stream.Got(ParseHash(stream.data, old(stream.pos)), hash) && |hash| == 32
  {
    hash := stream.ReadBytes(32);
  }

  method ReadString(stream: InputStream) returns (s: seq<Byte>)
    requires !stream.failed
    modifies stream
    ensures stream.Got(ParseString(stream.data, old(stream.pos)), s)
  {
    var length := ReadVarInt(stream);
    if stream.failed {
      return [];
    }
    if length > 0 {
      s := stream.ReadBytes(length);
    } else {
      s := [];
      assert stream.data[stream.pos..stream.pos] == s;
    }
  }

  /** The shortest encoding of a number. */
  function VarInt(n: nat): (b: seq<Byte>)
    requires n < 0x1_0000_0000_0000_0000
    ensures 1 <= |b| <= 9
  {
    if n < 253 then [n]
    else if n < 0x1_0000 then [253] + LittleEndian(n, 2)
    else if n < 0x1_0000_0000 then [254] + LittleEndian(n, 4)
    else [255] + LittleEndian(n, 8)
  }

  /** A byte string with its length in front. */
  function VarString(s: seq<Byte>): seq<Byte>
    requires |s| < 0x1_0000_0000_0000_0000
  {
    VarInt(|s|) + s
  }

  lemma NumberAt(data: seq<Byte>, pos: nat, x: nat, n: nat)
    requires n == 4 || n == 8
    requires x < (if n == 4 then 0x1_0000_0000 else 0x1_0000_0000_0000_0000)
    requires At(data, pos, LittleEndian(x, n))
    ensures ParseNumber(data, pos, n) == Read(x, pos + n)
  {
    if n == 4 { FromTo4(x); } else { FromTo8(x); }
  }

  lemma VarIntAt(data: seq<Byte>, pos: nat, n: nat)
    requires n < 0x1_0000_0000_0000_0000 && At(data, pos, VarInt(n))
    ensures ParseVarInt(data, pos) == Read(n, pos + |VarInt(n)|)
  {
    hide LittleEndian, FromLittleEndian;
    var prefix, w := VarInt(n)[0], |VarInt(n)| - 1;
    assert data[pos] == data[pos..pos + |VarInt(n)|][0] == prefix;
    if n >= 253 {
      Widths();
      AtConcat(data, pos, [prefix], LittleEndian(n, w));
      FromTo(n, w);
    }
  }

  lemma VarStringAt(data: seq<Byte>, pos: nat, s: seq<Byte>)
    requires |s| < 0x1_0000_0000_0000_0000 && At(data, pos, VarString(s))
    ensures ParseString(data, pos) == Read(s, pos + |VarString(s)|)
  {
    hide VarInt, ParseVarInt;
    AtConcat(data, pos, VarInt(|s|), s);
    VarIntAt(data, pos, |s|);
  }

  /** Longer encodings are read too, but nothing shorter. */
  lemma VarIntIsShortest(data: seq<Byte>, pos: nat)
    requires ParseVarInt(data, pos).Read?
    ensures var r := ParseVarInt(data, pos);
      r.value < 0x1_0000_0000_0000_0000 && pos + |VarInt(r.value)| <= r.end <= |data|
  {
    hide LittleEndian, FromLittleEndian;
    Widths();
    if data[pos] >= 253 {
      ToFrom(data[pos + 1..ParseVarInt(data, pos).end]);
    }
  }

  /** A count of values, one after the other; each is read knowing its index. */
  function Many<T>(p: (seq<Byte>, nat, nat) -> Parsed<T>, data: seq<Byte>, pos: nat, count: nat): (r: Parsed<seq<T>>)
    ensures r.Read? ==> |r.value| == count
  {
    if count == 0 then Read([], pos)
    else
      match Many(p, data, pos, count - 1)
      case Failed => Failed
      case Read(values, e) =>
        match p(data, e, count - 1)
        case Failed => Failed
        case Read(value, e') => Read(values + [value], e')
  }

  /** Where one of the values is missing, there is no list. */
  lemma {:induction false} ManyFails<T>(p: (seq<Byte>, nat, nat) -> Parsed<T>, data: seq<Byte>, pos: nat, i: nat,
      count: nat)
    requires i <= count && Many(p, data, pos, i).Failed?
    ensures Many(p, data, pos, count).Failed?
  {
    if i < count { ManyFails(p, data, pos, i, count - 1); }
  }

  /** The values come out when each is read from its part. */
  ghost predicate ReadsParts<T>(p: (seq<Byte>, nat, nat) -> Parsed<T>, data: seq<Byte>, pos: nat, values: seq<T>,
      parts: seq<seq<Byte>>)
  {
    && |values| == |parts|
    && forall i :: 0 <= i < |parts| ==>
         p(data, pos + |Concat(parts[..i])|, i) == Read(values[i], pos + |Concat(parts[..i + 1])|)
  }

  lemma {:induction false} ManyReads<T>(p: (seq<Byte>, nat, nat) -> Parsed<T>, data: seq<Byte>, pos: nat,
      values: seq<T>, parts: seq<seq<Byte>>)
    requires ReadsParts(p, data, pos, values, parts)
    ensures |values| == |parts| && Many(p, data, pos, |values|) == Read(values, pos + |Concat(parts)|)
  {
    ManyReadsFirst(p, data, pos, values, parts, |parts|);
    assert values[..|parts|] == values && parts[..|parts|] == parts;
  }

  lemma {:induction false} ManyReadsFirst<T>(p: (seq<Byte>, nat, nat) -> Parsed<T>, data: seq<Byte>, pos: nat,
      values: seq<T>, parts: seq<seq<Byte>>, n: nat)
    requires ReadsParts(p, data, pos, values, parts) && n <= |parts|
    ensures Many(p, data, pos, n) == Read(values[..n], pos + |Concat(parts[..n])|)
  {
    if n > 0 {
      ManyReadsFirst(p, data, pos, values, parts, n - 1);
      assert values[..n] == values[..n - 1] + [values[n - 1]];
    }
  }

  /** Each value of a list is read where the one before it ends. */
  lemma {:induction false} ManyValue<T>(p: (seq<Byte>, nat, nat) -> Parsed<T>, data: seq<Byte>, pos: nat, count: nat,
      i: nat)
    requires i < count && Many(p, data, pos, count).Read?
    ensures Many(p, data, pos, i).Read? && Many(p, data, pos, i + 1).Read?
    ensures p(data, Many(p, data, pos, i).end, i) ==
      Read(Many(p, data, pos, count).value[i], Many(p, data, pos, i + 1).end)
  {
    if i + 1 < count { ManyValue(p, data, pos, count - 1, i); }
  }
}
