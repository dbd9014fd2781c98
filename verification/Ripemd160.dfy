/** The buffering of the RIPEMD-160 hasher: messages come in pieces of any length, and are compressed
    in blocks of 64 bytes. The compression function is a parameter. */
module Ripemd160 {
  import opened BlockchainTypes
  import opened Bytes
  import opened Numbers

  datatype State = State(a: nat, b: nat, c: nat, d: nat, e: nat)

  const INITIAL := State(0x67452301, 0xEFCDAB89, 0x98BADCFE, 0x10325476, 0xC3D2E1F0)

  const WORD: nat := 0x1_0000_0000_0000_0000

  type Transform = (State, seq<Byte>) -> State

  /** The one-shot hash of a message of whole blocks. */
  function Compress(t: Transform, m: seq<Byte>): State
    requires |m| % 64 == 0
  {
    if m == [] then INITIAL else t(Compress(t, m[..|m| - 64]), m[|m| - 64..])
  }

  function Whole(m: seq<Byte>): nat {
    |m| - |m| % 64
  }

  /** The hasher has read the message m: its whole blocks are compressed, the rest waits in the buffer. */
  ghost predicate HasRead(t: Transform, s: State, buf: seq<Byte>, bytes: nat, m: seq<Byte>) {
    && |buf| == 64
    && bytes == |m| % WORD
    && s == Compress(t, m[..Whole(m)])
    && buf[..|m| % 64] == m[Whole(m)..]
  }

  lemma WholeIs(m: seq<Byte>)
    ensures Whole(m) <= |m| && Whole(m) % 64 == 0 && |m| - Whole(m) == |m| % 64
  {
  }

  lemma BlockRead(t: Transform, s: State, m: seq<Byte>, block: seq<Byte>)
    requires |m| % 64 == 0 && |block| == 64 && s == Compress(t, m)
    ensures |m + block| % 64 == 0 && t(s, block) == Compress(t, m + block)
  {
    assert (m + block)[..|m|] == m && (m + block)[|m|..] == block;
  }

  function Output(s: State): (h: seq<Byte>)
    ensures |h| == 20
  {
    LittleEndian(s.a, 4) + LittleEndian(s.b, 4) + LittleEndian(s.c, 4) + LittleEndian(s.d, 4) + LittleEndian(s.e, 4)
  }

  /** The words in order, and the bytes of each word from the lowest up. */
  lemma OutputByte(s: State, k: nat, j: nat)
    requires k < 5 && j < 4
    ensures var w := [s.a, s.b, s.c, s.d, s.e][k];
      Output(s)[4 * k + j] == w / [1, 0x100, 0x1_0000, 0x100_0000][j] % 256
  {
    hide LittleEndian;
    var w := [s.a, s.b, s.c, s.d, s.e][k];
    FourBytes(w);
    OutputWord(s, k);
    assert Output(s)[4 * k..4 * k + 4][j] == LittleEndian(w, 4)[j];
  }

  lemma OutputWord(s: State, k: nat)
    requires k < 5
    ensures Output(s)[4 * k..4 * k + 4] == LittleEndian([s.a, s.b, s.c, s.d, s.e][k], 4)
  {
    hide LittleEndian;
    if k == 0 {} else if k == 1 {} else if k == 2 {} else if k == 3 {} else {}
  }

  lemma FourBytes(w: nat)
    ensures LittleEndian(w, 4) == [w % 256, w / 256 % 256, w / 0x1_0000 % 256, w / 0x100_0000 % 256]
  {
    var a, b, c := w / 256, w / 256 / 256, w / 256 / 256 / 256;
    assert LittleEndian(c, 1) == [c % 256];
    assert LittleEndian(b, 2) == [b % 256] + LittleEndian(c, 1);
    assert LittleEndian(a, 3) == [a % 256] + LittleEndian(b, 2);
    assert b == w / 0x1_0000 && c == w / 0x100_0000;
  }

  /** The bytes of the start: counting up, down, and in the pattern of the fifth word. */
  lemma OutputOfInitial()
    ensures Output(INITIAL) ==
      [0x01, 0x23, 0x45, 0x67] + [0x89, 0xAB, 0xCD, 0xEF] + [0xFE, 0xDC, 0xBA, 0x98] + [0x76, 0x54, 0x32, 0x10] +
      [0xF0, 0xE1, 0xD2, 0xC3]
  {
    hide LittleEndian;
    InitialWords();
    hide INITIAL;
  }

  lemma InitialWords()
    ensures LittleEndian(INITIAL.a, 4) == [0x01, 0x23, 0x45, 0x67]
    ensures LittleEndian(INITIAL.b, 4) == [0x89, 0xAB, 0xCD, 0xEF]
    ensures LittleEndian(INITIAL.c, 4) == [0xFE, 0xDC, 0xBA, 0x98]
    ensures LittleEndian(INITIAL.d, 4) == [0x76, 0x54, 0x32, 0x10]
    ensures LittleEndian(INITIAL.e, 4) == [0xF0, 0xE1, 0xD2, 0xC3]
  {
    TheseBytes(INITIAL.a, 0x01, 0x23, 0x45, 0x67);
    TheseBytes(INITIAL.b, 0x89, 0xAB, 0xCD, 0xEF);
    TheseBytes(INITIAL.c, 0xFE, 0xDC, 0xBA, 0x98);
    TheseBytes(INITIAL.d, 0x76, 0x54, 0x32, 0x10);
    TheseBytes(INITIAL.e, 0xF0, 0xE1, 0xD2, 0xC3);
    hide LittleEndian;
  }

  lemma TheseBytes(w: nat, a: Byte, b: Byte, c: Byte, d: Byte)
    requires w == a + 0x100 * b + 0x1_0000 * c + 0x100_0000 * d
    ensures LittleEndian(w, 4) == [a, b, c, d]
  {
    var x, y := c + 0x100 * d, b + 0x100 * c + 0x1_0000 * d;
    DivMod256(d, 0, d);
    DivMod256(x, d, c);
    DivMod256(y, x, b);
    DivMod256(w, y, a);
    assert LittleEndian(d, 1) == [d] && LittleEndian(x, 2) == [c] + LittleEndian(d, 1);
    assert LittleEndian(y, 3) == [b] + LittleEndian(x, 2);
  }

  lemma WholeBlocks(n: nat)
    ensures (n + 1 + (63 - (n + 8) % 64) + 8) % 64 == 0
  {
    var q := (n + 8) / 64;
    assert n + 1 + (63 - (n + 8) % 64) + 8 == 0 + (q + 1) * 64;
    DropMultiple(0, q + 1, 64);
  }

  /** The padded message: a one bit, zero bits up to eight bytes short of a block, and the length in bits. */
  function PaddedMessage(m: seq<Byte>): (p: seq<Byte>)
    ensures |p| % 64 == 0
  {
    var zeroes := 63 - (|m| + 8) % 64;
    WholeBlocks(|m|);
    m + [0x80] + ZeroBytes(zeroes) + LittleEndian(8 * |m| % WORD, 8)
  }

  /** No shorter message of whole blocks has room for the one bit and the length. */
  lemma PaddedIsShortest(m: seq<Byte>)
    ensures m <= PaddedMessage(m) && |m| + 9 <= |PaddedMessage(m)| < |m| + 9 + 64
    ensures PaddedMessage(m)[|m|] == 0x80 && forall i :: |m| < i < |PaddedMessage(m)| - 8 ==> PaddedMessage(m)[i] == 0
    ensures |m| < 0x2000_0000_0000_0000 ==> FromLittleEndian(PaddedMessage(m)[|PaddedMessage(m)| - 8..]) == 8 * |m|
  {
    FromTo8(8 * |m| % WORD);
    hide LittleEndian, FromLittleEndian;
    var front := m + [0x80] + ZeroBytes(63 - (|m| + 8) % 64);
    assert PaddedMessage(m) == front + LittleEndian(8 * |m| % WORD, 8);
    assert |m| < 0x2000_0000_0000_0000 ==> 8 * |m| % WORD == 8 * |m|;
  }

  /** Multiples of w do not matter modulo w. */
  lemma DropMultiple(a: nat, k: nat, w: nat)
    requires w > 0
    ensures (a + k * w) % w == a % w
  {
    var x, q := a + k * w, a / w;
    assert x == (q + k) * w + a % w;
    DivModUnique(w, x / w, q + k, x % w, a % w);
  }

  /** The 64-bit count, where it matters: modulo a block, and in bits. */
  lemma CountModBlock(n: nat)
    ensures n % WORD % 64 == n % 64
  {
    DropMultiple(n % WORD, n / WORD * (WORD / 64), 64);
  }

  lemma CountInBits(n: nat)
    ensures 8 * (n % WORD) % WORD == 8 * n % WORD
  {
    DropMultiple(8 * (n % WORD), 8 * (n / WORD), WORD);
  }

  lemma PaddingLength(n: nat)
    ensures (119 - n % 64) % 64 == 63 - (n + 8) % 64
  {
    var r := n % 64;
    DropMultiple(r + 8, n / 64, 64);
    assert n + 8 == r + 8 + n / 64 * 64;
  }

  lemma CountOn(n: nat, k: nat)
    ensures (n % WORD + k) % WORD == (n + k) % WORD
  {
    DropMultiple(n % WORD + k, n / WORD, WORD);
  }

  /** Nothing waits in the buffer: what was read is whole blocks. */
  ghost predicate AtBlock(t: Transform, s: State, bytes: nat, m: seq<Byte>) {
    |m| % 64 == 0 && bytes == |m| % WORD && s == Compress(t, m)
  }

  lemma BlockStep(t: Transform, s: State, bytes: nat, m: seq<Byte>, block: seq<Byte>)
    requires AtBlock(t, s, bytes, m) && |block| == 64
    ensures AtBlock(t, t(s, block), (bytes + 64) % WORD, m + block)
  {
    BlockRead(t, s, m, block);
    CountOn(|m|, 64);
  }

  lemma AtBlockHasRead(t: Transform, s: State, buf: seq<Byte>, bytes: nat, m: seq<Byte>)
    requires |buf| == 64
    ensures AtBlock(t, s, bytes, m) <==> HasRead(t, s, buf, bytes, m) && |m| % 64 == 0
  {
    if |m| % 64 == 0 {
      assert m[..|m|] == m;
    }
  }

  lemma Waiting(t: Transform, s: State, buf: seq<Byte>, bytes: nat, m: seq<Byte>)
    requires HasRead(t, s, buf, bytes, m)
    ensures bytes == |m| % WORD && bytes % 64 == |m| % 64
  {
    CountModBlock(|m|);
  }

  /** The block that waits is filled up by the bytes d, and compressed. */
  lemma FillStep(t: Transform, s: State, before: seq<Byte>, after: seq<Byte>, bytes: nat, m: seq<Byte>, d: seq<Byte>)
    requires HasRead(t, s, before, bytes, m) && |m| % 64 + |d| == 64 && after == before[..|m| % 64] + d
    ensures AtBlock(t, t(s, after), (bytes + |d|) % WORD, m + d)
  {
    WholeIs(m);
    hide Compress, Whole;
    var whole, rest := m[..Whole(m)], m[Whole(m)..];
    assert m == whole + rest && after == rest + d;
    assert m + d == whole + after;
    BlockRead(t, s, whole, after);
    CountOn(|m|, |d|);
  }

  /** What Finalize writes pads the message. */
  lemma PadsMessage(m: seq<Byte>, bytes: nat)
    requires bytes == |m| % WORD
    ensures m + ([0x80] + ZeroBytes((119 - bytes % 64) % 64)) + LittleEndian(8 * bytes % WORD, 8) == PaddedMessage(m)
  {
    hide LittleEndian, ZeroBytes;
    CountModBlock(|m|);
    CountInBits(|m|);
    PaddingLength(|m|);
  }

  lemma AppendSlice(m: seq<Byte>, data: seq<Byte>, i: nat, j: nat, k: nat)
    requires i <= j <= k <= |data|
    ensures m + data[i..j] + data[j..k] == m + data[i..k]
  {
  }

  lemma CopyStep(was: seq<Byte>, source: seq<Byte>, at: nat, i: nat, now: seq<Byte>)
    requires at + |source| <= |was| && i < |source| && now == was[..at] + source[..i] + was[at + i..]
    ensures |now| == |was| && now[at + i := source[i]] == was[..at] + source[..i + 1] + was[at + i + 1..]
  {
  }

  class CRIPEMD160 {
    const transform: Transform
    const buf: array<Byte>
    var s: State
    var bytes: nat

    /** All that was written since the start. */
    ghost var message: seq<Byte>

    ghost predicate Valid()
      reads this, buf
    {
      buf.Length == 64 && HasRead(transform, s, buf[..], bytes, message)
    }

    constructor (t: Transform)
      ensures Valid() && message == [] && transform == t && fresh(buf)
    {
      transform := t;
      buf := new Byte[64](_ => 0);
      s, bytes, message := INITIAL, 0, [];
    }

    method Reset()
      requires buf.Length == 64
      modifies this
      ensures Valid() && message == []
    {
      bytes, s, message := 0, INITIAL, [];
    }

    /** memcpy into the buffer. */
    method Copy(at: nat, source: seq<Byte>)
      requires at + |source| <= buf.Length
      modifies buf
      ensures buf[..] == old(buf[..at]) + source + old(buf[at + |source|..])
    {
      ghost var was := buf[..];
      for i := 0 to |source|
        invariant buf[..] == was[..at] + source[..i] + was[at + i..]
      {
        CopyStep(was, source, at, i, buf[..]);
        ghost var now := buf[..];
        buf[at + i] := source[i];
        assert buf[..] == now[at + i := source[i]];
      }
      assert source[..|source|] == source;
    }

    /** The first step of a write: fill up the block that waits in the buffer, and compress it. */
    method FillBuffer(data: seq<Byte>) returns (p: nat)
      requires Valid() && |message| % 64 != 0 && |message| % 64 + |data| >= 64
      modifies this, buf
      ensures p <= |data| && message == old(message) + data[..p]
      ensures AtBlock(transform, s, bytes, message)
    {
      hide Compress;
      Waiting(transform, s, buf[..], bytes, message);
      var bufsize := bytes % 64;
      p := 64 - bufsize;
      Copy(bufsize, data[..p]);
      FillStep(transform, s, old(buf[..]), buf[..], bytes, message, data[..p]);
      bytes := (bytes + p) % WORD;
      s := transform(s, buf[..]);
      message := message + data[..p];
    }

    /** The second step: whole blocks straight from the source, from position p on. */
    method WriteBlocks(data: seq<Byte>, p0: nat) returns (p: nat)
      requires p0 <= |data| && AtBlock(transform, s, bytes, message)
      modifies this`s, this`bytes, this`message
      ensures p0 <= p <= |data| < p + 64 && message == old(message) + data[p0..p]
      ensures AtBlock(transform, s, bytes, message)
    {
      hide AtBlock;
      p := p0;
      while p + 64 <= |data|
        invariant p0 <= p <= |data| && message == old(message) + data[p0..p]
        invariant AtBlock(transform, s, bytes, message)
      {
        BlockStep(transform, s, bytes, message, data[p..p + 64]);
        AppendSlice(old(message), data, p0, p, p + 64);
        s := transform(s, data[p..p + 64]);
        bytes := (bytes + 64) % WORD;
        message := message + data[p..p + 64];
        p := p + 64;
      }
    }

    /** The last step: what is left waits in the buffer. */
    method KeepRest(bufsize: nat, rest: seq<Byte>)
      requires Valid() && bufsize == |message| % 64 && bufsize + |rest| < 64
      modifies this`bytes, this`message, buf
      ensures Valid() && message == old(message) + rest
    {
      hide Compress, Whole;
      Rest(message, rest);
      CountOn(|message|, |rest|);
      if |rest| > 0 {
        Copy(bufsize, rest);
        bytes := (bytes + |rest|) % WORD;
      }
      message := message + rest;
    }

    method Write(data: seq<Byte>)
      requires Valid()
      modifies this, buf
      ensures Valid() && message == old(message) + data
    {
      hide Compress, HasRead, AtBlock;
      Waiting(transform, s, buf[..], bytes, message);
      AtBlockHasRead(transform, s, buf[..], bytes, message);
      var bufsize, p: nat := bytes % 64, 0;
      if bufsize != 0 && bufsize + |data| >= 64 {
        p := FillBuffer(data);
        bufsize := 0;
      }
      if bufsize == 0 {
        var q := WriteBlocks(data, p);
        AppendSlice(old(message), data, 0, p, q);
        AtBlockHasRead(transform, s, buf[..], bytes, message);
        p := q;
      }
      AppendSlice(old(message), data, 0, p, |data|);
      assert data[..p] == data[0..p] && data[0..|data|] == data && data[p..|data|] == data[p..];
      KeepRest(bufsize, data[p..]);
    }

    lemma Rest(m: seq<Byte>, rest: seq<Byte>)
      requires |m| % 64 + |rest| < 64
      ensures (m + rest)[..Whole(m + rest)] == m[..Whole(m)]
      ensures (m + rest)[Whole(m + rest)..] == m[Whole(m)..] + rest
      ensures |m + rest| % 64 == |m| % 64 + |rest|
    {
      DropMultiple(|m| % 64 + |rest|, |m| / 64, 64);
      assert |m + rest| == |m| % 64 + |rest| + |m| / 64 * 64;
      assert Whole(m + rest) == Whole(m);
      assert m == m[..Whole(m)] + m[Whole(m)..];
    }

    method Finalize() returns (hash: seq<Byte>)
      requires Valid()
      modifies this, buf
      ensures Valid() && bytes % 64 == 0 && message == PaddedMessage(old(message))
      ensures s == Compress(transform, PaddedMessage(old(message))) && hash == Output(s)
    {
      hide Compress, LittleEndian, HasRead, ZeroBytes, PaddedMessage, Output;
      ghost var m := message;
      Waiting(transform, s, buf[..], bytes, m);
      PadsMessage(m, bytes);
      var sizedesc := LittleEndian(8 * bytes % WORD, 8);
      Write([0x80] + ZeroBytes((119 - bytes % 64) % 64));
      Write(sizedesc);
      Waiting(transform, s, buf[..], bytes, message);
      AtBlockHasRead(transform, s, buf[..], bytes, message);
      hash := Output(s);
    }

    /** However a message was cut into writes: the state, the count and the live part of the buffer are the same. */
    lemma MessageDetermines(other: CRIPEMD160)
      requires Valid() && other.Valid() && transform == other.transform && message == other.message
      ensures s == other.s && bytes == other.bytes && buf[..bytes % 64] == other.buf[..other.bytes % 64]
    {
      hide Compress;
      Waiting(transform, s, buf[..], bytes, message);
      Waiting(transform, other.s, other.buf[..], other.bytes, message);
      var n := bytes % 64;
      assert buf[..n] == buf[..][..n] == message[Whole(message)..];
      assert other.buf[..n] == other.buf[..][..n] == message[Whole(message)..];
    }
  }
}
