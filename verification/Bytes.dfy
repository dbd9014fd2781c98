/** Byte sequences: numbers in little-endian order, the reversed hexadecimal text of hashes, and what lies at
    a position of a file. */
module Bytes {
  import opened BlockchainTypes
  import opened Numbers

  function LittleEndian(x: nat, n: nat): (b: seq<Byte>)
    ensures |b| == n
  {
    if n == 0 then [] else [x % 256] + LittleEndian(x / 256, n - 1)
  }

  function FromLittleEndian(b: seq<Byte>): nat {
    if b == [] then 0 else b[0] + 256 * FromLittleEndian(b[1..])
  }

  lemma DivMod256(x: nat, q: nat, r: nat)
    requires x == 0x100 * q + r && r < 0x100
    ensures x / 0x100 == q && x % 0x100 == r
  {
  }

  /** A number that fits comes back. */
  lemma {:induction false} FromTo(x: nat, n: nat)
    requires x < Pow(256, n)
    ensures FromLittleEndian(LittleEndian(x, n)) == x
  {
    if n > 0 {
      FromTo(x / 256, n - 1);
    }
  }

  /** Every sequence of bytes is that of the number it stands for. */
  lemma {:induction false} ToFrom(b: seq<Byte>)
    ensures FromLittleEndian(b) < Pow(256, |b|) && LittleEndian(FromLittleEndian(b), |b|) == b
  {
    if b != [] {
      var first, rest, x := b[0], b[1..], FromLittleEndian(b[1..]);
      ToFrom(rest);
      DivMod256(FromLittleEndian(b), x, first);
      assert b == [first] + rest;
    }
  }

  /** The number of the bytes is that of the digits to base 256, the last byte the most significant. */
  lemma {:induction false} LittleEndianIsReversed(b: seq<Byte>)
    ensures FromLittleEndian(b) == Value(Reversed(b), 256)
  {
    if b != [] {
      LittleEndianIsReversed(b[1..]);
      assert Reversed(b)[..|b| - 1] == Reversed(b[1..]);
    }
  }

  lemma Widths()
    ensures Pow(256, 2) == 0x1_0000 && Pow(256, 4) == 0x1_0000_0000 && Pow(256, 8) == 0x1_0000_0000_0000_0000
  {
    assert Pow(256, 1) == 256 * Pow(256, 0);
    assert Pow(256, 2) == 256 * Pow(256, 1);
    assert Pow(256, 3) == 256 * Pow(256, 2);
    assert Pow(256, 4) == 256 * Pow(256, 3);
    PowAdd(256, 4, 4);
  }

  /** What four or eight bytes hold. */
  lemma FromTo4(x: nat)
    requires x < 0x1_0000_0000
    ensures FromLittleEndian(LittleEndian(x, 4)) == x
  {
    Widths();
    FromTo(x, 4);
  }

  lemma FromTo8(x: nat)
    requires x < 0x1_0000_0000_0000_0000
    ensures FromLittleEndian(LittleEndian(x, 8)) == x
  {
    Widths();
    FromTo(x, 8);
  }

  /** What a character of lower-case hexadecimal text stands for. */
  function HexValue(c: char): int {
    if '0' <= c <= '9' then c as int - '0' as int
    else if 'a' <= c <= 'f' then c as int - 'a' as int + 10
    else -1
  }

  function HexDigit(d: nat): (c: char)
    requires d < 16
    ensures HexValue(c) == d
  {
    if d < 10 then '0' + d as char else 'a' + (d - 10) as char
  }

  function ReverseHex(b: seq<Byte>): (t: string)
    ensures |t| == 2 * |b|
  {
    if b == [] then "" else ReverseHex(b[1..]) + [HexDigit(b[0] / 16), HexDigit(b[0] % 16)]
  }

  /** The text is written from the last byte to the first. */
  method HashToReverseHex(hash: seq<Byte>) returns (text: string)
    ensures text == ReverseHex(hash)
  {
    text := "";
    for i := |hash| downto 0
      invariant text == ReverseHex(hash[i..])
    {
      assert hash[i..][1..] == hash[i + 1..];
      text := text + [HexDigit(hash[i] / 16), HexDigit(hash[i] % 16)];
    }
  }

  /** The two characters of each byte, the last byte first: the high half and then the low half. */
  lemma {:induction false} ReverseHexAt(b: seq<Byte>, k: nat)
    requires k < |b|
    ensures var t, x := ReverseHex(b), b[|b| - 1 - k];
      && 0 <= HexValue(t[2 * k]) < 16 && 0 <= HexValue(t[2 * k + 1]) < 16
      && x == 16 * HexValue(t[2 * k]) + HexValue(t[2 * k + 1])
  {
    if k < |b| - 1 { ReverseHexAt(b[1..], k); }
  }

  /** A reader of lower-case hexadecimal text, two characters for each byte. */
  function ReadHex(t: string): Option<seq<Byte>> {
    if t == "" then Some([])
    else if |t| == 1 || HexValue(t[0]) < 0 || HexValue(t[1]) < 0 then None
    else
      match ReadHex(t[2..])
      case None => None
      case Some(b) => Some([(16 * HexValue(t[0]) + HexValue(t[1])) as Byte] + b)
  }

  predicate IsHex(t: string) {
    |t| % 2 == 0 && forall i :: 0 <= i < |t| ==> HexValue(t[i]) >= 0
  }

  lemma {:induction false} ReadHexIs(t: string)
    ensures ReadHex(t).Some? <==> IsHex(t)
    ensures IsHex(t) ==> var b := ReadHex(t).value;
      |t| == 2 * |b| && forall k :: 0 <= k < |b| ==> b[k] == 16 * HexValue(t[2 * k]) + HexValue(t[2 * k + 1])
  {
    if |t| >= 2 {
      var rest := t[2..];
      ReadHexIs(rest);
      assert IsHex(t) <==> HexValue(t[0]) >= 0 && HexValue(t[1]) >= 0 && IsHex(rest) by {
        assert forall i :: 2 <= i < |t| ==> t[i] == rest[i - 2];
        assert forall i :: 0 <= i < |rest| ==> rest[i] == t[i + 2];
      }
      if IsHex(t) {
        forall k | 0 <= k < |ReadHex(t).value|
          ensures ReadHex(t).value[k] == 16 * HexValue(t[2 * k]) + HexValue(t[2 * k + 1])
        {
          if k > 0 {
            assert ReadHex(t).value[k] == ReadHex(rest).value[k - 1];
            assert rest[2 * (k - 1)] == t[2 * k] && rest[2 * (k - 1) + 1] == t[2 * k + 1];
          }
        }
      }
    }
  }

  function Reversed(b: seq<Byte>): (r: seq<Byte>)
    ensures |r| == |b|
  {
    seq(|b|, i requires 0 <= i < |b| => b[|b| - 1 - i])
  }

  lemma SameCharacter(c: char, d: char)
    requires HexValue(c) == HexValue(d) >= 0
    ensures c == d
  {
  }

  lemma SameHalves(h: int, l: int, h': int, l': int)
    requires 16 * h + l == 16 * h' + l' && 0 <= l < 16 && 0 <= l' < 16
    ensures h == h' && l == l'
  {
  }

  lemma HexIsByte(c: char)
    ensures HexValue(c) < 16
  {
  }

  /** The text of a hash is the one that reads as its bytes, the last byte first. */
  lemma ReverseHexIff(t: string, b: seq<Byte>)
    ensures t == ReverseHex(b) <==> ReadHex(t) == Some(Reversed(b))
  {
    hide HexValue, ReadHex, ReverseHex;
    var u := ReverseHex(b);
    ReadHexIs(t);
    ReadHexIs(u);
    forall k | 0 <= k < |b|
      ensures HexValue(u[2 * k]) >= 0 && HexValue(u[2 * k + 1]) >= 0
      ensures Reversed(b)[k] == 16 * HexValue(u[2 * k]) + HexValue(u[2 * k + 1])
    {
      ReverseHexAt(b, k);
    }
    assert IsHex(u) by {
      forall i | 0 <= i < |u|
        ensures HexValue(u[i]) >= 0
      {
        assert i == 2 * (i / 2) || i == 2 * (i / 2) + 1;
      }
    }
    assert ReadHex(u).value == Reversed(b);
    if ReadHex(t) == Some(Reversed(b)) {
      forall i | 0 <= i < |t|
        ensures t[i] == u[i]
      {
        SameAt(t, u, b, i / 2);
        assert i == 2 * (i / 2) || i == 2 * (i / 2) + 1;
      }
    }
  }

  lemma SameAt(t: string, u: string, b: seq<Byte>, k: nat)
    requires IsHex(t) && IsHex(u) && |t| == |u| == 2 * |b| && k < |b|
    requires 16 * HexValue(t[2 * k]) + HexValue(t[2 * k + 1]) == 16 * HexValue(u[2 * k]) + HexValue(u[2 * k + 1])
    ensures t[2 * k] == u[2 * k] && t[2 * k + 1] == u[2 * k + 1]
  {
    hide HexValue;
    HexIsByte(t[2 * k + 1]);
    HexIsByte(u[2 * k + 1]);
    SameHalves(HexValue(t[2 * k]), HexValue(t[2 * k + 1]), HexValue(u[2 * k]), HexValue(u[2 * k + 1]));
    SameCharacter(t[2 * k], u[2 * k]);
    SameCharacter(t[2 * k + 1], u[2 * k + 1]);
  }

  /** No two hashes have the same text. */
  lemma ReverseHexIsInjective(b: seq<Byte>, c: seq<Byte>)
    requires ReverseHex(b) == ReverseHex(c)
    ensures b == c
  {
    hide ReverseHex, ReadHex;
    ReverseHexIff(ReverseHex(b), b);
    ReverseHexIff(ReverseHex(b), c);
    assert Reversed(b) == Reversed(c);
    assert |b| == |Reversed(b)| == |Reversed(c)| == |c|;
    forall i | 0 <= i < |b|
      ensures b[i] == c[i]
    {
      assert Reversed(b)[|b| - 1 - i] == b[i] && Reversed(c)[|b| - 1 - i] == c[i];
    }
  }

  function ZeroBytes(n: nat): seq<Byte> {
    seq(n, _ => 0)
  }

  lemma {:induction false} ReverseHexOfZeroes(n: nat)
    ensures ReverseHex(ZeroBytes(n)) == seq(2 * n, _ => '0')
  {
    if n > 0 {
      assert ZeroBytes(n)[1..] == ZeroBytes(n - 1);
      ReverseHexOfZeroes(n - 1);
    }
  }

  /** The zero hash is the text of 32 zero bytes and of nothing else. */
  lemma ZeroHashIff(b: seq<Byte>)
    ensures ReverseHex(b) == ZERO_HASH <==> b == ZeroBytes(32)
  {
    ReverseHexOfZeroes(32);
    assert ZERO_HASH == seq(64, _ => '0');
    if ReverseHex(b) == ZERO_HASH {
      ReverseHexIsInjective(b, ZeroBytes(32));
    }
  }

  /** The bytes b lie at position pos. */
  ghost predicate At(data: seq<Byte>, pos: nat, b: seq<Byte>) {
    pos + |b| <= |data| && data[pos..pos + |b|] == b
  }

  lemma AtConcat(data: seq<Byte>, pos: nat, a: seq<Byte>, b: seq<Byte>)
    ensures At(data, pos, a + b) <==> At(data, pos, a) && At(data, pos + |a|, b)
  {
    if At(data, pos, a + b) {
      assert data[pos..pos + |a|] == (a + b)[..|a|] == a;
      assert data[pos + |a|..pos + |a| + |b|] == (a + b)[|a|..] == b;
    }
  }

  function Concat(parts: seq<seq<Byte>>): seq<Byte> {
    if parts == [] then [] else Concat(parts[..|parts| - 1]) + parts[|parts| - 1]
  }

  /** The place of each part. */
  lemma {:induction false} AtPart(data: seq<Byte>, pos: nat, parts: seq<seq<Byte>>, i: nat)
    requires At(data, pos, Concat(parts)) && i < |parts|
    ensures At(data, pos + |Concat(parts[..i])|, parts[i])
    ensures |Concat(parts[..i + 1])| == |Concat(parts[..i])| + |parts[i]|
  {
    var n := |parts| - 1;
    AtConcat(data, pos, Concat(parts[..n]), parts[n]);
    assert parts[..i + 1][..i] == parts[..i];
    if i < n {
      AtPart(data, pos, parts[..n], i);
      assert parts[..n][..i] == parts[..i];
    }
  }
}
