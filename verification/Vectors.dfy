/** Known texts and bytes: what the codecs make of inputs for which the standards give the result. */
module Vectors {
  import opened BlockchainTypes
  import opened Numbers
  import opened Bytes
  import opened FileReader
  import Base58
  import opened Bech32

  // ---------- Base 58 ----------

  lemma ValueStep(s: seq<nat>, b: nat, k: nat)
    requires k < |s|
    ensures Value(s[..k + 1], b) == Value(s[..k], b) * b + s[k]
  {
    assert s[..k + 1][..k] == s[..k];
  }

  /** The bytes 00 00 28 7f b4 cd. */
  lemma Base58Vector()
    ensures Base58.Encode([0x00, 0x00, 0x28, 0x7f, 0xb4, 0xcd]) == "11233QC4"
  {
    hide Base58.Encode, Base58.Decode, Value;
    var input: seq<Byte>, text := [0x00, 0x00, 0x28, 0x7f, 0xb4, 0xcd], "11233QC4";
    var d: seq<nat> := [0, 0, 1, 2, 2, 23, 11, 3];
    assert Base58.ReadDigits(text) == d;
    BytesValue(input);
    DigitsValue(d);
    Base58.LeadingIs(input, 2);
    Base58.LeadingIs(d, 2);
    Base58.EncodeIff(input, text);
  }

  lemma BytesValue(s: seq<nat>)
    requires s == [0x00, 0x00, 0x28, 0x7f, 0xb4, 0xcd]
    ensures Value(s, 256) == 0x287fb4cd
  {
    ValueOfZeroes(s[..2], 256);
    hide Value;
    ValueStep(s, 256, 2);
    ValueStep(s, 256, 3);
    ValueStep(s, 256, 4);
    ValueStep(s, 256, 5);
    assert s[..6] == s;
  }

  lemma DigitsValue(s: seq<nat>)
    requires s == [0, 0, 1, 2, 2, 23, 11, 3]
    ensures Value(s, 58) == 0x287fb4cd
  {
    ValueOfZeroes(s[..2], 58);
    hide Value;
    ValueStep(s, 58, 2);
    ValueStep(s, 58, 3);
    ValueStep(s, 58, 4);
    ValueStep(s, 58, 5);
    ValueStep(s, 58, 6);
    ValueStep(s, 58, 7);
    assert s[..8] == s;
  }

  // ---------- Bech32 ----------

  function Eight(c: bv32, d: seq<Group>): bv32
    requires |d| == 8
  {
    Step(Step(Step(Step(Step(Step(Step(Step(c, d[0]), d[1]), d[2]), d[3]), d[4]), d[5]), d[6]), d[7])
  }

  lemma FoldNext(c: bv32, d: seq<Group>, k: nat)
    requires k < |d|
    ensures Fold(c, d[..k + 1]) == Step(Fold(c, d[..k]), d[k])
  {
    assert d[..k + 1][..k] == d[..k];
  }

  lemma FoldEight(c: bv32, d: seq<Group>)
    requires |d| == 8
    ensures Fold(c, d) == Eight(c, d)
  {
    hide Step;
    assert Fold(c, d[..0]) == c;
    hide Fold;
    FoldNext(c, d, 0);
    FoldNext(c, d, 1);
    FoldNext(c, d, 2);
    FoldNext(c, d, 3);
    FoldNext(c, d, 4);
    FoldNext(c, d, 5);
    FoldNext(c, d, 6);
    FoldNext(c, d, 7);
    assert d[..8] == d;
  }

  // The readable part "abcdef", all 32 values in order, and six zeroes, eight at a time.
  const B0: seq<Group> := [3, 3, 3, 3, 3, 3, 0, 1]
  const B1: seq<Group> := [2, 3, 4, 5, 6, 0, 1, 2]
  const B2: seq<Group> := [3, 4, 5, 6, 7, 8, 9, 10]
  const B3: seq<Group> := [11, 12, 13, 14, 15, 16, 17, 18]
  const B4: seq<Group> := [19, 20, 21, 22, 23, 24, 25, 26]
  const B5: seq<Group> := [27, 28, 29, 30, 31, 0, 0, 0]
  const B6: seq<Group> := [0, 0, 0]

  const ALL: seq<Group> :=
    [0, 1, 2, 3, 4, 5, 6, 7] + [8, 9, 10, 11, 12, 13, 14, 15] + [16, 17, 18, 19, 20, 21, 22, 23] +
    [24, 25, 26, 27, 28, 29, 30, 31]

  lemma State0()
    ensures Eight(1, B0) == 0x3dc7154c
  {
  }

  lemma State1()
    ensures Eight(0x3dc7154c, B1) == 0x1767cdec
  {
  }

  lemma State2()
    ensures Eight(0x1767cdec, B2) == 0x2e301b62
  {
  }

  lemma State3()
    ensures Eight(0x2e301b62, B3) == 0x29be197
  {
  }

  lemma State4()
    ensures Eight(0x29be197, B4) == 0x347f64d1
  {
  }

  lemma State5()
    ensures Eight(0x347f64d1, B5) == 0x1f82c93f
  {
  }

  lemma State6()
    ensures Step(Step(Step(0x1f82c93f, 0), 0), 0) == 0x360000cf
  {
  }

  lemma ExpandedIs()
    ensures ExpandedHRP("abcdef") == [3, 3, 3, 3, 3, 3, 0, 1, 2, 3, 4, 5, 6]
  {
  }

  lemma AllInBlocks()
    ensures ALL == [0, 1, 2] + B2 + B3 + B4 + [27, 28, 29, 30, 31]
  {
  }

  lemma InBlocks()
    ensures ExpandedHRP("abcdef") + ALL + Zeroes(6) == B0 + B1 + B2 + B3 + B4 + B5 + B6
  {
    hide ExpandedHRP;
    ExpandedIs();
    AllInBlocks();
    assert [3, 3, 3, 3, 3, 3, 0, 1, 2, 3, 4, 5, 6] == B0 + [2, 3, 4, 5, 6];
    assert Zeroes(6) == [0, 0, 0] + B6;
    assert B1 == [2, 3, 4, 5, 6] + [0, 1, 2] && B5 == [27, 28, 29, 30, 31] + [0, 0, 0];
    hide B0, B1, B2, B3, B4, B5, B6, ALL, Zeroes;
  }

  lemma FoldThree(c: bv32)
    ensures Fold(c, [0, 0, 0]) == Step(Step(Step(c, 0), 0), 0)
  {
    hide Step;
    var d: seq<Group> := [0, 0, 0];
    assert Fold(c, d[..0]) == c;
    hide Fold;
    FoldNext(c, d, 0);
    FoldNext(c, d, 1);
    FoldNext(c, d, 2);
    assert d[..3] == d;
  }

  lemma FoldOn(c: bv32, u: seq<Group>, v: seq<Group>, s: bv32)
    requires Fold(c, u) == s
    ensures Fold(c, u + v) == Fold(s, v)
  {
    FoldConcat(c, u, v);
  }

  lemma FoldAll()
    ensures Fold(1, ExpandedHRP("abcdef") + ALL + Zeroes(6)) == 0x360000cf
  {
    hide *;
    InBlocks();
    BlockLengths();
    State0();
    FoldEight(1, B0);
    FoldOn(1, B0, B1, 0x3dc7154c);
    State1();
    FoldEight(0x3dc7154c, B1);
    FoldOn(1, B0 + B1, B2, 0x1767cdec);
    State2();
    FoldEight(0x1767cdec, B2);
    FoldOn(1, B0 + B1 + B2, B3, 0x2e301b62);
    State3();
    FoldEight(0x2e301b62, B3);
    FoldOn(1, B0 + B1 + B2 + B3, B4, 0x29be197);
    State4();
    FoldEight(0x29be197, B4);
    FoldOn(1, B0 + B1 + B2 + B3 + B4, B5, 0x347f64d1);
    State5();
    FoldEight(0x347f64d1, B5);
    FoldOn(1, B0 + B1 + B2 + B3 + B4 + B5, B6, 0x1f82c93f);
    State6();
    FoldThree(0x1f82c93f);
  }

  lemma BlockLengths()
    ensures |B0| == |B1| == |B2| == |B3| == |B4| == |B5| == 8 && B6 == [0, 0, 0]
  {
  }

  lemma ChecksumIs()
    ensures Checksum("abcdef", ALL) == [27, 0, 0, 0, 6, 14]
  {
    hide ExpandedHRP, Fold, ALL, Zeroes;
    FoldAll();
    assert Xor(0x360000cf, 1) == 0x360000ce;
  }

  lemma SpellConcat(u: seq<Group>, v: seq<Group>)
    ensures SpellGroups(u + v) == SpellGroups(u) + SpellGroups(v)
  {
  }

  /** A valid text of BIP 173, in which every character of the alphabet occurs in order. */
  lemma Bech32Vector()
    ensures Encoded("abcdef", ALL) == "abcdef1" + "qpzry9x8" + "gf2tvdw0" + "s3jn54kh" + "ce6mua7l" + "mqqqxw"
  {
    ChecksumIs();
    SpelledAll();
    SpelledChecksum();
    hide Checksum, CHARSET, ALL, SpellGroups;
    SpellConcat(ALL, [27, 0, 0, 0, 6, 14]);
    assert "abcdef" + "1" == "abcdef1";
  }

  lemma SpelledLow()
    ensures SpellGroups([0, 1, 2, 3, 4, 5, 6, 7]) == "qpzry9x8"
    ensures SpellGroups([8, 9, 10, 11, 12, 13, 14, 15]) == "gf2tvdw0"
  {
  }

  lemma SpelledHigh()
    ensures SpellGroups([16, 17, 18, 19, 20, 21, 22, 23]) == "s3jn54kh"
    ensures SpellGroups([24, 25, 26, 27, 28, 29, 30, 31]) == "ce6mua7l"
  {
  }

  lemma SpelledChecksum()
    ensures SpellGroups([27, 0, 0, 0, 6, 14]) == "mqqqxw"
  {
  }

  lemma SpelledAll()
    ensures SpellGroups(ALL) == "qpzry9x8" + "gf2tvdw0" + "s3jn54kh" + "ce6mua7l"
  {
    hide SpellGroups, CHARSET;
    var a: seq<Group>, b: seq<Group> := [0, 1, 2, 3, 4, 5, 6, 7], [8, 9, 10, 11, 12, 13, 14, 15];
    var c: seq<Group>, d: seq<Group> := [16, 17, 18, 19, 20, 21, 22, 23], [24, 25, 26, 27, 28, 29, 30, 31];
    SpelledLow();
    SpelledHigh();
    SpellConcat(a, b);
    SpellConcat(a + b, c);
    SpellConcat(a + b + c, d);
  }

  // ---------- Variable-length numbers ----------

  lemma VarIntVectors()
    ensures VarInt(252) == [252] && VarInt(253) == [253, 253, 0] && VarInt(0xFFFF) == [253, 255, 255]
    ensures VarInt(0x1_0000) == [254, 0, 0, 1, 0] && VarInt(0x1_0000_0000) == [255, 0, 0, 0, 0, 1, 0, 0, 0]
  {
    assert LittleEndian(0, 1) == [0] && LittleEndian(255, 1) == [255];
  }
}
