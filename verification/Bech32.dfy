/** Bech32 (BIP 173): the checksum as a fold over 5-bit groups in a packed 30-bit state, and the
    encoder and decoder around it. */
module Bech32 {
  import opened BlockchainTypes

  type Group = bv5

  const CHARSET := "qpzry9x8" + "gf2tvdw0" + "s3jn54kh" + "ce6mua7l"

  // The reverse table by columns of sixteen: nothing, digits, and letters, upper case as lower case.
  const NOTHING: seq<int> := [-1, -1, -1, -1, -1, -1, -1, -1, -1, -1, -1, -1, -1, -1, -1, -1]
  const DIGITS: seq<int> := [15, -1, 10, 17, 21, 20, 26, 30, 7, 5, -1, -1, -1, -1, -1, -1]
  const LETTERS_A: seq<int> := [-1, 29, -1, 24, 13, 25, 9, 8, 23, -1, 18, 22, 31, 27, 19, -1]
  const LETTERS_P: seq<int> := [1, 0, 3, 16, 11, 28, 12, 14, 6, 4, 2, -1, -1, -1, -1, -1]
  const CHARSET_REV: seq<int> :=
    NOTHING + NOTHING + NOTHING + DIGITS + LETTERS_A + LETTERS_P + LETTERS_A + LETTERS_P

  function LowerCase(c: char): char {
    if 'A' <= c <= 'Z' then (c as int - 'A' as int + 'a' as int) as char else c
  }

  lemma RevOfCharset(v: nat)
    requires v < 32
    ensures |CHARSET| == 32 && |CHARSET_REV| == 128
    ensures 33 <= CHARSET[v] as int <= 122 && CHARSET_REV[CHARSET[v] as int] == v
    ensures CHARSET[v] != '1' && !('A' <= CHARSET[v] <= 'Z')
  {
    CharsetLength();
    if v < 16 { RevOfFirst(v); } else { RevOfSecond(v); }
    RevIs(CHARSET[v] as int);
  }

  lemma RevOfFirst(v: nat)
    requires v < 16
    ensures |CHARSET| == 32 && var k := CHARSET[v] as int;
      || (48 <= k < 64 && k != 49 && DIGITS[k - 48] == v)
      || (97 <= k < 112 && LETTERS_A[k - 96] == v)
      || (112 <= k <= 122 && LETTERS_P[k - 112] == v)
  {
    if v < 8 {} else {}
  }

  lemma RevOfSecond(v: nat)
    requires 16 <= v < 32
    ensures |CHARSET| == 32 && var k := CHARSET[v] as int;
      || (48 <= k < 64 && k != 49 && DIGITS[k - 48] == v)
      || (97 <= k < 112 && LETTERS_A[k - 96] == v)
      || (112 <= k <= 122 && LETTERS_P[k - 112] == v)
  {
    if v < 24 {} else {}
  }

  lemma CharsetLength()
    ensures |CHARSET| == 32 && |CHARSET_REV| == 128
  {
  }

  /** The table by its columns. */
  lemma RevIs(c: nat)
    requires c < 128
    ensures |CHARSET_REV| == 128
    ensures CHARSET_REV[c] ==
      if c < 48 then -1
      else if c < 64 then DIGITS[c - 48]
      else if c < 80 then LETTERS_A[c - 64]
      else if c < 96 then LETTERS_P[c - 80]
      else if c < 112 then LETTERS_A[c - 96]
      else LETTERS_P[c - 112]
  {
  }

  lemma DigitsSpell(i: nat)
    requires i < 16 && DIGITS[i] != -1
    ensures 0 <= DIGITS[i] < |CHARSET| && CHARSET[DIGITS[i]] as int == 48 + i
  {
  }

  lemma LettersASpell(i: nat)
    requires i < 16 && LETTERS_A[i] != -1
    ensures 1 <= i < 16 && 0 <= LETTERS_A[i] < |CHARSET| && CHARSET[LETTERS_A[i]] as int == 96 + i
  {
  }

  lemma LettersPSpell(i: nat)
    requires i < 16 && LETTERS_P[i] != -1
    ensures i <= 10 && 0 <= LETTERS_P[i] < |CHARSET| && CHARSET[LETTERS_P[i]] as int == 112 + i
  {
  }

  lemma CharsetOfRev(c: char)
    requires c as int < 128 && CHARSET_REV[c as int] != -1
    ensures |CHARSET| == 32 && |CHARSET_REV| == 128 && 0 <= CHARSET_REV[c as int] < 32 &&
      CHARSET[CHARSET_REV[c as int]] == LowerCase(c)
  {
    hide CHARSET, CHARSET_REV, DIGITS, LETTERS_A, LETTERS_P;
    var k := c as int;
    CharsetLength();
    RevIs(k);
    if k < 64 { DigitsSpell(k - 48); }
    else if k < 80 { LettersASpell(k - 64); }
    else if k < 96 { LettersPSpell(k - 80); }
    else if k < 112 { LettersASpell(k - 96); }
    else { LettersPSpell(k - 112); }
  }

  function Xor(a: bv32, b: bv32): bv32 { a ^ b }

  function XorGroup(u: Group, v: Group): Group { u ^ v }

  predicate Bit(c: bv32, mask: bv32) {
    (c >> 25) & mask != 0
  }

  /** A bit of the top group, if set, adds its multiple of the generator. */
  function Reduce(x: bv32, bit: bool, generator: bv32): bv32 {
    if bit then x ^ generator else x
  }

  function Shift(c: bv32, v: Group): bv32 {
    ((c & 0x1ffffff) << 5) ^ (v as bv32)
  }

  // The reductions of one round, bit after bit of the top group.
  function Reduce1(c: bv32, v: Group): bv32 { Reduce(Shift(c, v), Bit(c, 1), 0x3b6a57b2) }
  function Reduce2(c: bv32, v: Group): bv32 { Reduce(Reduce1(c, v), Bit(c, 2), 0x26508e6d) }
  function Reduce4(c: bv32, v: Group): bv32 { Reduce(Reduce2(c, v), Bit(c, 4), 0x1ea119fa) }
  function Reduce8(c: bv32, v: Group): bv32 { Reduce(Reduce4(c, v), Bit(c, 8), 0x3d4233dd) }

  /** One round of the checksum: the state times x plus the group, modulo the generator. */
  function Step(c: bv32, v: Group): bv32 {
    Reduce(Reduce8(c, v), Bit(c, 16), 0x2a1462b3)
  }

  lemma BitIsLinear(a: bv32, b: bv32, mask: bv32)
    requires mask & (mask - 1) == 0
    ensures Bit(Xor(a, b), mask) <==> Bit(a, mask) != Bit(b, mask)
  {
    OneBit(a >> 25, mask);
    OneBit(b >> 25, mask);
    MaskXor(a, b, mask);
  }

  lemma OneBit(x: bv32, mask: bv32)
    requires mask & (mask - 1) == 0
    ensures x & mask == 0 || x & mask == mask
  {
  }

  lemma MaskXor(a: bv32, b: bv32, mask: bv32)
    ensures ((a ^ b) >> 25) & mask == ((a >> 25) & mask) ^ ((b >> 25) & mask)
  {
  }

  lemma ReduceTwo(x: bv32, y: bv32, generator: bv32)
    ensures Xor(x ^ generator, y ^ generator) == Xor(x, y)
  {
  }

  lemma ReduceLeft(x: bv32, y: bv32, generator: bv32)
    ensures Xor(x ^ generator, y) == Xor(x, y) ^ generator
  {
  }

  lemma ReduceRight(x: bv32, y: bv32, generator: bv32)
    ensures Xor(x, y ^ generator) == Xor(x, y) ^ generator
  {
  }

  lemma ReduceIs(x: bv32, bit: bool, generator: bv32)
    ensures Reduce(x, bit, generator) == if bit then x ^ generator else x
  {
  }

  lemma ReduceIsLinear(x: bv32, y: bv32, p: bool, q: bool, generator: bv32)
    ensures Reduce(Xor(x, y), p != q, generator) == Xor(Reduce(x, p, generator), Reduce(y, q, generator))
  {
    hide Xor, Reduce;
    ReduceTwo(x, y, generator);
    ReduceLeft(x, y, generator);
    ReduceRight(x, y, generator);
    ReduceIs(x, p, generator);
    ReduceIs(y, q, generator);
    ReduceIs(Xor(x, y), p != q, generator);
  }

  lemma ShiftIsLinear(a: bv32, b: bv32, u: Group, v: Group)
    ensures Shift(Xor(a, b), XorGroup(u, v)) == Xor(Shift(a, u), Shift(b, v))
  {
  }

  lemma Reduce1IsLinear(a: bv32, b: bv32, u: Group, v: Group)
    ensures Reduce1(Xor(a, b), XorGroup(u, v)) == Xor(Reduce1(a, u), Reduce1(b, v))
  {
    hide Xor, XorGroup, Bit, Reduce, Shift;
    ShiftIsLinear(a, b, u, v);
    BitIsLinear(a, b, 1);
    ReduceIsLinear(Shift(a, u), Shift(b, v), Bit(a, 1), Bit(b, 1), 0x3b6a57b2);
  }

  lemma Reduce2IsLinear(a: bv32, b: bv32, u: Group, v: Group)
    ensures Reduce2(Xor(a, b), XorGroup(u, v)) == Xor(Reduce2(a, u), Reduce2(b, v))
  {
    hide Xor, XorGroup, Bit, Reduce, Reduce1;
    Reduce1IsLinear(a, b, u, v);
    BitIsLinear(a, b, 2);
    ReduceIsLinear(Reduce1(a, u), Reduce1(b, v), Bit(a, 2), Bit(b, 2), 0x26508e6d);
  }

  lemma Reduce4IsLinear(a: bv32, b: bv32, u: Group, v: Group)
    ensures Reduce4(Xor(a, b), XorGroup(u, v)) == Xor(Reduce4(a, u), Reduce4(b, v))
  {
    hide Xor, XorGroup, Bit, Reduce, Reduce2;
    Reduce2IsLinear(a, b, u, v);
    BitIsLinear(a, b, 4);
    ReduceIsLinear(Reduce2(a, u), Reduce2(b, v), Bit(a, 4), Bit(b, 4), 0x1ea119fa);
  }

  lemma Reduce8IsLinear(a: bv32, b: bv32, u: Group, v: Group)
    ensures Reduce8(Xor(a, b), XorGroup(u, v)) == Xor(Reduce8(a, u), Reduce8(b, v))
  {
    hide Xor, XorGroup, Bit, Reduce, Reduce4;
    Reduce4IsLinear(a, b, u, v);
    BitIsLinear(a, b, 8);
    ReduceIsLinear(Reduce4(a, u), Reduce4(b, v), Bit(a, 8), Bit(b, 8), 0x3d4233dd);
  }

  /** One round is linear over exclusive or. */
  lemma StepIsLinear(a: bv32, b: bv32, u: Group, v: Group)
    ensures Step(Xor(a, b), XorGroup(u, v)) == Xor(Step(a, u), Step(b, v))
  {
    hide Xor, XorGroup, Bit, Reduce, Reduce8;
    Reduce8IsLinear(a, b, u, v);
    BitIsLinear(a, b, 16);
    ReduceIsLinear(Reduce8(a, u), Reduce8(b, v), Bit(a, 16), Bit(b, 16), 0x2a1462b3);
  }

  lemma StepIsInjective(d: bv32)
    requires d < 0x40000000 && Step(d, 0) == 0
    ensures d == 0
  {
  }

  lemma StepStays(c: bv32, v: Group)
    requires c < 0x40000000
    ensures Step(c, v) < 0x40000000
  {
  }

  // ---------- The fold ----------

  /** The state after a list of groups. */
  function Fold(c: bv32, v: seq<Group>): bv32 {
    if v == [] then c else Step(Fold(c, v[..|v| - 1]), v[|v| - 1])
  }

  method PolyMod(v: seq<Group>) returns (c: bv32)
    ensures c == Fold(1, v)
  {
    c := 1;
    for i := 0 to |v|
      invariant c == Fold(1, v[..i])
    {
      assert v[..i + 1][..i] == v[..i];
      c := Step(c, v[i]);
    }
    assert v[..|v|] == v;
  }

  lemma {:induction false} FoldConcat(c: bv32, u: seq<Group>, v: seq<Group>)
    ensures Fold(c, u + v) == Fold(Fold(c, u), v)
  {
    hide Step;
    if v == [] {
      assert u + v == u;
    } else {
      assert (u + v)[..|u + v| - 1] == u + v[..|v| - 1];
      FoldConcat(c, u, v[..|v| - 1]);
    }
  }

  function XorSeq(u: seq<Group>, v: seq<Group>): (w: seq<Group>)
    requires |u| == |v|
    ensures |w| == |u|
  {
    seq(|u|, i requires 0 <= i < |u| => XorGroup(u[i], v[i]))
  }

  function Zeroes(n: nat): (z: seq<Group>)
    ensures |z| == n
  {
    seq(n, _ => 0)
  }

  /** The whole fold is linear, because each round is. */
  lemma {:induction false} FoldIsLinear(a: bv32, b: bv32, u: seq<Group>, v: seq<Group>)
    requires |u| == |v|
    ensures Fold(Xor(a, b), XorSeq(u, v)) == Xor(Fold(a, u), Fold(b, v))
  {
    hide Step, Xor, XorGroup;
    if u != [] {
      var n := |u| - 1;
      FoldIsLinear(a, b, u[..n], v[..n]);
      assert XorSeq(u, v)[..n] == XorSeq(u[..n], v[..n]);
      StepIsLinear(Fold(a, u[..n]), Fold(b, v[..n]), u[n], v[n]);
    }
  }

  /** Zero groups never take a difference away. */
  lemma {:induction false} DifferenceStays(d: bv32, n: nat)
    requires d < 0x40000000
    ensures Fold(d, Zeroes(n)) < 0x40000000
    ensures Fold(d, Zeroes(n)) == 0 <==> d == 0
  {
    hide Step;
    if n > 0 {
      assert Zeroes(n)[..n - 1] == Zeroes(n - 1);
      DifferenceStays(d, n - 1);
      var c := Fold(d, Zeroes(n - 1));
      StepStays(c, 0);
      StepZero();
      if Step(c, 0) == 0 { StepIsInjective(c); }
    }
  }

  lemma StepZero()
    ensures Step(0, 0) == 0
  {
  }

  lemma {:induction false} FoldStays(c: bv32, v: seq<Group>)
    requires c < 0x40000000
    ensures Fold(c, v) < 0x40000000
  {
    hide Step;
    if v != [] {
      FoldStays(c, v[..|v| - 1]);
      StepStays(Fold(c, v[..|v| - 1]), v[|v| - 1]);
    }
  }

  // ---------- Six groups side by side ----------

  function Limit(k: nat): bv32 {
    if k == 0 then 1 else if k == 1 then 0x20 else if k == 2 then 0x400 else if k == 3 then 0x8000
    else if k == 4 then 0x100000 else if k == 5 then 0x2000000 else 0x40000000
  }

  function Append(c: bv32, v: Group): bv32 {
    (c << 5) | (v as bv32)
  }

  /** Up to six groups packed into one word. */
  function Pack(d: seq<Group>): bv32 {
    if d == [] then 0 else Append(Pack(d[..|d| - 1]), d[|d| - 1])
  }

  lemma StepAppends(c: bv32, v: Group)
    requires c < 0x2000000
    ensures Step(c, v) == Append(c, v)
    ensures Append(c, v) == 0 <==> c == 0 && v == 0
  {
  }

  lemma AppendLimit(c: bv32, v: Group, k: nat)
    requires k < 6 && c < Limit(k)
    ensures c < 0x2000000 && Append(c, v) < Limit(k + 1)
  {
  }

  lemma LimitIs()
    ensures 0 < Limit(0)
  {
  }

  /** From nothing, up to six groups just fill the state. */
  lemma {:induction false} FoldPacks(d: seq<Group>)
    requires |d| <= 6
    ensures Fold(0, d) == Pack(d) && Pack(d) < Limit(|d|)
    ensures Pack(d) == 0 ==> d == Zeroes(|d|)
  {
    hide Step, Append, Limit;
    LimitIs();
    if d != [] {
      var n := |d| - 1;
      FoldPacks(d[..n]);
      AppendLimit(Pack(d[..n]), d[n], n);
      StepAppends(Pack(d[..n]), d[n]);
      assert d == d[..n] + [d[n]];
    }
  }

  // ---------- Error detection ----------

  function ExpandedHRP(hrp: string): seq<Group> {
    seq(|hrp|, i requires 0 <= i < |hrp| => (hrp[i] as int / 32 % 32) as Group) + [0] +
    seq(|hrp|, i requires 0 <= i < |hrp| => (hrp[i] as int % 32) as Group)
  }

  predicate Passes(hrp: string, values: seq<Group>) {
    Fold(1, ExpandedHRP(hrp) + values) == 1
  }

  lemma XorGroupSelf(u: Group, v: Group)
    ensures XorGroup(u, v) == 0 <==> u == v
  {
  }

  lemma XorSelf(a: bv32)
    ensures Xor(a, a) == 0
  {
  }

  /** The differences of two lists that agree outside a window. */
  lemma WindowOfDifferences(e: seq<Group>, u: seq<Group>, v: seq<Group>, w: nat, k: nat)
    requires |u| == |v| && w + k <= |u|
    requires forall i :: 0 <= i < |u| && !(w <= i < w + k) ==> u[i] == v[i]
    ensures XorSeq(e + u, e + v) == Zeroes(|e| + w) + XorSeq(u[w..w + k], v[w..w + k]) + Zeroes(|u| - w - k)
    ensures XorSeq(u[w..w + k], v[w..w + k]) == Zeroes(k) ==> u == v
  {
    forall a: Group, b: Group
      ensures XorGroup(a, b) == 0 <==> a == b
    {
      XorGroupSelf(a, b);
    }
    hide XorGroup;
    var d := XorSeq(u[w..w + k], v[w..w + k]);
    if d == Zeroes(k) {
      forall i | 0 <= i < |u|
        ensures u[i] == v[i]
      {
        if w <= i < w + k {
          assert u[w..w + k][i - w] == u[i] && v[w..w + k][i - w] == v[i];
          assert d[i - w] == XorGroup(u[i], v[i]) == 0;
        }
      }
    }
  }

  /** Two different data parts that differ only within six consecutive groups do not both pass, at any length. */
  lemma BurstIsDetected(hrp: string, u: seq<Group>, v: seq<Group>, w: nat)
    requires |u| == |v| && u != v
    requires forall i :: 0 <= i < |u| && !(w <= i < w + 6) ==> u[i] == v[i]
    ensures !(Passes(hrp, u) && Passes(hrp, v))
  {
    hide Step, Xor, XorGroup, Pack, ExpandedHRP, XorSeq, Zeroes;
    var e := ExpandedHRP(hrp);
    var w0 := if w <= |u| then w else |u|;
    var k := if w0 + 6 <= |u| then 6 else |u| - w0;
    var d := XorSeq(u[w0..w0 + k], v[w0..w0 + k]);
    WindowOfDifferences(e, u, v, w0, k);
    FoldIsLinear(1, 1, e + u, e + v);
    XorSelf(1);
    DifferenceStays(0, |e| + w0);
    FoldConcat(0, Zeroes(|e| + w0), d);
    FoldConcat(0, Zeroes(|e| + w0) + d, Zeroes(|u| - w0 - k));
    FoldPacks(d);
    FoldStays(0, d);
    DifferenceStays(Fold(0, d), |u| - w0 - k);
  }

  // ---------- The checksum ----------

  /** The six groups of a 30-bit word, the highest first. */
  function Unpack(m: bv32): (d: seq<Group>)
    ensures |d| == 6
  {
    [((m >> 25) & 31) as Group, ((m >> 20) & 31) as Group, ((m >> 15) & 31) as Group,
     ((m >> 10) & 31) as Group, ((m >> 5) & 31) as Group, (m & 31) as Group]
  }

  /** One group of the word: the shift by 5 * (5 - i) bits, case by case. */
  function GroupAt(m: bv32, i: nat): Group
    requires i < 6
  {
    var shifted :=
      if i == 0 then m >> 25 else if i == 1 then m >> 20 else if i == 2 then m >> 15
      else if i == 3 then m >> 10 else if i == 4 then m >> 5 else m;
    (shifted & 31) as Group
  }

  lemma UnpackIndex(m: bv32, i: nat)
    requires i < 6
    ensures GroupAt(m, i) == Unpack(m)[i]
  {
  }

  function Checksum(hrp: string, values: seq<Group>): (checksum: seq<Group>)
    ensures |checksum| == 6
  {
    Unpack(Xor(Fold(1, ExpandedHRP(hrp) + values + Zeroes(6)), 1))
  }

  function Word(a: Group, b: Group, c: Group, d: Group, e: Group, f: Group): bv32 {
    ((a as bv32) << 25) | ((b as bv32) << 20) | ((c as bv32) << 15) |
    ((d as bv32) << 10) | ((e as bv32) << 5) | (f as bv32)
  }

  lemma AppendSix(a: Group, b: Group, c: Group, d: Group, e: Group, f: Group)
    ensures Append(Append(Append(Append(Append(Append(0, a), b), c), d), e), f) == Word(a, b, c, d, e, f)
  {
  }

  lemma PackStep(d: seq<Group>, k: nat)
    requires k < |d|
    ensures Pack(d[..k + 1]) == Append(Pack(d[..k]), d[k])
  {
    assert d[..k + 1][..k] == d[..k];
  }

  lemma PackIsWord(d: seq<Group>)
    requires |d| == 6
    ensures Pack(d) == Word(d[0], d[1], d[2], d[3], d[4], d[5])
  {
    hide Append, Word;
    AppendSix(d[0], d[1], d[2], d[3], d[4], d[5]);
    assert d[..0] == [] && d[..6] == d;
    hide Pack;
    PackNone();
    PackStep(d, 0);
    PackStep(d, 1);
    PackStep(d, 2);
    PackStep(d, 3);
    PackStep(d, 4);
    PackStep(d, 5);
  }

  lemma PackNone()
    ensures Pack([]) == 0
  {
  }

  lemma UnpackWord(m: bv32)
    requires m < 0x40000000
    ensures var d := Unpack(m); Word(d[0], d[1], d[2], d[3], d[4], d[5]) == m
  {
  }

  lemma WordUnpacked(a: Group, b: Group, c: Group, d: Group, e: Group, f: Group)
    ensures Unpack(Word(a, b, c, d, e, f)) == [a, b, c, d, e, f]
  {
  }

  lemma PackUnpack(m: bv32, d: seq<Group>)
    requires m < 0x40000000 && |d| == 6
    ensures Pack(d) == m <==> d == Unpack(m)
  {
    hide Word, Unpack;
    PackIsWord(d);
    PackIsWord(Unpack(m));
    UnpackWord(m);
    WordUnpacked(d[0], d[1], d[2], d[3], d[4], d[5]);
  }

  lemma XorZero(a: bv32, v: seq<Group>)
    ensures Xor(a, 0) == a && XorSeq(Zeroes(|v|), v) == v
  {
    assert forall g: Group :: XorGroup(0, g) == g;
  }

  lemma XorCancels(a: bv32, b: bv32)
    ensures Xor(a, Xor(a, b)) == b
  {
  }

  lemma XorStays(a: bv32)
    requires a < 0x40000000
    ensures Xor(a, 1) < 0x40000000
  {
  }

  lemma XorSolve(a: bv32, b: bv32)
    requires a < 0x40000000
    ensures Xor(a, b) == 1 <==> b == Xor(a, 1)
    ensures Xor(a, 1) < 0x40000000
  {
    hide Xor;
    XorCancels(a, b);
    XorCancels(a, 1);
    XorStays(a);
  }

  /** The six groups that make the data part pass are those of the created checksum, and no others. */
  lemma ChecksumIff(hrp: string, values: seq<Group>, checksum: seq<Group>)
    requires |checksum| == 6
    ensures Passes(hrp, values + checksum) <==> checksum == Checksum(hrp, values)
  {
    hide Step, Xor, XorGroup, Pack, Unpack, ExpandedHRP, XorSeq, Zeroes;
    var e := ExpandedHRP(hrp) + values;
    var s, m := Fold(1, e), Fold(1, e + Zeroes(6));
    assert ExpandedHRP(hrp) + (values + checksum) == e + checksum;
    FoldConcat(1, e, checksum);
    FoldConcat(1, e, Zeroes(6));
    FoldIsLinear(s, 0, Zeroes(6), checksum);
    XorZero(s, checksum);
    FoldPacks(checksum);
    FoldStays(1, e + Zeroes(6));
    XorSolve(m, Pack(checksum));
    PackUnpack(Xor(m, 1), checksum);
  }

  // ---------- Encoding and decoding ----------

  function SpellGroups(d: seq<Group>): (s: string)
    ensures |s| == |d|
  {
    CharsetLength();
    seq(|d|, i requires 0 <= i < |d| => CHARSET[d[i] as int])
  }

  function Encoded(hrp: string, values: seq<Group>): string {
    hrp + "1" + SpellGroups(values + Checksum(hrp, values))
  }

  predicate Printable(s: string) {
    forall i :: 0 <= i < |s| ==> 33 <= s[i] as int <= 126
  }

  predicate HasLower(s: string) {
    exists i :: 0 <= i < |s| && 'a' <= s[i] <= 'z'
  }

  predicate HasUpper(s: string) {
    exists i :: 0 <= i < |s| && 'A' <= s[i] <= 'Z'
  }

  function Lower(s: string): (t: string)
    ensures |t| == |s|
  {
    seq(|s|, i requires 0 <= i < |s| => LowerCase(s[i]))
  }

  /** The position of the last separator, or the length of the text. */
  function LastOne(s: string): (pos: nat)
    ensures pos <= |s|
    ensures pos < |s| ==> s[pos] == '1'
    ensures forall i :: 0 <= i < |s| && (i > pos || pos == |s|) ==> s[i] != '1'
  {
    if s == [] then 0
    else if s[|s| - 1] == '1' then |s| - 1
    else
      var pos := LastOne(s[..|s| - 1]);
      if pos == |s| - 1 then |s| else pos
  }

  function Rev(c: char): int {
    CharsetLength();
    if c as int < 33 || c as int > 126 then -1 else CHARSET_REV[c as int]
  }

  predicate InCharset(s: string) {
    forall i :: 0 <= i < |s| ==> Rev(s[i]) != -1
  }

  function Read(s: string): (d: seq<Group>)
    requires InCharset(s)
    ensures |d| == |s|
  {
    seq(|s|, i requires 0 <= i < |s| => CharsetOfRev(s[i]); Rev(s[i]) as Group)
  }

  /** A text decodes when it is printable, not of mixed case, of a length up to 90 with a part before the
      last separator and six groups after it, all groups in the alphabet, and the checksum right. */
  function Decoded(s: string): Option<(string, seq<Group>)> {
    var pos := LastOne(s);
    if !Printable(s) || (HasLower(s) && HasUpper(s)) || |s| > 90 || pos == |s| || pos == 0 || pos + 7 > |s| then None
    else if !InCharset(s[pos + 1..]) then None
    else
      var hrp, values := Lower(s[..pos]), Read(s[pos + 1..]);
      if !Passes(hrp, values) then None else Some((hrp, values[..|values| - 6]))
  }

  lemma GroupIsNumber(g: Group, n: nat)
    ensures 0 <= g as int < 32
    ensures n < 32 ==> (n as Group) as int == n
    ensures (g as int) as Group == g
  {
  }

  // ---------- The methods ----------

  method ExpandHRP(hrp: string) returns (ret: seq<Group>)
    ensures ret == ExpandedHRP(hrp)
  {
    ret := Zeroes(2 * |hrp| + 1);
    ghost var e := ExpandedHRP(hrp);
    for i := 0 to |hrp|
      invariant |ret| == |e|
      invariant forall k :: 0 <= k < |ret| ==> ret[k] == if k < i || |hrp| < k < |hrp| + 1 + i then e[k] else 0
    {
      var c := hrp[i] as int;
      ret := ret[i := (c / 32 % 32) as Group][i + |hrp| + 1 := (c % 32) as Group];
    }
    ret := ret[|hrp| := 0];
  }

  method VerifyChecksum(hrp: string, values: seq<Group>) returns (ok: bool)
    ensures ok <==> Passes(hrp, values)
  {
    var enc := ExpandHRP(hrp);
    var c := PolyMod(enc + values);
    ok := c == 1;
  }

  method CreateChecksum(hrp: string, values: seq<Group>) returns (ret: seq<Group>)
    ensures ret == Checksum(hrp, values)
  {
    hide Xor, Unpack, Fold, ExpandedHRP, GroupAt;
    var enc := ExpandHRP(hrp);
    var m := PolyMod(enc + values + Zeroes(6));
    var mod := Xor(m, 1);
    ret := [];
    for i := 0 to 6
      invariant ret == Unpack(mod)[..i]
    {
      UnpackIndex(mod, i);
      ret := ret + [GroupAt(mod, i)];
    }
  }

  method Encode(hrp: string, values: seq<Group>) returns (ret: string)
    ensures ret == Encoded(hrp, values)
  {
    hide Passes, Checksum, ExpandedHRP, CHARSET;
    CharsetLength();
    var checksum := CreateChecksum(hrp, values);
    var combined := values + checksum;
    ret := hrp + "1";
    for i := 0 to |combined|
      invariant ret == hrp + "1" + SpellGroups(combined)[..i]
    {
      ret := ret + [CHARSET[combined[i] as int]];
    }
    assert SpellGroups(combined)[..|combined|] == SpellGroups(combined);
  }

  /** The first loop of the decoder: printable characters only, and not both cases. */
  method CheckCharacters(str: string) returns (ok: bool)
    ensures ok <==> Printable(str) && !(HasLower(str) && HasUpper(str))
  {
    var lower, upper := false, false;
    for i := 0 to |str|
      invariant forall k :: 0 <= k < i ==> 33 <= str[k] as int <= 126
      invariant lower <==> exists k :: 0 <= k < i && 'a' <= str[k] <= 'z'
      invariant upper <==> exists k :: 0 <= k < i && 'A' <= str[k] <= 'Z'
    {
      var c := str[i];
      if c as int < 33 || c as int > 126 { return false; }
      if 'a' <= c <= 'z' { lower := true; }
      if 'A' <= c <= 'Z' { upper := true; }
    }
    ok := !(lower && upper);
  }

  /** The second loop: the groups after the separator. */
  method ReadGroups(data: string) returns (r: Option<seq<Group>>)
    ensures r == if InCharset(data) then Some(Read(data)) else None
  {
    hide CHARSET, CHARSET_REV;
    var values: seq<Group> := [];
    for i := 0 to |data|
      invariant InCharset(data[..i]) && values == Read(data[..i])
    {
      var rev := Rev(data[i]);
      assert data[..i + 1] == data[..i] + [data[i]];
      if rev == -1 {
        assert Rev(data[i]) == -1;
        return None;
      }
      CharsetOfRev(data[i]);
      values := values + [rev as Group];
    }
    assert data[..|data|] == data;
    r := Some(values);
  }

  method Decode(str: string) returns (r: Option<(string, seq<Group>)>)
    ensures r == Decoded(str)
  {
    hide Passes, Printable, HasLower, HasUpper, InCharset, Read, Rev, CHARSET, CHARSET_REV;
    var ok := CheckCharacters(str);
    if !ok { return None; }
    var pos := LastOne(str);
    if |str| > 90 || pos == |str| || pos == 0 || pos + 7 > |str| { return None; }
    var values := ReadGroups(str[pos + 1..]);
    if values == None { return None; }
    var hrp := "";
    for i := 0 to pos
      invariant hrp == Lower(str[..i])
    {
      assert str[..i + 1] == str[..i] + [str[i]];
      hrp := hrp + [LowerCase(str[i])];
    }
    ok := VerifyChecksum(hrp, values.value);
    if !ok { return None; }
    return Some((hrp, values.value[..|values.value| - 6]));
  }

  // ---------- Round trips ----------

  lemma SpellIsReadable(d: seq<Group>)
    ensures InCharset(SpellGroups(d)) && Read(SpellGroups(d)) == d && Printable(SpellGroups(d)) &&
      !HasUpper(SpellGroups(d))
    ensures forall i :: 0 <= i < |d| ==> SpellGroups(d)[i] != '1'
  {
    hide CHARSET, CHARSET_REV;
    CharsetLength();
    forall i | 0 <= i < |d|
      ensures var c := SpellGroups(d)[i];
        33 <= c as int <= 126 && !('A' <= c <= 'Z') && c != '1' && Rev(c) == d[i] as int
      ensures (d[i] as int) as Group == d[i]
    {
      GroupIsNumber(d[i], 0);
      RevOfCharset(d[i] as int);
    }
  }

  lemma LastOneIs(s: string, pos: nat)
    requires pos < |s| && s[pos] == '1' && forall i :: pos < i < |s| ==> s[i] != '1'
    ensures LastOne(s) == pos
  {
  }

  lemma LowerUnchanged(s: string)
    requires !HasUpper(s)
    ensures Lower(s) == s
  {
    assert forall i :: 0 <= i < |s| ==> LowerCase(s[i]) == s[i];
  }

  lemma LowerHasNoUpper(s: string)
    ensures !HasUpper(Lower(s))
  {
  }

  /** A text of a readable part, the separator, and spelled groups. */
  lemma Joined(hrp: string, d: seq<Group>, s: string)
    requires s == hrp + "1" + SpellGroups(d)
    ensures |s| == |hrp| + 1 + |d| && LastOne(s) == |hrp| && s[..|hrp|] == hrp && s[|hrp| + 1..] == SpellGroups(d)
  {
    hide SpellGroups, LastOne, InCharset, Read, Printable, HasUpper;
    var n := |hrp|;
    SpellIsReadable(d);
    forall i | n < i < |s|
      ensures s[i] != '1'
    {
      assert s[i] == SpellGroups(d)[i - n - 1];
    }
    LastOneIs(s, n);
  }

  lemma JoinedCharacters(hrp: string, d: seq<Group>, s: string)
    requires s == hrp + "1" + SpellGroups(d)
    ensures Printable(s) <==> Printable(hrp)
    ensures HasUpper(s) <==> HasUpper(hrp)
  {
    hide SpellGroups, Read, InCharset, Rev;
    var n := |hrp|;
    SpellIsReadable(d);
    forall i | 0 <= i < |s|
      ensures i < n ==> s[i] == hrp[i]
      ensures i >= n ==> 33 <= s[i] as int <= 126 && !('A' <= s[i] <= 'Z')
    {
      if i > n { assert s[i] == SpellGroups(d)[i - n - 1]; }
    }
    forall i | 0 <= i < n
      ensures hrp[i] == s[i]
    {
    }
  }

  /** Encoding followed by decoding gives back exactly what went in, if and only if the readable part is
      not empty, printable and without upper case, and the text no longer than 90. */
  lemma DecodeEncodeIff(hrp: string, values: seq<Group>)
    ensures Decoded(Encoded(hrp, values)) == Some((hrp, values))
      <==> hrp != "" && Printable(hrp) && !HasUpper(hrp) && |hrp| + 1 + |values| + 6 <= 90
  {
    hide Passes, Checksum, CHARSET, CHARSET_REV, SpellGroups, LastOne, Printable, HasUpper, HasLower, Lower, Read,
      InCharset;
    var checksum := Checksum(hrp, values);
    var combined, s := values + checksum, Encoded(hrp, values);
    Joined(hrp, combined, s);
    JoinedCharacters(hrp, combined, s);
    SpellIsReadable(combined);
    ChecksumIff(hrp, values, checksum);
    assert combined[..|values|] == values;
    LowerHasNoUpper(hrp);
    if !HasUpper(hrp) {
      LowerUnchanged(hrp);
    }
  }

  lemma SpellOfRead(data: string)
    requires InCharset(data)
    ensures SpellGroups(Read(data)) == Lower(data)
  {
    hide CHARSET, CHARSET_REV;
    CharsetLength();
    forall i | 0 <= i < |data|
      ensures SpellGroups(Read(data))[i] == LowerCase(data[i])
    {
      CharsetOfRev(data[i]);
      GroupIsNumber(Read(data)[i], Rev(data[i]));
    }
  }

  lemma LowerSplits(s: string, pos: nat)
    requires pos < |s| && s[pos] == '1'
    ensures Lower(s) == Lower(s[..pos]) + "1" + Lower(s[pos + 1..])
  {
  }

  /** Whatever decodes is, up to case, the encoding of what it decodes to. */
  lemma EncodeDecode(s: string)
    requires Decoded(s).Some?
    ensures Encoded(Decoded(s).value.0, Decoded(s).value.1) == Lower(s)
  {
    hide Passes, Checksum, CHARSET, CHARSET_REV, ExpandedHRP, SpellGroups, Read, Lower, InCharset, Printable;
    var pos := LastOne(s);
    var hrp, values := Lower(s[..pos]), Read(s[pos + 1..]);
    var n := |values| - 6;
    assert values == values[..n] + values[n..];
    ChecksumIff(hrp, values[..n], values[n..]);
    SpellOfRead(s[pos + 1..]);
    LowerSplits(s, pos);
  }
}
