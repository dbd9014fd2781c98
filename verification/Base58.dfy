/** The base-58 conversion of utility.cpp, in place in a buffer whose size is an integer
    approximation of the length of the result. */
module Base58 {
  import opened BlockchainTypes
  import opened Numbers

  /** The 58 characters, as runs of neighbours: no zero, no capital I or O, no small l. */
  function CharRun(first: char, n: nat): (s: string)
    requires first as int + n <= 256
    ensures |s| == n
  {
    seq(n, i requires 0 <= i < n => first + i as char)
  }

  const ALPHABET := CharRun('1', 9) + CharRun('A', 8) + CharRun('J', 5) + CharRun('P', 11) + CharRun('a', 11) +
    CharRun('m', 14)

  lemma AlphabetIs()
    ensures ALPHABET == "123456789" + "ABCDEFGH" + "JKLMN" + "PQRSTUVWXYZ" + "abcdefghijk" + "mnopqrstuvwxyz"
  {
    assert CharRun('1', 9) == "123456789" && CharRun('A', 8) == "ABCDEFGH" && CharRun('J', 5) == "JKLMN";
    assert CharRun('P', 11) == "PQRSTUVWXYZ" && CharRun('a', 11) == "abcdefghijk";
    assert CharRun('m', 14) == "mnopqrstuvwxyz";
  }

  function DigitOf(c: char): int {
    if '1' <= c <= '9' then c as int - '1' as int
    else if 'A' <= c <= 'H' then c as int - 'A' as int + 9
    else if 'J' <= c <= 'N' then c as int - 'J' as int + 17
    else if 'P' <= c <= 'Z' then c as int - 'P' as int + 22
    else if 'a' <= c <= 'k' then c as int - 'a' as int + 33
    else if 'm' <= c <= 'z' then c as int - 'm' as int + 44
    else -1
  }

  lemma AlphabetDigits(i: nat)
    requires i < 58
    ensures |ALPHABET| == 58 && DigitOf(ALPHABET[i]) == i
  {
  }

  function Leading(input: seq<nat>): (n: nat)
    ensures n <= |input|
    ensures forall k :: 0 <= k < n ==> input[k] == 0
    ensures n < |input| ==> input[n] != 0
  {
    if input == [] || input[0] != 0 then 0 else 1 + Leading(input[1..])
  }

  function Spell(digits: seq<nat>): (str: string)
    requires Digits(digits, 58)
    ensures |str| == |digits|
  {
    seq(|digits|, i requires 0 <= i < |digits| => ALPHABET[digits[i]])
  }

  function Ones(n: nat): string {
    seq(n, _ => '1')
  }

  lemma {:induction false} DigitsOfAreDigits(n: nat, b: nat)
    requires b > 1
    ensures Digits(DigitsOf(n, b), b)
    ensures DigitsOf(n, b) == [] <==> n == 0
    ensures DigitsOf(n, b) != [] ==> DigitsOf(n, b)[0] != 0
    decreases n
  {
    if n > 0 {
      DivSmaller(n, b);
      DigitsOfAreDigits(n / b, b);
    }
  }

  /** The result, said without the buffer: a '1' for every leading zero byte, then the base-58 digits
      of the number that the bytes stand for. */
  function Encode(input: seq<Byte>): string {
    DigitsOfAreDigits(Value(input, 256), 58);
    Ones(Leading(input)) + Spell(DigitsOf(Value(input, 256), 58))
  }

  // ---------- The size of the buffer ----------

  lemma {:induction false} PowGrows(b: nat, d: nat, e: nat)
    requires b >= 1 && d <= e
    ensures Pow(b, d) <= Pow(b, e)
  {
    if d < e {
      PowGrows(b, d, e - 1);
      MulMonotone(1, b, Pow(b, e - 1));
    }
  }

  /** The first eight cases, by computation. */
  lemma FitsSmall(r: nat)
    requires r < 8
    ensures Pow(256, r) < Pow(58, r * 138 / 100 + 1)
    ensures Pow(256, 8) <= Pow(58, 11)
  {
    assert Pow(256, 2) == 65536 && Pow(256, 4) == 0x1_0000_0000 by { PowAdd(256, 2, 2); }
    assert Pow(256, 3) == 0x100_0000 && Pow(256, 5) == 0x100_0000_0000 && Pow(256, 6) == 0x1_0000_0000_0000;
    assert Pow(256, 7) == 0x100_0000_0000_0000 && Pow(256, 8) == 0x1_0000_0000_0000_0000;
    assert Pow(58, 2) == 3364 && Pow(58, 3) == 195112 && Pow(58, 4) == 11316496;
    assert Pow(58, 5) == 656356768 && Pow(58, 6) == 38068692544 && Pow(58, 7) == 2207984167552;
    assert Pow(58, 8) == 128063081718016 && Pow(58, 9) == 7427658739644928 && Pow(58, 10) == 430804206899405824;
    assert Pow(58, 11) == 24986644000165537792;
  }

  lemma FitsStep(p: nat, q: nat, x: nat, y: nat)
    requires 0 < p <= q && x < y
    ensures p * x < q * y
  {
    MulMonotone(p, q, x);
    MulMonotone(x + 1, y, q);
    MulNext(x, q);
  }

  lemma Rate(n: nat)
    requires n >= 8
    ensures 11 + ((n - 8) * 138 / 100 + 1) <= n * 138 / 100 + 1
  {
  }

  /** The buffer always suffices: 138/100 is above log 256 / log 58, for every length. */
  lemma {:induction false} Fits(n: nat)
    ensures Pow(256, n) < Pow(58, n * 138 / 100 + 1)
  {
    hide Pow;
    if n < 8 {
      FitsSmall(n);
    } else {
      var m, e := n - 8, (n - 8) * 138 / 100 + 1;
      Fits(m);
      Rate(n);
      FitsSmall(0);
      PowAdd(256, 8, m);
      PowAdd(58, 11, e);
      FitsStep(Pow(256, 8), Pow(58, 11), Pow(256, m), Pow(58, e));
      PowGrows(58, 11 + e, n * 138 / 100 + 1);
    }
  }

  // ---------- The conversion ----------

  lemma CarryStep(p: nat, v: nat, w: nat, carry: nat, d: nat, ch: nat, digit: nat, carry': nat)
    requires v + carry * p == w * 256 + ch
    requires digit + 58 * carry' == carry + 256 * d
    ensures digit * p + v + carry' * (58 * p) == (d * p + w) * 256 + ch
  {
    assert digit * p + carry' * (58 * p) == (digit + 58 * carry') * p;
    assert (carry + 256 * d) * p == carry * p + 256 * (d * p);
  }

  lemma ValueFront(d: nat, s: seq<nat>, b: nat)
    ensures Value([d] + s, b) == d * Pow(b, |s|) + Value(s, b)
  {
    ValueConcat([d], s, b);
    assert Value([d], b) == Value([], b) * b + d by { assert [d][..0] == []; }
  }

  /** One byte: the buffer, read as a number, times 256 plus the byte. */
  method ApplyByte(b58: array<nat>, length: nat, ch: Byte) returns (i: nat, carry: nat)
    requires length <= b58.Length && Digits(b58[..], 58)
    requires forall k :: 0 <= k < b58.Length - length ==> b58[k] == 0
    modifies b58
    ensures i <= b58.Length && Digits(b58[..], 58)
    ensures forall k :: 0 <= k < b58.Length - i ==> b58[k] == 0
    ensures carry == 0 || i == b58.Length
    ensures Value(b58[..], 58) + carry * Pow(58, b58.Length) == Value(old(b58[..]), 58) * 256 + ch
  {
    hide CarryState;
    ghost var was := b58[..];
    carry, i := ch, 0;
    CarryStarts(was, ch);
    while (carry != 0 || i < length) && i < b58.Length
      invariant CarryState(was, b58[..], i, carry, ch)
      invariant i <= b58.Length && (i <= length || forall k :: 0 <= k < b58.Length - i ==> b58[k] == 0)
      decreases b58.Length - i
    {
      var j := b58.Length - i - 1;
      CarryMoves(was, b58[..], i, carry, ch);
      carry := carry + 256 * b58[j];
      ghost var now := b58[..][j := carry % 58];
      b58[j] := carry % 58;
      assert b58[..] == now;
      carry := carry / 58;
      i := i + 1;
    }
    CarryEnds(was, b58[..], i, carry, ch, length);
  }

  /** The inner loop after i digits: the last i digits, with the carry in front of them, are those of
      the old number times 256 plus the byte; the others have not changed. */
  ghost predicate CarryState(was: seq<nat>, now: seq<nat>, i: nat, carry: nat, ch: nat) {
    && i <= |now| == |was| && carry <= 256 && Digits(now, 58) && Digits(was, 58)
    && now[..|now| - i] == was[..|was| - i]
    && Value(now[|now| - i..], 58) + carry * Pow(58, i) == Value(was[|was| - i..], 58) * 256 + ch
  }

  lemma CarryStarts(was: seq<nat>, ch: Byte)
    requires Digits(was, 58)
    ensures CarryState(was, was, 0, ch, ch)
  {
    assert was[|was|..] == [];
  }

  lemma CarryMoves(was: seq<nat>, now: seq<nat>, i: nat, carry: nat, ch: nat)
    requires CarryState(was, now, i, carry, ch) && i < |now|
    ensures var j := |now| - i - 1;
      var c := carry + 256 * now[j];
      CarryState(was, now[j := c % 58], i + 1, c / 58, ch) && |now[j := c % 58]| == |was|
  {
    var j := |now| - i - 1;
    var c := carry + 256 * now[j];
    var now' := now[j := c % 58];
    var low, lowWas := now[j + 1..], was[j + 1..];
    assert now[j] == now[..j + 1][j] == was[..j + 1][j] == was[j];
    assert was[j..] == [was[j]] + lowWas && now'[j..] == [c % 58] + low;
    ValueFront(was[j], lowWas, 58);
    ValueFront(c % 58, low, 58);
    CarryStep(Pow(58, i), Value(low, 58), Value(lowWas, 58), carry, was[j], ch, c % 58, c / 58);
    assert now'[..j] == now[..j + 1][..j] == was[..j + 1][..j] == was[..j];
  }

  lemma CarryEnds(was: seq<nat>, now: seq<nat>, i: nat, carry: nat, ch: nat, length: nat)
    requires CarryState(was, now, i, carry, ch) && length <= |was|
    requires i == |was| || (carry == 0 && i >= length)
    requires forall k :: 0 <= k < |was| - length ==> was[k] == 0
    ensures |now| == |was| && Digits(now, 58) && forall k :: 0 <= k < |now| - i ==> now[k] == 0
    ensures Value(now, 58) + carry * Pow(58, |now|) == Value(was, 58) * 256 + ch
  {
    var h := |now| - i;
    assert forall k :: 0 <= k < h ==> now[k] == now[..h][k] == was[..h][k] == was[k];
    ZeroesInFront(now, h, 58);
    ZeroesInFront(was, h, 58);
    if h > 0 { assert carry * Pow(58, i) == 0 == carry * Pow(58, |now|); }
  }

  lemma ZeroesInFront(s: seq<nat>, z: nat, b: nat)
    requires z <= |s| && forall k :: 0 <= k < z ==> s[k] == 0
    ensures Value(s, b) == Value(s[z..], b)
  {
    ValueConcat(s[..z], s[z..], b);
    assert s == s[..z] + s[z..];
    ValueOfZeroes(s[..z], b);
  }

  /** No byte leaves a carry. */
  lemma NoCarry(significant: seq<nat>, p: nat, now: seq<nat>, was: nat, carry: nat)
    requires p < |significant| && Digits(significant, 256)
    requires |now| == |significant| * 138 / 100 + 1
    requires was == Value(significant[..p], 256)
    requires Value(now, 58) + carry * Pow(58, |now|) == was * 256 + significant[p]
    ensures carry == 0 && Value(now, 58) == Value(significant[..p + 1], 256)
  {
    assert significant[..p + 1][..p] == significant[..p];
    ValueBound(significant[..p + 1], 256);
    PowGrows(256, p + 1, |significant|);
    Fits(|significant|);
    if carry > 0 { MulMonotone(1, carry, Pow(58, |now|)); }
  }

  method Base58(input: seq<Byte>) returns (str: string)
    ensures str == Encode(input)
  {
    hide Value, DigitsOf, Leading, Pow, Spell, Ones;
    var zeroes, length := 0, 0;
    while zeroes < |input| && input[zeroes] == 0
      invariant zeroes <= |input| && forall k :: 0 <= k < zeroes ==> input[k] == 0
    {
      zeroes := zeroes + 1;
    }
    LeadingIs(input, zeroes);
    var size := (|input| - zeroes) * 138 / 100 + 1;
    var b58 := new nat[size](_ => 0);
    ghost var significant: seq<nat> := input[zeroes..];
    ValueOfZeroes(b58[..], 58);
    ValueOfZeroes(significant[..0], 256);
    var p := zeroes;
    while p < |input|
      invariant zeroes <= p <= |input| && 0 <= length <= size && Digits(b58[..], 58)
      invariant forall k :: 0 <= k < size - length ==> b58[k] == 0
      invariant Value(b58[..], 58) == Value(significant[..p - zeroes], 256)
    {
      ghost var was := Value(b58[..], 58);
      var carry;
      length, carry := ApplyByte(b58, length, input[p]);
      NoCarry(significant, p - zeroes, b58[..], was, carry);
      assert carry == 0;
      p := p + 1;
    }
    assert significant[..|significant|] == significant;
    ZeroesInFront(input, zeroes, 256);
    str := SpellBuffer(b58, length, zeroes, Value(input, 256));
  }

  /** The end of the conversion: skip the zeroes in front of the number, and spell the rest. */
  method SpellBuffer(b58: array<nat>, length: nat, zeroes: nat, ghost number: nat) returns (str: string)
    requires length <= b58.Length && Digits(b58[..], 58) && Value(b58[..], 58) == number
    requires forall k :: 0 <= k < b58.Length - length ==> b58[k] == 0
    ensures Digits(DigitsOf(number, 58), 58) && str == Ones(zeroes) + Spell(DigitsOf(number, 58))
  {
    hide Value, DigitsOf, Spell, CharRun;
    var it := b58.Length - length;
    while it < b58.Length && b58[it] == 0
      invariant b58.Length - length <= it <= b58.Length && forall k :: 0 <= k < it ==> b58[k] == 0
    {
      it := it + 1;
    }
    ghost var from, digits: seq<nat> := it, b58[it..];
    ZeroesInFront(b58[..], it, 58);
    DigitsOfValue(digits, 58);
    str := Ones(zeroes);
    while it < b58.Length
      invariant from <= it <= b58.Length && str == Ones(zeroes) + Spell(digits[..it - from])
    {
      SpellStep(digits, it - from);
      str := str + [ALPHABET[b58[it]]];
      it := it + 1;
    }
    assert digits[..|digits|] == digits;
  }

  lemma SpellStep(digits: seq<nat>, n: nat)
    requires n < |digits| && Digits(digits, 58)
    ensures Spell(digits[..n + 1]) == Spell(digits[..n]) + [ALPHABET[digits[n]]]
  {
    hide CharRun;
  }

  lemma {:induction false} LeadingIs(input: seq<nat>, z: nat)
    requires z <= |input| && (forall k :: 0 <= k < z ==> input[k] == 0) && (z < |input| ==> input[z] != 0)
    ensures Leading(input) == z
  {
    if z > 0 { LeadingIs(input[1..], z - 1); }
  }

  // ---------- Reading the text ----------

  predicate InAlphabet(text: string) {
    forall i :: 0 <= i < |text| ==> DigitOf(text[i]) >= 0
  }

  function ReadDigits(text: string): (d: seq<nat>)
    requires InAlphabet(text)
    ensures |d| == |text|
  {
    seq(|text|, i requires 0 <= i < |text| => DigitOf(text[i]))
  }

  /** A reader of base-58 text: a zero byte for every leading digit zero, then the bytes of the number. */
  function Decode(text: string): Option<seq<Byte>> {
    if !InAlphabet(text) then None
    else
      var d := ReadDigits(text);
      DigitsOfAreDigits(Value(d, 58), 256);
      var significant: seq<Byte> := DigitsOf(Value(d, 58), 256);
      Some(seq(Leading(d), _ => 0) + significant)
  }

  lemma DigitIsBounded(c: char)
    ensures DigitOf(c) < 58
  {
  }

  lemma SameDigit(c: char, d: char)
    requires DigitOf(c) == DigitOf(d) >= 0
    ensures c == d
  {
  }

  /** Leading zeroes and value together determine the digits. */
  lemma DigitsOfBoth(s: seq<nat>, t: seq<nat>, b: nat)
    requires b > 1 && Digits(s, b) && Digits(t, b) && Leading(s) == Leading(t) && Value(s, b) == Value(t, b)
    ensures s == t
  {
    hide Value, DigitsOf;
    SignificantDigits(s, b);
    SignificantDigits(t, b);
    var z := Leading(s);
    assert s == s[..z] + s[z..] && t == t[..z] + t[z..];
    assert forall k :: 0 <= k < z ==> s[k] == 0 == t[k];
  }

  lemma SignificantDigits(s: seq<nat>, b: nat)
    requires b > 1 && Digits(s, b)
    ensures DigitsOf(Value(s, b), b) == s[Leading(s)..]
  {
    ZeroesInFront(s, Leading(s), b);
    DigitsOfValue(s[Leading(s)..], b);
  }

  /** Zeroes in front of the digits of a number. */
  lemma ZeroesThenDigits(s: seq<nat>, z: nat, n: nat, b: nat)
    requires b > 1 && z <= |s| && (forall k :: 0 <= k < z ==> s[k] == 0) && s[z..] == DigitsOf(n, b)
    ensures Leading(s) == z && Value(s, b) == n && Digits(s, b)
  {
    hide DigitsOf;
    DigitsOfAreDigits(n, b);
    ValueOfDigits(n, b);
    ZeroesInFront(s, z, b);
    assert z < |s| ==> s[z] == s[z..][0];
    LeadingIs(s, z);
    assert forall i :: z <= i < |s| ==> s[i] == s[z..][i - z];
  }

  /** The text reads as the bytes' number, with one leading digit zero for every leading zero byte. */
  lemma EncodeReads(input: seq<Byte>)
    ensures InAlphabet(Encode(input))
    ensures var d := ReadDigits(Encode(input)); Value(d, 58) == Value(input, 256) && Leading(d) == Leading(input)
  {
    hide Value, DigitsOf, Leading, DigitOf, CharRun;
    var z, n, text := Leading(input), Value(input, 256), Encode(input);
    DigitsOfAreDigits(n, 58);
    var digits := DigitsOf(n, 58);
    AlphabetDigits(0);
    FirstIsOne();
    forall i | 0 <= i < |text|
      ensures DigitOf(text[i]) == if i < z then 0 else digits[i - z]
    {
      if i >= z {
        assert text[i] == ALPHABET[digits[i - z]];
        AlphabetDigits(digits[i - z]);
      }
    }
    var d := ReadDigits(text);
    assert d[z..] == digits;
    ZeroesThenDigits(d, z, n, 58);
  }

  lemma FirstIsOne()
    ensures |ALPHABET| == 58 && ALPHABET[0] == '1'
  {
  }

  /** The text of a byte sequence is the only one that reads so. */
  lemma EncodeIff(input: seq<Byte>, text: string)
    ensures text == Encode(input) <==>
      InAlphabet(text) && Value(ReadDigits(text), 58) == Value(input, 256) &&
        Leading(ReadDigits(text)) == Leading(input)
  {
    hide Value, Leading, DigitOf, Encode;
    EncodeReads(input);
    if InAlphabet(text) && Value(ReadDigits(text), 58) == Value(input, 256) &&
      Leading(ReadDigits(text)) == Leading(input)
    {
      var u := Encode(input);
      forall c
        ensures DigitOf(c) < 58
      {
        DigitIsBounded(c);
      }
      DigitsOfBoth(ReadDigits(text), ReadDigits(u), 58);
      assert |text| == |ReadDigits(text)| == |ReadDigits(u)| == |u|;
      forall i | 0 <= i < |text|
        ensures text[i] == u[i]
      {
        assert ReadDigits(text)[i] == ReadDigits(u)[i];
        SameDigit(text[i], u[i]);
      }
    }
  }

  /** The reader inverts the conversion: a text decodes to a byte sequence if and only if it is its text. */
  lemma DecodeIff(text: string, b: seq<Byte>)
    ensures Decode(text) == Some(b) <==> text == Encode(b)
  {
    hide Value, Leading, Encode, DigitsOf;
    if InAlphabet(text) {
      var d := ReadDigits(text);
      var bytes := Decode(text).value;
      ZeroesThenDigits(bytes, Leading(d), Value(d, 58), 256);
      EncodeIff(bytes, text);
    }
    if text == Encode(b) {
      EncodeIff(b, text);
      DigitsOfBoth(Decode(text).value, b, 256);
    }
  }

  /** Two byte sequences never have the same base-58 text. */
  lemma EncodeIsInjective(a: seq<Byte>, b: seq<Byte>)
    requires Encode(a) == Encode(b)
    ensures a == b
  {
    hide Encode, Decode;
    DecodeIff(Encode(a), a);
    DecodeIff(Encode(a), b);
  }

  /** The text is no longer than the leading zeroes and the buffer. */
  lemma EncodeLength(input: seq<Byte>)
    ensures var z := Leading(input); |Encode(input)| <= z + (|input| - z) * 138 / 100 + 1
  {
    var z := Leading(input);
    var significant: seq<nat> := input[z..];
    ZeroesInFront(input, z, 256);
    ValueBound(significant, 256);
    Fits(|significant|);
    DigitsLength(Value(input, 256), 58, |significant| * 138 / 100 + 1);
  }
}
