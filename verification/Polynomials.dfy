/** The field with 32 elements, polynomials over it, and what the packed checksum computes in their terms: the
    remainder modulo the generator of BIP 173. */
module Polynomials {
  import opened Bech32

  // ---------- The field ----------

  /** The product with a, where a^5 is a^3 + 1. */
  function TimesA(u: Group): Group {
    (u << 1) ^ (if u & 16 != 0 then 9 else 0)
  }

  /** The product in the field: u times every power of a that v has. */
  function Multiply(u: Group, v: Group): Group {
    var u1 := TimesA(u);
    var u2 := TimesA(u1);
    var u3 := TimesA(u2);
    var u4 := TimesA(u3);
    (if v & 1 != 0 then u else 0) ^ (if v & 2 != 0 then u1 else 0) ^ (if v & 4 != 0 then u2 else 0)
    ^ (if v & 8 != 0 then u3 else 0) ^ (if v & 16 != 0 then u4 else 0)
  }

  lemma MultiplyOne(u: Group)
    ensures Multiply(u, 1) == u
  {
  }

  /** The product is commutative, and {5} times {26} is {9}. */
  lemma MultiplyCommutes(u: Group, v: Group)
    ensures Multiply(u, v) == Multiply(v, u) && Multiply(5, 26) == 9
  {
  }

  // ---------- Polynomials, the highest coefficient first ----------

  function Scale(u: Group, p: seq<Group>): (r: seq<Group>)
    ensures |r| == |p|
  {
    seq(|p|, i requires 0 <= i < |p| => Multiply(u, p[i]))
  }

  /** x^6 + {29} x^5 + {22} x^4 + {20} x^3 + {21} x^2 + {29} x + {18} */
  const GENERATOR: seq<Group> := [1, 29, 22, 20, 21, 29, 18]

  /** The product with the generator: what the quotient so far gives, times x, and the last coefficient's share. */
  function TimesGenerator(q: seq<Group>): (r: seq<Group>)
    ensures |r| == |q| + 6
  {
    if q == [] then Zeroes(6)
    else
      var n := |q| - 1;
      XorSeq(TimesGenerator(q[..n]) + [0], Zeroes(n) + Scale(q[n], GENERATOR))
  }

  /** The polynomial p is a multiple of the generator plus the remainder r of degree less than six. */
  ghost predicate IsRemainder(p: seq<Group>, r: seq<Group>) {
    |p| >= 6 == |r| && exists q :: |q| == |p| - 6 && p == XorSeq(TimesGenerator(q), Zeroes(|q|) + r)
  }

  // ---------- One round ----------

  lemma TopAndRest(c: bv32, v: Group)
    requires c < 0x40000000
    ensures var low, top := c & 0x1ffffff, (GroupAt(c, 0) as bv32) << 25;
      low < 0x2000000 && Xor(low, top) == c && XorGroup(v, 0) == v
  {
  }

  lemma GroupOfXor(a: bv32, b: bv32, i: nat)
    requires i < 6
    ensures GroupAt(Xor(a, b), i) == XorGroup(GroupAt(a, i), GroupAt(b, i))
  {
    XorHigh(a, b);
    XorMiddle(a, b);
    XorLow(a, b);
    hide GroupAt, Xor, XorGroup;
  }

  lemma XorHigh(a: bv32, b: bv32)
    ensures GroupAt(Xor(a, b), 0) == XorGroup(GroupAt(a, 0), GroupAt(b, 0))
    ensures GroupAt(Xor(a, b), 1) == XorGroup(GroupAt(a, 1), GroupAt(b, 1))
  {
  }

  lemma XorMiddle(a: bv32, b: bv32)
    ensures GroupAt(Xor(a, b), 2) == XorGroup(GroupAt(a, 2), GroupAt(b, 2))
    ensures GroupAt(Xor(a, b), 3) == XorGroup(GroupAt(a, 3), GroupAt(b, 3))
  {
  }

  lemma XorLow(a: bv32, b: bv32)
    ensures GroupAt(Xor(a, b), 4) == XorGroup(GroupAt(a, 4), GroupAt(b, 4))
    ensures GroupAt(Xor(a, b), 5) == XorGroup(GroupAt(a, 5), GroupAt(b, 5))
  {
  }

  lemma GroupOfAppend(c: bv32, v: Group, i: nat)
    requires i < 6 && c < 0x40000000
    ensures GroupAt(Append(c & 0x1ffffff, v), i) == if i < 5 then GroupAt(c, i + 1) else v
  {
    if i == 0 {} else if i == 1 {} else if i == 2 {} else if i == 3 {} else if i == 4 {} else {}
  }

  /** What is left of the top group times x^6: the coefficients of the generator, each times that group. */
  lemma TopReduced(t: Group, i: nat)
    requires i < 6
    ensures GroupAt(Step((t as bv32) << 25, 0), i) == Multiply(t, GENERATOR[i + 1])
  {
    TopReducedHigh(t);
    TopReducedLow(t);
    hide Step, Multiply, GroupAt;
  }

  lemma TopReducedHigh(t: Group)
    ensures var r := Step((t as bv32) << 25, 0);
      GroupAt(r, 0) == Multiply(t, 29) && GroupAt(r, 1) == Multiply(t, 22) && GroupAt(r, 2) == Multiply(t, 20)
  {
  }

  lemma TopReducedLow(t: Group)
    ensures var r := Step((t as bv32) << 25, 0);
      GroupAt(r, 3) == Multiply(t, 21) && GroupAt(r, 4) == Multiply(t, 29) && GroupAt(r, 5) == Multiply(t, 18)
  {
  }

  lemma StepAt(c: bv32, v: Group, i: nat)
    requires c < 0x40000000 && i < 6
    ensures GroupAt(Step(c, v), i) ==
      XorGroup(if i < 5 then GroupAt(c, i + 1) else v, Multiply(GroupAt(c, 0), GENERATOR[i + 1]))
  {
    hide Step, Xor, XorGroup, Append, GroupAt, Multiply;
    var low, top := c & 0x1ffffff, (GroupAt(c, 0) as bv32) << 25;
    TopAndRest(c, v);
    StepIsLinear(low, top, v, 0);
    StepAppends(low, v);
    GroupOfXor(Append(low, v), Step(top, 0), i);
    GroupOfAppend(c, v, i);
    TopReduced(GroupAt(c, 0), i);
  }

  lemma GroupsOf(c: bv32)
    ensures forall i :: 0 <= i < 6 ==> Unpack(c)[i] == GroupAt(c, i)
  {
    forall i | 0 <= i < 6
      ensures Unpack(c)[i] == GroupAt(c, i)
    {
      UnpackIndex(c, i);
    }
  }

  lemma XorTwice(u: Group, v: Group)
    ensures XorGroup(v, XorGroup(u, v)) == u && XorGroup(u, 0) == u && XorGroup(0, u) == u && XorGroup(u, u) == 0
  {
  }

  /** One round: the state times x plus the group is the top group times the generator plus the next state. */
  lemma StepIsDivision(c: bv32, v: Group)
    requires c < 0x40000000
    ensures Unpack(c) + [v] == XorSeq(Scale(Unpack(c)[0], GENERATOR), [0] + Unpack(Step(c, v)))
  {
    hide Step, XorGroup, GroupAt, Multiply, Unpack;
    GroupsOf(c);
    GroupsOf(Step(c, v));
    var t, p, r := GroupAt(c, 0), Unpack(c) + [v], Unpack(Step(c, v));
    MultiplyOne(t);
    XorTwice(t, 0);
    forall i | 0 <= i < 6
      ensures p[i + 1] == XorGroup(Multiply(t, GENERATOR[i + 1]), r[i])
    {
      StepAt(c, v, i);
      XorTwice(p[i + 1], Multiply(t, GENERATOR[i + 1]));
    }
  }

  // ---------- All rounds ----------

  lemma FoldStep(c: bv32, v: seq<Group>)
    requires v != []
    ensures Fold(c, v) == Step(Fold(c, v[..|v| - 1]), v[|v| - 1])
  {
  }

  /** The quotient grows by one coefficient. */
  lemma QuotientGrows(p: seq<Group>, q: seq<Group>, r: seq<Group>, g: Group, r': seq<Group>)
    requires |r| == |r'| == 6 && |p| == |q| + 6 && p == XorSeq(TimesGenerator(q), Zeroes(|q|) + r)
    requires r + [g] == XorSeq(Scale(r[0], GENERATOR), [0] + r')
    ensures p + [g] == XorSeq(TimesGenerator(q + [r[0]]), Zeroes(|q| + 1) + r')
  {
    hide *;
    var n, t, s := |q|, TimesGenerator(q), Scale(r[0], GENERATOR);
    assert |s| == 7 by { SevenCoefficients(r[0]); }
    var u := XorSeq(XorSeq(t + [0], Zeroes(n) + s), Zeroes(n + 1) + r');
    assert XorSeq(TimesGenerator(q + [r[0]]), Zeroes(n + 1) + r') == u by { ProductGrows(q, r[0]); }
    forall i | 0 <= i < n + 7
      ensures (p + [g])[i] == u[i]
    {
      GrownAt(p, t, n, s, r, g, r', i);
    }
  }

  lemma SevenCoefficients(u: Group)
    ensures |Scale(u, GENERATOR)| == 7
  {
  }

  lemma GrownAt(p: seq<Group>, t: seq<Group>, n: nat, s: seq<Group>, r: seq<Group>, g: Group, r': seq<Group>, i: nat)
    requires |t| == |p| == n + 6 && |s| == 7 && |r| == |r'| == 6 && p == XorSeq(t, Zeroes(n) + r)
    requires r + [g] == XorSeq(s, [0] + r') && i < n + 7
    ensures (p + [g])[i] == XorSeq(XorSeq(t + [0], Zeroes(n) + s), Zeroes(n + 1) + r')[i]
  {
    hide XorGroup, XorSeq, Zeroes;
    XorSeqAt(XorSeq(t + [0], Zeroes(n) + s), Zeroes(n + 1) + r', i);
    XorSeqAt(t + [0], Zeroes(n) + s, i);
    if i < n + 6 { XorSeqAt(t, Zeroes(n) + r, i); }
    if i < n { HighCoefficient(t, n, s, r, r', i); } else { LowCoefficient(t, n, s, r, g, r', i - n); }
  }

  lemma HighCoefficient(t: seq<Group>, n: nat, s: seq<Group>, r: seq<Group>, r': seq<Group>, i: nat)
    requires |t| == n + 6 && |s| == 7 && |r| == |r'| == 6 && i < n
    ensures XorGroup(XorGroup((t + [0])[i], (Zeroes(n) + s)[i]), (Zeroes(n + 1) + r')[i])
      == XorGroup(t[i], (Zeroes(n) + r)[i])
  {
    hide XorGroup;
    XorTwice(t[i], 0);
  }

  lemma LowCoefficient(t: seq<Group>, n: nat, s: seq<Group>, r: seq<Group>, g: Group, r': seq<Group>, j: nat)
    requires |t| == n + 6 && |s| == 7 && |r| == |r'| == 6 && j < 7 && r + [g] == XorSeq(s, [0] + r')
    ensures XorGroup(XorGroup((t + [0])[n + j], (Zeroes(n) + s)[n + j]), (Zeroes(n + 1) + r')[n + j])
      == if j < 6 then XorGroup(t[n + j], (Zeroes(n) + r)[n + j]) else g
  {
    hide XorGroup, XorSeq;
    XorSeqAt(s, [0] + r', j);
    var u, w := (t + [0])[n + j], ([0] + r')[j];
    assert (Zeroes(n + 1) + r')[n + j] == w;
    XorRegroups(u, s[j], w);
    XorTwice(g, 0);
  }

  lemma XorRegroups(u: Group, v: Group, w: Group)
    ensures XorGroup(XorGroup(u, v), w) == XorGroup(u, XorGroup(v, w))
  {
  }

  lemma ProductGrows(q: seq<Group>, g: Group)
    ensures TimesGenerator(q + [g]) == XorSeq(TimesGenerator(q) + [0], Zeroes(|q|) + Scale(g, GENERATOR))
  {
    assert (q + [g])[..|q|] == q;
  }

  lemma ZeroAt(n: nat)
    ensures forall i :: 0 <= i < n ==> Zeroes(n)[i] == 0
  {
  }

  lemma {:induction false} FoldDivides(c: bv32, v: seq<Group>)
    requires c < 0x40000000
    ensures IsRemainder(Unpack(c) + v, Unpack(Fold(c, v)))
  {
    hide Step, Unpack, Fold, Scale, IsRemainder, TimesGenerator, XorSeq, Zeroes;
    if v == [] {
      FoldNone(c);
      NoQuotient(Unpack(c));
      assert Unpack(c) + v == Unpack(c);
    } else {
      var n := |v| - 1;
      FoldDivides(c, v[..n]);
      FoldStays(c, v[..n]);
      FoldStep(c, v);
      var s := Fold(c, v[..n]);
      StepIsDivision(s, v[n]);
      RemainderGrows(Unpack(c) + v[..n], Unpack(s), v[n], Unpack(Fold(c, v)));
      assert Unpack(c) + v == Unpack(c) + v[..n] + [v[n]];
    }
  }

  lemma RemainderGrows(p: seq<Group>, r: seq<Group>, g: Group, r': seq<Group>)
    requires IsRemainder(p, r) && |r| == |r'| == 6 && r + [g] == XorSeq(Scale(r[0], GENERATOR), [0] + r')
    ensures IsRemainder(p + [g], r')
  {
    hide XorSeq, Scale, TimesGenerator, Zeroes;
    var q :| |q| == |p| - 6 && p == XorSeq(TimesGenerator(q), Zeroes(|q|) + r);
    QuotientGrows(p, q, r, g, r');
    assert |q + [r[0]]| == |p + [g]| - 6;
  }

  lemma FoldNone(c: bv32)
    ensures Fold(c, []) == c
  {
  }

  lemma NoQuotient(r: seq<Group>)
    requires |r| == 6
    ensures IsRemainder(r, r)
  {
    hide XorGroup;
    forall i | 0 <= i < 6
      ensures XorGroup(0, r[i]) == r[i]
    {
      XorTwice(r[i], 0);
    }
    ZeroAt(6);
    var q: seq<Group> := [];
    assert r == XorSeq(TimesGenerator(q), Zeroes(|q|) + r);
  }

  // ---------- One remainder for each polynomial ----------

  lemma XorCancel(t: Group, u: Group, v: Group)
    requires XorGroup(t, u) == XorGroup(t, v)
    ensures u == v
  {
    assert XorGroup(t, XorGroup(t, u)) == u;
    assert XorGroup(t, XorGroup(t, v)) == v;
  }

  /** The first coefficients of the product do not depend on the later ones of the quotient. */
  lemma ProductAt(q: seq<Group>, g: Group, j: nat)
    requires j <= |q|
    ensures var t := TimesGenerator(q);
      TimesGenerator(q + [g])[j] == if j < |q| then t[j] else XorGroup((t + [0])[|q|], g)
  {
    hide *;
    ProductGrows(q, g);
    SumAt(TimesGenerator(q), g, |q|, j);
  }

  lemma SumAt(t: seq<Group>, g: Group, n: nat, j: nat)
    requires |t| == n + 6 && j <= n
    ensures XorSeq(t + [0], Zeroes(n) + Scale(g, GENERATOR))[j] == if j < n then t[j] else XorGroup((t + [0])[n], g)
  {
    hide XorGroup, XorSeq, Zeroes, Scale;
    var s := Scale(g, GENERATOR);
    XorSeqAt(t + [0], Zeroes(n) + s, j);
    if j < n {
      ZeroAt(n);
      XorTwice(t[j], 0);
    } else {
      FirstScaled(g);
    }
  }

  lemma XorSeqAt(u: seq<Group>, v: seq<Group>, i: nat)
    requires i < |u| == |v|
    ensures XorSeq(u, v)[i] == XorGroup(u[i], v[i])
  {
  }

  lemma FirstScaled(g: Group)
    ensures Scale(g, GENERATOR)[0] == g
  {
    MultiplyOne(g);
  }

  lemma {:induction false} QuotientIsUnique(q: seq<Group>, q': seq<Group>)
    requires |q| == |q'| && forall j :: 0 <= j < |q| ==> TimesGenerator(q)[j] == TimesGenerator(q')[j]
    ensures q == q'
  {
    hide TimesGenerator, XorGroup;
    if q != [] {
      var n := |q| - 1;
      var p, p', g, g' := q[..n], q'[..n], q[n], q'[n];
      assert q == p + [g] && q' == p' + [g'];
      forall j | 0 <= j < n
        ensures TimesGenerator(p)[j] == TimesGenerator(p')[j]
      {
        ProductAt(p, g, j);
        ProductAt(p', g', j);
      }
      QuotientIsUnique(p, p');
      ProductAt(p, g, n);
      ProductAt(p', g', n);
      XorCancel((TimesGenerator(p) + [0])[n], g, g');
    }
  }

  lemma RemainderIsUnique(p: seq<Group>, r: seq<Group>, r': seq<Group>)
    requires IsRemainder(p, r) && IsRemainder(p, r')
    ensures r == r'
  {
    hide TimesGenerator, XorGroup, XorSeq, Zeroes;
    var q :| |q| == |p| - 6 && p == XorSeq(TimesGenerator(q), Zeroes(|q|) + r);
    var q' :| |q'| == |p| - 6 && p == XorSeq(TimesGenerator(q'), Zeroes(|q'|) + r');
    ZeroAt(|q|);
    forall j | 0 <= j < |q|
      ensures TimesGenerator(q)[j] == TimesGenerator(q')[j] == p[j]
    {
      XorSeqAt(TimesGenerator(q), Zeroes(|q|) + r, j);
      XorSeqAt(TimesGenerator(q'), Zeroes(|q|) + r', j);
      XorTwice(TimesGenerator(q)[j], 0);
      XorTwice(TimesGenerator(q')[j], 0);
    }
    QuotientIsUnique(q, q');
    forall i | 0 <= i < 6
      ensures r[i] == r'[i]
    {
      var t := TimesGenerator(q)[|q| + i];
      XorSeqAt(TimesGenerator(q), Zeroes(|q|) + r, |q| + i);
      XorSeqAt(TimesGenerator(q), Zeroes(|q|) + r', |q| + i);
      XorCancel(t, r[i], r'[i]);
    }
  }

  /** The polynomial 1. */
  const ONE: seq<Group> := [0, 0, 0, 0, 0, 1]

  lemma UnpackOne()
    ensures Unpack(1) == ONE
  {
  }

  /** The packed checksum of a list of groups is the remainder of the polynomial with a 1 in front of them, and no
      other six groups are. */
  lemma PolyModIff(v: seq<Group>, r: seq<Group>)
    ensures IsRemainder(ONE + v, r) <==> r == Unpack(Fold(1, v))
  {
    hide Fold, Unpack, IsRemainder;
    UnpackOne();
    FoldDivides(1, v);
    if IsRemainder(ONE + v, r) { RemainderIsUnique(ONE + v, r, Unpack(Fold(1, v))); }
  }

  /** A data part passes exactly when the remainder of it all, behind the expanded readable part, is 1. */
  lemma PassesIff(hrp: string, values: seq<Group>)
    ensures Passes(hrp, values) <==> IsRemainder(ONE + (ExpandedHRP(hrp) + values), ONE)
  {
    hide Fold, Word, Unpack, IsRemainder, ExpandedHRP;
    var v := ExpandedHRP(hrp) + values;
    PolyModIff(v, ONE);
    UnpackOne();
    FoldStays(1, v);
    UnpackWord(Fold(1, v));
    UnpackWord(1);
  }
}
