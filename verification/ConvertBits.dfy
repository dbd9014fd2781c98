/** The bit regrouping of utility.cpp: groups of one width in, groups of another width out, through
    a masked accumulator. Shifts and masks are written as products and remainders of powers of two. */
module ConvertBits {
  import opened Numbers

  function Two(n: nat): (r: nat)
    ensures r >= 1
  {
    Pow(2, n)
  }

  lemma TwoAdd(m: nat, n: nat)
    ensures Two(m + n) == Two(m) * Two(n)
  {
    PowAdd(2, m, n);
  }

  lemma DivMod(x: nat, b: nat)
    requires b >= 1
    ensures x == x / b * b + x % b && 0 <= x % b < b && x / b >= 0
  {
  }

  lemma ModIs(x: nat, b: nat, q: nat, r: nat)
    requires b >= 1 && x == q * b + r && r < b
    ensures x / b == q && x % b == r
  {
    DivMod(x, b);
    DivModUnique(b, q, x / b, r, x % b);
  }

  lemma TwoSteps(p: nat, q: nat, a: nat, b: nat, l: nat)
    requires b < p && l < q
    ensures (a * p + b) * q + l == a * (p * q) + (b * q + l) && b * q + l < p * q
  {
    MulNext(b, q);
    MulMonotone(b + 1, p, q);
    assert (a * p + b) * q == a * p * q + b * q == a * (p * q) + b * q;
  }

  /** The last bits of a number, cut off in two steps. */
  lemma ModSplit(x: nat, p: nat, q: nat)
    requires p >= 1 && q >= 1
    ensures p * q >= 1 && x % (p * q) == x / q % p * q + x % q
    ensures x % (p * q) % q == x % q
  {
    var h, l := x / q, x % q;
    var a, b := h / p, h % p;
    DivMod(x, q);
    DivMod(h, p);
    TwoSteps(p, q, a, b, l);
    ModIs(x, p * q, a, b * q + l);
    ModIs(b * q + l, q, b, l);
  }

  /** The mask keeps every pending bit: what is pending after a group is shifted in is what was pending
      before, followed by the group. */
  lemma MaskKeepsPending(acc: nat, value: nat, from: nat, to: nat, bits: nat)
    requires from >= 1 && bits < to && value < Two(from)
    ensures (acc * Two(from) + value) % Two(from + to - 1) % Two(bits + from) == acc % Two(bits) * Two(from) + value
  {
    var x := acc * Two(from) + value;
    TwoAdd(to - 1 - bits, bits + from);
    ModSplit(x, Two(to - 1 - bits), Two(bits + from));
    TwoAdd(bits, from);
    ModSplit(x, Two(bits), Two(from));
    DivMod(x, Two(from));
    DivModUnique(Two(from), acc, x / Two(from), value, x % Two(from));
  }

  /** The groups written so far and the pending bits, read as one number, are the groups read so far. */
  ghost predicate Carried(input: seq<nat>, i: nat, from: nat, to: nat, out: seq<nat>, acc: nat, bits: nat) {
    && i <= |input|
    && to * |out| + bits == from * i
    && Digits(out, Two(to))
    && Value(out, Two(to)) * Two(bits) + acc % Two(bits) == Value(input[..i], Two(from))
  }

  lemma ValueAppend(out: seq<nat>, d: nat, b: nat)
    ensures Value(out + [d], b) == Value(out, b) * b + d
    ensures Digits(out, b) && d < b ==> Digits(out + [d], b)
  {
    assert (out + [d])[..|out|] == out;
  }

  lemma Spread(v: nat, p: nat, q: nat, d: nat)
    ensures (v * p + d) * q == v * (p * q) + d * q
  {
    assert v * p * q == v * (p * q);
  }

  lemma ShiftIn(input: seq<nat>, i: nat, from: nat, to: nat, out: seq<nat>, acc: nat, bits: nat)
    requires from >= 1 && Carried(input, i, from, to, out, acc, bits) && bits < to && i < |input| &&
      input[i] < Two(from)
    ensures Carried(input, i + 1, from, to, out, (acc * Two(from) + input[i]) % Two(from + to - 1), bits + from)
  {
    hide Value, Two, Digits;
    var v := Value(out, Two(to));
    MaskKeepsPending(acc, input[i], from, to, bits);
    TwoAdd(bits, from);
    assert input[..i + 1] == input[..i] + [input[i]];
    ValueAppend(input[..i], input[i], Two(from));
    Spread(v, Two(bits), Two(from), acc % Two(bits));
    assert from * (i + 1) == from * i + from;
  }

  lemma PushOut(input: seq<nat>, i: nat, from: nat, to: nat, out: seq<nat>, acc: nat, bits: nat)
    requires to >= 1 && Carried(input, i, from, to, out, acc, bits) && bits >= to
    ensures Carried(input, i, from, to, out + [acc / Two(bits - to) % Two(to)], acc, bits - to)
  {
    hide Value, Two;
    var b, v := bits - to, Value(out, Two(to));
    var d := acc / Two(b) % Two(to);
    TwoAdd(to, b);
    ModSplit(acc, Two(to), Two(b));
    ValueAppend(out, d, Two(to));
    Spread(v, Two(to), Two(b), d);
    assert to * |out + [d]| == to * |out| + to;
  }

  function BitCount(input: seq<nat>, from: nat): nat {
    from * |input|
  }

  /** Padded output: the bits of the input, filled up with zero bits to whole groups, as few as possible. */
  ghost predicate Padded(input: seq<nat>, from: nat, to: nat, out: seq<nat>)
    requires to >= 1
  {
    && Digits(out, Two(to))
    && BitCount(input, from) <= BitCount(out, to) < BitCount(input, from) + to
    && Value(out, Two(to)) == Value(input, Two(from)) * Two(BitCount(out, to) - BitCount(input, from))
  }

  /** Unpadded output: all whole groups; the rest must be shorter than an input group and all zero. */
  ghost predicate Unpadded(input: seq<nat>, from: nat, to: nat, ok: bool, out: seq<nat>)
    requires to >= 1
  {
    && Digits(out, Two(to))
    && BitCount(out, to) <= BitCount(input, from) < BitCount(out, to) + to
    && var rest := BitCount(input, from) - BitCount(out, to);
       && Value(out, Two(to)) == Value(input, Two(from)) / Two(rest)
       && (ok <==> rest < from && Value(input, Two(from)) % Two(rest) == 0)
  }

  lemma FinishPadded(input: seq<nat>, from: nat, to: nat, out: seq<nat>, acc: nat, bits: nat)
    requires to >= 1 && Carried(input, |input|, from, to, out, acc, bits) && bits < to
    ensures Padded(input, from, to, if bits > 0 then out + [acc * Two(to - bits) % Two(to)] else out)
  {
    hide Value, Two;
    assert input[..|input|] == input;
    var v, k := Value(out, Two(to)), to - bits;
    if bits == 0 {
      TwoZero();
    } else {
      var p, d := acc % Two(bits), acc * Two(k) % Two(to);
      PadDigit(acc, bits, k);
      ValueAppend(out, d, Two(to));
      Spread(v, Two(bits), Two(k), p);
      assert to * |out + [d]| == to * |out| + to;
    }
  }

  lemma TwoZero()
    ensures Two(0) == 1
  {
  }

  /** The last digit: the pending bits, moved to the top of their group. */
  lemma PadDigit(acc: nat, bits: nat, k: nat)
    ensures Two(bits) * Two(k) == Two(bits + k)
    ensures acc * Two(k) % Two(bits + k) == acc % Two(bits) * Two(k)
  {
    hide Two;
    TwoAdd(bits, k);
    DivMod(acc, Two(bits));
    var a, p := acc / Two(bits), acc % Two(bits);
    Spread(a, Two(bits), Two(k), p);
    MulMonotone(p + 1, Two(bits), Two(k));
    MulNext(p, Two(k));
    ModIs(acc * Two(k), Two(bits + k), a, p * Two(k));
  }

  lemma FinishUnpadded(input: seq<nat>, from: nat, to: nat, out: seq<nat>, acc: nat, bits: nat)
    requires to >= 1 && Carried(input, |input|, from, to, out, acc, bits) && bits < to
    ensures Unpadded(input, from, to, bits < from && acc * Two(to - bits) % Two(to) == 0, out)
  {
    hide Value, Two;
    assert input[..|input|] == input;
    var p := acc % Two(bits);
    PadDigit(acc, bits, to - bits);
    DivMod(acc, Two(bits));
    ModIs(Value(input, Two(from)), Two(bits), Value(out, Two(to)), p);
    if p > 0 { MulMonotone(1, p, Two(to - bits)); }
  }

  /** The conversion appends its groups to what out0 holds already. */
  method ConvertBits(out0: seq<nat>, input: seq<nat>, frombits: nat, tobits: nat, pad: bool)
    returns (ok: bool, out: seq<nat>)
    requires frombits >= 1 && tobits >= 1 && Digits(input, Two(frombits))
    ensures out0 <= out
    ensures pad ==> ok && Padded(input, frombits, tobits, out[|out0|..])
    ensures !pad ==> Unpadded(input, frombits, tobits, ok, out[|out0|..])
  {
    hide Carried, Padded, Unpadded, Two;
    out := out0;
    ghost var groups: seq<nat> := [];
    var acc: nat, bits: nat := 0, 0;
    NothingCarried(input, frombits, tobits);
    for i := 0 to |input|
      invariant out == out0 + groups && bits < tobits
      invariant Carried(input, i, frombits, tobits, groups, acc, bits)
    {
      ShiftIn(input, i, frombits, tobits, groups, acc, bits);
      acc := (acc * Two(frombits) + input[i]) % Two(frombits + tobits - 1);
      bits := bits + frombits;
      while bits >= tobits
        invariant out == out0 + groups
        invariant Carried(input, i + 1, frombits, tobits, groups, acc, bits)
      {
        PushOut(input, i + 1, frombits, tobits, groups, acc, bits);
        bits := bits - tobits;
        out := out + [acc / Two(bits) % Two(tobits)];
        groups := groups + [acc / Two(bits) % Two(tobits)];
      }
    }
    FinishPadded(input, frombits, tobits, groups, acc, bits);
    FinishUnpadded(input, frombits, tobits, groups, acc, bits);
    if pad {
      if bits > 0 {
        out := out + [acc * Two(tobits - bits) % Two(tobits)];
        groups := groups + [acc * Two(tobits - bits) % Two(tobits)];
      }
    } else if bits >= frombits || acc * Two(tobits - bits) % Two(tobits) != 0 {
      assert out[|out0|..] == groups;
      return false, out;
    }
    assert out[|out0|..] == groups;
    ok := true;
  }

  lemma NothingCarried(input: seq<nat>, from: nat, to: nat)
    ensures Carried(input, 0, from, to, [], 0, 0)
  {
    assert input[..0] == [];
  }

  // ---------- There and back ----------

  /** Regrouping into narrower groups with padding, and back without, succeeds and is the identity. */
  lemma RoundTrip(x: seq<nat>, f: nat, t: nat, g: seq<nat>, ok: bool, y: seq<nat>)
    requires 1 <= t <= f && Digits(x, Two(f)) && Padded(x, f, t, g) && Unpadded(g, t, f, ok, y)
    ensures ok && y == x
  {
    var rest := BitCount(g, t) - BitCount(x, f);
    var vx := Value(x, Two(f));
    assert f * |x| + rest == f * |y| + (BitCount(g, t) - BitCount(y, f));
    assert |x| * f == f * |x| && |y| * f == f * |y|;
    DivModUnique(f, |x|, |y|, rest, BitCount(g, t) - BitCount(y, f));
    DivMod(vx * Two(rest), Two(rest));
    DivModUnique(Two(rest), vx, vx * Two(rest) / Two(rest), 0, vx * Two(rest) % Two(rest));
    ValueInjective(x, y, Two(f));
  }

  /** The padded form is determined by the input. */
  lemma PaddedIsUnique(x: seq<nat>, f: nat, t: nat, g: seq<nat>, h: seq<nat>)
    requires t >= 1 && Padded(x, f, t, g) && Padded(x, f, t, h)
    ensures g == h
  {
    var a, b := BitCount(g, t) - BitCount(x, f), BitCount(h, t) - BitCount(x, f);
    assert |g| * t == t * |g| && |h| * t == t * |h|;
    MulNext(|g|, t);
    MulNext(|h|, t);
    if |g| < |h| { MulMonotone(|g| + 1, |h|, t); }
    if |h| < |g| { MulMonotone(|h| + 1, |g|, t); }
    ValueInjective(g, h, Two(t));
  }

  /** The way back accepts exactly the padded forms: it succeeds if and only if regrouping its result gives the groups
      that it was given. */
  lemma AcceptedIff(g: seq<nat>, f: nat, t: nat, ok: bool, y: seq<nat>, h: seq<nat>)
    requires 1 <= t <= f && Digits(g, Two(t))
    requires Unpadded(g, t, f, ok, y) && Padded(y, f, t, h)
    ensures ok <==> h == g
  {
    if ok {
      var rest := BitCount(g, t) - BitCount(y, f);
      DivMod(Value(g, Two(t)), Two(rest));
      PaddedIsUnique(y, f, t, g, h);
    }
    if h == g {
      RoundTrip(y, f, t, g, ok, y);
    }
  }

  /** Eight bits to five: ceil(8n/5) groups. */
  lemma PaddedLength(x: seq<nat>, g: seq<nat>)
    requires Padded(x, 8, 5, g)
    ensures |g| == (8 * |x| + 4) / 5
  {
  }
}
