/** Numbers written in a base, most significant digit first. */
module Numbers {
  function Pow(b: nat, e: nat): (r: nat)
    ensures b > 0 ==> r > 0
  {
    if e == 0 then 1 else b * Pow(b, e - 1)
  }

  lemma {:induction false} PowAdd(b: nat, d: nat, e: nat)
    ensures Pow(b, d + e) == Pow(b, d) * Pow(b, e)
  {
    if d > 0 {
      PowAdd(b, d - 1, e);
      var u, v, w := Pow(b, d - 1), Pow(b, e), Pow(b, d - 1 + e);
      assert Pow(b, d) == b * u && Pow(b, d + e) == b * w;
      hide Pow;
      assert b * w == b * (u * v) == b * u * v;
    }
  }

  /** The number that a sequence of digits stands for. */
  function Value(s: seq<nat>, b: nat): nat {
    if s == [] then 0 else Value(s[..|s| - 1], b) * b + s[|s| - 1]
  }

  ghost predicate Digits(s: seq<nat>, b: nat) {
    forall i :: 0 <= i < |s| ==> s[i] < b
  }

  lemma {:induction false} ValueConcat(s: seq<nat>, t: seq<nat>, b: nat)
    ensures Value(s + t, b) == Value(s, b) * Pow(b, |t|) + Value(t, b)
  {
    if t == [] {
      assert s + t == s;
    } else {
      var t', d := t[..|t| - 1], t[|t| - 1];
      assert (s + t)[..|s + t| - 1] == s + t';
      ValueConcat(s, t', b);
      assert (Value(s, b) * Pow(b, |t'|) + Value(t', b)) * b == Value(s, b) * (b * Pow(b, |t'|)) + Value(t', b) * b;
    }
  }

  lemma MulMonotone(x: nat, y: nat, b: nat)
    requires x <= y
    ensures x * b <= y * b
  {
    assert (y - x) * b >= 0;
    assert y * b == x * b + (y - x) * b;
  }

  lemma MulNext(x: nat, b: nat)
    ensures (x + 1) * b == x * b + b
  {
  }

  lemma {:induction false} ValueBound(s: seq<nat>, b: nat)
    requires Digits(s, b)
    ensures Value(s, b) < Pow(b, |s|)
  {
    if s != [] {
      var s', d := s[..|s| - 1], s[|s| - 1];
      ValueBound(s', b);
      MulMonotone(Value(s', b) + 1, Pow(b, |s'|), b);
      MulNext(Value(s', b), b);
    }
  }

  lemma {:induction false} ValueOfZeroes(s: seq<nat>, b: nat)
    requires forall i :: 0 <= i < |s| ==> s[i] == 0
    ensures Value(s, b) == 0
  {
    if s != [] { ValueOfZeroes(s[..|s| - 1], b); }
  }

  lemma DivModUnique(b: nat, q: nat, q': nat, r: nat, r': nat)
    requires q * b + r == q' * b + r' && r < b && r' < b
    ensures q == q' && r == r'
  {
    if q < q' {
      MulNext(q, b);
      MulMonotone(q + 1, q', b);
    } else if q' < q {
      MulNext(q', b);
      MulMonotone(q' + 1, q, b);
    }
  }

  /** Digit sequences of one length that stand for the same number are the same. */
  lemma {:induction false} ValueInjective(s: seq<nat>, t: seq<nat>, b: nat)
    requires |s| == |t| && Digits(s, b) && Digits(t, b) && Value(s, b) == Value(t, b)
    ensures s == t
  {
    if s != [] {
      var n := |s| - 1;
      DivModUnique(b, Value(s[..n], b), Value(t[..n], b), s[n], t[n]);
      ValueInjective(s[..n], t[..n], b);
      assert s == s[..n] + [s[n]] && t == t[..n] + [t[n]];
    }
  }

  lemma DivSmaller(n: nat, b: nat)
    requires n > 0 && b > 1
    ensures n / b < n && 0 <= n / b && 0 <= n % b < b && n == n / b * b + n % b
  {
    MulMonotone(2, b, n);
    if n / b >= n {
      MulMonotone(n, n / b, b);
    }
  }

  /** The digits of a number, without leading zeroes. */
  function DigitsOf(n: nat, b: nat): (s: seq<nat>)
    requires b > 1
  {
    if n == 0 then [] else DivSmaller(n, b); DigitsOf(n / b, b) + [n % b]
  }

  lemma DigitsOfStep(q: nat, d: nat, b: nat)
    requires b > 1 && d < b && q * b + d > 0
    ensures DigitsOf(q * b + d, b) == DigitsOf(q, b) + [d]
  {
    var n := q * b + d;
    DivSmaller(n, b);
    DivModUnique(b, q, n / b, d, n % b);
  }

  /** A digit sequence without leading zeroes is that of the number it stands for. */
  lemma {:induction false} DigitsOfValue(s: seq<nat>, b: nat)
    requires b > 1 && Digits(s, b) && (s != [] ==> s[0] != 0)
    ensures DigitsOf(Value(s, b), b) == s
  {
    if s != [] {
      var n := |s| - 1;
      ValuePositive(s, b);
      DigitsOfValue(s[..n], b);
      DigitsOfStep(Value(s[..n], b), s[n], b);
      assert s == s[..n] + [s[n]];
    }
  }

  lemma {:induction false} ValuePositive(s: seq<nat>, b: nat)
    requires b > 1 && s != [] && s[0] != 0
    ensures Value(s, b) > 0
  {
    if |s| > 1 {
      ValuePositive(s[..|s| - 1], b);
      assert Value(s[..|s| - 1], b) * b >= 1;
    }
  }

  lemma {:induction false} ValueOfDigits(n: nat, b: nat)
    requires b > 1
    ensures Value(DigitsOf(n, b), b) == n
    decreases n
  {
    if n > 0 {
      DivSmaller(n, b);
      ValueOfDigits(n / b, b);
      assert (DigitsOf(n / b, b) + [n % b])[..|DigitsOf(n / b, b)|] == DigitsOf(n / b, b);
    }
  }

  lemma {:induction false} DigitsLength(n: nat, b: nat, k: nat)
    requires b > 1 && n < Pow(b, k)
    ensures |DigitsOf(n, b)| <= k
    decreases n
  {
    if n > 0 {
      DivSmaller(n, b);
      if n / b >= Pow(b, k - 1) {
        MulMonotone(Pow(b, k - 1), n / b, b);
      }
      DigitsLength(n / b, b, k - 1);
    }
  }
}
