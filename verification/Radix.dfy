/** Powers, and numbers written in a positional system. */
module Radix {
  lemma DivisionIsUnique(v: int, m: int, q: int, r: int)
    requires m > 0 && 0 <= r < m && v == q * m + r
    ensures v / m == q && v % m == r
  {
    var dq := v / m - q;
    assert dq * m == r - v % m;
    MultipleIsLarge(dq, m);
  }

  lemma MultipleIsLarge(k: int, m: int)
    requires m > 0
    ensures k >= 1 ==> k * m >= m
    ensures k <= -1 ==> k * m <= -m
  {
  }

  lemma Together(q: nat, r: nat, m: nat, p: nat, d: nat)
    requires r < p && d < m
    ensures (q * p + r) * m + d == q * (m * p) + (m * r + d) && m * r + d < m * p
  {
    assert m * (r + 1) <= m * p;
  }

  /** Dividing by `m * p` is dividing by `m` first. */
  lemma DivisionSteps(n: nat, m: nat, p: nat)
    requires m > 0 && p > 0
    ensures m * p > 0 && n / (m * p) == n / m / p
  {
    Rejoined(n, m);
    Rejoined(n / m, p);
    Together(n / m / p, n / m % p, m, p, n % m);
    DivisionIsUnique(n, m * p, n / m / p, m * (n / m % p) + n % m);
  }

  function Pow(b: nat, n: nat): (p: nat)
    ensures b > 0 ==> p > 0
  {
    if n == 0 then 1 else b * Pow(b, n - 1)
  }

  lemma PowStep(b: nat, n: nat)
    ensures Pow(b, 0) == 1 && Pow(b, n + 1) == b * Pow(b, n)
  {
  }

  lemma Swap(a: nat, b: nat, c: nat)
    ensures a * (b * c) == b * (a * c)
  {
  }

  lemma AtLeastOnce(b: nat, p: nat)
    requires b > 0
    ensures p <= b * p
    ensures b > 1 && p > 0 ==> p < b * p
  {
  }

  lemma {:induction false} PowAdd(b: nat, m: nat, n: nat)
    ensures Pow(b, m + n) == Pow(b, m) * Pow(b, n)
  {
    hide Pow;
    if n == 0 {
      PowStep(b, 0);
    } else {
      PowAdd(b, m, n - 1);
      PowStep(b, n - 1);
      PowStep(b, m + n - 1);
      Swap(Pow(b, m), b, Pow(b, n - 1));
    }
  }

  lemma {:induction false} PowMonotonic(b: nat, m: nat, n: nat)
    requires b > 0 && m <= n
    ensures Pow(b, m) <= Pow(b, n)
  {
    hide Pow;
    if m < n {
      PowMonotonic(b, m, n - 1);
      PowStep(b, n - 1);
      AtLeastOnce(b, Pow(b, n - 1));
    }
  }

  lemma PowStrict(b: nat, m: nat, n: nat)
    requires b > 1 && m < n
    ensures Pow(b, m) < Pow(b, n)
  {
    hide Pow;
    PowMonotonic(b, m, n - 1);
    PowStep(b, n - 1);
    AtLeastOnce(b, Pow(b, n - 1));
  }

  /** The smaller of two powers of one base has the smaller exponent. */
  lemma PowReflects(b: nat, m: nat, n: nat)
    requires b > 0 && Pow(b, m) < Pow(b, n)
    ensures m < n
  {
    if m >= n {
      PowMonotonic(b, n, m);
    }
  }

  /** The number that the digits `s` spell in base `b`, most significant digit first. */
  function Value(s: seq<nat>, b: nat): nat {
    if s == [] then 0 else Value(s[..|s| - 1], b) * b + s[|s| - 1]
  }

  ghost predicate DigitsBelow(s: seq<nat>, b: nat) {
    forall i :: 0 <= i < |s| ==> s[i] < b
  }

  /** The digits of `n` in base `b`, none for zero. */
  function ToBase(n: nat, b: nat): (s: seq<nat>)
    requires b >= 2
    ensures DigitsBelow(s, b)
    ensures s != [] ==> s[0] != 0
    ensures s == [] <==> n == 0
  {
    if n == 0 then [] else
    assert n / b < n by { Shrinks(n, b); }
    ToBase(n / b, b) + [n % b]
  }

  lemma Shrinks(n: nat, b: nat)
    requires n > 0 && b >= 2
    ensures n / b < n
  {
    Rejoined(n, b);
    AtLeastTwice(n / b, b);
  }

  lemma AtLeastTwice(q: nat, b: nat)
    requires b >= 2
    ensures q * b >= 2 * q
  {
  }

  lemma Rejoined(n: nat, b: nat)
    requires b > 0
    ensures (n / b) * b + n % b == n
  {
  }

  lemma {:induction false} ReadBack(n: nat, b: nat)
    requires b >= 2
    ensures Value(ToBase(n, b), b) == n
  {
    if n > 0 {
      Shrinks(n, b);
      ReadBack(n / b, b);
      var s := ToBase(n / b, b);
      assert (s + [n % b])[..|s|] == s;
      Rejoined(n, b);
    }
  }

  /** Without leading zeros there is one way to write a number. */
  lemma {:induction false} Canonical(s: seq<nat>, b: nat)
    requires b >= 2 && DigitsBelow(s, b)
    requires s != [] ==> s[0] != 0
    ensures ToBase(Value(s, b), b) == s
  {
    if s != [] {
      var t, d := s[..|s| - 1], s[|s| - 1];
      Canonical(t, b);
      var v := Value(t, b);
      QuotientOf(v, b, d);
      if v == 0 {
        assert t == [];
        assert s == [d];
        assert v * b == 0;
      } else {
        MulAtLeast(v, b);
      }
      assert s == t + [d];
    }
  }

  lemma MulAtLeast(v: nat, b: nat)
    requires v > 0
    ensures v * b >= b
  {
  }

  lemma QuotientOf(v: nat, b: nat, d: nat)
    requires d < b
    ensures (v * b + d) / b == v && (v * b + d) % b == d
  {
    DivisionIsUnique(v * b + d, b, v, d);
  }

  /** Digit `k` from the right of a number in base `b`. */
  lemma {:induction false} DigitAt(s: seq<nat>, b: nat, k: nat)
    requires b > 0 && DigitsBelow(s, b) && k < |s|
    ensures Value(s, b) / Pow(b, k) % b == s[|s| - 1 - k]
  {
    var t := s[..|s| - 1];
    QuotientOf(Value(t, b), b, s[|s| - 1]);
    if k > 0 {
      DigitAt(t, b, k - 1);
      DivisionSteps(Value(s, b), b, Pow(b, k - 1));
    }
  }

  lemma ScaledBelow(v: nat, b: nat, p: nat, d: nat)
    requires v < p && d < b
    ensures v * b + d < b * p
  {
    assert (v + 1) * b <= p * b;
  }

  lemma {:induction false} ValueBelow(s: seq<nat>, b: nat)
    requires b > 0 && DigitsBelow(s, b)
    ensures Value(s, b) < Pow(b, |s|)
  {
    if s != [] {
      var t := s[..|s| - 1];
      ValueBelow(t, b);
      ScaledBelow(Value(t, b), b, Pow(b, |t|), s[|s| - 1]);
    }
  }

  lemma Shifted(v: nat, p: nat, w: nat, b: nat, d: nat)
    ensures (v * p + w) * b + d == v * (b * p) + (w * b + d)
  {
  }

  lemma {:induction false} ValueConcat(s: seq<nat>, t: seq<nat>, b: nat)
    ensures Value(s + t, b) == Value(s, b) * Pow(b, |t|) + Value(t, b)
  {
    hide Pow;
    if t == [] {
      assert s + t == s;
      PowStep(b, 0);
    } else {
      var u, d := t[..|t| - 1], t[|t| - 1];
      ValueConcat(s, u, b);
      assert (s + t)[..|s + t| - 1] == s + u;
      PowStep(b, |u|);
      Shifted(Value(s, b), Pow(b, |u|), Value(u, b), b, d);
    }
  }

  lemma {:induction false} ValueOfZeros(s: seq<nat>, b: nat)
    requires forall i :: 0 <= i < |s| ==> s[i] == 0
    ensures Value(s, b) == 0
  {
    if s != [] {
      ValueOfZeros(s[..|s| - 1], b);
    }
  }

  /** How many digits a number has is decided by the powers around it. */
  lemma DigitCount(n: nat, b: nat, k: nat)
    requires b >= 2 && n < Pow(b, k)
    ensures |ToBase(n, b)| <= k
  {
    var s := ToBase(n, b);
    ReadBack(n, b);
    if s != [] {
      LeadingDigit(s, b);
      PowReflects(b, |s| - 1, k);
    }
  }

  lemma DigitCountAtLeast(n: nat, b: nat, k: nat)
    requires b >= 2 && Pow(b, k) <= n
    ensures |ToBase(n, b)| > k
  {
    var s := ToBase(n, b);
    ReadBack(n, b);
    ValueBelow(s, b);
    PowReflects(b, k, |s|);
  }

  lemma LeadingDigit(s: seq<nat>, b: nat)
    requires b > 0 && s != [] && s[0] != 0
    ensures Pow(b, |s| - 1) <= Value(s, b)
  {
    assert s == s[..1] + s[1..];
    ValueConcat(s[..1], s[1..], b);
    assert Value(s[..1], b) == s[0];
    var p := Pow(b, |s| - 1);
    MulAtLeast(s[0], p);
  }

  lemma LeadingZerosAdd(s: seq<nat>, j: nat, b: nat)
    requires j <= |s| && forall i :: 0 <= i < j ==> s[i] == 0
    ensures Value(s, b) == Value(s[j..], b)
  {
    assert s == s[..j] + s[j..];
    ValueConcat(s[..j], s[j..], b);
    ValueOfZeros(s[..j], b);
  }
}
