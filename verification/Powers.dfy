/** Powers of two, bit lengths and bitwise `or` on natural numbers. */
module Powers {
  import opened Radix

  function Pow2(n: nat): (p: nat)
    ensures p > 0
  {
    Pow(2, n)
  }

  /** `n` moved up by `k` bits, and down by `k` bits. */
  ghost function LeftBy(n: nat, k: nat): nat { n * Pow2(k) }
  ghost function RightBy(n: nat, k: nat): nat { n / Pow2(k) }

  lemma ByOneBit(n: nat)
    ensures RightBy(n, 1) == n / 2
    ensures LeftBy(n, 0) == n && RightBy(n, 0) == n
  {
    Pow2Small();
  }

  lemma {:induction false} Pow2Add(m: nat, n: nat)
    ensures Pow2(m + n) == Pow2(m) * Pow2(n)
  {
    if n > 0 {
      Pow2Add(m, n - 1);
      assert Pow2(m + n) == 2 * Pow2(m + n - 1);
    }
  }

  lemma {:induction false} Pow2Monotonic(m: nat, n: nat)
    requires m <= n
    ensures Pow2(m) <= Pow2(n)
  {
    if m < n {
      Pow2Monotonic(m, n - 1);
    }
  }

  lemma Pow2Word()
    ensures Pow2(32) == 0x1_0000_0000
    ensures Pow2(64) == 0x1_0000_0000_0000_0000
  {
    Pow2Small();
    hide Pow2;
    Pow2Add(2, 2);
    Pow2Add(4, 4);
    Pow2Add(8, 8);
    Pow2Add(16, 16);
    Pow2Add(32, 32);
  }

  lemma Pow2Small()
    ensures Pow2(0) == 1 && Pow2(1) == 2 && Pow2(2) == 4
  {
  }

  lemma Pow2Wide()
    ensures Pow2(64) == 0x1_0000_0000_0000_0000
    ensures Pow2(128) == 0x1_0000_0000_0000_0000 * 0x1_0000_0000_0000_0000
    ensures Pow2(256) == Pow2(128) * Pow2(128)
  {
    Pow2Word();
    Pow2Add(64, 64);
    Pow2Add(128, 128);
  }

  function BitLength(n: nat): nat {
    if n == 0 then 0 else 1 + BitLength(n / 2)
  }

  lemma {:induction false} BitLengthBounds(n: nat)
    requires n > 0
    ensures BitLength(n) > 0
    ensures Pow2(BitLength(n) - 1) <= n < Pow2(BitLength(n))
  {
    if n > 1 {
      BitLengthBounds(n / 2);
    }
  }

  lemma {:induction false} BitLengthFits(n: nat, k: nat)
    requires n < Pow2(k)
    ensures BitLength(n) <= k
  {
    if n > 0 {
      BitLengthFits(n / 2, k - 1);
    }
  }

  /** The bit length of a number is that of its upper part, moved up. */
  lemma {:induction false} BitLengthSplit(hi: nat, lo: nat, k: nat)
    requires hi > 0 && lo < Pow2(k)
    ensures BitLength(hi * Pow2(k) + lo) == k + BitLength(hi)
  {
    if k > 0 {
      var n, x := hi * Pow2(k) + lo, hi * Pow2(k - 1);
      Doubled(hi, Pow2(k - 1));
      assert n == 2 * x + lo && n / 2 == x + lo / 2;
      BitLengthSplit(hi, lo / 2, k - 1);
      assert n > 0 by { MulPositive(hi, Pow2(k)); }
    }
  }

  lemma Doubled(a: nat, b: nat)
    ensures a * (2 * b) == 2 * (a * b)
  {
  }

  lemma MulPositive(a: nat, b: nat)
    requires a > 0 && b > 0
    ensures a * b > 0
  {
  }

  lemma MulMonotonic(a: nat, b: nat, c: nat)
    requires a <= b
    ensures a * c <= b * c
  {
  }

  /** Bitwise or. */
  function Or(a: nat, b: nat): nat {
    if a == 0 then b else if b == 0 then a
    else (if a % 2 == 1 || b % 2 == 1 then 1 else 0) + 2 * Or(a / 2, b / 2)
  }

  lemma {:induction false} OrBelow(a: nat, b: nat, k: nat)
    requires a < Pow2(k) && b < Pow2(k)
    ensures Or(a, b) < Pow2(k)
  {
    if a > 0 && b > 0 {
      OrBelow(a / 2, b / 2, k - 1);
    }
  }

  /** Bit `k` of a number. */
  predicate Bit(n: nat, k: nat) { n / Pow2(k) % 2 == 1 }

  lemma BitStep(n: nat, k: nat)
    ensures Bit(n, 0) <==> n % 2 == 1
    ensures Bit(n, k + 1) <==> Bit(n / 2, k)
    ensures !Bit(0, k)
  {
    DivisionSteps(n, 2, Pow2(k));
  }

  /** A bit of the result is set exactly when it is set in one of the two. */
  lemma {:induction false} OrBits(a: nat, b: nat, k: nat)
    ensures Bit(Or(a, b), k) <==> Bit(a, k) || Bit(b, k)
  {
    hide Bit, Or;
    if a == 0 || b == 0 {
      OrOfZero(a, b);
      BitStep(0, k);
    } else {
      OrStep(a, b);
      var j := if k > 0 then k - 1 else 0;
      BitStep(a, j);
      BitStep(b, j);
      BitStep(Or(a, b), j);
      if k > 0 {
        OrBits(a / 2, b / 2, k - 1);
      }
    }
  }

  lemma OrOfZero(a: nat, b: nat)
    requires a == 0 || b == 0
    ensures Or(a, b) == a + b
  {
  }

  lemma OrStep(a: nat, b: nat)
    ensures Or(a, b) == (if a % 2 == 1 || b % 2 == 1 then 1 else 0) + 2 * Or(a / 2, b / 2)
  {
  }

  /** Or works on the two halves of a number separately. */
  lemma {:induction false} OrSplit(a: nat, x: nat, b: nat, y: nat, k: nat)
    requires x < Pow2(k) && y < Pow2(k)
    ensures Or(a * Pow2(k) + x, b * Pow2(k) + y) == Or(a, b) * Pow2(k) + Or(x, y)
  {
    hide Or, Pow2;
    if k == 0 {
      OrSplitBase(a, x, b, y);
    } else {
      var p := Pow2(k - 1);
      Pow2Step(k);
      Halves(a, p, x);
      Halves(b, p, y);
      HalfBelow(x, p);
      HalfBelow(y, p);
      OrSplit(a, x / 2, b, y / 2, k - 1);
      OrStep(a * (2 * p) + x, b * (2 * p) + y);
      OrStep(x, y);
      Halves(Or(a, b), p, 0);
    }
  }

  lemma Pow2Step(k: nat)
    requires k > 0
    ensures Pow2(k) == 2 * Pow2(k - 1)
  {
  }

  lemma OrSplitBase(a: nat, x: nat, b: nat, y: nat)
    requires x < Pow2(0) && y < Pow2(0)
    ensures Or(a * Pow2(0) + x, b * Pow2(0) + y) == Or(a, b) * Pow2(0) + Or(x, y)
  {
    assert Pow2(0) == 1 && Or(0, 0) == 0;
  }

  lemma HalfBelow(x: nat, p: nat)
    requires x < 2 * p
    ensures x / 2 < p
  {
  }

  lemma Halves(a: nat, p: nat, x: nat)
    ensures a * (2 * p) == 2 * (a * p)
    ensures (a * (2 * p) + x) / 2 == a * p + x / 2
    ensures (a * (2 * p) + x) % 2 == x % 2
  {
    var m := a * p;
    assert a * (2 * p) == 2 * m;
    assert (2 * m + x) / 2 == m + x / 2;
  }

  /** Setting a bit below all the set bits is adding it. */
  lemma {:induction false} OrOfNewBit(q: nat, k: nat)
    ensures Or(q * Pow2(k + 1), Pow2(k)) == q * Pow2(k + 1) + Pow2(k)
  {
    assert Pow2(k + 1) == 2 * Pow2(k);
    if k == 0 {
      assert Pow2(1) == 2 && Pow2(0) == 1;
      OrStep(q * 2, 1);
      assert q * 2 / 2 == q && (q * 2) % 2 == 0;
    } else {
      var p := Pow2(k);
      assert q * Pow2(k + 1) == 2 * (q * p);
      OrOfNewBit(q, k - 1);
      OrStep(q * Pow2(k + 1), p);
      assert q * Pow2(k + 1) / 2 == q * p && p / 2 == Pow2(k - 1);
    }
  }

  /** Bitwise exclusive or. */
  function Xor(a: nat, b: nat): nat {
    if a == 0 then b else if b == 0 then a
    else (if a % 2 != b % 2 then 1 else 0) + 2 * Xor(a / 2, b / 2)
  }

  lemma {:induction false} XorBelow(a: nat, b: nat, k: nat)
    requires a < Pow2(k) && b < Pow2(k)
    ensures Xor(a, b) < Pow2(k)
  {
    if a > 0 && b > 0 {
      XorBelow(a / 2, b / 2, k - 1);
    }
  }

  lemma XorStep(a: nat, b: nat)
    ensures Xor(a, b) == (if a % 2 != b % 2 then 1 else 0) + 2 * Xor(a / 2, b / 2)
  {
  }

  /** A bit of the result is set exactly when it is set in one of the two only. */
  lemma {:induction false} XorBits(a: nat, b: nat, k: nat)
    ensures Bit(Xor(a, b), k) <==> Bit(a, k) != Bit(b, k)
  {
    hide Bit, Xor;
    if a == 0 || b == 0 {
      XorOfZero(a, b);
      BitStep(0, k);
    } else {
      XorStep(a, b);
      var j := if k > 0 then k - 1 else 0;
      BitStep(a, j);
      BitStep(b, j);
      BitStep(Xor(a, b), j);
      if k > 0 {
        XorBits(a / 2, b / 2, k - 1);
      }
    }
  }

  lemma XorOfZero(a: nat, b: nat)
    requires a == 0 || b == 0
    ensures Xor(a, b) == a + b
  {
  }

  lemma {:induction false} XorSelf(a: nat)
    ensures Xor(a, a) == 0
  {
    if a > 0 {
      XorSelf(a / 2);
    }
  }
}
