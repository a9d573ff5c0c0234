/** Shift-and-subtract division of natural numbers, as `divmod128` and `divmod256` carry it out. */
module Division {
  import opened Radix
  import opened Powers
  import opened Halves

  /**
   The loop invariant.  The divisor, moved up by `k` bits, is more than half the rest `m`, and the quotient so far
   has no bit below `k + 1`.  After the last round (`k == -1`) the rest is below the divisor.
   */
  ghost predicate Dividing(l: nat, r: nat, copyd: nat, adder: nat, q: nat, m: nat, k: int) {
    && l == q * r + m && k >= -1 && r > 0
    && (k >= 0 ==> adder == Pow2(k) && copyd == r * adder && m < 2 * copyd && q % Pow2(k + 1) == 0)
    && (k < 0 ==> adder == 0 && m < r)
  }

  /** Aligning the leading bits of divisor and dividend, one bit less when that is too much. */
  lemma Aligned(l: nat, r: nat)
    requires 0 < r <= l
    ensures BitLength(l) >= BitLength(r)
    ensures var d := BitLength(l) - BitLength(r);
            && r * Pow2(d) < Pow2(BitLength(l)) && l < 2 * (r * Pow2(d))
            && (r * Pow2(d) > l ==> d > 0)
  {
    hide Pow2, BitLength;
    BitLengthBounds(l);
    BitLengthBounds(r);
    Pow2Small();
    if BitLength(l) < BitLength(r) {
      Pow2Monotonic(BitLength(l), BitLength(r) - 1);
    }
    var d := BitLength(l) - BitLength(r);
    var top := BitLength(r);
    Pow2Add(top, d);
    Pow2Add(top - 1, d);
    Pow2Step(top + d);
    Between(Pow2(top - 1), r, Pow2(top), Pow2(d));
  }

  lemma Between(low: nat, r: nat, high: nat, p: nat)
    requires low <= r < high && p > 0
    ensures low * p <= r * p < high * p
  {
    MulMonotonic(low, r, p);
    MulMonotonic(r + 1, high, p);
  }

  lemma Start(l: nat, r: nat, copyd: nat, adder: nat, k: nat)
    requires r > 0 && copyd == r * adder && adder == Pow2(k)
    requires l < 2 * copyd
    ensures Dividing(l, r, copyd, adder, 0, l, k)
  {
  }

  /** The rest is below half the moved divisor: one bit less, and still more than half of it. */
  lemma Lowered(r: nat, k: nat)
    requires k > 0
    ensures Pow2(k) / 2 == Pow2(k - 1)
    ensures (r * Pow2(k)) / 2 == r * Pow2(k - 1) && r * Pow2(k) == 2 * (r * Pow2(k - 1))
  {
    var p := Pow2(k - 1);
    Pow2Step(k);
    Swap(r, 2, p);
    DivisionIsUnique(r * Pow2(k), 2, r * p, 0);
  }

  lemma HalfMultiple(q: nat, p: nat)
    requires p > 0 && q % (2 * p) == 0
    ensures q % p == 0
  {
    Rejoined(q, 2 * p);
    var e := q / (2 * p);
    assert e * (2 * p) == (2 * e) * p;
    DivisionIsUnique(q, p, 2 * e, 0);
  }

  /** The next bit of the quotient: `or` is addition, because the bit is not there yet. */
  lemma NewBit(q: nat, k: nat)
    requires q % Pow2(k + 1) == 0
    ensures Or(q, Pow2(k)) == q + Pow2(k)
    ensures q % Pow2(k) == 0 && (q + Pow2(k)) % Pow2(k) == 0
  {
    hide Pow2, Or;
    Rejoined(q, Pow2(k + 1));
    OrOfNewBit(q / Pow2(k + 1), k);
    Pow2Step(k + 1);
    HalfMultiple(q, Pow2(k));
    DivisionPlus(q, Pow2(k), 1);
  }

  /** One round keeps the invariant. */
  lemma Round(l: nat, r: nat, copyd: nat, adder: nat, q: nat, m: nat, k: int)
    requires Dividing(l, r, copyd, adder, q, m, k) && m >= r
    ensures k >= 0
    ensures m < copyd ==> Dividing(l, r, copyd / 2, adder / 2, q, m, k - 1)
    ensures m >= copyd ==> Dividing(l, r, copyd / 2, adder / 2, Or(q, adder), m - copyd, k - 1)
  {
    hide Pow2, Or;
    NewBit(q, k);
    if k > 0 {
      Lowered(r, k);
    } else {
      Pow2Small();
    }
    assert (q + adder) * r == q * r + copyd by { Distributes(q, adder, r); }
  }

  /** Quotient and remainder. */
  ghost predicate Divided(l: nat, r: nat, q: nat, m: nat) { l == q * r + m && m < r }

  lemma DividedByMore(l: nat, r: nat)
    ensures l < r ==> Divided(l, r, 0, l)
  {
  }

  lemma Finished(l: nat, r: nat, copyd: nat, adder: nat, q: nat, m: nat, k: int)
    requires Dividing(l, r, copyd, adder, q, m, k) && m < r
    ensures Divided(l, r, q, m)
  {
  }

  lemma Distributes(q: nat, a: nat, r: nat)
    ensures (q + a) * r == q * r + r * a
  {
  }
}
