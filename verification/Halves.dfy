/** Arithmetic on a number kept as two halves of base `m`, and the shift-and-subtract division on it. */
module Halves {
  import opened Radix
  import opened Powers

  // ---------------------------------------------------------------- shifts

  /** Truncating the product `u * p` to a half keeps the low part of `u`. */
  lemma LowPart(u: nat, p: nat, q: nat, m: nat)
    requires p > 0 && q > 0 && m == p * q
    ensures u * p == (u / q) * m + (u * p) % m
    ensures (u * p) % m == (u % q) * p && (u * p) % m + p <= m
  {
    var e, f := u / q, u % q;
    Rejoined(u, q);
    Stretch(e, q, f, p);
    OneMore(f, q, p);
    DivisionIsUnique(u * p, m, e, f * p);
  }

  lemma OneMore(f: nat, q: nat, p: nat)
    requires f < q
    ensures f * p + p <= p * q
  {
    MulMonotonic(f + 1, q, p);
  }

  lemma Stretch(e: nat, q: nat, f: nat, p: nat)
    ensures (e * q + f) * p == e * (p * q) + f * p
  {
  }

  lemma QuotientBelow(l: nat, p: nat, q: nat)
    requires q > 0 && l < p * q
    ensures l / q < p
  {
    Rejoined(l, q);
    if l / q >= p {
      MulMonotonic(p, l / q, q);
    }
  }

  /** Left by less than a half: the bits that leave the lower half enter the upper one. */
  lemma ShiftLeftNear(u: nat, l: nat, p: nat, q: nat, m: nat)
    requires p > 0 && q > 0 && m == p * q && u < m && l < m
    ensures (u * p) % m + l / q < m
    ensures ((u * p) % m + l / q) * m + (l * p) % m == ((u * m + l) * p) % (m * m)
  {
    LowPart(u, p, q, m);
    LowPart(l, p, q, m);
    QuotientBelow(l, p, q);
    AssembleLeft(u, l, p, m, u / q, (u * p) % m, l / q, (l * p) % m);
  }

  lemma AssembleLeft(u: nat, l: nat, p: nat, m: nat, e: nat, x: nat, a: nat, y: nat)
    requires u * p == e * m + x && l * p == a * m + y && x + a < m && y < m
    ensures (x + a) * m + y == ((u * m + l) * p) % (m * m)
  {
    SplitProduct(u, l, p, m, e, x, a, y);
    PairBelow(x + a, y, m);
    DivisionIsUnique((u * m + l) * p, m * m, e, (x + a) * m + y);
  }

  lemma SplitProduct(u: nat, l: nat, p: nat, m: nat, e: nat, x: nat, a: nat, y: nat)
    requires u * p == e * m + x && l * p == a * m + y
    ensures (u * m + l) * p == e * (m * m) + ((x + a) * m + y)
  {
    calc {
      (u * m + l) * p;
      (u * p) * m + l * p;
      (e * m + x) * m + (a * m + y);
      e * (m * m) + ((x + a) * m + y);
    }
  }

  lemma PairBelow(h: nat, l: nat, m: nat)
    requires h < m && l < m
    ensures h * m + l < m * m
  {
    MulMonotonic(h + 1, m, m);
  }

  lemma FarProduct(u: nat, l: nat, p: nat, m: nat, c: nat, d: nat)
    requires l * p == c * m + d
    ensures (u * m + l) * (p * m) == (u * p + c) * (m * m) + d * m
  {
    calc {
      (u * m + l) * (p * m);
      (u * p) * (m * m) + (l * p) * m;
      (u * p) * (m * m) + (c * m + d) * m;
      (u * p + c) * (m * m) + d * m;
    }
  }

  /** Left by a half or more. */
  lemma ShiftLeftFar(u: nat, l: nat, p: nat, m: nat)
    requires m > 0
    ensures ((l * p) % m) * m == ((u * m + l) * (p * m)) % (m * m)
  {
    var c, d := (l * p) / m, (l * p) % m;
    Rejoined(l * p, m);
    FarProduct(u, l, p, m, c, d);
    PairBelow(d, 0, m);
    DivisionIsUnique((u * m + l) * (p * m), m * m, u * p + c, d * m);
  }

  /** Right by less than a half. */
  lemma ShiftRightNear(u: nat, l: nat, p: nat, q: nat, m: nat)
    requires p > 0 && q > 0 && m == p * q && u < m && l < m
    ensures (u * q) % m + l / p < m
    ensures (u / p) * m + ((u * q) % m + l / p) == (u * m + l) / p
  {
    LowPartRight(u, p, q, m);
    UpperBelow(l, p, q, m);
    Parts(u, p);
    Parts(l, p);
    AssembleRight(u, l, p, q, m, u / p, u % p, (u * q) % m, l / p, l % p);
  }

  lemma LowPartRight(u: nat, p: nat, q: nat, m: nat)
    requires p > 0 && q > 0 && m == p * q
    ensures (u * q) % m == (u % p) * q && (u * q) % m + q <= m
  {
    Commutes(p, q);
    LowPart(u, q, p, m);
  }

  lemma UpperBelow(l: nat, p: nat, q: nat, m: nat)
    requires p > 0 && l < m && m == p * q
    ensures l / p < q
  {
    Commutes(p, q);
    QuotientBelow(l, q, p);
  }

  lemma Parts(n: nat, p: nat)
    requires p > 0
    ensures n == (n / p) * p + n % p && n % p < p
  {
    Rejoined(n, p);
  }

  lemma Commutes(p: nat, q: nat)
    ensures p * q == q * p
  {
  }

  lemma AssembleRight(u: nat, l: nat, p: nat, q: nat, m: nat, e: nat, f: nat, x: nat, a: nat,
                     b: nat)
    requires m == p * q && u == e * p + f && x == f * q && l == a * p + b && b < p
    ensures e * m + (x + a) == (u * m + l) / p
  {
    ShiftRightSum(e, f, a, b, p, q);
    DivisionIsUnique(u * m + l, p, e * m + (f * q + a), b);
  }

  lemma ShiftRightSum(e: nat, f: nat, a: nat, b: nat, p: nat, q: nat)
    ensures (e * p + f) * (p * q) + (a * p + b) == (e * (p * q) + (f * q + a)) * p + b
  {
    var m := p * q;
    calc {
      (e * p + f) * m + (a * p + b);
      (e * m) * p + f * (p * q) + a * p + b;
      (e * m) * p + (f * q) * p + a * p + b;
      (e * m + (f * q + a)) * p + b;
    }
  }

  /** Right by a half or more. */
  lemma ShiftRightFar(u: nat, l: nat, p: nat, m: nat)
    requires p > 0 && l < m
    ensures u / p == (u * m + l) / (p * m)
  {
    var e, f := u / p, u % p;
    Rejoined(u, p);
    assert (e * p + f) * m + l == e * (p * m) + (f * m + l);
    MulMonotonic(f + 1, p, m);
    DivisionIsUnique(u * m + l, p * m, e, f * m + l);
  }

  // ---------------------------------------------------------------- shifts counted in bits

  lemma LeftNear(u: nat, l: nat, k: nat, value: nat)
    requires value < k && u < Pow2(k) && l < Pow2(k)
    ensures (u * Pow2(value)) % Pow2(k) + l / Pow2(k - value) < Pow2(k)
    ensures ((u * Pow2(value)) % Pow2(k) + l / Pow2(k - value)) * Pow2(k) + (l * Pow2(value)) % Pow2(k)
            == ((u * Pow2(k) + l) * Pow2(value)) % (Pow2(k) * Pow2(k))
  {
    hide Pow2;
    Pow2Add(value, k - value);
    ShiftLeftNear(u, l, Pow2(value), Pow2(k - value), Pow2(k));
  }

  lemma LeftFar(u: nat, l: nat, k: nat, value: nat)
    requires k <= value
    ensures ((l * Pow2(value - k)) % Pow2(k)) * Pow2(k)
            == ((u * Pow2(k) + l) * Pow2(value)) % (Pow2(k) * Pow2(k))
  {
    hide Pow2;
    Pow2Add(value - k, k);
    ShiftLeftFar(u, l, Pow2(value - k), Pow2(k));
  }

  lemma LeftOut(v: nat, k: nat, value: nat)
    requires k <= value
    ensures (v * Pow2(value)) % Pow2(k) == 0
  {
    hide Pow2;
    Pow2Add(value - k, k);
    var p, m := Pow2(value - k), Pow2(k);
    assert v * (p * m) == (v * p) * m;
    DivisionIsUnique(v * (p * m), m, v * p, 0);
  }

  lemma RightNear(u: nat, l: nat, k: nat, value: nat)
    requires value < k && u < Pow2(k) && l < Pow2(k)
    ensures (u * Pow2(k - value)) % Pow2(k) + l / Pow2(value) < Pow2(k)
    ensures (u / Pow2(value)) * Pow2(k) + ((u * Pow2(k - value)) % Pow2(k) + l / Pow2(value))
            == (u * Pow2(k) + l) / Pow2(value)
  {
    hide Pow2;
    Pow2Add(value, k - value);
    ShiftRightNear(u, l, Pow2(value), Pow2(k - value), Pow2(k));
  }

  lemma RightFar(u: nat, l: nat, k: nat, value: nat)
    requires k <= value && l < Pow2(k)
    ensures u / Pow2(value - k) == (u * Pow2(k) + l) / Pow2(value)
  {
    hide Pow2;
    Pow2Add(value - k, k);
    ShiftRightFar(u, l, Pow2(value - k), Pow2(k));
  }

  lemma RightOut(v: nat, k: nat, value: nat)
    requires k <= value && v < Pow2(k)
    ensures v / Pow2(value) == 0
  {
    hide Pow2;
    Pow2Monotonic(k, value);
    DivisionIsUnique(v, Pow2(value), 0, v);
  }

  // ---------------------------------------------------------------- sums

  /** The halves of a number modulo the square. */
  lemma Gather(h: nat, m: nat, l: nat)
    requires l < m
    ensures (h % m) * m + l == (h * m + l) % (m * m)
  {
    Rejoined(h, m);
    PairBelow(h % m, l, m);
    assert ((h / m) * m + h % m) * m + l == (h / m) * (m * m) + ((h % m) * m + l);
    DivisionIsUnique(h * m + l, m * m, h / m, (h % m) * m + l);
  }

  lemma Carried(l: nat, y: nat, m: nat)
    requires l < m && y < m
    ensures (l + y) % m == (if (l + y) % m < l then l + y - m else l + y)
  {
    if l + y < m {
      DivisionIsUnique(l + y, m, 0, l + y);
    } else {
      DivisionIsUnique(l + y, m, 1, l + y - m);
    }
  }

  lemma CarriedSum(u: nat, l: nat, x: nat, y: nat, m: nat, carry: nat, low: nat)
    requires l + y == carry * m + low
    ensures (u * m + l) + (x * m + y) == (u + x + carry) * m + low
  {
  }

  /** Adding with a carry between the halves, modulo the square. */
  lemma AddHalves(u: nat, l: nat, x: nat, y: nat, m: nat)
    requires u < m && l < m && x < m && y < m
    ensures var carry := if (l + y) % m < l then 1 else 0;
            ((u + x + carry) % m) * m + (l + y) % m == ((u * m + l) + (x * m + y)) % (m * m)
  {
    Carried(l, y, m);
    var carry, low := if (l + y) % m < l then 1 else 0, (l + y) % m;
    CarriedSum(u, l, x, y, m, carry, low);
    Gather(u + x + carry, m, low);
  }

  lemma Borrowed(l: nat, y: nat, m: nat)
    requires l < m && y < m
    ensures (l - y) % m == (if (l - y) % m > l then l - y + m else l - y)
  {
    if l >= y {
      DivisionIsUnique(l - y, m, 0, l - y);
    } else {
      DivisionIsUnique(l - y, m, -1, l - y + m);
    }
  }

  lemma BorrowedSum(u: nat, l: nat, x: nat, y: nat, m: nat, borrow: nat, low: nat)
    requires l - y == low - borrow * m
    ensures (u * m + l) - (x * m + y) + 2 * (m * m) == (u - x - borrow + 2 * m) * m + low
  {
  }

  /** Subtracting with a borrow between the halves, modulo the square. */
  lemma SubHalves(u: nat, l: nat, x: nat, y: nat, m: nat)
    requires u < m && l < m && x < m && y < m
    ensures var borrow := if (l - y) % m > l then 1 else 0;
            ((u - x - borrow) % m) * m + (l - y) % m == ((u * m + l) - (x * m + y)) % (m * m)
  {
    Borrowed(l, y, m);
    var borrow, low := if (l - y) % m > l then 1 else 0, (l - y) % m;
    var h := u - x - borrow + 2 * m;
    BorrowedSum(u, l, x, y, m, borrow, low);
    Gather(h, m, low);
    DivisionPlus(u - x - borrow, m, 2);
    DivisionPlus((u * m + l) - (x * m + y), m * m, 2);
  }

  lemma DivisionPlus(a: int, m: nat, k: int)
    requires m > 0
    ensures (a + k * m) % m == a % m
  {
    DivisionIsUnique(a + k * m, m, a / m + k, a % m);
  }

  /** Comparing the upper halves first. */
  lemma Ordered(u: nat, l: nat, x: nat, y: nat, m: nat)
    requires l < m && y < m
    ensures u > x ==> u * m + l > x * m + y
    ensures u * m + l == x * m + y ==> u == x && l == y
  {
    if u > x { MulMonotonic(x + 1, u, m); }
    if u < x { MulMonotonic(u + 1, x, m); }
  }
}
