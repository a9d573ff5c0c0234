/**
 256-bit unsigned numbers as two 128-bit halves (`src/common/uint256.c`).  Operands and targets may be one and the
 same number; two different numbers never share a half.
 */
module Uint256 {
  import opened Radix
  import opened Bytes
  import opened Powers
  import opened Halves
  import opened Division
  import opened Uint128

  const M256 := 0x1_0000_0000_0000_0000_0000_0000_0000_0000_0000_0000_0000_0000_0000_0000_0000_0000

  /** A number modulo 2^256. */
  ghost function Wrap256(n: int): (r: nat)
    ensures r < M256
  {
    n % M256
  }

  lemma Small256(n: int)
    requires 0 <= n < M256
    ensures Wrap256(n) == n
  {
  }

  lemma Widths256()
    ensures Pow2(128) == M128 && Pow2(256) == M256 && M256 == M128 * M128
  {
    Pow2Wide();
  }

  class U256 {
    const upper: U128
    const lower: U128

    constructor ()
      ensures Valid() && fresh(upper) && fresh(lower)
    {
      upper := new U128();
      lower := new U128();
    }

    ghost predicate Valid() { upper != lower }

    /** The number held. */
    ghost function V(): (v: nat)
      reads upper, lower
      ensures v < M256
    {
      PairBelow(upper.V(), lower.V(), M128);
      upper.V() * M128 + lower.V()
    }
  }

  /** Two valid numbers without a common half. */
  ghost predicate Distinct(a: U256, b: U256) {
    && a.Valid() && b.Valid()
    && a.upper != b.upper && a.upper != b.lower && a.lower != b.upper && a.lower != b.lower
  }

  ghost predicate Apart(a: U256, b: U256) { a.Valid() && (a == b || Distinct(a, b)) }

  // ---------------------------------------------------------------- reading and copying

  method Read256LE(buffer: seq<Byte>, target: U256)
    requires |buffer| >= 32 && target.Valid()
    modifies target.upper, target.lower
    ensures target.V() == LittleEndian(buffer[..32])
  {
    hide U128.V, LittleEndian, Pow256;
    Read128LE(buffer, 0, target.lower);
    Read128LE(buffer, 16, target.upper);
    PowersOf16();
    assert buffer[..32] == buffer[0..16] + buffer[16..32];
    LittleEndianConcat(buffer[0..16], buffer[16..32]);
  }

  lemma PowersOf16()
    ensures Pow256(16) == M128
  {
    PowerOfWord();
    PowAdd(256, 8, 8);
  }

  method Zero256(number: U256) returns (b: bool)
    ensures b <==> number.V() == 0
  {
    Ordered(number.upper.V(), number.lower.V(), 0, 0, M128);
    b := IsZero128(number.lower);
    if b {
      b := IsZero128(number.upper);
    }
  }

  method Copy256(target: U256, number: U256)
    requires Apart(target, number)
    modifies target.upper, target.lower
    ensures target.V() == old(number.V())
  {
    Copy128(target.upper, number.upper);
    Copy128(target.lower, number.lower);
  }

  method Clear256(target: U256)
    requires target.Valid()
    modifies target.upper, target.lower
    ensures target.V() == 0
  {
    Clear128(target.upper);
    Clear128(target.lower);
  }

  /** `UPPER(LOWER(target)) = 0; LOWER(LOWER(target)) = word`, on a cleared number. */
  method SetWord(target: U256, word: Word)
    requires target.Valid() && target.V() == 0
    modifies target.lower
    ensures target.V() == word
  {
    Ordered(target.upper.V(), target.lower.V(), 0, 0, M128);
    target.lower.upper := 0;
    target.lower.lower := word;
  }

  lemma Wraps(n: int)
    ensures Wrap(n) == n % M128
  {
  }

  // ---------------------------------------------------------------- shifts

  lemma LeftFar256(u: nat, l: nat, value: nat)
    requires value >= 128
    ensures Wrap(LeftBy(l, value - 128)) * M128 == Wrap256(LeftBy(u * M128 + l, value))
  {
    hide Pow2;
    Widths256();
    LeftFar(u, l, 128, value);
  }

  lemma LeftNear256(u: nat, l: nat, value: nat)
    requires value < 128 && u < M128 && l < M128
    ensures Wrap(Wrap(LeftBy(u, value)) + RightBy(l, 128 - value)) * M128 + Wrap(LeftBy(l, value))
            == Wrap256(LeftBy(u * M128 + l, value))
  {
    hide Pow2;
    Widths256();
    LeftNear(u, l, 128, value);
    Small(Wrap(LeftBy(u, value)) + RightBy(l, 128 - value));
  }

  lemma LeftOut256(v: nat, value: nat)
    requires value >= 256
    ensures Wrap256(LeftBy(v, value)) == 0
  {
    hide Pow2;
    Widths256();
    LeftOut(v, 256, value);
  }

  /** Lines 60 to 67. */
  method ShiftlNear256(number: U256, value: nat) returns (result: U256)
    requires value < 128
    ensures result.Valid() && fresh(result.upper) && fresh(result.lower)
    ensures result.V() == Wrap256(LeftBy(number.V(), value))
  {
    hide Pow2, Wrap, Wrap256, U128.V, LeftBy, RightBy;
    LeftNear256(number.upper.V(), number.lower.V(), value);
    var tmp1 := new U128();
    var tmp2 := new U128();
    result := new U256();
    Shiftl128(number.upper, value, tmp1);
    Shiftr128(number.lower, 128 - value, tmp2);
    Add128(tmp1, tmp2, result.upper);
    Shiftl128(number.lower, value, result.lower);
  }

  /** `shiftl256`, for every shift amount. */
  method Shiftl256(number: U256, value: nat, target: U256)
    requires Apart(number, target)
    modifies target.upper, target.lower
    ensures target.V() == Wrap256(LeftBy(old(number.V()), value))
  {
    hide Pow2, Wrap, Wrap256, U128.V, LeftBy, RightBy;
    ghost var u, l := number.upper.V(), number.lower.V();
    if value >= 256 {
      LeftOut256(number.V(), value);
      Clear256(target);
    } else if value == 128 {
      LeftFar256(u, l, 128);
      ByOneBit(l);
      Small(l);
      Copy128(target.upper, number.lower);
      Clear128(target.lower);
    } else if value == 0 {
      ByOneBit(number.V());
      Small256(number.V());
      Copy256(target, number);
    } else if value < 128 {
      var result := ShiftlNear256(number, value);
      Copy256(target, result);
    } else {
      LeftFar256(u, l, value);
      Shiftl128(number.lower, value - 128, target.upper);
      Clear128(target.lower);
    }
  }

  lemma RightFar256(u: nat, l: nat, value: nat)
    requires value >= 128 && l < M128
    ensures RightBy(u, value - 128) == RightBy(u * M128 + l, value)
  {
    hide Pow2;
    Widths256();
    RightFar(u, l, 128, value);
  }

  lemma RightNear256(u: nat, l: nat, value: nat)
    requires value < 128 && u < M128 && l < M128
    ensures RightBy(u, value) * M128 + Wrap(RightBy(l, value) + Wrap(LeftBy(u, 128 - value)))
            == RightBy(u * M128 + l, value)
  {
    hide Pow2, Wrap;
    Widths256();
    RightNear(u, l, 128, value);
    Wraps(LeftBy(u, 128 - value));
    Small(RightBy(l, value) + Wrap(LeftBy(u, 128 - value)));
  }

  lemma RightOut256(v: nat, value: nat)
    requires value >= 256 && v < M256
    ensures RightBy(v, value) == 0
  {
    hide Pow2;
    Widths256();
    RightOut(v, 256, value);
  }

  /** Lines 85 to 92. */
  method ShiftrNear256(number: U256, value: nat) returns (result: U256)
    requires value < 128
    ensures result.Valid() && fresh(result.upper) && fresh(result.lower)
    ensures result.V() == RightBy(number.V(), value)
  {
    hide Pow2, Wrap, U128.V, LeftBy, RightBy;
    RightNear256(number.upper.V(), number.lower.V(), value);
    var tmp1 := new U128();
    var tmp2 := new U128();
    result := new U256();
    Shiftr128(number.upper, value, result.upper);
    Shiftr128(number.lower, value, tmp1);
    Shiftl128(number.upper, 128 - value, tmp2);
    Add128(tmp1, tmp2, result.lower);
  }

  /** `shiftr256`, for every shift amount. */
  method Shiftr256(number: U256, value: nat, target: U256)
    requires Apart(number, target)
    modifies target.upper, target.lower
    ensures target.V() == RightBy(old(number.V()), value)
  {
    hide Pow2, Wrap, U128.V, LeftBy, RightBy;
    ghost var u, l := number.upper.V(), number.lower.V();
    if value >= 256 {
      RightOut256(number.V(), value);
      Clear256(target);
    } else if value == 128 {
      RightFar256(u, l, 128);
      ByOneBit(u);
      Copy128(target.lower, number.upper);
      Clear128(target.upper);
    } else if value == 0 {
      ByOneBit(number.V());
      Copy256(target, number);
    } else if value < 128 {
      var result := ShiftrNear256(number, value);
      Copy256(target, result);
    } else {
      RightFar256(u, l, value);
      Shiftr128(number.upper, value - 128, target.lower);
      Clear128(target.upper);
    }
  }

  /** The loop of `bits256` over one half. */
  method HalfBits(half: U128, start: nat) returns (result: nat)
    ensures result == start + BitLength(half.V())
  {
    hide Pow2, LeftBy, RightBy;
    result := start;
    var up := new U128();
    Copy128(up, half);
    var zero := IsZero128(up);
    while !zero
      invariant fresh(up) && zero == (up.V() == 0)
      invariant result + BitLength(up.V()) == start + BitLength(half.V())
      decreases up.V()
    {
      ByOneBit(up.V());
      Shiftr128(up, 1, up);
      result := result + 1;
      zero := IsZero128(up);
    }
  }

  method Bits256(number: U256) returns (result: nat)
    ensures result == BitLength(number.V()) && result <= 256
  {
    hide Pow2, BitLength;
    Widths256();
    BitLengthFits(number.V(), 256);
    var zero := IsZero128(number.upper);
    if !zero {
      BitLengthSplit(number.upper.V(), number.lower.V(), 128);
      result := HalfBits(number.upper, 128);
    } else {
      result := HalfBits(number.lower, 0);
    }
  }

  // ---------------------------------------------------------------- comparisons

  method Equal256(number1: U256, number2: U256) returns (b: bool)
    ensures b <==> number1.V() == number2.V()
  {
    Ordered(number1.upper.V(), number1.lower.V(), number2.upper.V(), number2.lower.V(), M128);
    b := Equal128(number1.upper, number2.upper);
    if b {
      b := Equal128(number1.lower, number2.lower);
    }
  }

  method Gt256(number1: U256, number2: U256) returns (b: bool)
    ensures b <==> number1.V() > number2.V()
  {
    Ordered(number1.upper.V(), number1.lower.V(), number2.upper.V(), number2.lower.V(), M128);
    Ordered(number2.upper.V(), number2.lower.V(), number1.upper.V(), number1.lower.V(), M128);
    var same := Equal128(number1.upper, number2.upper);
    if same {
      b := Gt128(number1.lower, number2.lower);
      return;
    }
    b := Gt128(number1.upper, number2.upper);
  }

  method Gte256(number1: U256, number2: U256) returns (b: bool)
    ensures b <==> number1.V() >= number2.V()
  {
    b := Gt256(number1, number2);
    if !b {
      b := Equal256(number1, number2);
    }
  }

  // ---------------------------------------------------------------- sums

  method One128() returns (one: U128)
    ensures fresh(one) && one.V() == 1
  {
    one := new U128();
    one.upper := 0;
    one.lower := 1;
  }

  lemma AddRule(u: nat, l: nat, x: nat, y: nat)
    requires u < M128 && l < M128 && x < M128 && y < M128
    ensures Wrap256((u * M128 + l) + (x * M128 + y))
            == (if l > Wrap(l + y) then Wrap(Wrap(u + x) + 1) else Wrap(u + x)) * M128 + Wrap(l + y)
  {
    AddHalves(u, l, x, y, M128);
    DivisionPlus((u + x) % M128 + 1, M128, (u + x) / M128);
  }

  method Add256(number1: U256, number2: U256, target: U256)
    requires Apart(number1, target) && Apart(number2, target)
    modifies target.upper, target.lower
    ensures target.V() == Wrap256(old(number1.V()) + old(number2.V()))
  {
    hide Wrap, Wrap256, U128.V;
    ghost var u: int, l: int := number1.upper.V(), number1.lower.V();
    ghost var x: int, y: int := number2.upper.V(), number2.lower.V();
    AddRule(u, l, x, y);
    var tmp := new U128();
    Add128(number1.upper, number2.upper, target.upper);
    Add128(number1.lower, number2.lower, tmp);
    assert target.upper.V() == Wrap(u + x) && tmp.V() == Wrap(l + y);
    var carry := Gt128(number1.lower, tmp);
    if carry {
      var one := One128();
      Add128(target.upper, one, target.upper);
    }
    Add128(number1.lower, number2.lower, target.lower);
  }

  lemma SubRule(u: nat, l: nat, x: nat, y: nat)
    requires u < M128 && l < M128 && x < M128 && y < M128
    ensures Wrap256((u * M128 + l) - (x * M128 + y))
            == (if Wrap(l - y) > l then Wrap(Wrap(u - x) - 1) else Wrap(u - x)) * M128 + Wrap(l - y)
  {
    SubHalves(u, l, x, y, M128);
    DivisionPlus((u - x) % M128 - 1, M128, (u - x) / M128);
  }

  method Sub256(number1: U256, number2: U256, target: U256)
    requires Apart(number1, target) && Apart(number2, target)
    modifies target.upper, target.lower
    ensures target.V() == Wrap256(old(number1.V()) - old(number2.V()))
  {
    hide Wrap, Wrap256, U128.V;
    ghost var u: int, l: int := number1.upper.V(), number1.lower.V();
    ghost var x: int, y: int := number2.upper.V(), number2.lower.V();
    SubRule(u, l, x, y);
    var tmp := new U128();
    Sub128(number1.upper, number2.upper, target.upper);
    Sub128(number1.lower, number2.lower, tmp);
    assert target.upper.V() == Wrap(u - x) && tmp.V() == Wrap(l - y);
    var borrow := Gt128(tmp, number1.lower);
    if borrow {
      var one := One128();
      Sub128(target.upper, one, target.upper);
    }
    Sub128(number1.lower, number2.lower, target.lower);
  }

  method Or256(number1: U256, number2: U256, target: U256)
    requires Apart(number1, target) && Apart(number2, target)
    modifies target.upper, target.lower
    ensures target.V() == Or(old(number1.V()), old(number2.V()))
  {
    hide Pow2, Or;
    Widths256();
    OrSplit(number1.upper.V(), number1.lower.V(), number2.upper.V(), number2.lower.V(), 128);
    Or128(number1.upper, number2.upper, target.upper);
    Or128(number1.lower, number2.lower, target.lower);
  }

  // ---------------------------------------------------------------- quotients

  /** Lines 195 to 199, 206 and 207: the leading bit of the divisor is moved to that of the dividend. */
  method ShiftUp256(l: U256, r: U256, copyd: U256, adder: U256) returns (diffBits: nat)
    requires l.Valid() && r.Valid() && 0 < r.V() <= l.V()
    requires Distinct(copyd, adder) && Distinct(copyd, l) && Distinct(copyd, r)
    requires Distinct(adder, l) && Distinct(adder, r)
    modifies copyd.upper, copyd.lower, adder.upper, adder.lower
    ensures copyd.V() == r.V() * adder.V() && adder.V() == Pow2(diffBits)
    ensures l.V() < 2 * copyd.V() && (copyd.V() > l.V() ==> diffBits > 0)
  {
    hide Pow2, BitLength, Wrap256, U256.V, LeftBy, RightBy;
    ghost var n, d := l.V(), r.V();
    var one := new U256();
    Clear256(one);
    SetWord(one, 1);
    var bitsL := Bits256(l);
    var bitsR := Bits256(r);
    Aligned(n, d);
    diffBits := (bitsL - bitsR) % SIZE_T;
    ghost var p := Pow2(diffBits);
    Widths256();
    Pow2Monotonic(BitLength(n), 256);
    Small256(d * p);
    Bounded(diffBits, 256);
    Small256(p);
    Moved(d, diffBits);
    Shiftl256(r, diffBits, copyd);
    Shiftl256(one, diffBits, adder);
  }

  /** The same, and lines 208 to 211: one bit less when that is more than the dividend. */
  method Align256(l: U256, r: U256, copyd: U256, adder: U256) returns (ghost k: nat)
    requires l.Valid() && r.Valid() && 0 < r.V() <= l.V()
    requires Distinct(copyd, adder) && Distinct(copyd, l) && Distinct(copyd, r)
    requires Distinct(adder, l) && Distinct(adder, r)
    modifies copyd.upper, copyd.lower, adder.upper, adder.lower
    ensures Dividing(l.V(), r.V(), copyd.V(), adder.V(), 0, l.V(), k)
  {
    hide Pow2, Dividing, U256.V, RightBy;
    var diffBits := ShiftUp256(l, r, copyd, adder);
    k := diffBits;
    var above := Gt256(copyd, l);
    if above {
      Lowered(r.V(), k);
      ByOneBit(copyd.V());
      ByOneBit(adder.V());
      Shiftr256(copyd, 1, copyd);
      Shiftr256(adder, 1, adder);
      k := k - 1;
    }
    Start(l.V(), r.V(), copyd.V(), adder.V(), k);
  }

  ghost predicate AllDistinct(a: U256, b: U256, c: U256, d: U256) {
    && Distinct(a, b) && Distinct(a, c) && Distinct(a, d)
    && Distinct(b, c) && Distinct(b, d) && Distinct(c, d)
  }

  /** Lines 213 to 218: one bit of the quotient. */
  method DivideRound256(copyd: U256, adder: U256, resDiv: U256, resMod: U256, ghost n: nat, ghost d: nat, ghost k: int)
    requires AllDistinct(copyd, adder, resDiv, resMod)
    requires Dividing(n, d, copyd.V(), adder.V(), resDiv.V(), resMod.V(), k) && resMod.V() >= d
    modifies copyd.upper, copyd.lower, adder.upper, adder.lower, resDiv.upper, resDiv.lower, resMod.upper, resMod.lower
    ensures k >= 0 && Dividing(n, d, copyd.V(), adder.V(), resDiv.V(), resMod.V(), k - 1)
  {
    hide Pow2, Or, Wrap256, Dividing, U128.V, U256.V, LeftBy, RightBy;
    ByOneBit(copyd.V());
    ByOneBit(adder.V());
    Round(n, d, copyd.V(), adder.V(), resDiv.V(), resMod.V(), k);
    var fits := Gte256(resMod, copyd);
    if fits {
      Small256(resMod.V() - copyd.V());
      Sub256(resMod, copyd, resMod);
      Or256(resDiv, adder, resDiv);
    }
    Shiftr256(copyd, 1, copyd);
    Shiftr256(adder, 1, adder);
  }

  /** Lines 212 to 219. */
  method Divide256(r: U256, copyd: U256, adder: U256, resDiv: U256, resMod: U256, ghost n: nat, ghost start: nat)
    requires AllDistinct(copyd, adder, resDiv, resMod)
    requires Distinct(r, copyd) && Distinct(r, adder) && Distinct(r, resDiv) && Distinct(r, resMod)
    requires Dividing(n, r.V(), copyd.V(), adder.V(), resDiv.V(), resMod.V(), start)
    modifies copyd.upper, copyd.lower, adder.upper, adder.lower, resDiv.upper, resDiv.lower, resMod.upper, resMod.lower
    ensures Divided(n, r.V(), resDiv.V(), resMod.V())
  {
    hide Dividing, Divided, U128.V, U256.V;
    ghost var k: int := start;
    var more := Gte256(resMod, r);
    while more
      invariant Dividing(n, r.V(), copyd.V(), adder.V(), resDiv.V(), resMod.V(), k)
      invariant more == (resMod.V() >= r.V()) && k >= -1
      decreases k
    {
      DivideRound256(copyd, adder, resDiv, resMod, n, r.V(), k);
      k := k - 1;
      more := Gte256(resMod, r);
    }
    Finished(n, r.V(), copyd.V(), adder.V(), resDiv.V(), resMod.V(), k);
  }

  method LongDivide256(l: U256, r: U256) returns (resDiv: U256, resMod: U256)
    requires l.Valid() && r.Valid() && 0 < r.V() <= l.V()
    ensures Distinct(resDiv, resMod)
    ensures fresh(resDiv.upper) && fresh(resDiv.lower) && fresh(resMod.upper) && fresh(resMod.lower)
    ensures Divided(l.V(), r.V(), resDiv.V(), resMod.V())
  {
    hide Dividing, Divided, U128.V, U256.V;
    var copyd := new U256();
    var adder := new U256();
    resDiv := new U256();
    resMod := new U256();
    Clear256(resDiv);
    Copy256(resMod, l);
    ghost var k := Align256(l, r, copyd, adder);
    Divide256(r, copyd, adder, resDiv, resMod, l.V(), k);
  }

  /** `divmod256` by a divisor other than 0; `l` and `r` may be the results, as in `tostring256`. */
  method Divmod256(l: U256, r: U256, retDiv: U256, retMod: U256)
    requires r.V() != 0 && Distinct(retDiv, retMod)
    requires Apart(l, retDiv) && Apart(l, retMod) && Apart(r, retDiv) && Apart(r, retMod)
    modifies retDiv.upper, retDiv.lower, retMod.upper, retMod.lower
    ensures Divided(old(l.V()), old(r.V()), retDiv.V(), retMod.V())
  {
    hide U128.V, U256.V, Divided;
    DividedByMore(l.V(), r.V());
    var less := Gt256(r, l);
    if less {
      Copy256(retMod, l);
      Clear256(retDiv);
    } else {
      var resDiv, resMod := LongDivide256(l, r);
      Copy256(retDiv, resDiv);
      Copy256(retMod, resMod);
    }
  }
}
