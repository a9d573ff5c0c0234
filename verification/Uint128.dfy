/**
 128-bit unsigned numbers as two 64-bit words (`src/common/uint128.c`).  Every function of the source writes
 to a target that may be one of its operands; here too, targets and operands are objects that may coincide.
 */
module Uint128 {
  import opened Radix
  import opened Bytes
  import opened Powers
  import opened Halves
  import opened Division

  const W := 0x1_0000_0000_0000_0000
  const M128 := 0x1_0000_0000_0000_0000_0000_0000_0000_0000

  type Word = x: int | 0 <= x < 0x1_0000_0000_0000_0000

  // The 64-bit operators of C.
  function Plus(a: Word, b: Word): (r: Word)
    ensures a + b < W ==> r == a + b
  {
    (a + b) % W
  }

  function Minus(a: Word, b: Word): Word { (a - b) % W }

  function Shl(a: Word, n: nat): Word
    requires n < 64
  {
    (a * Pow2(n)) % W
  }

  function Shr(a: Word, n: nat): Word
    requires n < 64
  {
    assert a / Pow2(n) <= a by { NotLarger(a, Pow2(n)); }
    a / Pow2(n)
  }

  lemma NotLarger(a: nat, p: nat)
    requires p > 0
    ensures a / p <= a
  {
    if p >= 2 && a > 0 { Shrinks(a, p); }
  }

  function BitOr(a: Word, b: Word): Word {
    assert Or(a, b) < W by { Pow2Word(); OrBelow(a, b, 64); }
    Or(a, b)
  }

  /** A number modulo 2^128. */
  ghost function Wrap(n: int): (r: nat)
    ensures r < M128
  {
    n % M128
  }

  class U128 {
    var upper: Word
    var lower: Word

    constructor () { }

    /** The number held. */
    ghost function V(): (v: nat)
      reads this
      ensures v < M128
    {
      PairBelow(upper, lower, W);
      upper * W + lower
    }
  }

  // ---------------------------------------------------------------- reading and copying

  /** `readUint64LE` at `at`. */
  function Word64LE(b: seq<Byte>, at: nat): (w: Word)
    requires at + 8 <= |b|
  {
    assert Pow256(8) == W by { PowerOfWord(); }
    LittleEndian(b[at..at + 8])
  }

  lemma PowerOfWord()
    ensures Pow256(8) == W
  {
    assert Pow256(2) == 0x1_0000 && Pow256(4) == 0x1_0000_0000 && Pow256(6) == 0x1_0000_0000_0000;
  }

  method Read128LE(buffer: seq<Byte>, at: nat, target: U128)
    requires at + 16 <= |buffer|
    modifies target
    ensures target.V() == LittleEndian(buffer[at..at + 16])
  {
    target.lower := Word64LE(buffer, at);
    target.upper := Word64LE(buffer, at + 8);
    PowerOfWord();
    assert buffer[at..at + 16] == buffer[at..at + 8] + buffer[at + 8..at + 16];
    LittleEndianConcat(buffer[at..at + 8], buffer[at + 8..at + 16]);
  }

  method Copy128(target: U128, number: U128)
    modifies target
    ensures target.V() == old(number.V())
  {
    target.upper := number.upper;
    target.lower := number.lower;
  }

  method Clear128(target: U128)
    modifies target
    ensures target.V() == 0
  {
    target.upper := 0;
    target.lower := 0;
  }

  // ---------------------------------------------------------------- shifts

  lemma Widths()
    ensures Pow2(64) == W && Pow2(128) == M128 && Pow2(0) == 1
  {
    Pow2Wide();
    Pow2Small();
  }

  lemma LeftByWord(u: Word, l: Word)
    ensures l * W == Wrap(LeftBy(u * W + l, 64))
  {
    Widths();
    LeftFar(u, l, 64, 64);
  }

  lemma LeftByMore(u: Word, l: Word, value: nat)
    requires 64 < value < 128
    ensures Shl(l, value - 64) * W == Wrap(LeftBy(u * W + l, value))
  {
    Widths();
    LeftFar(u, l, 64, value);
  }

  lemma LeftByLess(u: Word, l: Word, value: nat)
    requires 0 < value < 64
    ensures Plus(Shl(u, value), Shr(l, 64 - value)) * W + Shl(l, value) == Wrap(LeftBy(u * W + l, value))
  {
    hide Plus, Pow2, Shl, Shr;
    Widths();
    LeftNear(u, l, 64, value);
    Shifts(u, value);
    Shifts(l, value);
    Shifts(l, 64 - value);
  }

  lemma Shifts(a: Word, n: nat)
    requires n < 64
    ensures Shl(a, n) == (a * Pow2(n)) % W && Shr(a, n) == a / Pow2(n)
  {
  }

  lemma LeftByAll(v: nat, value: nat)
    requires value >= 128
    ensures Wrap(LeftBy(v, value)) == 0
  {
    hide Pow2;
    Widths();
    LeftOut(v, 128, value);
  }

  /** `shiftl128`, for every shift amount; `number` and `target` may be one object. */
  method Shiftl128(number: U128, value: nat, target: U128)
    modifies target
    ensures target.V() == Wrap(LeftBy(old(number.V()), value))
  {
    hide Pow2, Plus, Shl, Shr, LeftBy, RightBy;
    ghost var u, l := number.upper, number.lower;
    if value >= 128 {
      LeftByAll(number.V(), value);
      Clear128(target);
    } else if value == 64 {
      LeftByWord(u, l);
      target.upper := number.lower;
      target.lower := 0;
    } else if value == 0 {
      ByOneBit(number.V());
      Copy128(target, number);
    } else if value < 64 {
      LeftByLess(u, l, value);
      target.upper := Plus(Shl(number.upper, value), Shr(number.lower, 64 - value));
      target.lower := Shl(number.lower, value);
    } else {
      LeftByMore(u, l, value);
      target.upper := Shl(number.lower, value - 64);
      target.lower := 0;
    }
  }

  lemma RightByMore(u: Word, l: Word, value: nat)
    requires 64 <= value < 128
    ensures Shr(u, value - 64) == RightBy(u * W + l, value)
  {
    Widths();
    RightFar(u, l, 64, value);
  }

  lemma RightByLess(u: Word, l: Word, value: nat)
    requires 0 < value < 64
    ensures Shr(u, value) * W + Plus(Shl(u, 64 - value), Shr(l, value)) == RightBy(u * W + l, value)
  {
    hide Plus, Pow2, Shl, Shr;
    Widths();
    RightNear(u, l, 64, value);
    Shifts(u, value);
    Shifts(l, value);
    Shifts(u, 64 - value);
  }

  lemma RightByAll(v: nat, value: nat)
    requires value >= 128 && v < M128
    ensures RightBy(v, value) == 0
  {
    hide Pow2;
    Widths();
    RightOut(v, 128, value);
  }

  /**
   `shiftr128`, for every shift amount.  A shift by exactly 64 onto the number itself clears the upper word before
   reading it, so it gives 0; every other case divides by the power of two.
   */
  method Shiftr128(number: U128, value: nat, target: U128)
    modifies target
    ensures target.V() == if number == target && value == 64 then 0 else RightBy(old(number.V()), value)
  {
    hide Pow2, Plus, Shl, Shr, LeftBy, RightBy;
    ghost var u, l := number.upper, number.lower;
    if value >= 128 {
      RightByAll(number.V(), value);
      Clear128(target);
    } else if value == 64 {
      RightByMore(u, l, 64);
      Widths();
      Shifts(u, 0);
      target.upper := 0;
      target.lower := number.upper;
    } else if value == 0 {
      ByOneBit(number.V());
      Copy128(target, number);
    } else if value < 64 {
      RightByLess(u, l, value);
      var result := new U128();
      result.upper := Shr(number.upper, value);
      result.lower := Plus(Shl(number.upper, 64 - value), Shr(number.lower, value));
      Copy128(target, result);
    } else {
      RightByMore(u, l, value);
      target.lower := Shr(number.upper, value - 64);
      target.upper := 0;
    }
  }

  /** The loop of `bits128` over one word. */
  method WordBits(word: Word, start: nat) returns (result: nat)
    ensures result == start + BitLength(word)
  {
    result := start;
    var up := word;
    while up != 0
      invariant result + BitLength(up) == start + BitLength(word)
    {
      assert Shr(up, 1) == up / 2 by { Pow2Small(); }
      up := Shr(up, 1);
      result := result + 1;
    }
  }

  lemma BitsBelow(v: nat)
    requires v < M128
    ensures BitLength(v) <= 128
  {
    hide Pow2;
    Widths();
    BitLengthFits(v, 128);
  }

  lemma UpperBits(upper: Word, lower: Word)
    requires upper != 0
    ensures BitLength(upper * W + lower) == 64 + BitLength(upper)
  {
    hide Pow2;
    Widths();
    BitLengthSplit(upper, lower, 64);
  }

  method Bits128(number: U128) returns (result: nat)
    ensures result == BitLength(number.V()) && result <= 128
  {
    hide Pow2, BitLength;
    ghost var v := number.V();
    assert v == number.upper * W + number.lower;
    BitsBelow(v);
    if number.upper != 0 {
      UpperBits(number.upper, number.lower);
      result := WordBits(number.upper, 64);
    } else {
      result := WordBits(number.lower, 0);
    }
  }

  // ---------------------------------------------------------------- comparisons

  method IsZero128(number: U128) returns (b: bool)
    ensures b <==> number.V() == 0
  {
    Ordered(number.upper, number.lower, 0, 0, W);
    b := number.lower == 0 && number.upper == 0;
  }

  method Equal128(number1: U128, number2: U128) returns (b: bool)
    ensures b <==> number1.V() == number2.V()
  {
    Ordered(number1.upper, number1.lower, number2.upper, number2.lower, W);
    b := number1.upper == number2.upper && number1.lower == number2.lower;
  }

  method Gt128(number1: U128, number2: U128) returns (b: bool)
    ensures b <==> number1.V() > number2.V()
  {
    Ordered(number1.upper, number1.lower, number2.upper, number2.lower, W);
    Ordered(number2.upper, number2.lower, number1.upper, number1.lower, W);
    if number1.upper == number2.upper {
      return number1.lower > number2.lower;
    }
    return number1.upper > number2.upper;
  }

  method Gte128(number1: U128, number2: U128) returns (b: bool)
    ensures b <==> number1.V() >= number2.V()
  {
    b := Gt128(number1, number2);
    if !b {
      b := Equal128(number1, number2);
    }
  }

  // ---------------------------------------------------------------- sums

  lemma AddWords(u: Word, l: Word, x: Word, y: Word)
    ensures Plus(Plus(u, x), if Plus(l, y) < l then 1 else 0) * W + Plus(l, y) == ((u * W + l) + (x * W + y)) % M128
  {
    AddHalves(u, l, x, y, W);
    Carries(u, x, if Plus(l, y) < l then 1 else 0);
  }

  lemma SubWords(u: Word, l: Word, x: Word, y: Word)
    ensures Minus(Minus(u, x), if Minus(l, y) > l then 1 else 0) * W + Minus(l, y)
            == ((u * W + l) - (x * W + y)) % M128
  {
    SubHalves(u, l, x, y, W);
    Carries(u, x, if Minus(l, y) > l then 1 else 0);
  }

  method Add128(number1: U128, number2: U128, target: U128)
    modifies target
    ensures target.V() == Wrap(old(number1.V()) + old(number2.V()))
  {
    hide Plus;
    AddWords(number1.upper, number1.lower, number2.upper, number2.lower);
    target.upper := Plus(Plus(number1.upper, number2.upper),
                         if Plus(number1.lower, number2.lower) < number1.lower then 1 else 0);
    target.lower := Plus(number1.lower, number2.lower);
  }

  lemma Carries(a: Word, b: Word, c: Word)
    ensures Plus(Plus(a, b), c) == (a + b + c) % W
    ensures Minus(Minus(a, b), c) == (a - b - c) % W
  {
    DivisionPlus((a + b) % W + c, W, (a + b) / W);
    DivisionPlus((a - b) % W - c, W, (a - b) / W);
  }

  method Sub128(number1: U128, number2: U128, target: U128)
    modifies target
    ensures target.V() == Wrap(old(number1.V()) - old(number2.V()))
  {
    hide Minus;
    SubWords(number1.upper, number1.lower, number2.upper, number2.lower);
    target.upper := Minus(Minus(number1.upper, number2.upper),
                          if Minus(number1.lower, number2.lower) > number1.lower then 1 else 0);
    target.lower := Minus(number1.lower, number2.lower);
  }

  method Or128(number1: U128, number2: U128, target: U128)
    modifies target
    ensures target.V() == Or(old(number1.V()), old(number2.V()))
  {
    hide Pow2, Or;
    Widths();
    OrSplit(number1.upper, number1.lower, number2.upper, number2.lower, 64);
    target.upper := BitOr(number1.upper, number2.upper);
    target.lower := BitOr(number1.lower, number2.lower);
  }

  // ---------------------------------------------------------------- products

  const B := 0x1_0000_0000

  type Digit = x: int | 0 <= x < 0x1_0000_0000

  function Low(w: Word): Digit { w % B }
  function High(w: Word): Digit { w / B }

  lemma WordDigits(w: Word)
    ensures w == High(w) * B + Low(w)
  {
  }

  /** The product of two digits, exact in 64 bits. */
  function Times(a: Digit, b: Digit): (p: Word)
    ensures p as int == (a as int) * (b as int)
  {
    assert (a as int) * (b as int) < W by { TimesFits(a, b); }
    ((a as int) * (b as int)) % W
  }

  lemma TimesFits(a: nat, b: nat)
    requires a < B && b < B
    ensures a * b < W
  {
    MulMonotonic(a, B - 1, b);
  }

  lemma Row(t: nat, b0: nat, b1: nat, b2: nat, b3: nat)
    ensures t * (((b0 * B + b1) * B + b2) * B + b3) == (((t * b0) * B + t * b1) * B + t * b2) * B + t * b3
  {
    Stretch2(t, (b0 * B + b1) * B + b2, b3);
    Stretch2(t, b0 * B + b1, b2);
    Stretch2(t, b0, b1);
  }

  lemma Stretch2(t: nat, x: nat, y: nat)
    ensures t * (x * B + y) == (t * x) * B + t * y
  {
    assert t * (x * B) == (t * x) * B;
  }

  /** The product of two four-digit numbers, row by row. */
  lemma Schoolbook(a: seq<Digit>, b: seq<Digit>)
    requires |a| == 4 && |b| == 4
    ensures Join(a) * Join(b) == ((RowOf(a[0], b) * B + RowOf(a[1], b)) * B + RowOf(a[2], b)) * B + RowOf(a[3], b)
  {
    var m := Join(b);
    Commutes(Join(a), m);
    Row(m, a[0], a[1], a[2], a[3]);
    forall i | 0 <= i < 4 ensures m * a[i] == RowOf(a[i], b) {
      Commutes(m, a[i]);
      Row(a[i], b[0], b[1], b[2], b[3]);
    }
  }

  /** A number from its four digits, most significant first. */
  ghost function Join(d: seq<Digit>): nat
    requires |d| == 4
  {
    ((d[0] * B + d[1]) * B + d[2]) * B + d[3]
  }

  ghost function RowOf(t: Digit, b: seq<Digit>): nat
    requires |b| == 4
  {
    ((Times(t, b[0]) * B + Times(t, b[1])) * B + Times(t, b[2])) * B + Times(t, b[3])
  }

  method Split(number: U128) returns (d: seq<Digit>)
    ensures |d| == 4 && Join(d) == number.V()
  {
    WordDigits(number.upper);
    WordDigits(number.lower);
    d := [High(number.upper), Low(number.upper), High(number.lower), Low(number.lower)];
  }

  ghost predicate Products(products: array2<Word>, top: seq<Digit>, bottom: seq<Digit>)
    reads products
  {
    && |top| == 4 && |bottom| == 4 && products.Length0 == 4 && products.Length1 == 4
    && (forall i, k :: 0 <= i < 4 && 0 <= k < 4 ==> products[i, k] == Times(top[3 - i], bottom[k]))
  }

  /** `mul128`: the product modulo 2^128. */
  method Mul128(number1: U128, number2: U128, target: U128)
    modifies target
    ensures target.V() == Wrap(old(number1.V()) * old(number2.V()))
  {
    var top := Split(number1);
    var bottom := Split(number2);
    var products := new Word[4, 4];
    for y := 4 downto 0
      invariant forall i, k :: 0 <= i < 4 && y <= k < 4 ==> products[i, k] == Times(top[3 - i], bottom[k])
    {
      for x := 4 downto 0
        invariant forall i, k :: 0 <= i < 4 && y < k < 4 ==> products[i, k] == Times(top[3 - i], bottom[k])
        invariant forall i :: 0 <= i < 4 - x ==> products[i, y] == Times(top[3 - i], bottom[y])
      {
        products[3 - x, y] := Times(top[x], bottom[y]);
      }
    }
    var columns := SumColumns(products);
    RowsOfProducts(products, top, bottom);
    Recombine(columns, target);
  }

  lemma RowsOfProducts(p: array2<Word>, top: seq<Digit>, bottom: seq<Digit>)
    requires Products(p, top, bottom)
    ensures ((RowSum(p, 3) * B + RowSum(p, 2)) * B + RowSum(p, 1)) * B + RowSum(p, 0) == Join(top) * Join(bottom)
  {
    hide Join;
    Schoolbook(top, bottom);
  }

  /** Row `i` of the products, as a number. */
  ghost function RowSum(p: array2<Word>, i: nat): nat
    requires p.Length0 == 4 && p.Length1 == 4 && i < 4
    reads p
  {
    ((p[i, 0] * B + p[i, 1]) * B + p[i, 2]) * B + p[i, 3]
  }

  /** `first32` to `fourth32`: sums below 2^36, not normalised to digits. */
  datatype Columns = Columns(first: Word, second: Word, third: Word, fourth: Word) {
    ghost function V(): int {
      ((first * B + second) * B + third) * B + fourth
    }
  }

  /** Lines 169 to 181: the columns hold the sum of the rows modulo 2^128, and none of them wraps around. */
  method SumColumns(products: array2<Word>) returns (c: Columns)
    requires products.Length0 == 4 && products.Length1 == 4
    ensures Wrap(c.V()) == Wrap(((RowSum(products, 3) * B + RowSum(products, 2)) * B + RowSum(products, 1)) * B
                                + RowSum(products, 0))
  {
    hide Plus, Low, High;
    var fourth32: Word := Low(products[0, 3]);
    var third32 := Plus(Low(products[0, 2]), High(products[0, 3]));
    var second32 := Plus(Low(products[0, 1]), High(products[0, 2]));
    var first32 := Plus(Low(products[0, 0]), High(products[0, 1]));

    third32 := Plus(third32, Low(products[1, 3]));
    second32 := Plus(second32, Plus(Low(products[1, 2]), High(products[1, 3])));
    first32 := Plus(first32, Plus(Low(products[1, 1]), High(products[1, 2])));

    second32 := Plus(second32, Low(products[2, 3]));
    first32 := Plus(first32, Plus(Low(products[2, 2]), High(products[2, 3])));

    first32 := Plus(first32, Low(products[3, 3]));

    c := Columns(first32, second32, third32, fourth32);
    Overflow(products, c);
  }

  ghost predicate ColumnsOf(p: array2<Word>, c: Columns)
    requires p.Length0 == 4 && p.Length1 == 4
    reads p
  {
    && c.fourth == Low(p[0, 3])
    && c.third == Low(p[0, 2]) + High(p[0, 3]) + Low(p[1, 3])
    && c.second == Low(p[0, 1]) + High(p[0, 2]) + Low(p[1, 2]) + High(p[1, 3]) + Low(p[2, 3])
    && c.first == Low(p[0, 0]) + High(p[0, 1]) + Low(p[1, 1]) + High(p[1, 2]) + Low(p[2, 2]) + High(p[2, 3])
                  + Low(p[3, 3])
  }

  /** What the column sums leave out, in units of 2^128. */
  ghost function CarriedOut(p: array2<Word>): nat
    requires p.Length0 == 4 && p.Length1 == 4
    reads p
  {
    High(p[0, 0]) + p[1, 0] + High(p[1, 1]) + High(p[2, 2]) + p[2, 1] + p[2, 0] * B
    + High(p[3, 3]) + p[3, 2] + p[3, 1] * B + p[3, 0] * B * B
  }

  ghost function AllRows(p: array2<Word>): nat
    requires p.Length0 == 4 && p.Length1 == 4
    reads p
  {
    ((RowSum(p, 3) * B + RowSum(p, 2)) * B + RowSum(p, 1)) * B + RowSum(p, 0)
  }

  lemma AllColumns(p: array2<Word>, c: Columns)
    requires p.Length0 == 4 && p.Length1 == 4 && ColumnsOf(p, c)
    ensures AllRows(p) == c.V() + CarriedOut(p) * M128
  {
    hide Low, High;
    WordDigits(p[0, 0]);
    WordDigits(p[0, 1]);
    WordDigits(p[0, 2]);
    WordDigits(p[0, 3]);
    WordDigits(p[1, 1]);
    WordDigits(p[1, 2]);
    WordDigits(p[1, 3]);
    WordDigits(p[2, 2]);
    WordDigits(p[2, 3]);
    WordDigits(p[3, 3]);
  }

  lemma Overflow(p: array2<Word>, c: Columns)
    requires p.Length0 == 4 && p.Length1 == 4 && ColumnsOf(p, c)
    ensures Wrap(c.V()) == Wrap(((RowSum(p, 3) * B + RowSum(p, 2)) * B + RowSum(p, 1)) * B + RowSum(p, 0))
  {
    AllColumns(p, c);
    hide RowSum, Columns.V, CarriedOut, ColumnsOf;
    DivisionPlus(c.V(), M128, CarriedOut(p));
  }

  lemma HalfWordShifts(w: Word)
    ensures Shl(w, 32) == Low(w) * B && Shr(w, 32) == High(w)
  {
    hide Pow2;
    Pow2Word();
    Shifts(w, 32);
    assert w * B == High(w) * W + Low(w) * B;
    DivisionIsUnique(w * B, W, High(w), Low(w) * B);
  }

  lemma Places(c: Columns)
    ensures Wrap(Shl(c.first, 32) * W + (Shr(c.third, 32) * W + Shl(c.third, 32)) + c.second * W + c.fourth)
            == Wrap(c.V())
  {
    hide Shl, Shr, Low, High;
    HalfWordShifts(c.first);
    HalfWordShifts(c.third);
    WordDigits(c.first);
    WordDigits(c.third);
    DivisionPlus(Shl(c.first, 32) * W + (Shr(c.third, 32) * W + Shl(c.third, 32)) + c.second * W + c.fourth, M128,
                 High(c.first));
  }

  lemma SumChain(x: nat, y: nat, z: nat)
    ensures Wrap(z + Wrap(y + Wrap(x))) == Wrap(x + y + z)
  {
  }

  method Set128(target: U128, upper: Word, lower: Word)
    modifies target
    ensures target.V() == upper * W + lower
  {
    target.upper := upper;
    target.lower := lower;
  }

  /** Lines 183 to 193: the columns are added up, each shifted to its place. */
  method Recombine(c: Columns, target: U128)
    modifies target
    ensures target.V() == Wrap(c.V())
  {
    hide Pow2, Shl, Shr, Wrap, U128.V;
    Places(c);
    ghost var x := Shl(c.first, 32) * W + (Shr(c.third, 32) * W + Shl(c.third, 32));
    var tmp := new U128();
    Set128(tmp, Shl(c.first, 32), 0);
    var tmp2 := new U128();
    Set128(tmp2, Shr(c.third, 32), Shl(c.third, 32));
    Add128(tmp, tmp2, target);
    Set128(tmp, c.second, 0);
    Add128(tmp, target, tmp2);
    Set128(tmp, 0, c.fourth);
    Add128(tmp, tmp2, target);
    SumChain(x, c.second * W, c.fourth);
  }

  // ---------------------------------------------------------------- quotients

  lemma Small(n: int)
    requires 0 <= n < M128
    ensures Wrap(n) == n
  {
  }

  /** Lines 201 to 204, 211 and 212: the leading bit of the divisor is moved to that of the dividend. */
  method ShiftUp128(l: U128, r: U128, copyd: U128, adder: U128) returns (diffBits: nat)
    requires 0 < r.V() <= l.V()
    requires copyd != adder && copyd !in {l, r} && adder !in {l, r}
    modifies copyd, adder
    ensures copyd.V() == r.V() * adder.V() && adder.V() == Pow2(diffBits)
    ensures l.V() < 2 * copyd.V() && (copyd.V() > l.V() ==> diffBits > 0)
  {
    hide Pow2, BitLength, Wrap, U128.V, LeftBy;
    ghost var n, d := l.V(), r.V();
    var one := new U128();
    Set128(one, 0, 1);
    var bitsL := Bits128(l);
    var bitsR := Bits128(r);
    Aligned(n, d);
    diffBits := (bitsL - bitsR) % SIZE_T;
    ghost var p := Pow2(diffBits);
    Widths();
    Pow2Monotonic(BitLength(n), 128);
    Small(d * p);
    Bounded(diffBits, 128);
    Small(p);
    Moved(d, diffBits);
    Shiftl128(r, diffBits, copyd);
    Shiftl128(one, diffBits, adder);
  }

  /** The same, and lines 213 to 216: one bit less when that is more than the dividend. */
  method Align128(l: U128, r: U128, copyd: U128, adder: U128) returns (ghost k: nat)
    requires 0 < r.V() <= l.V()
    requires copyd != adder && copyd !in {l, r} && adder !in {l, r}
    modifies copyd, adder
    ensures Dividing(l.V(), r.V(), copyd.V(), adder.V(), 0, l.V(), k)
  {
    hide Pow2, Dividing, U128.V, RightBy;
    var diffBits := ShiftUp128(l, r, copyd, adder);
    k := diffBits;
    var above := Gt128(copyd, l);
    if above {
      Lowered(r.V(), k);
      ByOneBit(copyd.V());
      ByOneBit(adder.V());
      Shiftr128(copyd, 1, copyd);
      Shiftr128(adder, 1, adder);
      k := k - 1;
    }
    Start(l.V(), r.V(), copyd.V(), adder.V(), k);
  }

  lemma Moved(d: nat, k: nat)
    ensures LeftBy(d, k) == d * Pow2(k) && LeftBy(1, k) == Pow2(k)
  {
  }

  lemma Bounded(k: nat, n: nat)
    requires k < n
    ensures Pow2(k) < Pow2(n)
  {
    PowStrict(2, k, n);
  }

  /** Lines 218 to 223: one bit of the quotient. */
  method DivideRound128(copyd: U128, adder: U128, resDiv: U128, resMod: U128, ghost n: nat, ghost d: nat, ghost k: int)
    requires |{copyd, adder, resDiv, resMod}| == 4
    requires Dividing(n, d, copyd.V(), adder.V(), resDiv.V(), resMod.V(), k) && resMod.V() >= d
    modifies copyd, adder, resDiv, resMod
    ensures k >= 0 && Dividing(n, d, copyd.V(), adder.V(), resDiv.V(), resMod.V(), k - 1)
  {
    hide Pow2, Or, Wrap, Dividing, LeftBy, RightBy;
    ByOneBit(copyd.V());
    ByOneBit(adder.V());
    Round(n, d, copyd.V(), adder.V(), resDiv.V(), resMod.V(), k);
    var fits := Gte128(resMod, copyd);
    if fits {
      Small(resMod.V() - copyd.V());
      Sub128(resMod, copyd, resMod);
      Or128(resDiv, adder, resDiv);
    }
    Shiftr128(copyd, 1, copyd);
    Shiftr128(adder, 1, adder);
  }

  /** Lines 217 to 224. */
  method Divide128(r: U128, copyd: U128, adder: U128, resDiv: U128, resMod: U128, ghost n: nat, ghost start: nat)
    requires |{copyd, adder, resDiv, resMod}| == 4 && r !in {copyd, adder, resDiv, resMod}
    requires Dividing(n, r.V(), copyd.V(), adder.V(), resDiv.V(), resMod.V(), start)
    modifies copyd, adder, resDiv, resMod
    ensures Divided(n, r.V(), resDiv.V(), resMod.V())
  {
    hide Dividing, Divided;
    ghost var k: int := start;
    var more := Gte128(resMod, r);
    while more
      invariant Dividing(n, r.V(), copyd.V(), adder.V(), resDiv.V(), resMod.V(), k)
      invariant more == (resMod.V() >= r.V()) && k >= -1
      decreases k
    {
      DivideRound128(copyd, adder, resDiv, resMod, n, r.V(), k);
      k := k - 1;
      more := Gte128(resMod, r);
    }
    Finished(n, r.V(), copyd.V(), adder.V(), resDiv.V(), resMod.V(), k);
  }

  /** `divmod128` by a divisor other than 0; `l`, `r` and the results may share objects. */
  method Divmod128(l: U128, r: U128, retDiv: U128, retMod: U128)
    requires r.V() != 0 && retDiv != retMod
    modifies retDiv, retMod
    ensures Divided(old(l.V()), old(r.V()), retDiv.V(), retMod.V())
  {
    hide Dividing, Divided;
    var copyd := new U128();
    var adder := new U128();
    var resDiv := new U128();
    var resMod := new U128();
    DividedByMore(l.V(), r.V());
    Clear128(resDiv);
    Copy128(resMod, l);
    var less := Gt128(r, l);
    if less {
      Copy128(retMod, l);
      Clear128(retDiv);
    } else {
      ghost var k := Align128(l, r, copyd, adder);
      Divide128(r, copyd, adder, resDiv, resMod, l.V(), k);
      Copy128(retDiv, resDiv);
      Copy128(retMod, resMod);
    }
  }
}
