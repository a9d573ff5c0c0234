/** Numbers as text: `tostring256` (`src/common/uint256.c`) and `reverseString` (`src/common/uint_common.c`). */
module Numerals {
  import opened Bytes
  import opened Radix
  import opened Powers
  import opened Halves
  import opened Division
  import opened Uint128
  import opened Uint256

  const HEXDIGITS := "0123456789abcdef"

  function DigitChar(d: nat): char
    requires d < 16
  {
    HEXDIGITS[d]
  }

  /** The digits' character codes. */
  lemma DigitCodes(d: nat)
    requires d < 16
    ensures DigitChar(d) as int == if d < 10 then 0x30 + d else 0x61 + (d - 10)
  {
  }

  /** The number a digit stands for; 16 when it is none. */
  function DigitValue(c: char): nat {
    if '0' <= c <= '9' then c as int - '0' as int
    else if 'a' <= c <= 'f' then c as int - 'a' as int + 10
    else 16
  }

  lemma DigitRoundTrip(d: nat)
    requires d < 16
    ensures DigitValue(DigitChar(d)) == d
  {
  }

  lemma CharRoundTrip(c: char)
    requires DigitValue(c) < 16
    ensures DigitChar(DigitValue(c)) == c
  {
  }

  /** The numeral of `n`: its digits without leading zeros, and "0" for zero. */
  function Numeral(n: nat, base: nat): (s: string)
    requires 2 <= base <= 16
    ensures |s| > 0
  {
    if n < base then [DigitChar(n)]
    else
      assert n / base < n by { Shrinks(n, base); }
      Numeral(n / base, base) + [DigitChar(n % base)]
  }

  /** The number that a string of digits denotes. */
  function Number(s: string, base: nat): nat {
    if s == "" then 0 else Number(s[..|s| - 1], base) * base + DigitValue(s[|s| - 1])
  }

  ghost predicate Digits(s: string, base: nat) {
    forall i :: 0 <= i < |s| ==> DigitValue(s[i]) < base
  }

  /** A numeral as it should be: digits, at least one, and no leading zero but in "0" itself. */
  ghost predicate IsNumeral(s: string, base: nat) {
    Digits(s, base) && s != "" && (s[0] == '0' ==> s == "0")
  }

  lemma NumberAppend(s: string, c: char, base: nat)
    ensures Number(s + [c], base) == Number(s, base) * base + DigitValue(c)
    ensures Number("", base) == 0 && Number([c], base) == DigitValue(c)
  {
    assert (s + [c])[..|s|] == s;
  }

  /** Digit `k` from the right of the number that `s` denotes. */
  lemma {:induction false} DigitOfNumber(s: string, base: nat, k: nat)
    requires base > 0 && Digits(s, base) && k < |s|
    ensures Number(s, base) / Pow(base, k) % base == DigitValue(s[|s| - 1 - k])
  {
    var t := s[..|s| - 1];
    QuotientOf(Number(t, base), base, DigitValue(s[|s| - 1]));
    if k > 0 {
      DigitOfNumber(t, base, k - 1);
      DivisionSteps(Number(s, base), base, Pow(base, k - 1));
    }
  }

  /** The numeral of `n` is well formed and reads back as `n`. */
  lemma {:induction false} NumeralDenotes(n: nat, base: nat)
    requires 2 <= base <= 16
    ensures IsNumeral(Numeral(n, base), base)
    ensures Number(Numeral(n, base), base) == n
    ensures n > 0 ==> Numeral(n, base)[0] != '0'
  {
    hide Number;
    if n < base {
      DigitRoundTrip(n);
      NumberAppend("", DigitChar(n), base);
    } else {
      Shrinks(n, base);
      Rejoined(n, base);
      QuotientPositive(n, base);
      var s, c := Numeral(n / base, base), DigitChar(n % base);
      NumeralDenotes(n / base, base);
      DigitRoundTrip(n % base);
      NumberAppend(s, c, base);
    }
  }

  lemma Nonzero(q: nat, base: nat, r: nat)
    requires q * base + r >= 2 * base && r < base
    ensures q > 0
  {
  }

  lemma QuotientPositive(n: nat, base: nat)
    requires 0 < base <= n
    ensures n / base > 0
  {
    if n < 2 * base {
      DivisionIsUnique(n, base, 1, n - base);
    } else {
      Rejoined(n, base);
      Nonzero(n / base, base, n % base);
    }
  }

  /** Nothing else denotes `n`: a well-formed numeral is the numeral of its number. */
  lemma {:induction false} NumeralIsUnique(s: string, base: nat)
    requires 2 <= base <= 16 && IsNumeral(s, base)
    ensures Numeral(Number(s, base), base) == s
  {
    hide Number;
    var t, c := s[..|s| - 1], s[|s| - 1];
    CharRoundTrip(c);
    QuotientOf(Number(t, base), base, DigitValue(c));
    assert s == t + [c];
    NumberAppend(t, c, base);
    if t != "" {
      LeadingDigitCounts(t, base);
      MulAtLeast(Number(t, base), base);
      NumeralIsUnique(t, base);
    }
  }

  lemma {:induction false} LeadingDigitCounts(s: string, base: nat)
    requires s != "" && s[0] != '0' && base > 0 && Digits(s, base) && base <= 16
    ensures Number(s, base) > 0
  {
    var t := s[..|s| - 1];
    if t == "" {
      CharRoundTrip(s[0]);
    } else {
      LeadingDigitCounts(t, base);
      MulAtLeast(Number(t, base), base);
    }
  }

  /** A number below `base^k` takes at most `k` characters. */
  lemma {:induction false} NumeralLength(n: nat, base: nat, k: nat)
    requires 2 <= base <= 16 && n < Pow(base, k) && k > 0
    ensures |Numeral(n, base)| <= k
  {
    if n >= base {
      PowStep(base, 0);
      QuotientFits(n, base, Pow(base, k - 1));
      Shrinks(n, base);
      NumeralLength(n / base, base, k - 1);
    }
  }

  lemma Cancels(q: nat, p: nat, base: nat)
    requires q * base < base * p
    ensures q < p
  {
    if q >= p {
      MulMonotonic(p, q, base);
    }
  }

  lemma {:induction false} NumberBelow(s: string, base: nat)
    requires Digits(s, base) && base > 0
    ensures Number(s, base) < Pow(base, |s|)
  {
    if s == "" {
      PowStep(base, 0);
    } else {
      hide Pow;
      var t, d := s[..|s| - 1], DigitValue(s[|s| - 1]);
      NumberBelow(t, base);
      PowStep(base, |t|);
      ScaledBelow(Number(t, base), base, Pow(base, |t|), d);
    }
  }

  /** The numeral of a number takes at most `k` characters exactly when the number is below `base^k`. */
  lemma NumeralFits(n: nat, base: nat, k: nat)
    requires 2 <= base <= 16 && k > 0
    ensures |Numeral(n, base)| <= k <==> n < Pow(base, k)
  {
    hide Numeral, Pow;
    if n < Pow(base, k) {
      NumeralLength(n, base, k);
    } else {
      NumeralDenotes(n, base);
      NumberBelow(Numeral(n, base), base);
      if |Numeral(n, base)| <= k {
        PowMonotonic(base, |Numeral(n, base)|, k);
      }
    }
  }

  lemma QuotientFits(n: nat, base: nat, p: nat)
    requires base > 0 && n < base * p
    ensures n / base < p
  {
    Rejoined(n, base);
    Cancels(n / base, p, base);
  }

  /** 256-bit numbers have at most 78 decimal digits. */
  lemma DecimalDigits()
    ensures M256 < Pow(10, 78)
  {
    assert Pow(10, 1) == 10 && Pow(10, 2) == 100 && Pow(10, 3) == 1000;
    hide Pow;
    PowAdd(10, 3, 3);
    assert Pow(10, 6) == 1_000_000;
    PowAdd(10, 6, 6);
    assert Pow(10, 12) == 1_000_000_000_000;
    PowAdd(10, 12, 12);
    assert Pow(10, 24) == 1_000_000_000_000_000_000_000_000;
    PowAdd(10, 24, 24);
    PowAdd(10, 48, 24);
    PowAdd(10, 72, 6);
  }

  // ---------------------------------------------------------------- the algorithms

  /** A C string. */
  ghost predicate Holds(out: array<char>, at: nat, text: string)
    reads out
  {
    at + |text| < out.Length && out[at..at + |text|] == text && out[at + |text|] == '\0'
  }

  /** Only the characters from `from` to `to` of `out` may differ from `before`. */
  ghost predicate Only(before: seq<char>, out: array<char>, from: nat, to: nat)
    reads out
  {
    && |before| == out.Length
    && forall k :: 0 <= k < out.Length && !(from <= k < to) ==> out[k] == before[k]
  }

  function Reversed(s: string): (r: string)
    ensures |r| == |s|
    ensures forall i :: 0 <= i < |s| ==> r[i] == s[|s| - 1 - i]
  {
    if s == "" then "" else [s[|s| - 1]] + Reversed(s[..|s| - 1])
  }

  /** `reverseString` on the `length` characters from `at`. */
  method ReverseString(str: array<char>, at: nat, length: nat)
    requires 0 < length && at + length <= str.Length
    modifies str
    ensures str[at..at + length] == Reversed(old(str[at..at + length]))
    ensures Only(old(str[..]), str, at, at + length)
  {
    hide Reversed;
    var i, j := 0, length - 1;
    while i < j
      invariant 0 <= i <= j + 1 <= length && i + j == length - 1
      invariant forall k :: 0 <= k < str.Length && !(at <= k < at + length) ==> str[k] == old(str[k])
      invariant forall k :: at <= k < at + i || at + j < k < at + length ==> str[k] == old(str[2 * at + length - 1 - k])
      invariant forall k :: at + i <= k <= at + j ==> str[k] == old(str[k])
    {
      str[at + i], str[at + j] := str[at + j], str[at + i];
      i, j := i + 1, j - 1;
    }
    ghost var r := Reversed(old(str[at..at + length]));
    forall k | 0 <= k < length ensures str[at + k] == r[k] {
      assert str[at + k] == old(str[2 * at + length - 1 - (at + k)]);
    }
    assert str[at..at + length] == r;
  }

  /** The digits still to come; none for zero. */
  function Rest(n: nat, base: nat): string
    requires 2 <= base <= 16
  {
    if n == 0 then "" else Numeral(n, base)
  }

  lemma LastDigit(n: nat, base: nat)
    requires 2 <= base <= 16
    ensures Numeral(n, base) == Rest(n / base, base) + [DigitChar(n % base)]
  {
    if n < base {
      DivisionIsUnique(n, base, 0, n);
    } else {
      QuotientPositive(n, base);
    }
  }

  lemma ReversedAppend(s: string, c: char)
    ensures Reversed(s + [c]) == [c] + Reversed(s)
  {
    assert (s + [c])[..|s|] == s;
  }

  /** How far the digits of `n` are written: `written` backwards, after the rest. */
  ghost predicate Writing(n: nat, base: nat, rest: nat, written: string) {
    && 2 <= base <= 16
    && if written == "" then rest == n else Numeral(n, base) == Rest(rest, base) + Reversed(written)
  }

  lemma WriteDigit(n: nat, base: nat, rest: nat, written: string, q: nat, r: nat)
    requires Writing(n, base, rest, written) && (written == "" || rest > 0) && Divided(rest, base, q, r)
    ensures r < 16 && Writing(n, base, q, written + [DigitChar(r)])
    ensures |Numeral(n, base)| > |written| && (rest > 0 ==> q < rest) && (rest == 0 ==> q == 0)
  {
    DivisionIsUnique(rest, base, q, r);
    LastDigit(rest, base);
    ReversedAppend(written, DigitChar(r));
    assert Reversed("") == "";
    hide Numeral, Reversed, DigitChar;
    if rest > 0 {
      Shrinks(rest, base);
    }
  }

  /** `LOWER(LOWER(number))`. */
  method LowWord(number: U256) returns (w: Word)
    ensures number.V() < W ==> w == number.V()
  {
    w := number.lower.lower;
    Ordered(number.upper.V(), number.lower.V(), 0, w, M128);
    Ordered(0, 0, number.upper.V(), number.lower.V(), M128);
    if number.V() < W {
      BelowHalf(number.upper.V(), number.lower.V(), M128);
      BelowHalf(number.lower.upper, number.lower.lower, W);
    }
  }

  lemma BelowHalf(u: nat, l: nat, m: nat)
    requires u * m + l < m
    ensures u == 0
  {
  }

  /** Lines 246 and 247: one digit. */
  method WriteStep(rDiv: U256, base: U256, rMod: U256, out: array<char>, at: nat, offset: nat, ghost n: nat)
    requires Distinct(rDiv, rMod) && Distinct(base, rDiv) && Distinct(base, rMod) && 2 <= base.V() <= 16
    requires at + offset < out.Length
    requires Writing(n, base.V(), rDiv.V(), out[at..at + offset]) && (offset == 0 || rDiv.V() > 0)
    modifies rDiv.upper, rDiv.lower, rMod.upper, rMod.lower, out
    ensures Only(old(out[..]), out, at + offset, at + offset + 1)
    ensures Writing(n, base.V(), rDiv.V(), out[at..at + offset + 1])
    ensures old(rDiv.V()) > 0 ==> rDiv.V() < old(rDiv.V())
    ensures old(rDiv.V()) == 0 ==> rDiv.V() == 0
  {
    hide U256.V, U128.V, Divided, Numeral, Writing;
    ghost var rest, written := rDiv.V(), out[at..at + offset];
    Divmod256(rDiv, base, rDiv, rMod);
    WriteDigit(n, base.V(), rest, written, rDiv.V(), rMod.V());
    var digit := LowWord(rMod);
    out[at + offset] := HEXDIGITS[digit];
    assert out[at..at + offset + 1] == written + [DigitChar(digit)];
  }

  lemma Written(n: nat, base: nat, rest: nat, written: string)
    requires Writing(n, base, rest, written)
    ensures written == "" || rest > 0 ==> |Numeral(n, base)| > |written|
    ensures written != "" && rest == 0 ==> Numeral(n, base) == Reversed(written)
  {
  }

  lemma NothingWritten(n: nat, base: nat)
    requires 2 <= base <= 16
    ensures Writing(n, base, n, "")
  {
  }

  /** Lines 230 to 237. */
  method Prepare(number: U256, baseParam: Word) returns (rDiv: U256, rMod: U256, base: U256)
    requires number.Valid()
    ensures Distinct(rDiv, rMod) && Distinct(base, rDiv) && Distinct(base, rMod)
    ensures fresh(rDiv.upper) && fresh(rDiv.lower) && fresh(rMod.upper) && fresh(rMod.lower)
    ensures fresh(base.upper) && fresh(base.lower)
    ensures rDiv.V() == number.V() && base.V() == baseParam
  {
    hide U256.V, U128.V;
    rDiv := new U256();
    rMod := new U256();
    base := new U256();
    Copy256(rDiv, number);
    Clear256(rMod);
    Clear256(base);
    SetWord(base, baseParam);
  }

  /** The room that the code believes in: `outLength - 1` wraps around for 0, and no limit is left. */
  function Room(outLength: nat): nat { if outLength == 0 then SIZE_T else outLength }

  /** How far the code writes for a numeral and its terminator. */
  function Reach(text: string, room: nat): nat { if |text| + 1 <= room then |text| + 1 else room }

  /** Lines 242 to 252: the digits, last one first. */
  method WriteDigits(number: U256, baseParam: Word, out: array<char>, at: nat, outLength: nat)
    returns (ok: bool, offset: nat)
    requires number.Valid() && outLength < SIZE_T && 2 <= baseParam <= 16
    requires at + Reach(Numeral(number.V(), baseParam), Room(outLength)) <= out.Length
    modifies out
    ensures Only(old(out[..]), out, at, at + Reach(Numeral(number.V(), baseParam), Room(outLength)))
    ensures ok == (|Numeral(number.V(), baseParam)| + 1 <= Room(outLength))
    ensures ok ==> 0 < offset == |Numeral(number.V(), baseParam)|
                   && Numeral(number.V(), baseParam) == Reversed(out[at..at + offset])
                   && Only(old(out[..]), out, at, at + offset)
  {
    hide U256.V, U128.V, Divided, Numeral, Writing;
    ghost var n := number.V();
    var rDiv, rMod, base := Prepare(number, baseParam);
    offset := 0;
    NothingWritten(n, baseParam);
    assert out[at..at + offset] == "";
    var more := true;
    while more
      invariant fresh(rDiv.upper) && fresh(rDiv.lower) && fresh(rMod.upper) && fresh(rMod.lower) && Distinct(rDiv, rMod)
      invariant Distinct(base, rDiv) && Distinct(base, rMod) && base.V() == baseParam
      invariant 0 <= offset <= Room(outLength) && offset <= |Numeral(n, baseParam)|
      invariant Only(old(out[..]), out, at, at + offset)
      invariant Writing(n, baseParam, rDiv.V(), out[at..at + offset])
      invariant more == (offset == 0 || rDiv.V() > 0)
      decreases if more then rDiv.V() + 1 else 0
    {
      Written(n, baseParam, rDiv.V(), out[at..at + offset]);
      if offset > (outLength - 1) % SIZE_T {
        return false, offset;
      }
      WriteStep(rDiv, base, rMod, out, at, offset, n);
      offset := offset + 1;
      var zero := Zero256(rDiv);
      more := !zero;
    }
    Written(n, baseParam, rDiv.V(), out[at..at + offset]);
    ok := !(offset > (outLength - 1) % SIZE_T);
  }

  /** Lines 254 and 255. */
  method FinishString(out: array<char>, at: nat, offset: nat)
    requires 0 < offset && at + offset < out.Length
    modifies out
    ensures Holds(out, at, Reversed(old(out[at..at + offset]))) && Only(old(out[..]), out, at, at + offset + 1)
  {
    ghost var written := out[at..at + offset];
    out[at + offset] := '\0';
    assert out[at..at + offset] == written;
    ReverseString(out, at, offset);
  }

  /**
   `tostring256` into `out` from `at` on.  It succeeds exactly when the base is 2 to 16 and the numeral and its
   terminator fit the room the code believes in; memory is asked for only as far as it writes.
   */
  method Tostring256(number: U256, baseParam: Word, out: array<char>, at: nat, outLength: nat) returns (ok: bool)
    requires number.Valid() && outLength < SIZE_T
    requires 2 <= baseParam <= 16 ==> at + Reach(Numeral(number.V(), baseParam), Room(outLength)) <= out.Length
    modifies out
    ensures ok == (2 <= baseParam <= 16 && |Numeral(number.V(), baseParam)| + 1 <= Room(outLength))
    ensures ok ==> Holds(out, at, Numeral(number.V(), baseParam))
    ensures 2 <= baseParam <= 16 ==>
              Only(old(out[..]), out, at, at + Reach(Numeral(number.V(), baseParam), Room(outLength)))
    ensures !(2 <= baseParam <= 16) ==> out[..] == old(out[..])
  {
    hide U256.V, Numeral;
    if baseParam < 2 || baseParam > 16 {
      return false;
    }
    var offset;
    ok, offset := WriteDigits(number, baseParam, out, at, outLength);
    if !ok {
      return;
    }
    FinishString(out, at, offset);
  }

  // ---------------------------------------------------------------- signed numbers

  /** The two's-complement reading of a 256-bit number. */
  function Signed(n: nat): int {
    if n > (M256 - 1) / 2 then n - M256 else n
  }

  function SignedNumeral(v: int, base: nat): string
    requires 2 <= base <= 16
  {
    if v < 0 then "-" + Numeral(-v, base) else Numeral(v, base)
  }

  /** `memset(&number, 0xFF, sizeof(number))`. */
  method AllOnes() returns (number: U256)
    ensures number.Valid() && fresh(number.upper) && fresh(number.lower) && number.V() == M256 - 1
  {
    number := new U256();
    number.upper.upper, number.upper.lower := W - 1, W - 1;
    number.lower.upper, number.lower.lower := W - 1, W - 1;
  }

  method Constant(word: Word) returns (number: U256)
    ensures number.Valid() && fresh(number.upper) && fresh(number.lower) && number.V() == word
  {
    number := new U256();
    Clear256(number);
    SetWord(number, word);
  }

  /** Lines 282 to 286: the largest signed value. */
  method MaxSigned(maxUnsignedVal: U256) returns (maxSignedVal: U256)
    requires maxUnsignedVal.Valid() && maxUnsignedVal.V() == M256 - 1
    ensures maxSignedVal.Valid() && fresh(maxSignedVal.upper) && fresh(maxSignedVal.lower)
    ensures maxSignedVal.V() == (M256 - 1) / 2
  {
    hide U256.V, Divided;
    var twoVal := Constant(2);
    maxSignedVal := new U256();
    var tmp := new U256();
    Divmod256(maxUnsignedVal, twoVal, maxSignedVal, tmp);
    HalfOfAll(maxSignedVal.V(), tmp.V());
  }

  /** Lines 279 to 290: whether the number is negative, and then its absolute value. */
  method Negated(number: U256) returns (negative: bool, tmp: U256)
    requires number.Valid()
    ensures negative == (Signed(number.V()) < 0)
    ensures tmp.Valid() && fresh(tmp.upper) && fresh(tmp.lower)
    ensures negative ==> tmp.V() == -Signed(number.V())
  {
    hide U256.V, Wrap256;
    var maxUnsignedVal := AllOnes();
    var maxSignedVal := MaxSigned(maxUnsignedVal);
    negative := Gt256(number, maxSignedVal);
    tmp := new U256();
    if negative {
      Small256(M256 - 1 - number.V());
      Sub256(maxUnsignedVal, number, tmp);
      var oneVal := Constant(1);
      Small256(M256 - number.V());
      Add256(tmp, oneVal, tmp);
    }
  }

  lemma HalfOfAll(q: nat, m: nat)
    requires Divided(M256 - 1, 2, q, m)
    ensures q == (M256 - 1) / 2
  {
  }

  /** The number that is shown: base 10 shows the two's-complement value, other bases the bare number. */
  function Displayed(n: nat, base: nat): int { if base == 10 then Signed(n) else n }

  /** The sign takes one place, and what is left may have wrapped around. */
  function SignedRoom(v: int, outLength: nat): nat {
    if v < 0 then 1 + Room((outLength - 1) % SIZE_T) else Room(outLength)
  }

  /** `tostring256_signed`. */
  method Tostring256Signed(number: U256, base: Word, out: array<char>, at: nat, outLength: nat) returns (ok: bool)
    requires number.Valid() && outLength < SIZE_T
    requires 2 <= base <= 16 ==>
               var v := Displayed(number.V(), base);
               at + Reach(SignedNumeral(v, base), SignedRoom(v, outLength)) <= out.Length
    modifies out
    ensures var v := Displayed(number.V(), base);
            ok == (2 <= base <= 16 && |SignedNumeral(v, base)| + 1 <= SignedRoom(v, outLength))
    ensures ok ==> Holds(out, at, SignedNumeral(Displayed(number.V(), base), base))
    ensures 2 <= base <= 16 ==>
              var v := Displayed(number.V(), base);
              Only(old(out[..]), out, at, at + Reach(SignedNumeral(v, base), SignedRoom(v, outLength)))
    ensures !(2 <= base <= 16) ==> out[..] == old(out[..])
  {
    hide U256.V, Numeral;
    if base == 10 {
      var negative, tmp := Negated(number);
      if negative {
        out[at] := '-';
        ok := Tostring256(tmp, base, out, at + 1, (outLength - 1) % SIZE_T);
        return;
      }
    }
    ok := Tostring256(number, base, out, at, outLength);
  }
}
