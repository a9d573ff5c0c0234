/** Base58 encoding (`src/common/base58.c`), as in draft-msporny-base58-02, sections 2 to 4. */
module Base58 {
  import opened Bytes
  import opened Radix
  import opened Halves

  const MAX_DEC_INPUT_SIZE := 164
  const MAX_ENC_INPUT_SIZE := 120

  const LETTERS0 := "123456789ABCDEF"
  const LETTERS1 := "GHJKLMNPQRSTUVW"
  const LETTERS2 := "XYZabcdefghijkm"
  const LETTERS3 := "nopqrstuvwxyz"
  const BASE58_ALPHABET := LETTERS0 + LETTERS1 + LETTERS2 + LETTERS3

  /** The decoding table, in the rows of twelve it is written in. */
  const NO_DIGITS: seq<Byte> := [0xFF, 0xFF, 0xFF, 0xFF, 0xFF, 0xFF, 0xFF, 0xFF, 0xFF, 0xFF, 0xFF, 0xFF]
  const ROW4: seq<Byte> := [0xFF, 0x00, 0x01, 0x02, 0x03, 0x04, 0x05, 0x06, 0x07, 0x08, 0xFF, 0xFF]
  const ROW5: seq<Byte> := [0xFF, 0xFF, 0xFF, 0xFF, 0xFF, 0x09, 0x0A, 0x0B, 0x0C, 0x0D, 0x0E, 0x0F]
  const ROW6: seq<Byte> := [0x10, 0xFF, 0x11, 0x12, 0x13, 0x14, 0x15, 0xFF, 0x16, 0x17, 0x18, 0x19]
  const ROW7: seq<Byte> := [0x1A, 0x1B, 0x1C, 0x1D, 0x1E, 0x1F, 0x20, 0xFF, 0xFF, 0xFF, 0xFF, 0xFF]
  const ROW8: seq<Byte> := [0xFF, 0x21, 0x22, 0x23, 0x24, 0x25, 0x26, 0x27, 0x28, 0x29, 0x2A, 0x2B]
  const ROW9: seq<Byte> := [0xFF, 0x2C, 0x2D, 0x2E, 0x2F, 0x30, 0x31, 0x32, 0x33, 0x34, 0x35, 0x36]
  const ROW10: seq<Byte> := [0x37, 0x38, 0x39, 0xFF, 0xFF, 0xFF, 0xFF, 0xFF]
  const LOW_ROWS: seq<Byte> := NO_DIGITS + NO_DIGITS + NO_DIGITS + NO_DIGITS + ROW4 + ROW5
  const HIGH_ROWS: seq<Byte> := ROW6 + ROW7 + ROW8 + ROW9 + ROW10
  const BASE58_TABLE: seq<Byte> := LOW_ROWS + HIGH_ROWS

  // ---------------------------------------------------------------- the two tables

  function Letter(d: nat): char
    requires d < 58
  {
    BASE58_ALPHABET[d]
  }

  /** The table's entry for a character, 0xFF beyond the table. */
  function DigitOf(c: char): Byte {
    if c as int < 128 then BASE58_TABLE[c as int] else 0xFF
  }

  /** The alphabet as runs of consecutive characters. */
  function LetterCode(d: nat): nat
    requires d < 58
  {
    if d < 9 then '1' as int + d
    else if d < 17 then 'A' as int + (d - 9)
    else if d < 22 then 'J' as int + (d - 17)
    else if d < 33 then 'P' as int + (d - 22)
    else if d < 44 then 'a' as int + (d - 33)
    else 'm' as int + (d - 44)
  }

  /** The 58 characters: the digits but 0, the capitals but I and O, the small letters but l. */
  lemma AlphabetRuns(d: nat)
    requires d < 58
    ensures Letter(d) as int == LetterCode(d)
    ensures Letter(d) as int == if d <= 8 then '1' as int + d
                                else if d <= 16 then 'A' as int + d - 9
                                else if d <= 21 then 'J' as int + d - 17
                                else if d <= 32 then 'P' as int + d - 22
                                else if d <= 43 then 'a' as int + d - 33
                                else 'm' as int + d - 44
  {
    if d < 15 {
      assert Letter(d) == LETTERS0[d];
    } else if d < 30 {
      assert Letter(d) == LETTERS1[d - 15];
    } else if d < 45 {
      assert Letter(d) == LETTERS2[d - 30];
    } else {
      assert Letter(d) == LETTERS3[d - 45];
    }
  }

  /** The digit of a character code, run by run. */
  function CodeDigit(c: nat): nat {
    if '1' as int <= c <= '9' as int then c - '1' as int
    else if 'A' as int <= c <= 'H' as int then c - 'A' as int + 9
    else if 'J' as int <= c <= 'N' as int then c - 'J' as int + 17
    else if 'P' as int <= c <= 'Z' as int then c - 'P' as int + 22
    else if 'a' as int <= c <= 'k' as int then c - 'a' as int + 33
    else if 'm' as int <= c <= 'z' as int then c - 'm' as int + 44
    else 0xFF
  }

  /** The table row by row. */
  lemma TableRows(c: nat)
    requires c < 128
    ensures |BASE58_TABLE| == 128
    ensures BASE58_TABLE[c] == (
              if c < 48 then NO_DIGITS[c % 12]
              else if c < 60 then ROW4[c - 48]
              else if c < 72 then ROW5[c - 60]
              else if c < 84 then ROW6[c - 72]
              else if c < 96 then ROW7[c - 84]
              else if c < 108 then ROW8[c - 96]
              else if c < 120 then ROW9[c - 108]
              else ROW10[c - 120])
  {
    if c < 72 {
      LowRows(c);
    } else {
      HighRows(c - 72);
    }
    RowLengths();
  }

  lemma RowLengths()
    ensures |LOW_ROWS| == 72 && |HIGH_ROWS| == 56
  {
  }

  lemma LowRows(c: nat)
    requires c < 72
    ensures |LOW_ROWS| == 72
    ensures LOW_ROWS[c] == if c < 48 then NO_DIGITS[c % 12] else if c < 60 then ROW4[c - 48] else ROW5[c - 60]
  {
  }

  lemma HighRows(c: nat)
    requires c < 56
    ensures |HIGH_ROWS| == 56
    ensures HIGH_ROWS[c] == if c < 12 then ROW6[c] else if c < 24 then ROW7[c - 12] else if c < 36 then ROW8[c - 24]
                            else if c < 48 then ROW9[c - 36] else ROW10[c - 48]
  {
  }

  lemma RowRuns(k: nat)
    requires k < 12
    ensures NO_DIGITS[k] == 0xFF
    ensures ROW4[k] == CodeDigit(48 + k) && ROW5[k] == CodeDigit(60 + k) && ROW6[k] == CodeDigit(72 + k)
    ensures ROW7[k] == CodeDigit(84 + k) && ROW8[k] == CodeDigit(96 + k) && ROW9[k] == CodeDigit(108 + k)
    ensures k < 8 ==> ROW10[k] == CodeDigit(120 + k)
  {
  }

  lemma TableRuns(c: nat)
    requires c < 128
    ensures |BASE58_TABLE| == 128 && BASE58_TABLE[c] == CodeDigit(c)
  {
    hide *;
    TableRows(c);
    RowRuns(c % 12);
    if c < 48 {
      Unprintable(c);
    }
  }

  lemma Unprintable(c: nat)
    requires c < 48
    ensures CodeDigit(c) == 0xFF
  {
  }

  /** The two tables are inverse to each other. */
  lemma TableInvertsAlphabet(d: nat)
    requires d < 58
    ensures DigitOf(Letter(d)) == d
  {
    hide Letter;
    AlphabetRuns(d);
    TableRuns(LetterCode(d));
  }

  lemma AlphabetInvertsTable(c: char)
    requires DigitOf(c) != 0xFF
    ensures DigitOf(c) < 58 && Letter(DigitOf(c)) == c
  {
    hide Letter;
    TableRuns(c as int);
    AlphabetRuns(CodeDigit(c as int));
  }

  // ---------------------------------------------------------------- change of base

  function LeadingZeros(s: seq<nat>): (z: nat)
    ensures z <= |s| && (forall i :: 0 <= i < z ==> s[i] == 0) && (z < |s| ==> s[z] != 0)
  {
    if s != [] && s[0] == 0 then 1 + LeadingZeros(s[1..]) else 0
  }

  function Zeros(n: nat): (s: seq<nat>)
    ensures |s| == n && forall i :: 0 <= i < n ==> s[i] == 0
  {
    seq(n, _ => 0)
  }

  /** The same number in another base; leading zeros are kept one for one. */
  function Recode(s: seq<nat>, from: nat, to: nat): (t: seq<nat>)
    requires to >= 2
    ensures DigitsBelow(t, to)
  {
    Zeros(LeadingZeros(s)) + ToBase(Value(s[LeadingZeros(s)..], from), to)
  }

  lemma {:induction false} LeadingZerosOf(z: nat, t: seq<nat>)
    requires t != [] ==> t[0] != 0
    ensures LeadingZeros(Zeros(z) + t) == z
  {
    if z > 0 {
      LeadingZerosOf(z - 1, t);
      assert (Zeros(z) + t)[1..] == Zeros(z - 1) + t;
    } else {
      assert Zeros(z) + t == t;
    }
  }

  /** Changing the base and changing it back gives the same digits, leading zeros included. */
  lemma RecodeRoundTrip(s: seq<nat>, from: nat, to: nat)
    requires from >= 2 && to >= 2 && DigitsBelow(s, from)
    ensures Recode(Recode(s, from, to), to, from) == s
  {
    var z := LeadingZeros(s);
    var t := ToBase(Value(s[z..], from), to);
    LeadingZerosOf(z, t);
    assert (Zeros(z) + t)[z..] == t;
    ReadBack(Value(s[z..], from), to);
    Canonical(s[z..], from);
    assert s == Zeros(z) + s[z..];
  }

  // ---------------------------------------------------------------- encoding and decoding

  function Letters(digits: seq<nat>): (s: string)
    requires DigitsBelow(digits, 58)
    ensures |s| == |digits|
  {
    seq(|digits|, i requires 0 <= i < |digits| => Letter(digits[i]))
  }

  function Encode(b: seq<Byte>): string { Letters(Recode(b, 256, 58)) }

  predicate Valid(s: string) { forall i :: 0 <= i < |s| ==> DigitOf(s[i]) != 0xFF }

  function Digits(s: string): (d: seq<Byte>)
    ensures |d| == |s|
  {
    seq(|s|, i requires 0 <= i < |s| => DigitOf(s[i]))
  }

  function Decode(s: string): (b: seq<Byte>)
    requires Valid(s)
  {
    var t := Recode(Digits(s), 58, 256);
    assert forall i :: 0 <= i < |t| ==> t[i] < 256;
    t
  }

  lemma DigitsOfLetters(d: seq<nat>)
    requires DigitsBelow(d, 58)
    ensures Valid(Letters(d)) && Digits(Letters(d)) == d
  {
    forall i | 0 <= i < |d| ensures DigitOf(Letters(d)[i]) == d[i] {
      TableInvertsAlphabet(d[i]);
    }
  }

  lemma LettersOfDigits(s: string)
    requires Valid(s)
    ensures DigitsBelow(Digits(s), 58) && Letters(Digits(s)) == s
  {
    forall i | 0 <= i < |s| ensures DigitOf(s[i]) < 58 && Letter(DigitOf(s[i])) == s[i] {
      AlphabetInvertsTable(s[i]);
    }
  }

  lemma DecodeOfEncode(b: seq<Byte>)
    ensures Valid(Encode(b)) && Decode(Encode(b)) == b
  {
    DigitsOfLetters(Recode(b, 256, 58));
    RecodeRoundTrip(b, 256, 58);
  }

  lemma EncodeOfDecode(s: string)
    requires Valid(s)
    ensures Encode(Decode(s)) == s
  {
    LettersOfDigits(s);
    RecodeRoundTrip(Digits(s), 58, 256);
  }

  /** The text is the number of the bytes in base 58, behind a '1' for each leading zero byte. */
  lemma EncodeSpells(b: seq<Byte>)
    ensures var t, z := Encode(b), LeadingZeros(b);
            && z <= |t| && (forall i :: 0 <= i < z ==> t[i] == '1') && (z < |t| ==> t[z] != '1')
            && (forall i :: 0 <= i < |t| ==> DigitOf(t[i]) < 58 && t[i] == Letter(DigitOf(t[i])))
            && Value(Digits(t), 58) == Value(b, 256)
  {
    hide Letter, DigitOf, ToBase;
    var z := LeadingZeros(b);
    var n := ToBase(Value(b[z..], 256), 58);
    var d := Zeros(z) + n;
    DigitsOfLetters(d);
    LettersOfDigits(Letters(d));
    ReadBack(Value(b[z..], 256), 58);
    LeadingZerosOf(z, n);
    assert d[z..] == n;
    LeadingZerosAdd(d, z, 58);
    LeadingZerosAdd(b, z, 256);
    OneIsZero();
    forall i | 0 <= i < z ensures Encode(b)[i] == '1' {
      assert d[i] == 0;
    }
    if z < |d| {
      assert d[z] == n[0] != 0 && DigitOf(Encode(b)[z]) == d[z];
    }
  }

  lemma OneIsZero()
    ensures Letter(0) == '1' && DigitOf('1') == 0
  {
    AlphabetRuns(0);
    TableInvertsAlphabet(0);
  }

  /** The third test vector of draft-msporny-base58-02, section 5. */
  lemma TestVector()
    ensures Encode([0, 0, 0x28, 0x7f, 0xb4, 0xcd]) == "11233QC4"
  {
    var b: seq<Byte> := [0, 0, 0x28, 0x7f, 0xb4, 0xcd];
    VectorZeros(b);
    VectorNumber(b[2..]);
    hide *;
    LettersOfVector(Zeros(2) + [1, 2, 2, 23, 11, 3]);
    EncodeIs(b);
  }

  lemma EncodeIs(b: seq<Byte>)
    ensures Encode(b) == Letters(Zeros(LeadingZeros(b)) + ToBase(Value(b[LeadingZeros(b)..], 256), 58))
  {
  }

  lemma VectorZeros(b: seq<Byte>)
    requires |b| == 6 && b[0] == b[1] == 0 < b[2]
    ensures LeadingZeros(b) == 2
  {
    assert b[1..][1..] == b[2..] && b[2..][0] == b[2];
    assert LeadingZeros(b[2..]) == 0;
  }

  lemma VectorNumber(b: seq<Byte>)
    requires b == [0x28, 0x7f, 0xb4, 0xcd]
    ensures ToBase(Value(b, 256), 58) == [1, 2, 2, 23, 11, 3]
  {
    var d: seq<nat> := [1, 2, 2, 23, 11, 3];
    FourBytes(b);
    SixDigits(d);
    hide Value, ToBase;
    assert Value(b, 256) == BigEndian(b);
    Canonical(d, 58);
  }

  lemma SixDigits(d: seq<nat>)
    requires |d| == 6
    ensures Value(d, 58) == 656356768 * d[0] + 11316496 * d[1] + 195112 * d[2] + 3364 * d[3] + 58 * d[4] + d[5]
  {
    assert d[..5][..4] == d[..4] && d[..4][..3] == d[..3] && d[..3][..2] == d[..2] && d[..2][..1] == d[..1];
    assert d[..1][..0] == [];
    assert Value(d[..1], 58) == d[0];
    assert Value(d[..2], 58) == 58 * d[0] + d[1];
    assert Value(d[..3], 58) == 3364 * d[0] + 58 * d[1] + d[2];
    assert Value(d[..4], 58) == 195112 * d[0] + 3364 * d[1] + 58 * d[2] + d[3];
    assert Value(d[..5], 58) == 11316496 * d[0] + 195112 * d[1] + 3364 * d[2] + 58 * d[3] + d[4];
  }

  lemma LettersOfVector(d: seq<nat>)
    requires d == [0, 0, 1, 2, 2, 23, 11, 3]
    ensures Letters(d) == "11233QC4"
  {
    AlphabetRuns(0);
    AlphabetRuns(1);
    AlphabetRuns(2);
    AlphabetRuns(23);
    AlphabetRuns(11);
    AlphabetRuns(3);
  }

  // ---------------------------------------------------------------- size estimates

  lemma {:induction false} PowOfPow(b: nat, m: nat, n: nat)
    ensures Pow(Pow(b, m), n) == Pow(b, m * n)
  {
    hide Pow;
    PowStep(b, 0);
    PowStep(Pow(b, m), 0);
    if n > 0 {
      PowOfPow(b, m, n - 1);
      PowStep(Pow(b, m), n - 1);
      PowAdd(b, m, m * (n - 1));
      assert m * n == m + m * (n - 1);
    } else {
      assert m * n == 0;
    }
  }

  lemma {:induction false} PowGrows(a: nat, b: nat, n: nat)
    requires a <= b
    ensures Pow(a, n) <= Pow(b, n)
  {
    hide Pow;
    PowStep(a, 0);
    PowStep(b, 0);
    if n > 0 {
      PowGrows(a, b, n - 1);
      PowStep(a, n - 1);
      PowStep(b, n - 1);
      MulBoth(a, Pow(a, n - 1), b, Pow(b, n - 1));
    }
  }

  lemma MulBoth(a: nat, x: nat, b: nat, y: nat)
    requires a <= b && x <= y
    ensures a * x <= b * y
  {
  }

  lemma PowersOf58()
    ensures Pow(58, 1) == 58 && Pow(58, 8) == 128063081718016
    ensures Pow(58, 32) == 268965015114358137726910587140455987105619365599731777536
  {
    assert Pow(58, 1) == 58 && Pow(58, 2) == 3364;
    assert Pow(58, 3) == 195112 && Pow(58, 4) == 11316496;
    hide Pow;
    PowAdd(58, 4, 4);
    PowAdd(58, 8, 8);
    PowAdd(58, 16, 16);
  }

  lemma PowersOf256()
    ensures Pow(256, 7) == 0x1_0000_0000_0000_00
    ensures Pow(256, 23) == 0x100000000000000_0000000000000000_0000000000000000
  {
    assert Pow(256, 1) == 0x100 && Pow(256, 2) == 0x1_0000 && Pow(256, 3) == 0x100_0000 && Pow(256, 4) == 0x1_0000_0000;
    hide Pow;
    PowAdd(256, 4, 3);
    PowAdd(256, 4, 4);
    PowAdd(256, 8, 8);
    PowAdd(256, 16, 7);
  }

  /** 256^30 is just below 58^41: the ratio 41/30 is what the size estimates live on. */
  lemma Ratio()
    ensures Pow(256, 30) <= Pow(58, 41)
  {
    hide Pow;
    PowersOf58();
    PowersOf256();
    PowAdd(58, 32, 8);
    PowAdd(58, 40, 1);
    PowAdd(256, 23, 7);
  }

  lemma BothRaised(n: nat, m: nat)
    ensures Pow(Pow(256, n), 30) <= Pow(58, 41 * n)
    ensures Pow(Pow(58, m), 30) == Pow(58, 30 * m)
  {
    hide Pow;
    Ratio();
    PowOfPow(256, n, 30);
    PowOfPow(256, 30, n);
    Commutes(n, 30);
    PowGrows(Pow(256, 30), Pow(58, 41), n);
    PowOfPow(58, 41, n);
    PowOfPow(58, m, 30);
    Commutes(m, 30);
  }

  lemma {:induction false} PowGrowsStrictly(a: nat, b: nat, n: nat)
    requires a < b && n > 0
    ensures Pow(a, n) < Pow(b, n)
  {
    hide Pow;
    PowStep(a, n - 1);
    PowStep(b, n - 1);
    PowStep(a, 0);
    if n > 1 {
      PowGrowsStrictly(a, b, n - 1);
    }
    MulBothStrictly(a, Pow(a, n - 1), b, Pow(b, n - 1));
  }

  lemma MulBothStrictly(a: nat, x: nat, b: nat, y: nat)
    requires a < b && x <= y && y > 0
    ensures a * x < b * y
  {
    MulBoth(a, x, a, y);
    assert a * y < b * y;
  }

  /** `n` bytes fit in `m` Base58 digits. */
  lemma DigitsSuffice(n: nat, m: nat)
    requires 41 * n <= 30 * m
    ensures Pow(256, n) <= Pow(58, m)
    ensures 41 * n < 30 * m ==> Pow(256, n) < Pow(58, m)
  {
    hide Pow;
    BothRaised(n, m);
    PowMonotonic(58, 41 * n, 30 * m);
    if Pow(256, n) > Pow(58, m) {
      PowGrowsStrictly(Pow(58, m), Pow(256, n), 30);
    }
    if 41 * n < 30 * m {
      PowStrict(58, 41 * n, 30 * m);
    }
  }

  /** Whatever can be encoded is short enough to be decoded; the bound is reached by 120 bytes. */
  lemma EncodedLength(b: seq<Byte>)
    requires |b| <= 120
    ensures |Encode(b)| <= 164
  {
    hide Pow, Value, ToBase;
    var z := LeadingZeros(b);
    var m := |b| - z;
    ValueBelow(b[z..], 256);
    DigitsSuffice(m, m + 44);
    DigitCount(Value(b[z..], 256), 58, m + 44);
  }

  /** What the encoder takes the decoder takes back, unless it is a single character. */
  lemma EncodedIsDecodable(b: seq<Byte>)
    requires |b| <= 120 && |Encode(b)| >= 2
    ensures 2 <= |Encode(b)| <= 164 && Valid(Encode(b)) && Decode(Encode(b)) == b
  {
    hide Encode, Decode, Valid;
    EncodedLength(b);
    DecodeOfEncode(b);
  }

  /** Two inputs with the same text are the same. */
  lemma EncodeIsInjective(a: seq<Byte>, b: seq<Byte>)
    requires Encode(a) == Encode(b)
    ensures a == b
  {
    hide Encode, Decode, Valid;
    DecodeOfEncode(a);
    DecodeOfEncode(b);
  }
}
