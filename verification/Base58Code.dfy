/** `base58_encode` and `base58_decode`: change of base in place, digit by digit. */
module Base58Code {
  import opened Bytes
  import opened Radix
  import opened Base58

  // ---------------------------------------------------------------- encoding

  /** The carry and a digit, to be split into the next carry and the new digit. */
  function Total(carry: nat, d: nat): nat { carry + 256 * d }

  /** One digit of `number := 256 * number + byte`: the digit `d` before `t0` becomes a digit before `t1`. */
  lemma CarryStep(d: nat, t0: seq<nat>, t1: seq<nat>, carry: nat, byte: nat)
    requires |t0| == |t1|
    requires Value(t0, 58) * 256 + byte == carry * Pow(58, |t0|) + Value(t1, 58)
    ensures Value([d] + t0, 58) * 256 + byte
            == (Total(carry, d) / 58) * Pow(58, |t0| + 1) + Value([Total(carry, d) % 58] + t1, 58)
  {
    hide Pow, Value, Total;
    var total := Total(carry, d);
    ValueCons(d, t0, 58, Pow(58, |t0|));
    ValueCons(total % 58, t1, 58, Pow(58, |t0|));
    PowStep(58, |t0|);
    CarrySum(d, carry, Pow(58, |t0|), total / 58, total % 58, Pow(58, |t0| + 1), Value(t0, 58), Value(t1, 58), byte);
  }

  lemma CarrySum(d: nat, carry: nat, p: nat, q: nat, r: nat, wide: nat, v0: nat, v1: nat, byte: nat)
    requires Total(carry, d) == 58 * q + r && wide == 58 * p && v0 * 256 + byte == carry * p + v1
    ensures (d * p + v0) * 256 + byte == q * wide + (r * p + v1)
  {
    assert (carry + 256 * d) * p == carry * p + 256 * (d * p);
    assert (58 * q + r) * p == 58 * (q * p) + r * p;
    Swap(q, 58, p);
  }

  lemma ValueCons(d: nat, t: seq<nat>, b: nat, p: nat)
    requires p == Pow(b, |t|)
    ensures Value([d] + t, b) == d * p + Value(t, b)
  {
    ValueConcat([d], t, b);
    assert Value([d], b) == d by { assert [d][..0] == []; }
  }

  /** The digits of the buffer that are in use. */
  ghost function Number(buffer: array<Byte>, from: nat, size: nat): nat
    requires from <= size <= buffer.Length
    reads buffer
  {
    Value(buffer[from..size], 58)
  }

  ghost predicate DigitsIn(buffer: array<Byte>, size: nat)
    requires size <= buffer.Length
    reads buffer
  {
    forall i :: 0 <= i < size ==> buffer[i] < 58
  }

  /** The digits from `j` on of `256 * number + byte` are in the buffer, but for the carry. */
  ghost predicate Carried(b0: seq<Byte>, j: nat, buffer: array<Byte>, size: nat, carry: nat, byte: nat)
    requires j <= size == |b0| <= buffer.Length
    reads buffer
  {
    Value(b0[j..], 58) * 256 + byte == carry * Pow(58, size - j) + Number(buffer, j, size)
  }

  lemma NothingCarried(b0: seq<Byte>, buffer: array<Byte>, size: nat, byte: nat)
    requires size == |b0| <= buffer.Length
    ensures Carried(b0, size, buffer, size, byte, byte)
  {
    PowStep(58, 0);
    assert b0[size..] == [] && buffer[size..size] == [];
    assert Value([], 58) == 0;
  }

  lemma CarriedOver(b0: seq<Byte>, j: nat, t1: seq<nat>, buffer: array<Byte>, size: nat, carry: nat, byte: nat)
    requires j < size == |b0| <= buffer.Length && t1 == buffer[j + 1..size]
    requires Value(b0[j + 1..], 58) * 256 + byte == carry * Pow(58, size - 1 - j) + Value(t1, 58)
    requires buffer[j] == Total(carry, b0[j]) % 58
    ensures Carried(b0, j, buffer, size, Total(carry, b0[j]) / 58, byte)
  {
    hide Value, Pow;
    CarryStep(b0[j], b0[j + 1..], t1, carry, byte);
    assert b0[j..] == [b0[j]] + b0[j + 1..] && buffer[j..size] == [buffer[j]] + t1;
  }

  /** Without a carry out of a digit before which there are only zeros, the number is complete. */
  lemma LastCarry(b0: seq<Byte>, j: nat, buffer: array<Byte>, size: nat, byte: nat, stopAt: nat, carry: nat)
    requires j < stopAt <= size == |b0| <= buffer.Length && DigitsIn(buffer, size)
    requires forall i :: 0 <= i < stopAt ==> b0[i] == 0
    requires forall i :: 0 <= i < j ==> buffer[i] == b0[i]
    requires Carried(b0, j, buffer, size, 0, byte)
    requires buffer[j] == Total(carry, b0[j]) % 58 && Total(carry, b0[j]) / 58 == 0
    requires j < stopAt - 1 ==> carry > 0
    ensures Number(buffer, 0, size) == Value(b0, 58) * 256 + byte
    ensures j == stopAt - 1 || Pow(58, size - 1 - j) <= Value(b0, 58) * 256 + byte
  {
    hide Value, Pow;
    LeadingZerosAdd(b0, j, 58);
    LeadingZerosAdd(buffer[0..size], j, 58);
    assert buffer[0..size][j..] == buffer[j..size];
    if j < stopAt - 1 {
      LeadingDigit(buffer[j..size], 58);
    }
  }

  /** The number fits, so there is no carry out of the first digit. */
  lemma FirstDigit(b0: seq<Byte>, j: nat, buffer: array<Byte>, size: nat, carry: nat, byte: nat, stopAt: nat)
    requires j < size == |b0| <= buffer.Length && 1 <= stopAt
    requires Carried(b0, j, buffer, size, carry, byte) && Value(b0, 58) * 256 + byte < Pow(58, size)
    requires j <= stopAt - 1 ==> carry > 0
    ensures j > 0
  {
    hide Value, Pow;
    if j == 0 {
      assert b0[0..] == b0;
      MulAtLeast(carry, Pow(58, size));
    }
  }

  lemma CarryBound(carry: nat, d: nat)
    requires carry <= 255 && d < 58
    ensures Total(carry, d) / 58 <= 255
  {
  }

  /** Lines 125 to 135: `number := 256 * number + byte` with an early end once the carry is used up. */
  method AddByte(buffer: array<Byte>, size: nat, stopAt: nat, byte: Byte) returns (stop: nat)
    requires 1 <= stopAt < size <= buffer.Length < SIZE_T && DigitsIn(buffer, size)
    requires forall i :: 0 <= i < stopAt ==> buffer[i] == 0
    requires Number(buffer, 0, size) * 256 + byte < Pow(58, size)
    modifies buffer
    ensures stop < stopAt && DigitsIn(buffer, size)
    ensures forall i :: 0 <= i < stop ==> buffer[i] == 0
    ensures Number(buffer, 0, size) == old(Number(buffer, 0, size)) * 256 + byte
    ensures stop == stopAt - 1 || Pow(58, size - 1 - stop) <= old(Number(buffer, 0, size)) * 256 + byte
  {
    hide Value, Pow, Total;
    ghost var b0 := buffer[0..size];
    var carry: nat := byte;
    var j: int := size - 1;
    NothingCarried(b0, buffer, size, byte);
    while j >= 0
      invariant 0 <= j < size && carry <= 255 && DigitsIn(buffer, size)
      invariant forall i :: 0 <= i <= j ==> buffer[i] == b0[i]
      invariant Carried(b0, j + 1, buffer, size, carry, byte)
      invariant j < stopAt - 1 ==> carry > 0
      decreases j
    {
      ghost var t1, before := buffer[j + 1..size], carry;
      CarryBound(carry, buffer[j]);
      carry := Total(carry, buffer[j]);
      buffer[j] := carry % 58;
      carry := carry / 58;
      CarriedOver(b0, j, t1, buffer, size, before, byte);
      if j <= (stopAt - 1) % SIZE_T && carry == 0 {
        LastCarry(b0, j, buffer, size, byte, stopAt, before);
        break;
      }
      FirstDigit(b0, j, buffer, size, carry, byte, stopAt);
      j := j - 1;
    }
    stop := j;
  }

  /** `output_size` for `n` bytes without leading zeros. */
  function OutputSize(n: nat): nat { n * 138 / 100 + 1 }

  /** The loop invariant after `k` bytes: no digit below `stopAt` is in use, and there are digits to spare. */
  ghost predicate Encoding(bytes: seq<Byte>, k: nat, buffer: array<Byte>, size: nat, stopAt: nat)
    reads buffer
  {
    && k <= |bytes| && stopAt < size <= buffer.Length && DigitsIn(buffer, size)
    && (forall i :: 0 <= i < stopAt ==> buffer[i] == 0)
    && Number(buffer, 0, size) == Value(bytes[..k], 256)
    && Pow(58, size - 1 - stopAt) <= Pow(256, k)
  }

  /** While there are bytes left, `stop_at - 1` does not wrap around and the next number fits. */
  lemma RoomForNext(bytes: seq<Byte>, k: nat, buffer: array<Byte>, size: nat, stopAt: nat)
    requires Encoding(bytes, k, buffer, size, stopAt) && k < |bytes| && size == OutputSize(|bytes|)
    ensures stopAt >= 1
    ensures Number(buffer, 0, size) * 256 + bytes[k] == Value(bytes[..k + 1], 256) < Pow(256, k + 1) < Pow(58, size)
  {
    hide Pow;
    DigitsSuffice(k, size - 1);
    DigitsSuffice(k + 1, size);
    assert bytes[..k + 1][..k] == bytes[..k];
    ValueBelow(bytes[..k + 1], 256);
  }

  lemma StillRoom(k: nat, used: nat, value: nat, more: nat)
    requires Pow(58, used) <= Pow(256, k) && value < Pow(256, k + 1)
    requires more == used + 1 || Pow(58, more) <= value
    ensures Pow(58, more) <= Pow(256, k + 1)
  {
    hide Pow;
    PowStep(58, used);
    PowStep(256, k);
  }

  lemma NothingEncoded(bytes: seq<Byte>, buffer: array<Byte>, size: nat)
    requires 0 < size <= buffer.Length && forall i :: 0 <= i < size ==> buffer[i] == 0
    ensures Encoding(bytes, 0, buffer, size, size - 1)
  {
    PowStep(58, 0);
    PowStep(256, 0);
    ValueOfZeros(buffer[0..size], 58);
  }

  /** Lines 122 to 136: the bytes without leading zeros, as a number in base 58. */
  method EncodeDigits(bytes: seq<Byte>) returns (buffer: array<Byte>, size: nat)
    requires |bytes| <= MAX_ENC_INPUT_SIZE
    ensures fresh(buffer) && size == OutputSize(|bytes|) <= buffer.Length && DigitsIn(buffer, size)
    ensures Number(buffer, 0, size) == Value(bytes, 256)
  {
    hide Pow, Value;
    buffer := new Byte[MAX_ENC_INPUT_SIZE * 138 / 100 + 1](_ => 0);
    size := OutputSize(|bytes|);
    var stopAt: nat := size - 1;
    NothingEncoded(bytes, buffer, size);
    for k := 0 to |bytes|
      invariant Encoding(bytes, k, buffer, size, stopAt)
    {
      RoomForNext(bytes, k, buffer, size, stopAt);
      ghost var used := size - 1 - stopAt;
      stopAt := AddByte(buffer, size, stopAt, bytes[k]);
      StillRoom(k, used, Value(bytes[..k + 1], 256), size - 1 - stopAt);
    }
    assert bytes[..|bytes|] == bytes;
  }

  method CountZeros(s: seq<Byte>) returns (z: nat)
    ensures z == LeadingZeros(s)
  {
    z := 0;
    while z < |s| && s[z] == 0
      invariant z <= |s| && forall i :: 0 <= i < z ==> s[i] == 0
    {
      z := z + 1;
    }
    assert LeadingZeros(s) <= |s|;
  }

  /** Lines 138 to 141: the first digit that is not zero. */
  method FirstNonZero(buffer: array<Byte>, from: nat, size: nat) returns (j: nat)
    requires from <= size <= buffer.Length
    ensures from <= j <= size && (forall i :: from <= i < j ==> buffer[i] == 0) && (j < size ==> buffer[j] != 0)
  {
    j := from;
    while j < size && buffer[j] == 0
      invariant from <= j <= size && forall i :: from <= i < j ==> buffer[i] == 0
    {
      j := j + 1;
    }
  }

  /** The digits from the first non-zero one on are the digits of the number. */
  lemma DigitsOfNumber(buffer: array<Byte>, j: nat, size: nat, b: nat)
    requires j <= size <= buffer.Length && (forall i :: 0 <= i < j ==> buffer[i] == 0)
    requires j < size ==> buffer[j] != 0
    requires b >= 2 && forall i :: 0 <= i < size ==> buffer[i] < b
    ensures ToBase(Value(buffer[0..size], b), b) == buffer[j..size]
  {
    LeadingZerosAdd(buffer[0..size], j, b);
    assert buffer[0..size][j..] == buffer[j..size];
    Canonical(buffer[j..size], b);
  }

  /** Lines 147 to 152. */
  method WriteLetters(buffer: array<Byte>, j: nat, size: nat, out: array<char>, at: nat, zeroCount: nat)
    returns (n: nat)
    requires j <= size <= buffer.Length && DigitsIn(buffer, size)
    requires at + zeroCount + (size - j) <= out.Length
    modifies out
    ensures n == zeroCount + (size - j)
    ensures out[at..at + n] == Letters(Zeros(zeroCount) + buffer[j..size])
    ensures forall i :: 0 <= i < out.Length && !(at <= i < at + n) ==> out[i] == old(out[i])
  {
    forall i | 0 <= i < zeroCount {
      out[at + i] := BASE58_ALPHABET[0];
    }
    n := zeroCount;
    var d := j;
    while d < size
      invariant j <= d <= size && n == zeroCount + (d - j)
      invariant out[at..at + n] == Letters(Zeros(zeroCount) + buffer[j..d])
      invariant forall i :: 0 <= i < out.Length && !(at <= i < at + n) ==> out[i] == old(out[i])
    {
      out[at + n] := BASE58_ALPHABET[buffer[d]];
      n, d := n + 1, d + 1;
    }
  }

  /** `base58_encode` to `out` from `at` on; -1 exactly when the input is too long or there is too little room. */
  method Base58Encode(input: seq<Byte>, out: array<char>, at: nat, outLen: nat) returns (n: int)
    requires at + outLen <= out.Length
    modifies out
    ensures n == if |input| > 120 || outLen < |Encode(input)| then -1 else |Encode(input)|
    ensures n >= 0 ==> out[at..at + n] == Encode(input)
    ensures forall i :: 0 <= i < out.Length && !(at <= i < at + n) ==> out[i] == old(out[i])
  {
    hide Value, ToBase;
    if |input| > MAX_ENC_INPUT_SIZE {
      return -1;
    }
    var zeroCount := CountZeros(input);
    var buffer, size := EncodeDigits(input[zeroCount..]);
    var j := FirstNonZero(buffer, 0, size);
    DigitsOfNumber(buffer, j, size, 58);
    if outLen < zeroCount + size - j {
      return -1;
    }
    n := WriteLetters(buffer, j, size, out, at, zeroCount);
  }

  // ---------------------------------------------------------------- decoding

  /** One digit of the division by 256: the quotient digit and the rest go on. */
  lemma DivisionStep(s0: seq<nat>, q0: seq<nat>, d: nat, rest: nat)
    requires |s0| == |q0| && Value(s0, 58) == Value(q0, 58) * 256 + rest
    ensures Value(s0 + [d], 58) == Value(q0 + [(rest * 58 + d) / 256], 58) * 256 + (rest * 58 + d) % 256
  {
    assert (s0 + [d])[..|s0|] == s0;
    var q := (rest * 58 + d) / 256;
    assert (q0 + [q])[..|q0|] == q0;
  }

  /** Lines 77 to 87: the number in `tmp` is divided by 256, and its first digit becomes 0. */
  method DivideBy256(tmp: array<Byte>, startAt: nat, inLen: nat) returns (remainder: Byte)
    requires startAt < inLen <= tmp.Length && DigitsIn(tmp, inLen)
    modifies tmp
    ensures DigitsIn(tmp, inLen) && tmp[startAt] == 0
    ensures old(Value(tmp[startAt..inLen], 58)) == Value(tmp[startAt..inLen], 58) * 256 + remainder
  {
    hide Value;
    ghost var t0: seq<nat> := tmp[startAt..inLen];
    var rest: nat := 0;
    NothingDivided(tmp, startAt);
    for div := startAt to inLen
      invariant rest < 256 && DigitsIn(tmp, inLen)
      invariant forall i :: div <= i < inLen ==> tmp[i] == t0[i - startAt]
      invariant div > startAt ==> tmp[startAt] == 0
      invariant Value(t0[..div - startAt], 58) == Value(tmp[startAt..div], 58) * 256 + rest
    {
      ghost var q0 := tmp[startAt..div];
      var tmpDiv := rest * 58 + tmp[div] as int;
      DivisionStep(t0[..div - startAt], q0, tmp[div], rest);
      assert t0[..div + 1 - startAt] == t0[..div - startAt] + [tmp[div]];
      tmp[div] := tmpDiv / 256;
      rest := tmpDiv % 256;
      assert tmp[startAt..div + 1] == q0 + [tmpDiv / 256];
    }
    assert t0[..inLen - startAt] == t0;
    remainder := rest;
  }

  lemma NothingDivided(tmp: array<Byte>, at: nat)
    requires at <= tmp.Length
    ensures Value(tmp[at..at], 58) == 0 && Value([], 58) == 0
  {
  }

  /** The loop invariant: what is still to be divided, and the bytes found so far. */
  ghost predicate Decoding(v: nat, tmp: array<Byte>, startAt: nat, inLen: nat, buffer: array<Byte>, j: nat)
    reads tmp, buffer
  {
    && startAt <= inLen <= tmp.Length && j <= inLen <= buffer.Length && DigitsIn(tmp, inLen)
    && v == Before(Value(tmp[startAt..inLen], 58), inLen - j) + Value(buffer[j..inLen], 256)
  }

  /** `w` before `n` bytes. */
  ghost function Before(w: nat, n: nat): nat { w * Pow(256, n) }

  lemma OneMoreByte(q: nat, remainder: nat, n: nat)
    ensures Before(q * 256 + remainder, n) == Before(q, n + 1) + remainder * Pow(256, n)
    ensures Before(q, 0) == q
  {
    hide Pow;
    PowStep(256, n);
    PowStep(256, 0);
    Spread(q, remainder, Pow(256, n), Pow(256, n + 1));
  }

  lemma Spread(q: nat, remainder: nat, p: nat, wide: nat)
    requires wide == 256 * p
    ensures (q * 256 + remainder) * p == q * wide + remainder * p
  {
    assert (q * 256 + remainder) * p == 256 * (q * p) + remainder * p;
    Swap(q, 256, p);
  }

  lemma ByteFound(v: nat, w: nat, tmp: array<Byte>, startAt: nat, inLen: nat, buffer: array<Byte>, j: nat, low: nat)
    requires startAt < inLen <= tmp.Length && j < inLen + 1 && 0 < j && inLen <= buffer.Length && DigitsIn(tmp, inLen)
    requires v == Before(w, inLen - j) + low && low == Value(buffer[j..inLen], 256)
    requires w == Value(tmp[startAt..inLen], 58) * 256 + buffer[j - 1] && tmp[startAt] == 0
    ensures Decoding(v, tmp, startAt + 1, inLen, buffer, j - 1)
  {
    hide Value, Pow, Before;
    LeadingZerosAdd(tmp[startAt..inLen], 1, 58);
    assert tmp[startAt..inLen][1..] == tmp[startAt + 1..inLen];
    ValueCons(buffer[j - 1], buffer[j..inLen], 256, Pow(256, inLen - j));
    assert [buffer[j - 1]] + buffer[j..inLen] == buffer[j - 1..inLen];
    OneMoreByte(Value(tmp[startAt + 1..inLen], 58), buffer[j - 1], inLen - j);
  }

  lemma NothingFound(tmp: array<Byte>, startAt: nat, inLen: nat, buffer: array<Byte>)
    requires startAt <= inLen <= tmp.Length && inLen <= buffer.Length && DigitsIn(tmp, inLen)
    ensures Decoding(Value(tmp[startAt..inLen], 58), tmp, startAt, inLen, buffer, inLen)
  {
    OneMoreByte(Value(tmp[startAt..inLen], 58), 0, 0);
    assert buffer[inLen..inLen] == [];
  }

  lemma AllFound(v: nat, tmp: array<Byte>, inLen: nat, buffer: array<Byte>, j: nat)
    requires Decoding(v, tmp, inLen, inLen, buffer, j)
    ensures Value(buffer[j..inLen], 256) == v
  {
    NothingDivided(tmp, inLen);
    assert Before(0, inLen - j) == 0;
  }

  /** Lines 74 to 90: exactly one byte for every digit after the leading zeros. */
  method DivideDigits(tmp: array<Byte>, zeroCount: nat, inLen: nat) returns (buffer: array<Byte>)
    requires zeroCount <= inLen <= tmp.Length && inLen <= MAX_DEC_INPUT_SIZE && DigitsIn(tmp, inLen)
    modifies tmp
    ensures fresh(buffer) && buffer.Length == MAX_DEC_INPUT_SIZE
    ensures forall i :: 0 <= i < zeroCount ==> buffer[i] == 0
    ensures Value(buffer[zeroCount..inLen], 256) == old(Value(tmp[zeroCount..inLen], 58))
  {
    hide Value, Pow, Decoding;
    buffer := new Byte[MAX_DEC_INPUT_SIZE](_ => 0);
    ghost var v := Value(tmp[zeroCount..inLen], 58);
    var j := inLen;
    var startAt := zeroCount;
    NothingFound(tmp, startAt, inLen, buffer);
    while startAt < inLen
      invariant zeroCount <= startAt <= inLen && startAt - zeroCount == inLen - j && DigitsIn(tmp, inLen)
      invariant forall i :: 0 <= i < j ==> buffer[i] == 0
      invariant Decoding(v, tmp, startAt, inLen, buffer, j)
    {
      ghost var w, low := Value(tmp[startAt..inLen], 58), Value(buffer[j..inLen], 256);
      SoFar(v, tmp, startAt, inLen, buffer, j);
      var remainder := DivideBy256(tmp, startAt, inLen);
      ghost var at := startAt;
      if tmp[startAt] == 0 {
        startAt := startAt + 1;
      }
      j := j - 1;
      buffer[j] := remainder;
      assert low == Value(buffer[j + 1..inLen], 256);
      ByteFound(v, w, tmp, at, inLen, buffer, j + 1, low);
    }
    AllFound(v, tmp, inLen, buffer, j);
  }

  lemma SoFar(v: nat, tmp: array<Byte>, startAt: nat, inLen: nat, buffer: array<Byte>, j: nat)
    requires Decoding(v, tmp, startAt, inLen, buffer, j)
    ensures v == Before(Value(tmp[startAt..inLen], 58), inLen - j) + Value(buffer[j..inLen], 256)
  {
  }

  /** Lines 56 to 68: the digits of the characters, unless one of them is none. */
  method Translate(input: string, tmp: array<Byte>) returns (ok: bool)
    requires |input| <= tmp.Length
    modifies tmp
    ensures ok == Valid(input)
    ensures ok ==> tmp[..|input|] == Digits(input)
  {
    for i := 0 to |input|
      invariant forall k :: 0 <= k < i ==> DigitOf(input[k]) != 0xFF && tmp[k] == DigitOf(input[k])
    {
      TableLength();
      if input[i] as int >= |BASE58_TABLE| {
        return false;
      }
      tmp[i] := BASE58_TABLE[input[i] as int];
      if tmp[i] == 0xFF {
        return false;
      }
    }
    ok := true;
  }

  lemma TableLength()
    ensures |BASE58_TABLE| == 128
  {
    TableRuns(0);
  }

  /** The bytes found, as many zeros before them as there are leading '1's. */
  lemma DecodedBytes(input: string, buffer: array<Byte>, zeroCount: nat, j: nat)
    requires Valid(input) && |input| <= buffer.Length && zeroCount == LeadingZeros(Digits(input)) <= j <= |input|
    requires forall i :: 0 <= i < j ==> buffer[i] == 0
    requires j < |input| ==> buffer[j] != 0
    requires Value(buffer[zeroCount..|input|], 256) == Value(Digits(input)[zeroCount..], 58)
    ensures Decode(input) == buffer[j - zeroCount..|input|]
  {
    hide Value, ToBase, Digits, Valid;
    var d := Digits(input);
    assert Decode(input) == Zeros(zeroCount) + ToBase(Value(d[zeroCount..], 58), 256);
    LeadingZerosAdd(buffer[0..|input|], zeroCount, 256);
    assert buffer[0..|input|][zeroCount..] == buffer[zeroCount..|input|];
    DigitsOfNumber(buffer, j, |input|, 256);
    assert buffer[j - zeroCount..|input|] == Zeros(zeroCount) + buffer[j..|input|];
  }

  /** `memmove(out, buffer + from, length)`. */
  method MoveBytes(buffer: array<Byte>, from: nat, length: nat, out: array<Byte>)
    requires from + length <= buffer.Length && length <= out.Length && buffer != out
    modifies out
    ensures out[..length] == buffer[from..from + length]
    ensures forall i :: length <= i < out.Length ==> out[i] == old(out[i])
  {
    forall i | 0 <= i < length {
      out[i] := buffer[from + i];
    }
  }

  /** `base58_decode`; -1 exactly when the length or a character is wrong or there is too little room. */
  method Base58Decode(input: string, out: array<Byte>, outLen: nat) returns (n: int)
    requires outLen <= out.Length
    modifies out
    ensures n == if !(2 <= |input| <= 164) || !Valid(input) || outLen < |Decode(input)| then -1
                 else |Decode(input)|
    ensures n >= 0 ==> out[..n] == Decode(input)
    ensures forall i :: n <= i < out.Length && 0 <= i ==> out[i] == old(out[i])
  {
    hide Value, ToBase, Decode, Valid, Digits;
    if |input| > MAX_DEC_INPUT_SIZE || |input| < 2 {
      return -1;
    }
    var tmp := new Byte[MAX_DEC_INPUT_SIZE](_ => 0);
    var ok := Translate(input, tmp);
    if !ok {
      return -1;
    }
    LettersOfDigits(input);
    var zeroCount := CountZeros(tmp[..|input|]);
    assert tmp[zeroCount..|input|] == Digits(input)[zeroCount..];
    var buffer := DivideDigits(tmp, zeroCount, |input|);
    var j := FirstNonZero(buffer, zeroCount, |input|);
    DecodedBytes(input, buffer, zeroCount, j);
    var length := |input| - (j - zeroCount);
    if outLen < length {
      return -1;
    }
    MoveBytes(buffer, j - zeroCount, length, out);
    n := length;
  }
}
