/** Decimal numbers with a point: `format_decimals` (`src/common/format.c`). */
module Format {
  import opened Radix
  import opened Division
  import opened Numerals
  import Powers

  // ---------------------------------------------------------------- what the code writes

  function Zeros(n: nat): (s: string)
    ensures |s| == n && forall i :: 0 <= i < n ==> s[i] == '0'
  {
    if n == 0 then "" else Zeros(n - 1) + "0"
  }

  /** The digits of `src` with the point before the last `d`, zeros in front where there are not enough. */
  function Laid(src: string, d: nat): string {
    if |src| <= d then "0." + Zeros(d - |src|) + src
    else src[..|src| - d] + (if d != 0 then "." else "") + src[|src| - d..]
  }

  /** Where the search for trailing zeros starts. */
  function TrimFrom(src: string, d: nat): (n: nat)
    ensures 1 <= n <= |Laid(src, d)|
  {
    if |src| <= d then 2 + (d - |src|) else |src| - d + (if d != 0 then 1 else 0)
  }

  /** The length of `t` without the zeros at its end, counting no further back than `from`. */
  function CutAt(t: string, from: nat): (n: nat)
    ensures n <= |t| && (from <= |t| ==> from <= n)
  {
    if |t| > from && t[|t| - 1] == '0' then CutAt(t[..|t| - 1], from) else |t|
  }

  function Trimmed(t: string, from: nat): string
    requires 1 <= from <= |t|
  {
    var n := CutAt(t, from);
    if n == |t| then t else if t[n - 1] == '.' then t[..n - 1] else t[..n]
  }

  /** The text for `src` with `d` decimals. */
  function Decimals(src: string, d: nat): string {
    if src == "0" then "0" else Trimmed(Laid(src, d), TrimFrom(src, d))
  }

  function LongRoom(n: nat, d: nat): nat { if n <= d then d + 3 else n + 2 }

  /** The room the code asks for. */
  function RoomNeeded(src: string, d: nat): nat { if src == "0" then 2 else LongRoom(|src|, d) }

  method PutChar(target: array<char>, at: nat, offset: nat, c: char)
    requires at + offset < target.Length
    modifies target
    ensures target[at..at + offset + 1] == old(target[at..at + offset]) + [c]
    ensures Only(old(target[..]), target, at + offset, at + offset + 1)
  {
    target[at + offset] := c;
  }

  /** The copying loops: `src[from..to]` goes to `target` at `offset`. */
  method CopyChars(src: array<char>, from: nat, to: nat, target: array<char>, at: nat, start: nat) returns (offset: nat)
    requires from <= to <= src.Length && at + start + (to - from) <= target.Length && src != target
    modifies target
    ensures offset == start + (to - from)
    ensures target[at..at + offset] == old(target[at..at + start]) + src[from..to]
    ensures Only(old(target[..]), target, at + start, at + offset)
  {
    offset := start;
    var i := from;
    while i < to
      invariant from <= i <= to && offset == start + (i - from)
      invariant target[at..at + offset] == old(target[at..at + start]) + src[from..i]
      invariant Only(old(target[..]), target, at + start, at + offset)
    {
      PutChar(target, at, offset, src[i]);
      assert src[from..i + 1] == src[from..i] + [src[i]];
      offset, i := offset + 1, i + 1;
    }
  }

  /** The last digits and the terminator. */
  method CopyTail(src: array<char>, from: nat, to: nat, target: array<char>, at: nat, start: nat) returns (offset: nat)
    requires from <= to <= src.Length && at + start + (to - from) < target.Length && src != target
    modifies target
    ensures offset == start + (to - from)
    ensures Holds(target, at, old(target[at..at + start]) + src[from..to])
    ensures Only(old(target[..]), target, at + start, at + offset + 1)
  {
    offset := CopyChars(src, from, to, target, at, start);
    PutChar(target, at, offset, '\0');
  }

  method PutZeros(target: array<char>, at: nat, start: nat, delta: nat) returns (offset: nat)
    requires at + start + delta <= target.Length
    modifies target
    ensures offset == start + delta
    ensures target[at..at + offset] == old(target[at..at + start]) + Zeros(delta)
    ensures Only(old(target[..]), target, at + start, at + offset)
  {
    offset := start;
    for i := 0 to delta
      invariant offset == start + i
      invariant target[at..at + offset] == old(target[at..at + start]) + Zeros(i)
      invariant Only(old(target[..]), target, at + start, at + offset)
    {
      PutChar(target, at, offset, '0');
      offset := offset + 1;
    }
  }

  /** Lines 221 to 230, for a number that is all decimals. */
  method LayShort(src: array<char>, srcLength: nat, target: array<char>, at: nat, decimals: nat)
    returns (startOffset: nat, offset: nat)
    requires srcLength <= decimals && srcLength <= src.Length && at + decimals + 2 < target.Length && src != target
    modifies target
    ensures startOffset == 2 + (decimals - srcLength) && offset == decimals + 2
    ensures Holds(target, at, "0." + Zeros(decimals - srcLength) + src[..srcLength])
    ensures Only(old(target[..]), target, at, at + decimals + 3)
  {
    PutChar(target, at, 0, '0');
    PutChar(target, at, 1, '.');
    assert target[at..at + 2] == "0.";
    offset := PutZeros(target, at, 2, decimals - srcLength);
    startOffset := offset;
    offset := CopyTail(src, 0, srcLength, target, at, offset);
  }

  /** Lines 237 to 242: the whole part and the point. */
  method LayWhole(src: array<char>, delta: nat, target: array<char>, at: nat, decimals: nat) returns (offset: nat)
    requires delta <= src.Length && at + delta < target.Length && src != target
    modifies target
    ensures offset == delta + (if decimals != 0 then 1 else 0)
    ensures target[at..at + offset] == src[..delta] + (if decimals != 0 then "." else "")
    ensures Only(old(target[..]), target, at, at + offset)
  {
    offset := CopyChars(src, 0, delta, target, at, 0);
    assert target[at..at + offset] == src[..delta];
    if decimals != 0 {
      PutChar(target, at, offset, '.');
      offset := offset + 1;
    }
  }

  /** Lines 232 to 247, for a number with a whole part. */
  method LayLong(src: array<char>, srcLength: nat, target: array<char>, at: nat, decimals: nat)
    returns (startOffset: nat, offset: nat)
    requires decimals < srcLength <= src.Length && src != target
    requires at + srcLength + (if decimals != 0 then 1 else 0) < target.Length
    modifies target
    ensures startOffset == srcLength - decimals + (if decimals != 0 then 1 else 0) && offset == startOffset + decimals
    ensures Holds(target, at, src[..srcLength - decimals] + (if decimals != 0 then "." else "")
                              + src[srcLength - decimals..srcLength])
    ensures Only(old(target[..]), target, at, at + offset + 1)
  {
    var delta := srcLength - decimals;
    startOffset := LayWhole(src, delta, target, at, decimals);
    offset := CopyTail(src, delta, srcLength, target, at, startOffset);
  }

  lemma LaidShort(src: string, d: nat)
    requires |src| <= d
    ensures Laid(src, d) == "0." + Zeros(d - |src|) + src && TrimFrom(src, d) == 2 + (d - |src|)
  {
  }

  lemma LaidLong(src: string, d: nat)
    requires d < |src|
    ensures Laid(src, d) == src[..|src| - d] + (if d != 0 then "." else "") + src[|src| - d..]
    ensures TrimFrom(src, d) == |src| - d + (if d != 0 then 1 else 0)
  {
  }

  lemma Slices(src: array<char>, n: nat, k: nat)
    requires k <= n <= src.Length
    ensures src[..n][..k] == src[..k] && src[..n][k..] == src[k..n]
  {
  }

  /** Lines 216 to 248: the untrimmed text and its terminator. */
  method Lay(src: array<char>, srcLength: nat, target: array<char>, at: nat, targetLength: nat, decimals: nat)
    returns (ok: bool, startOffset: nat, offset: nat)
    requires srcLength <= src.Length && src != target
    requires LongRoom(srcLength, decimals) <= targetLength ==> at + |Laid(src[..srcLength], decimals)| < target.Length
    modifies target
    ensures ok == (LongRoom(srcLength, decimals) <= targetLength)
    ensures ok ==> startOffset == TrimFrom(src[..srcLength], decimals) && offset == |Laid(src[..srcLength], decimals)|
                   && Holds(target, at, Laid(src[..srcLength], decimals))
                   && Only(old(target[..]), target, at, at + offset + 1)
    ensures !ok ==> target[..] == old(target[..])
  {
    hide Laid, TrimFrom;
    startOffset, offset := 0, 0;
    if srcLength <= decimals {
      var delta := decimals - srcLength;
      if targetLength < srcLength + 1 + 2 + delta {
        return false, startOffset, offset;
      }
      LaidShort(src[..srcLength], decimals);
      startOffset, offset := LayShort(src, srcLength, target, at, decimals);
    } else {
      if targetLength < srcLength + 1 + 1 {
        return false, startOffset, offset;
      }
      LaidLong(src[..srcLength], decimals);
      Slices(src, srcLength, srcLength - decimals);
      startOffset, offset := LayLong(src, srcLength, target, at, decimals);
    }
    ok := true;
  }

  /** Where the run of zeros at the end of `t` starts; 0 when there is none. */
  function LastZero(t: string, from: nat): nat {
    if CutAt(t, from) == |t| then 0 else CutAt(t, from)
  }

  method Terminate(target: array<char>, at: nat, n: nat, ghost t: string)
    requires n < |t| && Holds(target, at, t)
    modifies target
    ensures Holds(target, at, t[..n])
    ensures Only(old(target[..]), target, at + n, at + n + 1)
  {
    assert target[at..at + n] == target[at..at + |t|][..n];
    target[at + n] := '\0';
    assert target[at..at + n] == old(target[at..at + n]);
  }

  /** The loop of lines 249 to 256: where the zeros at the end begin. */
  method FindZeros(target: array<char>, at: nat, startOffset: nat, offset: nat, ghost t: string)
    returns (lastZeroOffset: nat)
    requires 1 <= startOffset <= offset == |t| && at + |t| <= target.Length && target[at..at + |t|] == t
    ensures lastZeroOffset == LastZero(t, startOffset)
  {
    lastZeroOffset := 0;
    for i := startOffset to offset
      invariant lastZeroOffset == LastZero(t[..i], startOffset)
    {
      assert t[..i + 1][..i] == t[..i];
      assert target[at + i] == target[at..at + |t|][i];
      if target[at + i] == '0' {
        if lastZeroOffset == 0 {
          lastZeroOffset := i;
        }
      } else {
        lastZeroOffset := 0;
      }
    }
    assert t[..offset] == t;
  }

  /** Lines 249 to 263. */
  method Trim(target: array<char>, at: nat, startOffset: nat, offset: nat, ghost t: string)
    requires 1 <= startOffset <= offset == |t| && Holds(target, at, t)
    modifies target
    ensures Holds(target, at, Trimmed(t, startOffset))
    ensures Only(old(target[..]), target, at, at + offset)
  {
    var lastZeroOffset := FindZeros(target, at, startOffset, offset, t);
    if lastZeroOffset != 0 {
      Terminate(target, at, lastZeroOffset, t);
      ghost var cut := t[..lastZeroOffset];
      assert target[at + (lastZeroOffset - 1)] == target[at..at + |cut|][lastZeroOffset - 1];
      if target[at + (lastZeroOffset - 1)] == '.' {
        Terminate(target, at, lastZeroOffset - 1, cut);
        assert cut[..lastZeroOffset - 1] == t[..lastZeroOffset - 1];
      }
    }
  }

  /** The untrimmed text and its terminator: what the code writes. */
  function Extent(src: string, d: nat): (n: nat)
    ensures n >= 2
    ensures n <= RoomNeeded(src, d)
  {
    if src == "0" then 2 else |Laid(src, d)| + 1
  }

  /**
   `format_decimals`: it succeeds exactly when the room is said to be enough, and then writes just as far as the
   untrimmed text and its terminator go, whatever `targetLength` promises.
   */
  method FormatDecimals(src: array<char>, srcLength: nat, target: array<char>, at: nat, targetLength: nat,
                        decimals: nat)
    returns (ok: bool)
    requires srcLength <= src.Length && src != target
    requires RoomNeeded(src[..srcLength], decimals) <= targetLength ==>
               at + Extent(src[..srcLength], decimals) <= target.Length
    modifies target
    ensures ok == (RoomNeeded(src[..srcLength], decimals) <= targetLength)
    ensures ok ==> Holds(target, at, Decimals(src[..srcLength], decimals))
                   && target[at + Extent(src[..srcLength], decimals) - 1] == '\0'
                   && Only(old(target[..]), target, at, at + Extent(src[..srcLength], decimals))
    ensures !ok ==> target[..] == old(target[..])
  {
    hide Laid, Trimmed, TrimFrom;
    if srcLength == 1 && src[0] == '0' {
      assert src[..srcLength] == "0";
      if targetLength < 2 {
        return false;
      }
      target[at] := '0';
      target[at + 1] := '\0';
      return true;
    }
    assert srcLength == 1 ==> src[..srcLength] == [src[0]];
    var startOffset, offset;
    ok, startOffset, offset := Lay(src, srcLength, target, at, targetLength, decimals);
    if ok {
      Trim(target, at, startOffset, offset, Laid(src[..srcLength], decimals));
    }
  }

  // ---------------------------------------------------------------- plain numbers

  /**
   `format_u64` and `format_size64`.  A single digit is written even when there is no room said to be left for its
   terminator.
   */
  method FormatU64(out: array<char>, at: nat, outLen: nat, input: nat) returns (ok: bool)
    requires at + outLen <= out.Length && (outLen == 1 ==> at + 2 <= out.Length)
    modifies out
    ensures ok == (outLen > 0 && (input <= 9 || |Numeral(input, 10)| + 1 <= outLen))
    ensures ok ==> Holds(out, at, Numeral(input, 10))
    ensures Only(old(out[..]), out, at, at + (if outLen == 1 then 2 else outLen))
  {
    hide Numeral, Writing;
    if outLen == 0 {
      return false;
    }
    var i, rest := 0, input;
    NothingWritten(input, 10);
    assert out[at..at + i] == "";
    while rest > 9
      invariant at + i < out.Length && Writing(input, 10, rest, out[at..at + i])
      invariant if i == 0 then rest == input else rest > 0 && input > 9 && i + 1 < outLen
      invariant Only(old(out[..]), out, at, at + i)
    {
      rest, i := PutDigit(out, at, i, rest, input);
      Written(input, 10, rest, out[at..at + i]);
      if i + 1 > outLen - 1 {
        return false;
      }
    }
    var last;
    last, i := PutDigit(out, at, i, rest, input);
    Written(input, 10, last, out[at..at + i]);
    FinishString(out, at, i);
    ok := true;
  }

  /** One digit, the last one first. */
  method PutDigit(out: array<char>, at: nat, i: nat, rest: nat, ghost input: nat) returns (quotient: nat, next: nat)
    requires at + i < out.Length && Writing(input, 10, rest, out[at..at + i]) && (i == 0 || rest > 0)
    modifies out
    ensures quotient == rest / 10 && next == i + 1
    ensures Writing(input, 10, quotient, out[at..at + next])
    ensures Only(old(out[..]), out, at + i, at + next)
  {
    hide Numeral, Writing;
    ghost var written := out[at..at + i];
    DivideByTen(rest);
    WriteDigit(input, 10, rest, written, rest / 10, rest % 10);
    out[at + i] := (rest % 10 + '0' as int) as char;
    assert out[at..at + i + 1] == written + [DigitChar(rest % 10)];
    quotient, next := rest / 10, i + 1;
  }

  lemma DivideByTen(n: nat)
    ensures Divided(n, 10, n / 10, n % 10)
    ensures DigitChar(n % 10) == (n % 10 + '0' as int) as char
  {
  }

  // ---------------------------------------------------------------- what the text means

  /** The place of the decimal point, or the end. */
  function PointAt(t: string): (p: nat)
    ensures p <= |t|
  {
    if t == "" || t[0] == '.' then 0 else 1 + PointAt(t[1..])
  }

  function WholePart(t: string): string { t[..PointAt(t)] }
  function FractionPart(t: string): string { if PointAt(t) == |t| then "" else t[PointAt(t) + 1..] }

  /** The number that `t` denotes, times `10^d`. */
  function Scaled(t: string, d: nat): nat {
    var whole, fraction := WholePart(t), FractionPart(t);
    if |fraction| <= d then Number(whole, 10) * Pow(10, d) + Number(fraction, 10) * Pow(10, d - |fraction|) else 0
  }

  /** Decimal notation without anything superfluous. */
  ghost predicate WellFormed(t: string, d: nat) {
    var fraction := FractionPart(t);
    && IsNumeral(WholePart(t), 10) && Digits(fraction, 10) && |fraction| <= d
    && (PointAt(t) < |t| ==> fraction != "")
    && (fraction != "" ==> fraction[|fraction| - 1] != '0')
  }

  lemma {:induction false} PointAfterDigits(w: string, t: string)
    requires Digits(w, 10)
    ensures PointAt(w) == |w| && PointAt(w + "." + t) == |w|
  {
    if w != "" {
      assert Digits(w[1..], 10);
      PointAfterDigits(w[1..], t);
      assert w[0] != '.' by { assert DigitValue(w[0]) < 10; }
      assert (w + "." + t)[1..] == w[1..] + "." + t;
    }
  }

  function Pointed(w: string, f: string): string { if f == "" then w else w + "." + f }

  lemma PartsOfPointed(w: string, f: string)
    requires Digits(w, 10)
    ensures WholePart(Pointed(w, f)) == w && FractionPart(Pointed(w, f)) == f
    ensures PointAt(Pointed(w, f)) < |Pointed(w, f)| ==> f != ""
  {
    PointAfterDigits(w, f);
  }

  lemma {:induction false} NumberConcat(s: string, t: string)
    ensures Number(s + t, 10) == Number(s, 10) * Pow(10, |t|) + Number(t, 10)
  {
    if t == "" {
      assert s + t == s;
    } else {
      var u := t[..|t| - 1];
      NumberConcat(s, u);
      assert (s + t)[..|s + t| - 1] == s + u;
      hide Pow;
      PowStep(10, |u|);
      Shifted(Number(s, 10), Pow(10, |u|), Number(u, 10), 10, DigitValue(t[|t| - 1]));
    }
  }

  lemma {:induction false} NumberOfZeros(n: nat)
    ensures Number(Zeros(n), 10) == 0
  {
    if n > 0 {
      NumberOfZeros(n - 1);
      assert Zeros(n)[..n - 1] == Zeros(n - 1);
    }
  }

  /** The cut leaves only zeros behind, and no zero at the end. */
  lemma {:induction false} CutLeavesZeros(t: string, from: nat)
    requires from <= |t|
    ensures t[CutAt(t, from)..] == Zeros(|t| - CutAt(t, from))
    ensures CutAt(t, from) > from ==> t[CutAt(t, from) - 1] != '0'
  {
    if |t| > from && t[|t| - 1] == '0' {
      CutLeavesZeros(t[..|t| - 1], from);
    }
  }

  /** The whole digits and all `d` decimals of `src`. */
  function Whole(src: string, d: nat): string { if |src| <= d then "0" else src[..|src| - d] }
  function Fraction(src: string, d: nat): string {
    if |src| <= d then Zeros(d - |src|) + src else src[|src| - d..]
  }

  lemma DigitsOfParts(s: string, t: string)
    ensures Digits(s + t, 10) <==> Digits(s, 10) && Digits(t, 10)
  {
    assert forall i :: 0 <= i < |s| ==> s[i] == (s + t)[i];
    assert forall i :: 0 <= i < |t| ==> t[i] == (s + t)[|s| + i];
  }

  lemma WholeAndFraction(src: string, d: nat)
    requires IsNumeral(src, 10)
    ensures IsNumeral(Whole(src, d), 10) && Digits(Fraction(src, d), 10) && |Fraction(src, d)| == d
    ensures Number(Whole(src, d), 10) * Pow(10, d) + Number(Fraction(src, d), 10) == Number(src, 10)
  {
    hide Pow, Number, Digits;
    NoDigits(d);
    if |src| <= d {
      var z := Zeros(d - |src|);
      NumberConcat(z, src);
      NumberOfZeros(|z|);
      assert Digits(z, 10) by { ZerosAreDigits(|z|); }
      DigitsOfParts(z, src);
    } else {
      var w, f := src[..|src| - d], src[|src| - d..];
      assert src == w + f;
      NumberConcat(w, f);
      DigitsOfParts(w, f);
      assert w[0] == src[0];
    }
  }

  lemma ZerosAreDigits(n: nat)
    ensures Digits(Zeros(n), 10)
  {
  }

  lemma {:induction false} CutInside(s: string, t: string, from: nat)
    requires from <= |t|
    ensures CutAt(s + t, |s| + from) == |s| + CutAt(t, from)
  {
    if |t| > from && t[|t| - 1] == '0' {
      assert (s + t)[..|s + t| - 1] == s + t[..|t| - 1];
      CutInside(s, t[..|t| - 1], from);
    }
  }

  /** The fraction without its trailing zeros. */
  function Kept(f: string): string { f[..CutAt(f, 0)] }

  /** What the code writes for a numeral: whole part, and a point and decimals only where they say something. */
  lemma DecimalsOfNumeral(src: string, d: nat)
    requires IsNumeral(src, 10)
    ensures Decimals(src, d) == if src == "0" then "0" else Pointed(Whole(src, d), Kept(Fraction(src, d)))
  {
    if src != "0" {
      if |src| <= d {
        ShortText(src, d);
      } else if d == 0 {
        assert Laid(src, 0) == src && CutAt(src, |src|) == |src|;
        assert Fraction(src, 0) == "" && Whole(src, 0) == src;
      } else {
        LongText(src, d);
      }
    }
  }

  lemma Stops(src: string)
    requires IsNumeral(src, 10) && src != "0"
    ensures CutAt(src, 0) > 0 && src[CutAt(src, 0) - 1] != '.'
  {
    CutLeavesZeros(src, 0);
    assert src[0] != '0';
    assert DigitValue(src[if CutAt(src, 0) > 0 then CutAt(src, 0) - 1 else 0]) < 10;
  }

  lemma ShortStrings(z: string, src: string, n: nat)
    requires n <= |src|
    ensures ("0." + z + src)[..2 + |z| + n] == "0." + (z + src[..n])
    ensures (z + src)[..|z| + n] == z + src[..n]
    ensures ("0." + z + src)[..|"0." + z + src|] == "0." + z + src
    ensures "0." + (z + src[..n]) == "0" + "." + (z + src[..n])
    ensures n > 0 ==> ("0." + z + src)[2 + |z| + n - 1] == src[n - 1]
  {
  }

  lemma ShortText(src: string, d: nat)
    requires IsNumeral(src, 10) && src != "0" && |src| <= d
    ensures Decimals(src, d) == Pointed("0", Kept(Fraction(src, d)))
  {
    hide CutAt, Zeros, Digits, Trimmed, Laid, TrimFrom, Pointed;
    var z := Zeros(d - |src|);
    CutInside("0." + z, src, 0);
    CutInside(z, src, 0);
    CutAtStart(z, src);
    Stops(src);
    var n := CutAt(src, 0);
    ShortStrings(z, src, n);
    CutText("0." + z + src, 2 + |z|);
    LaidShort(src, d);
    PointedBehind("0", z + src[..n]);
  }

  lemma PointedBehind(w: string, f: string)
    requires f != ""
    ensures Pointed(w, f) == w + "." + f
  {
  }

  lemma CutText(t: string, from: nat)
    requires 1 <= from <= |t| && t[CutAt(t, from) - 1] != '.'
    ensures Trimmed(t, from) == t[..CutAt(t, from)]
  {
  }

  /** A numeral other than "0" has a digit that stops the cut. */
  lemma {:induction false} CutAtStart(z: string, src: string)
    requires src != "" && src[0] != '0'
    ensures CutAt(z + src, 0) == CutAt(z + src, |z|)
  {
    if |src| > 1 && src[|src| - 1] == '0' {
      assert (z + src)[..|z + src| - 1] == z + src[..|src| - 1];
      CutAtStart(z, src[..|src| - 1]);
    }
  }

  lemma LongText(src: string, d: nat)
    requires IsNumeral(src, 10) && 0 < d < |src|
    ensures Decimals(src, d) == Pointed(src[..|src| - d], Kept(src[|src| - d..]))
  {
    hide CutAt;
    var w, f := src[..|src| - d], src[|src| - d..];
    assert Laid(src, d) == w + "." + f;
    CutInside(w + ".", f, 0);
    var n := CutAt(f, 0);
    if n > 0 {
      assert DigitValue(src[|w| + n - 1]) < 10;
      assert (w + "." + f)[|w| + n] == src[|w| + n - 1];
      assert (w + "." + f)[..|w| + 1 + n] == w + "." + f[..n];
      assert n == |f| ==> f[..n] == f;
    } else {
      assert (w + "." + f)[..|w|] == w;
    }
  }

  lemma ScaledPointed(w: string, f: string, d: nat)
    requires Digits(w, 10) && |f| <= d
    ensures Scaled(Pointed(w, f), d) == Number(w, 10) * Pow(10, d) + Number(f, 10) * Pow(10, d - |f|)
  {
    hide Pow, Number, WholePart, FractionPart, Pointed;
    PartsOfPointed(w, f);
  }

  lemma NumberOfKept(f: string)
    ensures Number(Kept(f), 10) * Pow(10, |f| - |Kept(f)|) == Number(f, 10)
    ensures Kept(f) != "" ==> Kept(f)[|Kept(f)| - 1] != '0'
  {
    hide Pow, Number;
    CutLeavesZeros(f, 0);
    assert f == Kept(f) + Zeros(|f| - |Kept(f)|);
    NumberConcat(Kept(f), Zeros(|f| - |Kept(f)|));
    NumberOfZeros(|f| - |Kept(f)|);
  }

  /** The text denotes the number divided by `10^d`, exactly, and says it without superfluous characters. */
  lemma DecimalsDenote(src: string, d: nat)
    requires IsNumeral(src, 10)
    ensures Scaled(Decimals(src, d), d) == Number(src, 10)
    ensures WellFormed(Decimals(src, d), d)
  {
    hide Decimals, Scaled, Pow, Number, Pointed, WholePart, FractionPart, PointAt, Kept, Fraction, Whole;
    DecimalsOfNumeral(src, d);
    var w, f := if src == "0" then "0" else Whole(src, d), if src == "0" then "" else Kept(Fraction(src, d));
    NothingPointed("0");
    WholeAndFraction(src, d);
    KeptDigits(Fraction(src, d));
    NumberOfKept(Fraction(src, d));
    PartsOfPointed(w, f);
    ScaledPointed(w, f, d);
    NoDigits(d);
  }

  lemma NothingPointed(w: string)
    ensures Pointed(w, "") == w
  {
  }

  lemma NoDigits(d: nat)
    ensures Number("0", 10) == 0 && Number("", 10) == 0
    ensures IsNumeral("0", 10)
  {
  }

  lemma KeptDigits(f: string)
    requires Digits(f, 10)
    ensures Digits(Kept(f), 10) && |Kept(f)| <= |f|
  {
  }

  /** `t` is the number `n` times `10^-d`: whole part, and only if something is left of it a point and decimals. */
  ghost predicate Units(t: string, n: nat, d: nat) {
    var unit := Pow(10, d);
    var whole := Numeral(n / unit, 10);
    if n % unit == 0 then t == whole
    else |whole| + 1 < |t| && t[..|whole| + 1] == whole + "." && Remaining(t[|whole| + 1..], n % unit, d)
  }

  /** Decimals for `rest` of the smallest unit, the last one not 0. */
  ghost predicate Remaining(f: string, rest: nat, d: nat) {
    && 0 < |f| <= d && Digits(f, 10) && f[|f| - 1] != '0'
    && Number(f, 10) * Pow(10, d - |f|) == rest
  }

  lemma NothingKept(f: string)
    requires Digits(f, 10) && (f != "" ==> f[|f| - 1] != '0')
    ensures Number(f, 10) == 0 <==> f == ""
  {
    if f != "" {
      hide Number;
      var t, c := f[..|f| - 1], f[|f| - 1];
      assert f == t + [c];
      NumberAppend(t, c, 10);
      assert DigitValue(c) > 0;
    }
  }

  /** The text of a number, character by character, for every number of decimals. */
  lemma TextOfNumber(n: nat, d: nat)
    ensures Units(Decimals(Numeral(n, 10), d), n, d)
  {
    hide Number, Pow, Decimals, Whole, Fraction, Kept, Numeral, Digits, Remaining;
    var src, unit := Numeral(n, 10), Pow(10, d);
    NumeralDenotes(n, 10);
    DecimalsOfNumeral(src, d);
    if src == "0" {
      NoDigits(d);
      DivisionIsUnique(n, unit, 0, 0);
      ZeroNumeral();
    } else {
      var w, f := Whole(src, d), Fraction(src, d);
      WholeAndFraction(src, d);
      NumberBelow(f, 10);
      DivisionIsUnique(n, unit, Number(w, 10), Number(f, 10));
      NumeralIsUnique(w, 10);
      NumberOfKept(f);
      KeptDigits(f);
      NothingKept(Kept(f));
      KeptRemains(Kept(f), Number(f, 10), d);
      assert (w + "." + Kept(f))[|w| + 1..] == Kept(f) && (w + "." + Kept(f))[..|w| + 1] == w + ".";
    }
  }

  lemma KeptRemains(k: string, rest: nat, d: nat)
    requires Digits(k, 10) && |k| <= d && (k != "" ==> k[|k| - 1] != '0')
    requires Number(k, 10) * Pow(10, d - |k|) == rest && (Number(k, 10) == 0 <==> k == "")
    ensures if rest == 0 then k == "" else Remaining(k, rest, d)
  {
    hide Pow, Number, Digits;
    if k != "" {
      Powers.MulPositive(Number(k, 10), Pow(10, d - |k|));
    }
  }

  lemma ZeroNumeral()
    ensures Numeral(0, 10) == "0"
  {
  }

  lemma HundredThousand()
    ensures Numeral(100_000, 10) == "100000"
  {
    assert Numeral(1, 10) == "1" && Numeral(10, 10) == "10" && Numeral(100, 10) == "100";
    assert Numeral(1_000, 10) == "1000" && Numeral(10_000, 10) == "10000";
  }

  lemma Thousandth()
    ensures Decimals("100000", 8) == "0.001"
  {
    LaidShort("100000", 8);
    hide Laid, TrimFrom, Trimmed, CutAt;
    assert Zeros(2) == "00" && Zeros(5) == "00000";
    assert Laid("100000", 8) == "0.001" + Zeros(5);
    CutZeros("0.001", 5, 4);
    CutText("0.001" + Zeros(5), 4);
  }

  /** Zeros behind a text are cut off. */
  lemma {:induction false} CutZeros(t: string, n: nat, from: nat)
    requires 0 < |t| && from <= |t| && t[|t| - 1] != '0'
    ensures CutAt(t + Zeros(n), from) == |t|
  {
    if n > 0 {
      assert (t + Zeros(n))[..|t| + n - 1] == t + Zeros(n - 1);
      CutZeros(t, n - 1, from);
    } else {
      assert t + Zeros(0) == t;
    }
  }

  /** Different numbers get different texts. */
  lemma DecimalsAreInjective(a: string, b: string, d: nat)
    requires IsNumeral(a, 10) && IsNumeral(b, 10) && Decimals(a, d) == Decimals(b, d)
    ensures a == b
  {
    DecimalsDenote(a, d);
    DecimalsDenote(b, d);
    NumeralIsUnique(a, 10);
    NumeralIsUnique(b, 10);
  }
}
