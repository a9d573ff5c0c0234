/** Bytes, byte strings and the little-endian numbers read from them. */
module Bytes {
  import opened Radix

  type Byte = x: int | 0 <= x < 256

  /** Truncation of a 64-bit length to the device's 32-bit `size_t`. */
  const SIZE_T := 0x1_0000_0000

  lemma SmallModulus(v: nat)
    requires v < SIZE_T
    ensures v % SIZE_T == v
  {
  }

  function Pow256(n: nat): (p: nat)
    ensures p > 0
  {
    Pow(256, n)
  }

  /** The number whose least significant byte comes first. */
  function LittleEndian(b: seq<Byte>): (v: nat)
    ensures v < Pow256(|b|)
  {
    if b == [] then 0 else b[0] + 256 * LittleEndian(b[1..])
  }

  /** The number whose most significant byte comes first. */
  function BigEndian(b: seq<Byte>): nat { Value(b, 256) }

  /** The `n` low bytes of `v`, least significant first. */
  function ToLittleEndian(v: nat, n: nat): (b: seq<Byte>)
    ensures |b| == n
  {
    if n == 0 then [] else [v % 256] + ToLittleEndian(v / 256, n - 1)
  }

  lemma {:induction false} LittleEndianRoundTrip(v: nat, n: nat)
    ensures LittleEndian(ToLittleEndian(v, n)) == v % Pow256(n)
  {
    if n > 0 {
      var p := Pow256(n - 1);
      LittleEndianRoundTrip(v / 256, n - 1);
      assert ToLittleEndian(v, n)[1..] == ToLittleEndian(v / 256, n - 1);
      SplitModulus(v, p);
    }
  }

  lemma SplitModulus(v: nat, p: nat)
    requires p > 0
    ensures v % (256 * p) == v % 256 + 256 * ((v / 256) % p)
  {
    var q, r := v / 256 / p, (v / 256) % p;
    assert v / 256 == q * p + r;
    assert v == q * (256 * p) + (v % 256 + 256 * r);
    DivisionIsUnique(v, 256 * p, q, v % 256 + 256 * r);
  }

  lemma Step256(n: nat)
    ensures Pow256(0) == 1 && Pow256(n + 1) == 256 * Pow256(n)
  {
  }

  lemma Regroup(p: nat, v: nat)
    ensures 256 * (p * v) == (256 * p) * v
  {
  }

  lemma {:induction false} LittleEndianConcat(a: seq<Byte>, b: seq<Byte>)
    ensures LittleEndian(a + b) == LittleEndian(a) + Pow256(|a|) * LittleEndian(b)
  {
    if a == [] {
      Step256(0);
      assert a + b == b;
    } else {
      LittleEndianConcat(a[1..], b);
      assert (a + b)[1..] == a[1..] + b;
      hide Pow256;
      Step256(|a| - 1);
      Regroup(Pow256(|a| - 1), LittleEndian(b));
    }
  }

  /** The bytes of `b` are the characters of `s`. */
  predicate Spells(b: seq<Byte>, s: string) {
    |b| == |s| && forall i :: 0 <= i < |s| ==> b[i] == s[i] as int
  }

  // ---------------------------------------------------------------- the places of the bytes

  /** Byte `k` of a little-endian number is its digit at 256^k. */
  lemma {:induction false} PlaceOf(b: seq<Byte>, k: nat)
    requires k < |b|
    ensures LittleEndian(b) / Pow256(k) % 256 == b[k]
  {
    Step256(0);
    var v := LittleEndian(b);
    assert v / 256 == LittleEndian(b[1..]) && v % 256 == b[0];
    if k > 0 {
      PlaceOf(b[1..], k - 1);
      Step256(k - 1);
      DivisionSteps(v, 256, Pow256(k - 1));
    }
  }

  lemma TwoBytes(b: seq<Byte>)
    requires |b| == 2
    ensures var d: seq<nat> := b; LittleEndian(b) == d[0] + 0x100 * d[1]
  {
    assert b[1..][1..] == [];
    assert LittleEndian(b[1..][1..]) == 0;
  }

  /** The numbers of four bytes, the lowest and the highest byte first. */
  lemma FourBytes(b: seq<Byte>)
    requires |b| == 4
    ensures var d: seq<nat> := b;
            && LittleEndian(b) == d[0] + 0x100 * d[1] + 0x1_0000 * d[2] + 0x100_0000 * d[3]
            && BigEndian(b) == 0x100_0000 * d[0] + 0x1_0000 * d[1] + 0x100 * d[2] + d[3]
  {
    TwoBytes(b[2..]);
    TwoBytes(b[..2]);
    LittleEndianConcat(b[..2], b[2..]);
    assert b[..2] + b[2..] == b;
    Step256(0);
    Step256(1);
    var d: seq<nat> := b;
    assert d[..3][..2] == d[..2] && d[..2][..1] == d[..1] && d[..1][..0] == [];
    assert Value(d[..1], 256) == d[0];
    assert Value(d[..2], 256) == 256 * d[0] + d[1];
    assert Value(d[..3], 256) == 256 * (256 * d[0] + d[1]) + d[2];
  }

  lemma EightBytes(b: seq<Byte>)
    requires |b| == 8
    ensures var d: seq<nat> := b;
            LittleEndian(b) == d[0] + 0x100 * d[1] + 0x1_0000 * d[2] + 0x100_0000 * d[3]
                               + 0x1_0000_0000 * d[4] + 0x100_0000_0000 * d[5]
                               + 0x1_0000_0000_0000 * d[6] + 0x100_0000_0000_0000 * d[7]
  {
    FourBytes(b[..4]);
    FourBytes(b[4..]);
    LittleEndianConcat(b[..4], b[4..]);
    assert b[..4] + b[4..] == b;
    assert Pow256(4) == 0x1_0000_0000 by {
      Step256(0);
      Step256(1);
      Step256(2);
      Step256(3);
    }
  }
}
