/** Bitcoin-style variable-length integers (`src/common/varint.c`). */
module Varint {
  import opened Bytes
  import opened Radix

  datatype Reading = Short | Read(value: nat, size: nat)

  /** What a varint at the head of `b` says; `Short` when its bytes are not all there yet. */
  function ReadVarint(b: seq<Byte>): (r: Reading)
    ensures r.Read? ==> 1 <= r.size <= |b| && r.value < 0x1_0000_0000_0000_0000
  {
    if |b| < 1 then Short
    else if b[0] == 0xFD then
      if |b| < 3 then Short else Wide(b, 3)
    else if b[0] == 0xFE then
      if |b| < 5 then Short else Wide(b, 5)
    else if b[0] == 0xFF then
      if |b| < 9 then Short else Wide(b, 9)
    else Read(b[0], 1)
  }

  function Wide(b: seq<Byte>, size: nat): (r: Reading)
    requires size in {3, 5, 9} && size <= |b|
    ensures r.Read? && r.size == size && r.value < 0x1_0000_0000_0000_0000
  {
    Widths();
    Read(LittleEndian(b[1..size]), size)
  }

  function VarintSize(value: nat): nat {
    if value <= 0xFC then 1
    else if value <= 0xFFFF then 3
    else if value <= 0xFFFF_FFFF then 5
    else 9
  }

  function WriteVarint(value: nat): (b: seq<Byte>)
    ensures |b| == VarintSize(value)
  {
    if value <= 0xFC then [value]
    else if value <= 0xFFFF then [0xFD] + ToLittleEndian(value, 2)
    else if value <= 0xFFFF_FFFF then [0xFE] + ToLittleEndian(value, 4)
    else [0xFF] + ToLittleEndian(value, 8)
  }

  lemma Widths()
    ensures Pow256(2) == 0x1_0000 && Pow256(4) == 0x1_0000_0000 && Pow256(8) == 0x1_0000_0000_0000_0000
  {
    assert Pow256(0) == 1 && Pow256(1) == 256 && Pow256(2) == 0x1_0000;
    assert Pow256(3) == 0x100_0000 && Pow256(4) == 0x1_0000_0000 && Pow256(6) == 0x1_0000_0000_0000;
  }

  lemma WideRoundTrip(prefix: Byte, value: nat, n: nat, tail: seq<Byte>)
    requires n in {2, 4, 8} && value < Pow256(n)
    ensures Wide([prefix] + ToLittleEndian(value, n) + tail, n + 1) == Read(value, n + 1)
  {
    hide Pow256, LittleEndian, ToLittleEndian;
    BehindPrefix(prefix, ToLittleEndian(value, n), tail);
    LittleEndianRoundTrip(value, n);
  }

  lemma BehindPrefix(prefix: Byte, d: seq<Byte>, tail: seq<Byte>)
    ensures ([prefix] + d + tail)[1..|d| + 1] == d
  {
  }

  /** Reading back what was written gives the value, whatever bytes follow it. */
  lemma RoundTrip(value: nat, tail: seq<Byte>)
    requires value < 0x1_0000_0000_0000_0000
    ensures ReadVarint(WriteVarint(value) + tail) == Read(value, VarintSize(value))
  {
    hide Pow256, LittleEndian, ToLittleEndian, Wide;
    Widths();
    if value > 0xFC {
      var n := VarintSize(value) - 1;
      WideRoundTrip(WriteVarint(value)[0], value, n, tail);
      assert WriteVarint(value) == [WriteVarint(value)[0]] + ToLittleEndian(value, n);
    }
  }

  /** What is read, byte by byte: the first byte says how many bytes follow, the lowest of them first. */
  lemma ReadBytes(b: seq<Byte>)
    requires b != []
    ensures var d: seq<nat> := b;
            if d[0] < 0xFD then ReadVarint(b) == Read(d[0], 1)
            else if d[0] == 0xFD then
              ReadVarint(b) == if |b| < 3 then Short else Read(d[1] + 0x100 * d[2], 3)
            else if d[0] == 0xFE then
              ReadVarint(b) == if |b| < 5 then Short
                               else Read(d[1] + 0x100 * d[2] + 0x1_0000 * d[3] + 0x100_0000 * d[4], 5)
            else
              ReadVarint(b) == if |b| < 9 then Short
                               else Read(d[1] + 0x100 * d[2] + 0x1_0000 * d[3] + 0x100_0000 * d[4]
                                         + 0x1_0000_0000 * d[5] + 0x100_0000_0000 * d[6]
                                         + 0x1_0000_0000_0000 * d[7] + 0x100_0000_0000_0000 * d[8], 9)
  {
    hide LittleEndian;
    if |b| >= 3 {
      TwoBytes(b[1..3]);
    }
    if |b| >= 5 {
      FourBytes(b[1..5]);
    }
    if |b| >= 9 {
      EightBytes(b[1..9]);
    }
  }

  /** What is written: never more bytes than needed. */
  lemma WrittenBytes(value: nat)
    requires value < 0x1_0000_0000_0000_0000
    ensures value < 0xFD <==> |WriteVarint(value)| == 1
    ensures 0xFD <= value < 0x1_0000 <==> |WriteVarint(value)| == 3
    ensures 0x1_0000 <= value < 0x1_0000_0000 <==> |WriteVarint(value)| == 5
    ensures 0x1_0000_0000 <= value <==> |WriteVarint(value)| == 9
    ensures |WriteVarint(value)| == 1 ==> WriteVarint(value) == [value]
    ensures |WriteVarint(value)| == 3 ==> WriteVarint(value) == [0xFD, value % 0x100, value / 0x100]
    ensures |WriteVarint(value)| == 5 ==>
              WriteVarint(value) == [0xFE, value % 0x100, value / 0x100 % 0x100, value / 0x1_0000 % 0x100,
                                     value / 0x100_0000]
    ensures |WriteVarint(value)| == 9 ==>
              WriteVarint(value) == [0xFF, value % 0x100, value / 0x100 % 0x100, value / 0x1_0000 % 0x100,
                                     value / 0x100_0000 % 0x100, value / 0x1_0000_0000 % 0x100,
                                     value / 0x100_0000_0000 % 0x100, value / 0x1_0000_0000_0000 % 0x100,
                                     value / 0x100_0000_0000_0000]
  {
    hide ToLittleEndian;
    TwoWritten(value);
    FourWritten(value);
    EightWritten(value);
  }

  lemma TwoWritten(v: nat)
    ensures ToLittleEndian(v, 2) == [v % 0x100, v / 0x100 % 0x100]
  {
    assert ToLittleEndian(v / 256, 1) == [v / 256 % 256] + ToLittleEndian(v / 256 / 256, 0);
  }

  lemma FourWritten(v: nat)
    ensures ToLittleEndian(v, 4) == [v % 0x100, v / 0x100 % 0x100, v / 0x1_0000 % 0x100, v / 0x100_0000 % 0x100]
  {
    TwoWritten(v / 256 / 256);
    assert ToLittleEndian(v / 256, 3) == [v / 256 % 256] + ToLittleEndian(v / 256 / 256, 2);
  }

  lemma EightWritten(v: nat)
    ensures ToLittleEndian(v, 8) == [v % 0x100, v / 0x100 % 0x100, v / 0x1_0000 % 0x100, v / 0x100_0000 % 0x100,
                                     v / 0x1_0000_0000 % 0x100, v / 0x100_0000_0000 % 0x100,
                                     v / 0x1_0000_0000_0000 % 0x100, v / 0x100_0000_0000_0000 % 0x100]
  {
    hide ToLittleEndian, Pow256;
    var w := v / 0x1_0000_0000;
    FourWritten(v);
    FourWritten(w);
    WrittenSplit(v, 4, 4);
    assert Pow256(4) == 0x1_0000_0000 by { Widths(); }
    Quartered(v, w);
  }

  lemma Quartered(v: nat, w: nat)
    requires w == v / 0x1_0000_0000
    ensures w / 0x100 == v / 0x100_0000_0000 && w / 0x1_0000 == v / 0x1_0000_0000_0000
    ensures w / 0x100_0000 == v / 0x100_0000_0000_0000
  {
  }

  lemma {:induction false} WrittenSplit(v: nat, m: nat, n: nat)
    ensures ToLittleEndian(v, m + n) == ToLittleEndian(v, m) + ToLittleEndian(v / Pow256(m), n)
  {
    Step256(0);
    if m == 0 {
      assert ToLittleEndian(v, 0) == [];
    } else {
      var p := Pow256(m - 1);
      Step256(m - 1);
      DivisionSteps(v, 256, p);
      WrittenSplit(v / 256, m - 1, n);
      hide Pow256;
      assert ToLittleEndian(v, m) == [v % 256] + ToLittleEndian(v / 256, m - 1);
    }
  }

  /** A varint that is completely there reads the same when more bytes arrive. */
  lemma Stable(b: seq<Byte>, tail: seq<Byte>)
    requires ReadVarint(b).Read?
    ensures ReadVarint(b + tail) == ReadVarint(b)
  {
    var n := ReadVarint(b).size;
    assert (b + tail)[1..n] == b[1..n];
  }

  /** `varint_read`: the number of bytes used, or -1 with nothing read. */
  method VarintRead(input: seq<Byte>) returns (length: int, value: nat)
    ensures match ReadVarint(input)
            case Short => length == -1
            case Read(v, n) => length == n && value == v
  {
    if |input| < 1 { return -1, 0; }
    var prefix := input[0];
    if prefix == 0xFD {
      if |input| < 3 { return -1, 0; }
      return 3, LittleEndian(input[1..3]);
    }
    if prefix == 0xFE {
      if |input| < 5 { return -1, 0; }
      return 5, LittleEndian(input[1..5]);
    }
    if prefix == 0xFF {
      if |input| < 9 { return -1, 0; }
      return 9, LittleEndian(input[1..9]);
    }
    return 1, prefix;
  }

  /** `varint_write`: the prefix byte and the little-endian value, at `offset`. */
  method VarintWrite(out: array<Byte>, offset: nat, value: nat) returns (length: nat)
    requires value < 0x1_0000_0000_0000_0000 && offset + VarintSize(value) <= out.Length
    modifies out
    ensures length == VarintSize(value)
    ensures out[..] == old(out[..offset]) + WriteVarint(value) + old(out[offset + VarintSize(value)..])
  {
    hide ToLittleEndian;
    length := VarintSize(value);
    match length
    case 1 =>
      out[offset] := value;
    case 3 =>
      WritePrefixed(out, offset, 0xFD, value, 2);
    case 5 =>
      WritePrefixed(out, offset, 0xFE, value, 4);
    case _ =>
      WritePrefixed(out, offset, 0xFF, value, 8);
  }

  method WritePrefixed(out: array<Byte>, offset: nat, prefix: Byte, value: nat, n: nat)
    requires offset + 1 + n <= out.Length
    modifies out
    ensures out[..] == old(out[..offset]) + ([prefix] + ToLittleEndian(value, n)) + old(out[offset + 1 + n..])
  {
    out[offset] := prefix;
    WriteLittleEndian(out, offset + 1, value, n);
  }

  /** `write_u16_le`, `write_u32_le`, `write_u64_le`. */
  method WriteLittleEndian(out: array<Byte>, at: nat, value: nat, n: nat)
    requires at + n <= out.Length
    modifies out
    ensures out[..] == old(out[..at]) + ToLittleEndian(value, n) + old(out[at + n..])
  {
    var bytes := ToLittleEndian(value, n);
    forall i | 0 <= i < n {
      out[at + i] := bytes[i];
    }
  }
}
