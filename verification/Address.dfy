/** Addresses on screen (`src/address.c`): a checksum byte and Base58 after a fixed prefix. */
module Address {
  import opened Bytes
  import opened Radix
  import opened Powers
  import opened Numerals
  import opened Base58
  import Base58Code

  function ByteXor(a: Byte, b: Byte): Byte {
    assert Powers.Xor(a, b) < 256 by {
      EightBits();
      XorBelow(a, b, 8);
    }
    Powers.Xor(a, b)
  }

  lemma EightBits()
    ensures Pow2(8) == 256
  {
    Pow2Small();
    Pow2Add(2, 2);
    Pow2Add(4, 4);
  }

  /** The exclusive or of all bytes. */
  function XorAll(b: seq<Byte>): Byte {
    if b == [] then 0 else ByteXor(XorAll(b[..|b| - 1]), b[|b| - 1])
  }

  /** How many bytes have bit `k` set. */
  function BitCount(b: seq<Byte>, k: nat): nat {
    if b == [] then 0 else BitCount(b[..|b| - 1], k) + b[|b| - 1] / Pow2(k) % 2
  }

  /** Bit `k` of the exclusive or is the parity of the number of bytes that have it set. */
  lemma {:induction false} XorIsParity(b: seq<Byte>, k: nat)
    ensures XorAll(b) / Pow2(k) % 2 == BitCount(b, k) % 2
  {
    if b == [] {
      BitStep(0, k);
    } else {
      XorIsParity(b[..|b| - 1], k);
      hide *;
      XorLast(b);
      CountLast(b, k);
      OneMoreByte(XorAll(b[..|b| - 1]), b[|b| - 1], BitCount(b[..|b| - 1], k), k);
    }
  }

  lemma XorLast(b: seq<Byte>)
    requires b != []
    ensures XorAll(b) == ByteXor(XorAll(b[..|b| - 1]), b[|b| - 1])
  {
  }

  lemma CountLast(b: seq<Byte>, k: nat)
    requires b != []
    ensures BitCount(b, k) == BitCount(b[..|b| - 1], k) + b[|b| - 1] / Pow2(k) % 2
  {
  }

  lemma OneMoreByte(x: Byte, y: Byte, count: nat, k: nat)
    requires x / Pow2(k) % 2 == count % 2
    ensures ByteXor(x, y) / Pow2(k) % 2 == (count + y / Pow2(k) % 2) % 2
  {
    hide Pow2, Powers.Xor;
    XorBits(x, y, k);
  }

  /** `__xor`. */
  method Xor(buffer: seq<Byte>) returns (xor: Byte)
    ensures xor == XorAll(buffer) && forall k: nat :: xor / Pow2(k) % 2 == BitCount(buffer, k) % 2
  {
    xor := 0;
    for i := 0 to |buffer|
      invariant xor == XorAll(buffer[..i])
    {
      assert buffer[..i + 1][..i] == buffer[..i];
      xor := ByteXor(xor, buffer[i]);
    }
    assert buffer[..|buffer|] == buffer;
    forall k: nat ensures xor / Pow2(k) % 2 == BitCount(buffer, k) % 2 {
      XorIsParity(buffer, k);
    }
  }

  /** An address and its checksum. */
  function Checked(address: seq<Byte>): seq<Byte> { address + [XorAll(address)] }

  /** Over an address and its checksum every bit is set an even number of times. */
  lemma ChecksumCancels(address: seq<Byte>)
    ensures XorAll(Checked(address)) == 0
    ensures forall k: nat :: BitCount(Checked(address), k) % 2 == 0
  {
    assert Checked(address)[..|address|] == address;
    XorSelf(XorAll(address));
    forall k: nat ensures BitCount(Checked(address), k) % 2 == 0 {
      XorIsParity(Checked(address), k);
      BitStep(0, k);
    }
  }

  /** The Base58 text of an address. */
  function AddressText(address: seq<Byte>): string { Encode(Checked(address)) }

  lemma PowersAround()
    ensures Pow(58, 31) <= Pow(256, 23) && 10 * Pow(256, 23) <= Pow(58, 32)
  {
    hide Pow;
    PowersOf58();
    PowersOf256();
    PowStep(58, 31);
  }

  /** With a first byte from 1 to 9 an address always takes 32 characters. */
  lemma TextLength(address: seq<Byte>)
    requires |address| == 23 && 1 <= address[0] <= 9
    ensures |AddressText(address)| == 32
  {
    hide Pow, Value, ToBase;
    var b: seq<nat> := Checked(address);
    assert LeadingZeros(b) == 0 && b[0..] == b;
    assert b == [b[0]] + b[1..];
    Base58Code.ValueCons(b[0], b[1..], 256, Pow(256, 23));
    ValueBelow(b[1..], 256);
    PowersAround();
    Multiples(b[0], Pow(256, 23));
    DigitCount(Value(b, 256), 58, 32);
    DigitCountAtLeast(Value(b, 256), 58, 31);
  }

  /**
   For any bytes: the text takes 32 characters exactly when the number of the address and its checksum lies between two
   powers of 58, which move down with every leading zero byte; above them the text is refused.
   */
  lemma TextLengthExactly(address: seq<Byte>)
    requires |address| == 23
    ensures var z, v := LeadingZeros(Checked(address)), Value(Checked(address), 256);
            && (|AddressText(address)| == 32 <==> Pow(58, 31 - z) <= v < Pow(58, 32 - z))
            && (|AddressText(address)| > 32 <==> v >= Pow(58, 32 - z))
  {
    hide Pow, Value, ToBase, Checked;
    CheckedLength(address);
    var b: seq<nat> := Checked(address);
    var z := LeadingZeros(b);
    LeadingZerosAdd(b, z, 256);
    CountedDigits(Value(b, 256), 31 - z);
    CountedDigits(Value(b, 256), 32 - z);
  }

  lemma CheckedLength(address: seq<Byte>)
    ensures |Checked(address)| == |address| + 1
  {
  }

  lemma CountedDigits(n: nat, k: nat)
    ensures |ToBase(n, 58)| <= k <==> n < Pow(58, k)
  {
    hide Pow, ToBase;
    if n < Pow(58, k) {
      DigitCount(n, 58, k);
    } else {
      DigitCountAtLeast(n, 58, k);
    }
  }

  lemma Multiples(d: nat, p: nat)
    requires 1 <= d <= 9
    ensures p <= d * p <= 9 * p
  {
  }

  /** The text gives the address back, with a checksum that makes the count of every bit even. */
  lemma TextDenotes(address: seq<Byte>)
    requires |address| == 23
    ensures Valid(AddressText(address))
    ensures var b := Decode(AddressText(address));
            |b| == 24 && b[..23] == address && forall k: nat :: BitCount(b, k) % 2 == 0
  {
    DecodeOfEncode(Checked(address));
    ChecksumCancels(address);
  }

  /**
   `nuls_address_to_encoded_base58` at `out[at..]`: it throws exactly when the text takes more than the 32 characters
   of room.
   */
  method AddressToBase58(address: seq<Byte>, out: array<char>, at: nat) returns (thrown: bool)
    requires |address| == 23 && at + 32 <= out.Length
    modifies out
    ensures thrown == (|AddressText(address)| > 32)
    ensures !thrown ==> out[at..at + |AddressText(address)|] == AddressText(address)
    ensures Only(old(out[..]), out, at, at + 32)
  {
    hide Encode;
    var xor := Xor(address);
    var n := Base58Code.Base58Encode(address + [xor], out, at, 32);
    thrown := n < 0;
  }

  function Prefix(address: seq<Byte>): string
    requires |address| == 23
  {
    if LittleEndian(address[..2]) == 9 then "NERVEe" else "NULSd"
  }

  lemma Joined(out: array<char>, prefix: string, text: string)
    requires |prefix| + |text| <= out.Length && out[..|prefix|] == prefix
    requires out[|prefix|..|prefix| + |text|] == text
    ensures out[0..|prefix + text|] == prefix + text
  {
  }

  method PutPrefix(prefix: string, out: array<char>)
    requires |prefix| <= out.Length
    modifies out
    ensures out[..|prefix|] == prefix
  {
    forall i | 0 <= i < |prefix| {
      out[i] := prefix[i];
    }
  }

  /**
   `nuls_dispaly_address_to_encoded_base58`.  The terminator goes to a fixed place, which is the right one when the
   first byte is 1 to 9.
   */
  method DisplayAddress(address: seq<Byte>, out: array<char>) returns (thrown: bool)
    requires |address| == 23 && |Prefix(address)| + 32 < out.Length
    modifies out
    ensures thrown == (|AddressText(address)| > 32)
    ensures |AddressText(address)| == 32 ==> Holds(out, 0, Prefix(address) + AddressText(address))
    ensures 1 <= address[0] <= 9 ==> !thrown && Holds(out, 0, Prefix(address) + AddressText(address))
    ensures Prefix(address) == if address[0] == 9 && address[1] == 0 then "NERVEe" else "NULSd"
  {
    TwoBytes(address[..2]);
    if 1 <= address[0] <= 9 {
      TextLength(address);
    }
    hide AddressText, Prefix;
    var prefix := Prefix(address);
    PutPrefix(prefix, out);
    thrown := AddressToBase58(address, out, |prefix|);
    if !thrown {
      out[32 + |prefix|] := '\0';
      Joined(out, prefix, AddressText(address));
    }
  }

  /** `address_from_pubkey`; `hash` is the 20-byte hash of the public key. */
  method AddressFromHash(chainId: nat, addressType: Byte, hash: seq<Byte>, out: array<char>)
    returns (address: seq<Byte>, thrown: bool)
    requires chainId < 0x1_0000 && |hash| == 20 && out.Length > 32
    modifies out
    ensures |address| == 23 && LittleEndian(address[..2]) == chainId
    ensures address[0] == chainId % 0x100 && address[1] == chainId / 0x100
    ensures address[2] == addressType && address[3..] == hash
    ensures thrown == (|AddressText(address)| > 32)
    ensures |AddressText(address)| == 32 ==> Holds(out, 0, AddressText(address))
    ensures 1 <= chainId % 256 <= 9 ==> !thrown && Holds(out, 0, AddressText(address))
  {
    address := [chainId % 0x100, chainId / 0x100, addressType] + hash;
    TwoBytes(address[..2]);
    if 1 <= address[0] <= 9 {
      TextLength(address);
    }
    hide AddressText;
    thrown := AddressToBase58(address, out, 0);
    if !thrown {
      out[32] := '\0';
    }
  }

  /** Different chains, types or hashes have different texts. */
  lemma TextIsInjective(a: seq<Byte>, b: seq<Byte>)
    requires |a| == |b| == 23 && AddressText(a) == AddressText(b)
    ensures a == b
  {
    TextDenotes(a);
    TextDenotes(b);
  }
}
