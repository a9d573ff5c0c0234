/** `handler_sign_ns` (`src/handler/sign_ns.c`): hashing and counting a message that arrives in chunks. */
module SignNs {
  import opened Bytes
  import opened Radix
  import opened Numerals
  import opened Buffer
  import Chunks
  import Fee
  import Format
  import SignTx

  /** `size_t` on the device. */
  type Size = x: int | 0 <= x < 0x1_0000_0000

  /** `Undefined`: the length does not fit `temp`, which is then read without a terminator. */
  datatype Reply = SwOk | Signs | WrongLength | ParsingFail | Undefined

  /** The declared length, the bytes counted so far and the bytes given to the hash. */
  datatype Session = Session(messageLen: nat, rawTxLen: nat, hashed: seq<Byte>)
  datatype Fed = Fed(reply: Reply, session: Session)

  function Ascii(s: string): (b: seq<Byte>)
    ensures |b| == |s|
  {
    seq(|s|, i requires 0 <= i < |s| => s[i] as int % 256)
  }

  const MAGIC := "\U{19}NULS Signed Message:\n"

  /** The declared length; a chunk too short for it declares 0. */
  function Declared(first: seq<Byte>): nat { if |first| >= 4 then BigEndian(first[..4]) else 0 }
  function Remaining(first: seq<Byte>): seq<Byte> { if |first| >= 4 then first[4..] else first }

  /** What is hashed before the message. */
  function Frame(length: nat): seq<Byte> { Ascii(MAGIC) + Ascii(Numeral(length, 10)) }

  function Opened(first: seq<Byte>): Session {
    Session(Declared(first), 0, Frame(Declared(first)))
  }

  /** Lines 87 to 109 and 113: one chunk of the message. */
  function Feed(s: Session, chunk: seq<Byte>, more: bool): Fed {
    var s' := Session(s.messageLen, (s.rawTxLen + |chunk|) % SIZE_T, s.hashed + chunk);
    if s'.messageLen < s'.rawTxLen then Fed(WrongLength, s')
    else if more then Fed(SwOk, s')
    else if s'.messageLen != s'.rawTxLen then Fed(ParsingFail, s')
    else Fed(Signs, s')
  }

  /** An uninterrupted run: every chunk but the last announces more, and the first bad answer ends it. */
  function Sign(s: Session, chunks: seq<seq<Byte>>): Fed
    requires chunks != []
    decreases |chunks|
  {
    var fed := Feed(s, chunks[0], |chunks| > 1);
    if |chunks| == 1 || fed.reply != SwOk then fed else Sign(fed.session, chunks[1..])
  }

  ghost predicate ChunksFit(chunks: seq<seq<Byte>>) { forall i :: 0 <= i < |chunks| ==> |chunks[i]| <= 255 }

  /**
   A run signs exactly when the bytes that arrive are as many as are still missing, and then it hashed them all; it
   fails with fewer and says so with more.
   */
  lemma {:induction false} SignsExactly(s: Session, chunks: seq<seq<Byte>>)
    requires chunks != [] && ChunksFit(chunks) && s.rawTxLen <= s.messageLen < 1_000_000_000
    decreases |chunks|
    ensures var fed, n := Sign(s, chunks), s.rawTxLen + |Chunks.Concat(chunks)|;
            && (fed.reply == Signs <==> n == s.messageLen)
            && (fed.reply == ParsingFail <==> n < s.messageLen)
            && (fed.reply == WrongLength <==> n > s.messageLen)
            && (fed.reply == Signs ==> fed.session.hashed == s.hashed + Chunks.Concat(chunks))
  {
    var fed := Feed(s, chunks[0], |chunks| > 1);
    assert Chunks.Concat(chunks) == chunks[0] + Chunks.Concat(chunks[1..]);
    if |chunks| == 1 {
      assert Chunks.Concat(chunks[1..]) == [];
    } else if fed.reply == SwOk {
      assert ChunksFit(chunks[1..]);
      SignsExactly(fed.session, chunks[1..]);
      assert s.hashed + chunks[0] + Chunks.Concat(chunks[1..]) == s.hashed + Chunks.Concat(chunks);
    }
  }

  /** What is hashed for a message: a byte 0x19, the magic text, the length in decimal, and the message. */
  ghost predicate Hashes(h: seq<Byte>, message: seq<Byte>) {
    var k := |h| - |message|;
    k >= 0 && h[k..] == message && Spells(h[..k], "\U{19}NULS Signed Message:\n" + Numeral(|message|, 10))
  }

  lemma FrameSpells(n: nat)
    ensures Spells(Frame(n), "\U{19}NULS Signed Message:\n" + Numeral(n, 10))
  {
    hide Ascii, Numeral, Number;
    MagicSpells();
    NumeralDenotes(n, 10);
    NumeralSpells(Numeral(n, 10));
    SpellsBoth(Ascii(MAGIC), MAGIC, Ascii(Numeral(n, 10)), Numeral(n, 10));
  }

  lemma MagicSpells()
    ensures MAGIC == "\U{19}NULS Signed Message:\n" && Spells(Ascii(MAGIC), MAGIC)
  {
    assert forall i :: 0 <= i < |MAGIC| ==> MAGIC[i] < '\U{80}';
  }

  lemma NumeralSpells(s: string)
    requires Digits(s, 10)
    ensures Spells(Ascii(s), s)
  {
    forall i | 0 <= i < |s| ensures s[i] as int < 256 {
      assert DigitValue(s[i]) < 10;
    }
  }

  lemma SpellsBoth(a: seq<Byte>, s: string, b: seq<Byte>, t: string)
    requires Spells(a, s) && Spells(b, t)
    ensures Spells(a + b, s + t)
  {
  }

  /**
   From the first chunk on, which declares a length in four bytes, the highest first: the message is signed exactly when
   it has that length, whatever chunks it comes in, and hashed is its frame.
   */
  lemma MessageSigned(first: seq<Byte>, chunks: seq<seq<Byte>>)
    requires |first| >= 4 && ChunksFit([first[4..]] + chunks)
    requires var d: seq<nat> := first; 0x100_0000 * d[0] + 0x1_0000 * d[1] + 0x100 * d[2] + d[3] < 1_000_000_000
    ensures var d: seq<nat> := first;
            var n := 0x100_0000 * d[0] + 0x1_0000 * d[1] + 0x100 * d[2] + d[3];
            var message := Chunks.Concat([first[4..]] + chunks);
            var fed := Sign(Opened(first), [first[4..]] + chunks);
            && (fed.reply == Signs <==> |message| == n)
            && (fed.reply == ParsingFail <==> |message| < n)
            && (fed.reply == WrongLength <==> |message| > n)
            && (fed.reply == Signs ==> Hashes(fed.session.hashed, message))
  {
    FourBytes(first[..4]);
    var message := Chunks.Concat([first[4..]] + chunks);
    hide Frame, Numeral, Sign, Chunks.Concat, BigEndian;
    SignsExactly(Opened(first), [first[4..]] + chunks);
    FrameSpells(|message|);
    assert (Frame(|message|) + message)[..|Frame(|message|)|] == Frame(|message|);
    assert (Frame(|message|) + message)[|Frame(|message|)|..] == message;
  }

  /** A first chunk without four bytes declares no length: it is signed only without any message. */
  lemma NothingDeclared(first: seq<Byte>, chunks: seq<seq<Byte>>)
    requires |first| < 4 && ChunksFit([first] + chunks)
    ensures var message := Chunks.Concat([first] + chunks);
            var fed := Sign(Opened(first), [first] + chunks);
            && (fed.reply == Signs <==> message == [])
            && (fed.reply == WrongLength <==> message != [])
            && (fed.reply == Signs ==> Hashes(fed.session.hashed, []))
  {
    hide Frame, Numeral, Sign, Chunks.Concat;
    SignsExactly(Opened(first), [first] + chunks);
    FrameSpells(0);
  }

  // ---------------------------------------------------------------- the frame tells messages apart

  /** Longer numerals belong to larger numbers only. */
  lemma NumeralsGrow(n: nat, m: nat)
    requires n <= m
    ensures |Numeral(n, 10)| <= |Numeral(m, 10)|
  {
    hide Numeral, Pow;
    NumeralFits(m, 10, |Numeral(m, 10)|);
    NumeralFits(n, 10, |Numeral(m, 10)|);
  }

  /** The framed message determines the message. */
  lemma FrameIsInjective(a: seq<Byte>, b: seq<Byte>)
    requires Frame(|a|) + a == Frame(|b|) + b
    ensures a == b
  {
    hide Ascii, Numeral;
    if |a| < |b| {
      NumeralsGrow(|a|, |b|);
    } else if |b| < |a| {
      NumeralsGrow(|b|, |a|);
    }
    assert |Frame(|a|) + a| == |Frame(|a|)| + |a| && |Frame(|b|) + b| == |Frame(|b|)| + |b|;
    var f := Frame(|a|);
    assert a == (f + a)[|f|..] && b == (f + b)[|f|..];
  }

  // ---------------------------------------------------------------- the handler

  lemma LengthFits(n: nat)
    ensures |Numeral(n, 10)| + 1 <= 10 <==> n < 1_000_000_000
  {
    hide Numeral;
    assert Pow(10, 3) == 1000;
    hide Pow;
    PowAdd(10, 3, 3);
    PowAdd(10, 6, 3);
    NumeralFits(n, 10, 9);
  }

  /** `G_context`, as far as signing a message goes. */
  class Context {
    var messageLen: nat
    var rawTxLen: Size
    var request: SignTx.Request
    var phase: SignTx.Phase
    /** The bytes `cx_hash` has been given. */
    ghost var hashed: seq<Byte>

    constructor () {
      messageLen, rawTxLen := 0, 0;
      request, phase := SignTx.ConfirmAddress, SignTx.StateNone;
      hashed := [];
    }

    ghost function View(): Session
      reads this
    {
      Session(messageLen, rawTxLen, hashed)
    }

    /** Lines 51 to 71 after the key is derived: the length is read and the frame is hashed. */
    method Open(cdata: Cursor) returns (framed: bool)
      requires cdata.Valid()
      modifies this, cdata`offset
      ensures cdata.Valid() && framed == (Declared(old(cdata.Rest())) < 1_000_000_000)
      ensures framed ==> View() == Opened(old(cdata.Rest())) && cdata.Rest() == Remaining(old(cdata.Rest()))
      ensures request == SignTx.ConfirmTransaction && phase == SignTx.StateNone
    {
      hide Numeral;
      messageLen, rawTxLen := 0, 0;
      request, phase := SignTx.ConfirmTransaction, SignTx.StateNone;
      hashed := Ascii(MAGIC);
      var ok, len := cdata.ReadU32BE();
      messageLen := len;
      var temp := new char[11];
      LengthFits(messageLen);
      NumeralLengthOfDigit(messageLen);
      framed := Format.FormatU64(temp, 0, 10, messageLen);
      if framed {
        NumeralDenotes(messageLen, 10);
        Fee.NoTerminator(Numeral(messageLen, 10));
        var n := Fee.StrLen(temp, Numeral(messageLen, 10));
        hashed := hashed + Ascii(temp[..n]);
        assert temp[..n] == Numeral(messageLen, 10);
      }
    }

    lemma NumeralLengthOfDigit(n: nat)
      ensures n <= 9 ==> |Numeral(n, 10)| == 1
    {
    }

    /**
     `handler_sign_ns`.  `pathRead` is the verdict of `init_public_key`, which takes the BIP-32 path off the front of a
     first chunk.  None stands for `SW_BAD_STATE`.
     */
    method HandleSignNs(cdata: Cursor, chunk: nat, more: bool, pathRead: bool) returns (badState: bool, reply: Reply)
      requires cdata.Valid() && (chunk > 0 ==> cdata.offset == 0)
      modifies this, cdata`offset
      ensures badState == (chunk > 0 && old(request) != SignTx.ConfirmTransaction)
      ensures badState ==> View() == old(View())
      ensures chunk == 0 && !pathRead ==> reply == ParsingFail
      ensures chunk == 0 && pathRead ==>
                var first := old(cdata.Rest());
                if Declared(first) >= 1_000_000_000 then reply == Undefined
                else Fed(reply, View()) == Feed(Opened(first), Remaining(first), more)
      ensures chunk > 0 && !badState ==> Fed(reply, View()) == Feed(old(View()), old(cdata.Rest()), more)
      ensures !badState && reply == Signs ==> phase == SignTx.StateParsed
      ensures phase == SignTx.StateParsed ==> (!badState && reply == Signs) || (chunk > 0 && old(phase) == phase)
    {
      if chunk == 0 {
        if !pathRead {
          messageLen, rawTxLen, hashed := 0, 0, [];
          request, phase := SignTx.ConfirmTransaction, SignTx.StateNone;
          return false, ParsingFail;
        }
        var framed := Open(cdata);
        if !framed {
          return false, Undefined;
        }
      } else if request != SignTx.ConfirmTransaction {
        return true, ParsingFail;
      }
      var balance := cdata.size - cdata.offset;
      ghost var before, rest := hashed, cdata.Rest();
      if balance > 0 {
        hashed := hashed + cdata.Rest();
        rawTxLen := (rawTxLen + balance) % SIZE_T;
      }
      assert hashed == before + rest;
      if messageLen < rawTxLen {
        return false, WrongLength;
      }
      if more {
        return false, SwOk;
      }
      if messageLen != rawTxLen {
        return false, ParsingFail;
      }
      phase := SignTx.StateParsed;
      return false, Signs;
    }
  }
}
