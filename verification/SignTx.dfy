/** `handler_sign_tx` (`src/handler/sign_tx.c`) over the global context, against `Chunks.Feed`. */
module SignTx {
  import opened Bytes
  import opened Varint
  import opened TxMachine
  import opened Resume
  import opened Buffer
  import opened Deserialize
  import Chunks

  datatype Request = ConfirmAddress | ConfirmTransaction
  datatype Phase = StateNone | StateParsed | StateApproved

  /** What `io_send_sw` answers, or that the review screens are shown. */
  datatype Answer = BadState | Answered(reply: Chunks.Reply)

  /** `G_context`, as far as signing a transaction goes. */
  class Context {
    const tx: Transaction
    const rawTx: array<Byte>
    var rawTxLen: nat
    var messageLen: nat
    var request: Request
    var phase: Phase
    /** The bytes `cx_sha256_update` has been given. */
    ghost var hashed: seq<Byte>

    /** Of the context at any time; the parser need not be waiting for a chunk. */
    ghost predicate Valid()
      reads this, tx, tx.heap
    {
      && rawTx.Length == Chunks.MAX_TRANSACTION_LEN && rawTxLen <= rawTx.Length
      && rawTx != tx.heap.buff
      && messageLen == |hashed|
      && tx.Valid()
    }

    ghost function Session(): Chunks.Session
      reads this, rawTx, tx, tx.heap, tx.heap.buff
      requires Valid()
    {
      Chunks.Session(rawTx[..rawTxLen], tx.View(), hashed)
    }

    constructor ()
      ensures Valid() && request == ConfirmAddress
    {
      var heap := new Heap();
      tx := new Transaction(heap);
      rawTx := new Byte[Chunks.MAX_TRANSACTION_LEN];
      rawTxLen, messageLen := 0, 0;
      request, phase := ConfirmAddress, StateNone;
      hashed := [];
    }

    /** The zeroed context of chunk 0; the arena is not part of it. */
    method Reset()
      requires Valid()
      modifies this, tx
      ensures Valid() && tx.Waits() && Session() == Chunks.Opened(tx.heap.Arena())
      ensures request == ConfirmTransaction && phase == StateNone
    {
      tx.Clear();
      rawTxLen, messageLen := 0, 0;
      request, phase := ConfirmTransaction, StateNone;
      hashed := [];
    }

    /** Lines 70 to 86: the chunk is hashed and appended to the kept bytes. */
    method Append(cdata: Cursor) returns (fits: bool)
      requires Valid() && cdata.Valid() && cdata.ptr != rawTx && cdata.ptr != tx.heap.buff
      modifies this`rawTxLen, this`messageLen, this`hashed, rawTx, cdata`offset
      ensures Valid() && tx.View() == old(tx.View()) && tx.Waits() == old(tx.Waits())
      ensures fits == (old(cdata.Rest()) == [] || old(rawTxLen) + |old(cdata.Rest())| <= Chunks.MAX_TRANSACTION_LEN)
      ensures fits ==> rawTx[..rawTxLen] == old(rawTx[..rawTxLen]) + old(cdata.Rest())
                       && hashed == old(hashed) + old(cdata.Rest())
      ensures !fits ==> rawTxLen == old(rawTxLen) && rawTx[..] == old(rawTx[..]) && hashed == old(hashed)
    {
      var balance := cdata.size - cdata.offset;
      if balance > 0 {
        if rawTxLen + balance > rawTx.Length {
          return false;
        }
        messageLen := messageLen + balance;
        hashed := hashed + cdata.Rest();
        var ok := cdata.SpcMove(rawTx, rawTxLen, balance);
        rawTxLen := rawTxLen + balance;
      }
      return true;
    }

    /** The unread tail moves to the front. */
    method Compact(from: nat)
      requires from <= rawTxLen <= rawTx.Length
      modifies this`rawTxLen, rawTx
      ensures rawTxLen == old(rawTxLen) - from && rawTx[..rawTxLen] == old(rawTx[from..rawTxLen])
    {
      var n := rawTxLen - from;
      forall i | 0 <= i < n {
        rawTx[i] := rawTx[from + i];
      }
      rawTxLen := n;
    }

    /** Lines 90 to 136: parse, and keep what the next chunk needs. */
    method Parse(more: bool) returns (reply: Chunks.Reply)
      requires Valid() && tx.Waits()
      modifies this`rawTxLen, this`phase, rawTx, tx, tx.heap`offset, tx.heap.buff
      ensures Valid()
      ensures var fed := old(Chunks.Digest(Session(), rawTx[..rawTxLen], hashed,
                                           Run(tx.View(), rawTx[..rawTxLen]), more));
              && reply == fed.reply
              && (reply == Chunks.SwOk ==> tx.Waits() && Session() == fed.session)
              && (reply == Chunks.Review ==>
                    phase == StateParsed && tx.View() == fed.session.st && hashed == fed.session.hashed)
    {
      hide Run, ViewCoin, ViewCall, Poke;
      var buf := new Cursor(rawTx, rawTxLen);
      assert buf.Rest() == rawTx[..rawTxLen];
      LackBound(tx.View(), buf.Rest());
      var status := tx.Deserialize(buf);
      if status == Wild {
        return Chunks.Undefined;
      }
      if !more && status != Ok {
        return Chunks.TxParsingFail;
      }
      match status
      case LengthError =>
        assert rawTx[buf.offset..rawTxLen] == buf.Rest();
        Compact(buf.offset);
        return Chunks.SwOk;
      case ValueError =>
        rawTxLen := VarintWrite(rawTx, 0, buf.lack);
        return Chunks.SwOk;
      case Ok =>
        if buf.size > buf.offset {
          return Chunks.TxParsingFail;
        }
        phase := StateParsed;
        return Chunks.Review;
      case Error =>
        return Chunks.TxParsingFail;
    }

    /**
     `handler_sign_tx`.  `pathRead` is the verdict of `init_public_key`, which takes the BIP-32 path off the
     front of a first chunk.  A first chunk opens a new session, whatever was before; every chunk is then one step of
     `Chunks.Feed`, as long as the parser waits for it.
     */
    method HandleSignTx(cdata: Cursor, chunk: nat, more: bool, pathRead: bool) returns (answer: Answer)
      requires Valid() && cdata.Valid() && cdata.ptr != rawTx && cdata.ptr != tx.heap.buff
      requires chunk > 0 ==> cdata.offset == 0 && (request == ConfirmTransaction ==> tx.Waits())
      modifies this, rawTx, tx, tx.heap`offset, tx.heap.buff, cdata`offset
      ensures Valid()
      ensures chunk > 0 && old(request) != ConfirmTransaction ==> answer == BadState
      ensures chunk == 0 && !pathRead ==> answer == Answered(Chunks.TxParsingFail)
      ensures chunk > 0 && old(request) == ConfirmTransaction ==>
                Stepped(old(Session()), old(cdata.Rest()), more, answer)
      ensures chunk == 0 && pathRead ==>
                Stepped(Chunks.Opened(old(tx.heap.Arena())), old(cdata.Rest()), more, answer)
    {
      hide Run;
      if chunk == 0 {
        Reset();
        if !pathRead {
          return Answered(Chunks.TxParsingFail);
        }
      } else if request != ConfirmTransaction {
        return BadState;
      }
      var fits := Append(cdata);
      if !fits {
        return Answered(Chunks.WrongTxLength);
      }
      var reply := Parse(more);
      return Answered(reply);
    }

    /** The answer and the session after it are those of one step of the chunk loop. */
    ghost predicate Stepped(before: Chunks.Session, chunk: seq<Byte>, more: bool, answer: Answer)
      reads this, rawTx, tx, tx.heap, tx.heap.buff
      requires Valid()
    {
      var fed := Chunks.Feed(before, chunk, more);
      && answer == Answered(fed.reply)
      && (fed.reply == Chunks.SwOk ==> tx.Waits() && request == ConfirmTransaction && Session() == fed.session)
      && (fed.reply == Chunks.Review ==>
            phase == StateParsed && tx.View() == fed.session.st && hashed == fed.session.hashed)
    }

    /** Chunk number `i` is handed to the handler; what stands in it is what is behind the path. */
    method Hand(chunk: seq<Byte>, i: nat, more: bool) returns (answer: Answer)
      requires Valid() && |chunk| < SIZE_T && (i > 0 ==> request == ConfirmTransaction && tx.Waits())
      modifies this, rawTx, tx, tx.heap`offset, tx.heap.buff
      ensures Valid()
      ensures Stepped(if i > 0 then old(Session()) else Chunks.Opened(old(tx.heap.Arena())), chunk, more, answer)
    {
      hide Chunks.Feed;
      var data := new Byte[|chunk|](k requires 0 <= k < |chunk| => chunk[k]);
      assert data[..] == chunk;
      var cdata := new Cursor(data, |chunk|);
      assert cdata.Rest() == chunk;
      answer := HandleSignTx(cdata, i, more, true);
    }

    /**
     The main loop (`src/main.c`) as far as one signing run goes: every chunk is handed to the handler until one is not
     answered `SwOk` or the last one is.  The path in the first chunk is read, and the chunks are what stands behind it.
     */
    method SignAll(chunks: seq<seq<Byte>>) returns (answer: Answer)
      requires Valid() && chunks != [] && forall i :: 0 <= i < |chunks| ==> |chunks[i]| < SIZE_T
      modifies this, rawTx, tx, tx.heap`offset, tx.heap.buff
      ensures Valid()
      ensures var fed := Chunks.Sign(Chunks.Opened(old(tx.heap.Arena())), chunks);
              && answer == Answered(fed.reply)
              && (fed.reply == Chunks.Review ==>
                    phase == StateParsed && tx.View() == fed.session.st && hashed == fed.session.hashed)
    {
      hide Run, Chunks.Feed, Chunks.Sign;
      ghost var all := Chunks.Sign(Chunks.Opened(tx.heap.Arena()), chunks);
      ghost var h := Chunks.Opened(tx.heap.Arena());
      var i := 0;
      answer := BadState;
      assert chunks[0..] == chunks;
      while i < |chunks|
        invariant 0 <= i <= |chunks| && Valid()
        invariant i > 0 ==> request == ConfirmTransaction && tx.Waits() && h == Session()
        invariant i == 0 ==> h == Chunks.Opened(old(tx.heap.Arena())) && tx.heap.Arena() == old(tx.heap.Arena())
        invariant if i < |chunks| then all == Chunks.Sign(h, chunks[i..])
                  else answer == Answered(all.reply) && all.reply != Chunks.Review
      {
        var more := i + 1 < |chunks|;
        assert chunks[i..][0] == chunks[i] && chunks[i..][1..] == chunks[i + 1..];
        ghost var fed := Chunks.Feed(h, chunks[i], more);
        SignUnfolds(h, chunks[i..]);
        answer := Hand(chunks[i], i, more);
        if answer != Answered(Chunks.SwOk) || !more {
          return;
        }
        h := fed.session;
        i := i + 1;
      }
    }

    lemma SignUnfolds(h: Chunks.Session, chunks: seq<seq<Byte>>)
      requires chunks != []
      ensures var fed := Chunks.Feed(h, chunks[0], |chunks| > 1);
              Chunks.Sign(h, chunks)
              == if fed.reply == Chunks.SwOk && |chunks| > 1 then Chunks.Sign(fed.session, chunks[1..]) else fed
    {
      hide Chunks.Feed;
    }
  }
}
