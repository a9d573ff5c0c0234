/**
 The chunk loop of `handler_sign_tx` (`src/handler/sign_tx.c`) and what it computes:
 the one-pass parse of the concatenated chunks, and the hash of exactly those bytes.
 */
module Chunks {
  import opened Bytes
  import opened Varint
  import opened TxMachine
  import opened Resume

  const MAX_TRANSACTION_LEN := 300

  datatype Reply =
    | SwOk             // 0x9000, send the next chunk
    | WrongTxLength    // the chunk does not fit behind the kept bytes
    | TxParsingFail
    | Review           // parsed: the review screens are shown
    | Undefined        // the parser copied outside its arena

  /** `G_context.tx_info`, and the bytes given to SHA-256 so far. */
  datatype Session = Session(raw: seq<Byte>, st: State, hashed: seq<Byte>)

  function Opened(arena: Arena): Session {
    Session([], Fresh(arena), [])
  }

  datatype Fed = Fed(session: Session, reply: Reply)

  function Digest(h: Session, raw: seq<Byte>, hashed: seq<Byte>, end: Ending, more: bool): Fed {
    match end
    case Stray => Fed(h, Undefined)
    case Refused => Fed(h, TxParsingFail)
    case Accepted(st, rest) =>
      Fed(Session(raw, st, hashed), if rest == [] then Review else TxParsingFail)
    case _ =>
      Fed(Session(Left(end), end.st, hashed), if more then SwOk else TxParsingFail)
  }

  /** One chunk. */
  function Feed(h: Session, chunk: seq<Byte>, more: bool): Fed {
    var raw := h.raw + chunk;
    if chunk != [] && |raw| > MAX_TRANSACTION_LEN then Fed(h, WrongTxLength)
    else Digest(h, raw, h.hashed + chunk, Run(h.st, raw), more)
  }

  /** Chunk after chunk, while they are answered `SwOk`; the last one says so. */
  function Sign(h: Session, chunks: seq<seq<Byte>>): Fed
    requires chunks != []
    decreases |chunks|
  {
    var fed := Feed(h, chunks[0], |chunks| > 1);
    if fed.reply == SwOk && |chunks| > 1 then Sign(fed.session, chunks[1..]) else fed
  }

  function Concat(chunks: seq<seq<Byte>>): seq<Byte> {
    if chunks == [] then [] else chunks[0] + Concat(chunks[1..])
  }

  // ---------------------------------------------------------------- where cutting is harmless

  /** The chunk does not end inside an address or method name that was already split once. */
  predicate CleanCut(h: Session, chunk: seq<Byte>) {
    OffOf(h.st) == 0 || (ReadVarint(h.raw).Read? && ReadVarint(h.raw).value <= |chunk|)
  }

  predicate CleanRun(h: Session, chunks: seq<seq<Byte>>)
    decreases |chunks|
  {
    |chunks| <= 1 ||
    (CleanCut(h, chunks[0]) &&
     (Feed(h, chunks[0], true).reply == SwOk ==> CleanRun(Feed(h, chunks[0], true).session, chunks[1..])))
  }

  /** The session stands where one pass over `p` stands. */
  predicate Mirrors(h: Session, init: State, p: seq<Byte>) {
    && h.hashed == p
    && var end := Run(init, p);
       Short?(end) && end.st == h.st && Left(end) == h.raw
  }

  predicate Startable(s: State) { Settled(s) && |s.arena.mem| == ARENA_SIZE }

  lemma MirrorStart(arena: Arena)
    ensures Mirrors(Opened(arena), Fresh(arena), [])
  {
  }

  /** One pass over `p` followed by `chunk` ends as the resumed parser does. */
  lemma OnePassContinues(h: Session, init: State, p: seq<Byte>, chunk: seq<Byte>)
    requires Startable(init) && Mirrors(h, init, p)
    ensures Trails(Run(h.st, h.raw + chunk), Run(init, p + chunk))
    ensures CleanCut(h, chunk) ==> Run(init, p + chunk) == Run(h.st, h.raw + chunk)
  {
    Resume.Resume(init, p, chunk);
    if Run(init, p).ShortValue? {
      RoundTrip(Run(init, p).lack, []);
      assert WriteVarint(Run(init, p).lack) + [] == WriteVarint(Run(init, p).lack);
    }
  }

  lemma MirrorStep(h: Session, init: State, p: seq<Byte>, chunk: seq<Byte>)
    requires Startable(init) && Mirrors(h, init, p) && CleanCut(h, chunk)
    requires Feed(h, chunk, true).reply == SwOk
    ensures Mirrors(Feed(h, chunk, true).session, init, p + chunk)
  {
    OnePassContinues(h, init, p, chunk);
  }

  lemma ConcatStep(p: seq<Byte>, chunks: seq<seq<Byte>>)
    requires chunks != []
    ensures p + Concat(chunks) == (p + chunks[0]) + Concat(chunks[1..])
    ensures |chunks| == 1 ==> p + Concat(chunks) == p + chunks[0]
  {
    var c, r := chunks[0], Concat(chunks[1..]);
    assert p + (c + r) == (p + c) + r;
    if |chunks| == 1 {
      assert r == [] && c + [] == c;
    }
  }

  // ---------------------------------------------------------------- the size of the buffer

  /** Every chunk fits the buffer behind what one pass over the bytes before it leaves unread. */
  predicate BufferFits(init: State, p: seq<Byte>, chunks: seq<seq<Byte>>)
    decreases |chunks|
  {
    chunks == [] ||
    ((chunks[0] == [] || |Left(Run(init, p))| + |chunks[0]| <= MAX_TRANSACTION_LEN) &&
     BufferFits(init, p + chunks[0], chunks[1..]))
  }

  lemma {:induction false} NothingFits(init: State, p: seq<Byte>, chunks: seq<seq<Byte>>)
    requires Concat(chunks) == []
    ensures BufferFits(init, p, chunks)
    decreases |chunks|
  {
    if chunks != [] {
      assert |chunks[0] + Concat(chunks[1..])| == 0;
      assert p + chunks[0] == p;
      NothingFits(init, p, chunks[1..]);
    }
  }

  /** The induction behind `ChunkingInvariance`, from any point of a run on. */
  lemma {:induction false} RunFrom(h: Session, init: State, p: seq<Byte>, chunks: seq<seq<Byte>>)
    requires chunks != [] && Startable(init) && Mirrors(h, init, p) && CleanRun(h, chunks)
    ensures var fed, whole := Sign(h, chunks), Run(init, p + Concat(chunks));
            && (fed.reply == Review && fed.session.hashed == p + Concat(chunks)
                <==> whole.Accepted? && whole.rest == [] && BufferFits(init, p, chunks))
            && (fed.reply == Review && fed.session.hashed == p + Concat(chunks) ==> fed.session.st == whole.st)
    decreases |chunks|
  {
    ConcatStep(p, chunks);
    var chunk, others := chunks[0], chunks[1..];
    OnePassContinues(h, init, p, chunk);
    var fed := Feed(h, chunk, |chunks| > 1);
    if |chunks| > 1 && fed.reply != WrongTxLength {
      if fed.reply == SwOk {
        MirrorStep(h, init, p, chunk);
        RunFrom(fed.session, init, p + chunk, others);
      } else {
        Resume.Resume(init, p + chunk, Concat(others));
        if fed.reply == Review {
          NothingLeft(p + chunk, Concat(others));
          if Concat(others) == [] {
            NothingFits(init, p + chunk, others);
          }
        }
      }
    }
  }

  lemma NothingLeft(p: seq<Byte>, y: seq<Byte>)
    ensures p + y == p <==> y == []
    ensures [] + y == y
  {
    if p + y == p {
      assert |y| == 0;
    }
  }

  /**
   What the chunked parser computes.  Over every cutting that never ends inside an address or method name already split,
   the whole of `chunks` is hashed and reviewed exactly when one pass over their concatenation accepts it without a byte
   left over and every chunk fits the buffer; and then the state under review, arena included, is the one of that pass.
   */
  lemma ChunkingInvariance(arena: Arena, chunks: seq<seq<Byte>>)
    requires chunks != [] && arena.Valid() && CleanRun(Opened(arena), chunks)
    ensures var fed, whole := Sign(Opened(arena), chunks), Run(Fresh(arena), Concat(chunks));
            && (fed.reply == Review && fed.session.hashed == Concat(chunks)
                <==> whole.Accepted? && whole.rest == [] && BufferFits(Fresh(arena), [], chunks))
            && (fed.reply == Review && fed.session.hashed == Concat(chunks) ==> fed.session.st == whole.st)
  {
    MirrorStart(arena);
    assert [] + Concat(chunks) == Concat(chunks);
    RunFrom(Opened(arena), Fresh(arena), [], chunks);
  }

  lemma {:induction false} ReviewFrom(h: Session, init: State, p: seq<Byte>, chunks: seq<seq<Byte>>)
    requires chunks != [] && Startable(init) && Mirrors(h, init, p) && CleanRun(h, chunks)
    ensures var fed := Sign(h, chunks);
            fed.reply == Review ==> Run(init, fed.session.hashed) == Accepted(fed.session.st, [])
    decreases |chunks|
  {
    var fed := Feed(h, chunks[0], |chunks| > 1);
    OnePassContinues(h, init, p, chunks[0]);
    if fed.reply == SwOk && |chunks| > 1 {
      MirrorStep(h, init, p, chunks[0]);
      ReviewFrom(fed.session, init, p + chunks[0], chunks[1..]);
    }
  }

  /** What is reviewed, with or without more chunks announced, is one pass over exactly the hashed bytes. */
  lemma ReviewIsOnePass(arena: Arena, chunks: seq<seq<Byte>>)
    requires chunks != [] && arena.Valid() && CleanRun(Opened(arena), chunks)
    ensures var fed := Sign(Opened(arena), chunks);
            fed.reply == Review ==> Run(Fresh(arena), fed.session.hashed) == Accepted(fed.session.st, [])
  {
    MirrorStart(arena);
    ReviewFrom(Opened(arena), Fresh(arena), [], chunks);
  }

  /** No transaction that is accepted as a whole begins another one: a run cannot be complete too early. */
  lemma AcceptedIsPrefixFree(arena: Arena, p: seq<Byte>, more: seq<Byte>)
    requires arena.Valid() && more != []
    requires Run(Fresh(arena), p).Accepted? && Run(Fresh(arena), p).rest == []
    ensures Run(Fresh(arena), p + more) == Accepted(Run(Fresh(arena), p).st, more)
  {
    Resume.Resume(Fresh(arena), p, more);
    assert [] + more == more;
  }

  /** Whatever the cutting, the bytes hashed at the review are those of the chunks taken so far; no others matter. */
  lemma {:induction false} HashedIsPrefix(h: Session, chunks: seq<seq<Byte>>)
    requires chunks != []
    ensures Sign(h, chunks).reply == Review ==>
              exists k :: 0 < k <= |chunks| && Sign(h, chunks[..k]) == Sign(h, chunks)
                          && Sign(h, chunks).session.hashed == h.hashed + Concat(chunks[..k])
    decreases |chunks|
  {
    hide Feed;
    var fed := Feed(h, chunks[0], |chunks| > 1);
    FeedHashes(h, chunks[0], |chunks| > 1);
    if fed.reply == SwOk && |chunks| > 1 {
      HashedIsPrefix(fed.session, chunks[1..]);
      if Sign(h, chunks).reply == Review {
        var k :| 0 < k <= |chunks[1..]| && Sign(fed.session, chunks[1..][..k]) == Sign(fed.session, chunks[1..])
                 && Sign(h, chunks).session.hashed == fed.session.hashed + Concat(chunks[1..][..k]);
        assert chunks[..k + 1][1..] == chunks[1..][..k];
        ConcatStep(h.hashed, chunks[..k + 1]);
        assert Sign(h, chunks[..k + 1]) == Sign(h, chunks);
      }
    } else if fed.reply == Review {
      ConcatStep(h.hashed, chunks[..1]);
      assert Sign(h, chunks[..1]) == Sign(h, chunks);
    }
  }

  lemma FeedHashes(h: Session, chunk: seq<Byte>, more: bool)
    ensures var fed := Feed(h, chunk, more);
            && (fed.reply == SwOk || fed.reply == Review ==> fed.session.hashed == h.hashed + chunk)
            && (fed.reply == Review ==> Feed(h, chunk, !more) == fed)
  {
    hide Run;
  }

  // ---------------------------------------------------------------- a condition on the input

  /** No address or method name met on the way is declared longer than `limit`. */
  predicate ShortFields(s: State, b: seq<Byte>, limit: nat)
    decreases |b|, Rank(s)
  {
    && (Want(s).Fetch? && ReadVarint(b).Read? ==> ReadVarint(b).value % SIZE_T <= limit)
    && (StepOf(s, b).Go? ==>
          (StepProgress(s, b); ShortFields(StepOf(s, b).st, StepOf(s, b).rest, limit)))
  }

  /** No field of a known length that is read on the way is longer than `m`. */
  predicate NarrowFields(s: State, b: seq<Byte>, m: nat)
    decreases |b|, Rank(s)
  {
    StepOf(s, b).Go? ==>
      && (Want(s).Fixed? ==> Want(s).n <= m)
      && (StepProgress(s, b); NarrowFields(StepOf(s, b).st, StepOf(s, b).rest, m))
  }

  /** If the fields of the whole are short, a field left half copied misses less than the limit. */
  lemma {:induction false} HalfCopied(s: State, x: seq<Byte>, y: seq<Byte>, limit: nat)
    requires Startable(s) && ShortFields(s, x + y, limit)
    ensures Run(s, x).ShortValue? && OffOf(Run(s, x).st) > 0 ==>
              OffOf(Run(s, x).st) + Run(s, x).lack <= limit
    decreases |x|, Rank(s)
  {
    StepStable(s, x, y);
    match StepOf(s, x)
    case Go(s', rest) =>
      StepProgress(s, x);
      SettledStep(s, x);
      ArenaSizeKept(s, x);
      HalfCopied(s', rest, y, limit);
    case Stop(end) =>
      if end.ShortValue? && Want(s).Fetch? {
        Stable(x, y);
      }
  }

  lemma {:induction false} InteriorChunksFrom(h: Session, init: State, p: seq<Byte>, chunks: seq<seq<Byte>>,
                                              limit: nat)
    requires chunks != [] && Startable(init) && Mirrors(h, init, p)
    requires ShortFields(init, p + Concat(chunks), limit)
    requires OffOf(h.st) == 0 || limit <= |chunks[0]| + 1 || |chunks| == 1
    requires forall i :: 1 <= i < |chunks| - 1 ==> limit <= |chunks[i]| + 1
    ensures CleanRun(h, chunks)
    decreases |chunks|
  {
    if |chunks| > 1 {
      HalfCopied(init, p, Concat(chunks), limit);
      if Run(init, p).ShortValue? {
        RoundTrip(Run(init, p).lack, []) by { Resume.Resume(init, p, []); }
        assert WriteVarint(Run(init, p).lack) + [] == WriteVarint(Run(init, p).lack);
      } else {
        Resume.Resume(init, p, []);
      }
      assert CleanCut(h, chunks[0]);
      var fed := Feed(h, chunks[0], true);
      if fed.reply == SwOk {
        MirrorStep(h, init, p, chunks[0]);
        ConcatStep(p, chunks);
        InteriorChunksFrom(fed.session, init, p + chunks[0], chunks[1..], limit);
      }
    }
  }

  /** Interior chunks about as long as the longest address make a cutting harmless. */
  lemma InteriorChunks(arena: Arena, chunks: seq<seq<Byte>>, limit: nat)
    requires chunks != [] && arena.Valid()
    requires ShortFields(Fresh(arena), Concat(chunks), limit)
    requires forall i :: 1 <= i < |chunks| - 1 ==> limit <= |chunks[i]| + 1
    ensures CleanRun(Opened(arena), chunks)
  {
    MirrorStart(arena);
    assert [] + Concat(chunks) == Concat(chunks);
    InteriorChunksFrom(Opened(arena), Fresh(arena), [], chunks, limit);
  }
}
