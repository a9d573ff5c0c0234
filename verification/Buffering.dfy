/**
 The 300 bytes in which the handler collects a chunk behind what the chunks before it left unread: which cuttings fit,
 and which transactions can be cut so that they do.
 */
module Buffering {
  import opened Bytes
  import opened Varint
  import opened TxMachine
  import opened Resume
  import opened Chunks
  import opened Forgetful

  /** An arena no run has used. */
  const BLANK := Arena(Zeros(ARENA_SIZE), 0)

  /** What is kept of the bytes `p`: those of a cut field of known length, or the varint of what a longer one misses. */
  function Kept(p: seq<Byte>): seq<Byte> { Left(Run(Fresh(BLANK), p)) }

  /** Every chunk fits the buffer behind what is kept of the chunks before it. */
  predicate ChunksFit(chunks: seq<seq<Byte>>) {
    forall i :: 0 <= i < |chunks| ==>
      chunks[i] == [] || |Kept(Concat(chunks[..i]))| + |chunks[i]| <= MAX_TRANSACTION_LEN
  }

  lemma SameKept(arena: Arena, p: seq<Byte>)
    requires arena.Valid()
    ensures Left(Run(Fresh(arena), p)) == Kept(p)
  {
    hide Run;
    ArenaForgotten(arena, BLANK, p);
  }

  /** The part of `ChunksFit` that is left when the bytes `p` have been sent. */
  predicate FitBehind(p: seq<Byte>, chunks: seq<seq<Byte>>) {
    forall i :: 0 <= i < |chunks| ==>
      chunks[i] == [] || |Kept(p + Concat(chunks[..i]))| + |chunks[i]| <= MAX_TRANSACTION_LEN
  }

  lemma FitBehindStep(p: seq<Byte>, chunks: seq<seq<Byte>>)
    requires chunks != []
    ensures FitBehind(p, chunks) <==>
              (chunks[0] == [] || |Kept(p)| + |chunks[0]| <= MAX_TRANSACTION_LEN)
              && FitBehind(p + chunks[0], chunks[1..])
  {
    hide Kept;
    assert p + Concat(chunks[..0]) == p;
    forall i | 0 <= i < |chunks| - 1
      ensures p + chunks[0] + Concat(chunks[1..][..i]) == p + Concat(chunks[..i + 1])
    {
      assert chunks[..i + 1][1..] == chunks[1..][..i];
      ConcatStep(p, chunks[..i + 1]);
    }
    assert forall i :: 0 <= i < |chunks| - 1 ==> chunks[1..][i] == chunks[i + 1];
    if FitBehind(p, chunks) {
      forall i | 0 <= i < |chunks| - 1
        ensures chunks[1..][i] == []
             || |Kept(p + chunks[0] + Concat(chunks[1..][..i]))| + |chunks[1..][i]| <= MAX_TRANSACTION_LEN
      {
        assert chunks[i + 1] == chunks[1..][i];
      }
    }
    if FitBehind(p + chunks[0], chunks[1..]) {
      forall i | 1 <= i < |chunks|
        ensures chunks[i] == [] || |Kept(p + Concat(chunks[..i]))| + |chunks[i]| <= MAX_TRANSACTION_LEN
      {
        assert chunks[i] == chunks[1..][i - 1];
      }
    }
  }

  lemma {:induction false} FitsAnyArena(arena: Arena, p: seq<Byte>, chunks: seq<seq<Byte>>)
    requires arena.Valid()
    ensures BufferFits(Fresh(arena), p, chunks) <==> FitBehind(p, chunks)
    decreases |chunks|
  {
    hide Kept, Run;
    if chunks != [] {
      SameKept(arena, p);
      FitBehindStep(p, chunks);
      FitsAnyArena(arena, p + chunks[0], chunks[1..]);
    }
  }

  /** Whatever is in the arena, the handler's own test comes out as this one. */
  lemma FitsExactly(arena: Arena, chunks: seq<seq<Byte>>)
    requires arena.Valid()
    ensures BufferFits(Fresh(arena), [], chunks) <==> ChunksFit(chunks)
  {
    hide Kept;
    FitsAnyArena(arena, [], chunks);
    assert forall i :: 0 <= i < |chunks| ==> [] + Concat(chunks[..i]) == Concat(chunks[..i]);
  }

  // ---------------------------------------------------------------- how much is kept

  predicate EndsWith(b: seq<Byte>, r: seq<Byte>) { |r| <= |b| && b[|b| - |r|..] == r }

  /**
   What is kept: of a field whose bytes are counted by the format the bytes at the end of the input that are there, of a
   length the part that is there; of a field with a length of its own the varint of the bytes that are missing.
   */
  predicate KeepsCutField(e: Ending, b: seq<Byte>) {
    match e
    case ShortLength(st, rest) => EndsWith(b, rest) && if Want(st).Fixed? then |rest| < Want(st).n else |rest| <= 8
    case ShortValue(st, lack) => !Want(st).Fixed? && 0 < lack < SIZE_T && Left(e) == WriteVarint(lack)
    case _ => true
  }

  lemma {:induction false} KeptMeans(s: State, b: seq<Byte>)
    ensures KeepsCutField(Run(s, b), b)
    decreases |b|, Rank(s)
  {
    hide StepOf, EndsWith;
    StepGoesOn(s, b);
    if StepOf(s, b).Go? {
      StepProgress(s, b);
      RestIsTail(s, b);
      KeptMeans(StepOf(s, b).st, StepOf(s, b).rest);
      if Run(s, b).ShortLength? {
        TailOfTail(b, StepOf(s, b).rest, Run(s, b).rest);
      }
    } else {
      KeptOfStop(s, b);
    }
  }

  lemma StepGoesOn(s: State, b: seq<Byte>)
    ensures StepOf(s, b).Go? ==> Run(s, b) == Run(StepOf(s, b).st, StepOf(s, b).rest)
    ensures StepOf(s, b).Stop? ==> Run(s, b) == StepOf(s, b).end
  {
  }

  lemma TailOfTail(b: seq<Byte>, r: seq<Byte>, t: seq<Byte>)
    requires EndsWith(b, r) && EndsWith(r, t)
    ensures EndsWith(b, t)
  {
  }

  lemma KeptOfStop(s: State, b: seq<Byte>)
    requires StepOf(s, b).Stop?
    ensures KeepsCutField(StepOf(s, b).end, b)
  {
    hide Poke, LittleEndian, EndsWith;
    DropEnds(b, 0);
    if StepOf(s, b).end.ShortValue? {
      hide StepOf, Want;
      ValueMissing(s, b);
      WantKept(s, b);
    } else {
      hide WriteVarint;
      WantOff(s);
    }
  }

  lemma WantKept(s: State, b: seq<Byte>)
    requires StepOf(s, b).Stop? && StepOf(s, b).end.ShortValue?
    ensures !Want(StepOf(s, b).end.st).Fixed?
  {
  }

  lemma WantOff(s: State)
    ensures Want(s).Fetch? ==> Want(SetOff(s, 0)).Fetch?
  {
  }

  lemma DropEnds(b: seq<Byte>, k: nat)
    requires k <= |b|
    ensures EndsWith(b, b[k..])
  {
    assert k == 0 ==> b[k..] == b;
  }

  lemma RestIsTail(s: State, b: seq<Byte>)
    requires StepOf(s, b).Go?
    ensures EndsWith(b, StepOf(s, b).rest)
  {
    hide Take, TakeLength, Skipped, Fetched, Store, ReadVarint, EndsWith;
    if Want(s).Fixed? {
      DropEnds(b, Want(s).n);
    } else {
      var r := ReadVarint(b);
      DropEnds(b, r.size);
      if Want(s) != Length {
        DropEnds(b[r.size..], r.value % SIZE_T);
        TailOfTail(b, b[r.size..], b[r.size..][r.value % SIZE_T..]);
      }
    }
  }

  /** Of an accepted whole whose fields of known length have at most `m` bytes, fewer than `m` bytes are ever kept. */
  lemma {:induction false} KeptBelow(s: State, x: seq<Byte>, y: seq<Byte>, m: nat)
    requires Startable(s) && Run(s, x + y).Accepted? && NarrowFields(s, x + y, m) && m >= 32
    ensures |Left(Run(s, x))| < m
    decreases |x|, Rank(s)
  {
    StepStable(s, x, y);
    if StepOf(s, x).Go? {
      StepProgress(s, x);
      SettledStep(s, x);
      ArenaSizeKept(s, x);
      KeptBelow(StepOf(s, x).st, StepOf(s, x).rest, y, m);
    } else {
      KeptAtStop(s, x);
    }
  }

  lemma KeptAtStop(s: State, x: seq<Byte>)
    requires StepOf(s, x).Stop?
    ensures |Left(StepOf(s, x).end)| <= 9 || (Want(s).Fixed? && |Left(StepOf(s, x).end)| < Want(s).n)
  {
  }

  lemma {:induction false} SmallChunksFrom(init: State, p: seq<Byte>, chunks: seq<seq<Byte>>, m: nat)
    requires Startable(init) && Run(init, p + Concat(chunks)).Accepted?
    requires NarrowFields(init, p + Concat(chunks), m) && m >= 32
    requires forall i :: 0 <= i < |chunks| ==> |chunks[i]| <= MAX_TRANSACTION_LEN + 1 - m
    ensures BufferFits(init, p, chunks)
    decreases |chunks|
  {
    hide Run, NarrowFields;
    if chunks != [] {
      KeptBelow(init, p, Concat(chunks), m);
      ConcatStep(p, chunks);
      SmallChunksFrom(init, p + chunks[0], chunks[1..], m);
    }
  }

  // ---------------------------------------------------------------- what cannot get through

  /** A field taken off a buffer of `m` bytes has no more of them. */
  lemma {:induction false} NarrowWithin(s: State, b: seq<Byte>, m: nat)
    requires |b| <= m
    ensures NarrowFields(s, b, m)
    decreases |b|, Rank(s)
  {
    if StepOf(s, b).Go? {
      StepProgress(s, b);
      NarrowWithin(StepOf(s, b).st, StepOf(s, b).rest, m);
    }
  }

  /** A chunk that fits behind what is kept completes no field longer than the buffer. */
  lemma {:induction false} NarrowGrows(s: State, x: seq<Byte>, c: seq<Byte>, m: nat)
    requires Startable(s) && NarrowFields(s, x, m) && |Left(Run(s, x))| + |c| <= m
    ensures NarrowFields(s, x + c, m)
    decreases |x|, Rank(s)
  {
    StepStable(s, x, c);
    if StepOf(s, x).Go? {
      StepProgress(s, x);
      SettledStep(s, x);
      ArenaSizeKept(s, x);
      NarrowGrows(StepOf(s, x).st, StepOf(s, x).rest, c, m);
    } else if StepOf(s, x).end.ShortLength? {
      NarrowWithin(s, x + c, m);
    } else if StepOf(s, x + c).Go? {
      StepProgress(s, x + c);
      RestBehind(s, x, c);
      NarrowWithin(StepOf(s, x + c).st, StepOf(s, x + c).rest, m);
    }
  }

  /** When bytes of its value are missing, what is left behind a field comes later. */
  lemma RestBehind(s: State, x: seq<Byte>, c: seq<Byte>)
    requires Startable(s) && StepOf(s, x).Stop? && StepOf(s, x).end.ShortValue? && StepOf(s, x + c).Go?
    ensures !Want(s).Fixed? && |StepOf(s, x + c).rest| <= |c|
  {
    ValueMissing(s, x);
    Stable(x, c);
  }

  /** A session that waits for a field longer than the buffer reaches no review, whatever chunks come. */
  lemma {:induction false} NoWayPast(h: Session, chunks: seq<seq<Byte>>)
    requires chunks != [] && Want(h.st).Fixed? && Want(h.st).n > MAX_TRANSACTION_LEN >= |h.raw|
    ensures Sign(h, chunks).reply != Review
    decreases |chunks|
  {
    var raw := h.raw + chunks[0];
    if |raw| <= MAX_TRANSACTION_LEN {
      assert StepOf(h.st, raw) == Stop(ShortLength(h.st, raw));
      var fed := Feed(h, chunks[0], |chunks| > 1);
      if fed.reply == SwOk && |chunks| > 1 {
        NoWayPast(fed.session, chunks[1..]);
      }
    } else {
      assert h.raw + [] == h.raw;
    }
  }

  lemma {:induction false} FitsNarrow(init: State, p: seq<Byte>, chunks: seq<seq<Byte>>)
    requires Startable(init) && NarrowFields(init, p, MAX_TRANSACTION_LEN) && BufferFits(init, p, chunks)
    ensures NarrowFields(init, p + Concat(chunks), MAX_TRANSACTION_LEN)
    decreases |chunks|
  {
    hide Run, NarrowFields;
    if chunks == [] {
      assert p + [] == p;
    } else {
      ConcatStep(p, chunks);
      if chunks[0] == [] {
        assert p + [] == p;
      } else {
        NarrowGrows(init, p, chunks[0], MAX_TRANSACTION_LEN);
      }
      FitsNarrow(init, p + chunks[0], chunks[1..]);
    }
  }
}
