/**
 When the parser stays inside its arena.  The source copies an address or a method name without asking whether it
 fits its block; all other writes are as long as the block that was taken for them.
 */
module Safety {
  import opened Bytes
  import opened Varint
  import opened TxMachine
  import opened Resume
  import opened Chunks
  import opened Budget
  import opened AnyCut
  import opened LoneOutput

  /** A copied field: where it goes and how many of its bytes are there. */
  datatype Copy = Copy(at: nat, size: nat)

  predicate Overruns(c: Copy) { c.at + c.size > ARENA_SIZE }

  /** The copy this step makes, if it makes one. */
  function CopyOf(s: State, b: seq<Byte>): seq<Copy> {
    if Want(s).Fetch? && ReadVarint(b).Read? then
      var r := ReadVarint(b);
      [Copy(Want(s).at + Want(s).off, Min(r.value % SIZE_T, |b| - r.size))]
    else []
  }

  /** The copies one run makes, in order. */
  function Copies(s: State, b: seq<Byte>): seq<Copy>
    decreases |b|, Rank(s)
  {
    CopyOf(s, b)
    + if StepOf(s, b).Go? then (StepProgress(s, b); Copies(StepOf(s, b).st, StepOf(s, b).rest)) else []
  }

  /** No field longer than the arena is wanted but as the one kept argument whose block wrapped around to nothing. */
  predicate Modest(s: State, b: seq<Byte>) { Plain(s, b) || |b| < SIZE_T - 1 }

  lemma ModestStep(s: State, b: seq<Byte>)
    requires Modest(s, b) && StepOf(s, b).Go?
    ensures Modest(StepOf(s, b).st, StepOf(s, b).rest)
  {
    if Plain(s, b) {
      PlainStep(s, b);
    } else {
      StepProgress(s, b);
    }
  }

  /** What is taken as a fixed number of bytes fits. */
  lemma FixedFits(s: State, b: seq<Byte>)
    requires Layout(s) && Modest(s, b) && Want(s).Fixed? && Want(s).n <= |b|
    ensures Want(s).n <= ARENA_SIZE
  {
    if s.stack == 4 && s.call.stack >= 8 && s.call.inner >= 2 {
      WrapsToNothing(s.call.elementLen);
    }
  }

  lemma WrapsToNothing(v: nat)
    ensures v % SIZE_T == SIZE_T - 1 || (v + 1) % SIZE_T == v % SIZE_T + 1
  {
  }

  predicate AnyOverruns(c: seq<Copy>) { exists k :: 0 <= k < |c| && Overruns(c[k]) }

  lemma StepStrays(s: State, b: seq<Byte>)
    requires Layout(s) && Modest(s, b)
    ensures StepOf(s, b) == Stop(Stray) <==> AnyOverruns(CopyOf(s, b))
  {
    hide ReadVarint, Layout, Modest;
    if Want(s).Fixed? && Want(s).n <= |b| {
      FixedFits(s, b);
    }
    if Want(s).Fetch? && ReadVarint(b).Read? {
      assert AnyOverruns(CopyOf(s, b)) <==> Overruns(CopyOf(s, b)[0]);
    }
  }

  lemma OverrunsJoin(c: seq<Copy>, d: seq<Copy>)
    ensures AnyOverruns(c + d) <==> AnyOverruns(c) || AnyOverruns(d)
  {
    if AnyOverruns(c) {
      var k :| 0 <= k < |c| && Overruns(c[k]);
      assert Overruns((c + d)[k]);
    }
    if AnyOverruns(d) {
      var k :| 0 <= k < |d| && Overruns(d[k]);
      assert Overruns((c + d)[|c| + k]);
    }
  }

  /**
   One run over any bytes leaves the arena exactly when one of its copies ends behind byte 400; it is the last one
   then, so all the copies before it fit.
   */
  lemma {:induction false} StraysExactly(s: State, b: seq<Byte>)
    requires Layout(s) && Modest(s, b)
    ensures Run(s, b).Stray? <==> AnyOverruns(Copies(s, b))
    ensures forall k :: 0 <= k < |Copies(s, b)| - 1 ==> !Overruns(Copies(s, b)[k])
    decreases |b|, Rank(s)
  {
    hide StepOf, CopyOf, AnyOverruns, Overruns, Layout, Modest;
    StepStrays(s, b);
    StepRuns(s, b);
    if StepOf(s, b).Go? {
      var s', b' := StepOf(s, b).st, StepOf(s, b).rest;
      StepProgress(s, b);
      LayoutStep(s, b);
      ModestStep(s, b);
      StraysExactly(s', b');
      OverrunsJoin(CopyOf(s, b), Copies(s', b'));
      FirstFits(s, b);
    } else {
      assert Copies(s, b) == CopyOf(s, b);
      FirstFits(s, b);
    }
  }

  lemma FirstFits(s: State, b: seq<Byte>)
    ensures |CopyOf(s, b)| <= 1
    ensures !AnyOverruns(CopyOf(s, b)) ==> forall k :: 0 <= k < |CopyOf(s, b)| ==> !Overruns(CopyOf(s, b)[k])
  {
  }

  lemma StepRuns(s: State, b: seq<Byte>)
    ensures StepOf(s, b).Stop? ==> Run(s, b) == StepOf(s, b).end
    ensures StepOf(s, b).Go? ==> Run(s, b) == Run(StepOf(s, b).st, StepOf(s, b).rest)
  {
  }

  // ---------------------------------------------------------------- where the copies go

  /** How many outputs have had their address copied. */
  function Addressed(s: State): nat {
    |s.coin.outs| + if s.stack >= 6 && InEntry(s.coin) && s.coin.cur.stack > 0 then 1 else 0
  }

  lemma AddressedStep(s: State, b: seq<Byte>)
    requires Layout(s) && Settled(s) && Plain(s, b)
    ensures Want(s).Fetch? ==> Want(s).at == 72 * Addressed(s) && Want(s).off == 0
    ensures StepOf(s, b).Go? ==> Addressed(StepOf(s, b).st) == Addressed(s) + if Want(s).Fetch? then 1 else 0
  {
    hide ReadVarint, LittleEndian, Poke;
  }

  /** In a transaction that is no contract call the address of output `k` goes to byte 72 k. */
  lemma {:induction false} CopyPositions(s: State, b: seq<Byte>)
    requires Layout(s) && Settled(s) && Plain(s, b)
    ensures forall k :: 0 <= k < |Copies(s, b)| ==> Copies(s, b)[k].at == 72 * (Addressed(s) + k)
    decreases |b|, Rank(s)
  {
    hide StepOf, Layout, Plain, Addressed, ReadVarint;
    AddressedStep(s, b);
    if StepOf(s, b).Go? {
      StepProgress(s, b);
      LayoutStep(s, b);
      SettledStep(s, b);
      PlainStep(s, b);
      CopyPositions(StepOf(s, b).st, StepOf(s, b).rest);
      GoesOnlyWhenRead(s, b);
    }
  }

  lemma GoesOnlyWhenRead(s: State, b: seq<Byte>)
    ensures StepOf(s, b).Go? && Want(s).Fetch? ==> ReadVarint(b).Read?
  {
  }

  // ---------------------------------------------------------------- when all copies fit

  /** What is announced for the field being copied fits behind what is there. */
  predicate Fits(s: State, b: seq<Byte>) {
    Want(s).Fetch? && ReadVarint(b).Read? ==> Want(s).off + ReadVarint(b).value % SIZE_T <= ADDRESS_ROOM
  }

  /** A field left half copied still has room for what is missing. */
  predicate HalfFits(end: Ending) {
    match end
    case ShortValue(st, lack) => Want(st).Fetch? ==> OffOf(st) + lack <= ADDRESS_ROOM
    case ShortLength(st, _) => Want(st).Fetch? ==> OffOf(st) == 0
    case _ => true
  }

  /** What is announced for the field being copied, if anything is, fits behind what is there. */
  predicate Bounded(s: State, b: seq<Byte>) {
    ShortFields(s, b, ADDRESS_ROOM) && Fits(s, b)
  }

  lemma CopyFits(s: State, b: seq<Byte>)
    requires Layout(s) && Fits(s, b)
    ensures !AnyOverruns(CopyOf(s, b))
  {
    hide ReadVarint;
    if Want(s).Fetch? {
      BlockInside(s);
    }
  }

  lemma BlockInside(s: State)
    requires Layout(s) && Want(s).Fetch?
    ensures Want(s).at + ADDRESS_ROOM <= ARENA_SIZE
  {
  }

  /** No field longer than its block, no copy outside the arena. */
  lemma {:induction false} NeverStrays(s: State, b: seq<Byte>)
    requires Layout(s) && Modest(s, b) && Bounded(s, b)
    ensures !Run(s, b).Stray?
    decreases |b|, Rank(s)
  {
    hide StepOf, Layout, Modest, CopyOf, AnyOverruns, Fits;
    StepStrays(s, b);
    StepRuns(s, b);
    CopyFits(s, b);
    if StepOf(s, b).Go? {
      StepProgress(s, b);
      LayoutStep(s, b);
      ModestStep(s, b);
      FreshCopyFits(s, b);
      NeverStrays(StepOf(s, b).st, StepOf(s, b).rest);
    }
  }

  /** A field is always begun at the start of its block. */
  lemma FreshCopyFits(s: State, b: seq<Byte>)
    requires Layout(s) && StepOf(s, b).Go? && ShortFields(s, b, ADDRESS_ROOM)
    ensures Fits(StepOf(s, b).st, StepOf(s, b).rest)
  {
    BegunAtStart(s, b);
  }

  lemma BegunAtStart(s: State, b: seq<Byte>)
    requires StepOf(s, b).Go? && Layout(s)
    ensures Want(StepOf(s, b).st).Fetch? ==> Want(StepOf(s, b).st).off == 0
  {
    hide ReadVarint, LittleEndian, Poke;
  }

  // ---------------------------------------------------------------- over a signing run

  /** Whatever is announced to be copied, when the run comes to it, is no longer than its block. */
  predicate ShortRun(h: Session, chunks: seq<seq<Byte>>)
    decreases |chunks|
  {
    chunks == [] ||
    (ShortFields(h.st, h.raw + chunks[0], ADDRESS_ROOM) &&
     (Feed(h, chunks[0], true).reply == SwOk ==> ShortRun(Feed(h, chunks[0], true).session, chunks[1..])))
  }

  lemma {:induction false} HalfFitsAfter(s: State, b: seq<Byte>)
    requires Layout(s) && Bounded(s, b)
    ensures HalfFits(Run(s, b))
    decreases |b|, Rank(s)
  {
    hide StepOf, Layout, Fits, HalfFits;
    StepRuns(s, b);
    if StepOf(s, b).Go? {
      StepProgress(s, b);
      LayoutStep(s, b);
      FreshCopyFits(s, b);
      HalfFitsAfter(StepOf(s, b).st, StepOf(s, b).rest);
    } else {
      HalfFitsStop(s, b);
    }
  }

  lemma HalfFitsStop(s: State, b: seq<Byte>)
    requires Bounded(s, b) && StepOf(s, b).Stop?
    ensures HalfFits(StepOf(s, b).end)
  {
    hide ReadVarint, Poke, LittleEndian;
  }

  lemma {:induction false} LeftBound(s: State, b: seq<Byte>)
    ensures |Left(Run(s, b))| <= |b| || |Left(Run(s, b))| <= 9
    decreases |b|, Rank(s)
  {
    if StepOf(s, b).Go? {
      StepProgress(s, b);
      LeftBound(StepOf(s, b).st, StepOf(s, b).rest);
    }
  }

  /** What a session keeps of a run that ended for want of bytes. */
  predicate Keeps(h: Session, end: Ending) {
    && Short?(end) && h.st == end.st && h.raw == Left(end) && |h.raw| <= MAX_TRANSACTION_LEN
    && (end.ShortValue? ==> end.lack < SIZE_T) && HalfFits(end) && Layout(h.st)
  }

  lemma {:induction false} DefinedFrom(h: Session, end: Ending, chunks: seq<seq<Byte>>)
    requires chunks != [] && Keeps(h, end) && ShortRun(h, chunks)
    ensures Sign(h, chunks).reply != Undefined
    decreases |chunks|
  {
    hide Run, Layout, HalfFits, ShortFields;
    var b := h.raw + chunks[0];
    StillFits(h, end, chunks[0]);
    var fed := Feed(h, chunks[0], |chunks| > 1);
    if |b| <= MAX_TRANSACTION_LEN {
      FedKeeps(h, b);
      if fed.reply == SwOk && |chunks| > 1 {
        DefinedFrom(fed.session, Run(h.st, b), chunks[1..]);
      }
    } else {
      assert h.raw + [] == h.raw;
    }
  }

  lemma OffWanted(s: State)
    requires Want(s).Fetch?
    ensures Want(s).off == OffOf(s)
  {
  }

  /** The announced rest of the field fits. */
  lemma RoomLeft(end: Ending, st: State, chunk: seq<Byte>)
    requires Short?(end) && st == end.st && (end.ShortValue? ==> end.lack < SIZE_T) && HalfFits(end)
    requires ShortFields(st, Left(end) + chunk, ADDRESS_ROOM)
    ensures Fits(st, Left(end) + chunk)
  {
    if Want(st).Fetch? {
      OffWanted(st);
      if end.ShortValue? {
        RoundTrip(end.lack, chunk);
        SmallModulus(end.lack);
      }
    }
  }

  lemma StillFits(h: Session, end: Ending, chunk: seq<Byte>)
    requires Keeps(h, end) && ShortFields(h.st, h.raw + chunk, ADDRESS_ROOM)
    ensures Fits(h.st, h.raw + chunk)
  {
    hide ShortFields, Layout;
    RoomLeft(end, h.st, chunk);
  }

  lemma FedKeeps(h: Session, b: seq<Byte>)
    requires Layout(h.st) && Bounded(h.st, b) && |b| <= MAX_TRANSACTION_LEN
    ensures var e := Run(h.st, b);
            && !e.Stray?
            && (Short?(e) ==> forall hashed :: Keeps(Session(Left(e), e.st, hashed), e))
  {
    hide Run, Layout, HalfFits, ShortFields;
    NeverStrays(h.st, b);
    HalfFitsAfter(h.st, b);
    LeftBound(h.st, b);
    LackBound(h.st, b);
    LayoutRun(h.st, b);
  }

  /** Under any cutting, for every type: no copy leaves the arena while every field is announced to fit its block. */
  lemma NeverUndefined(arena: Arena, chunks: seq<seq<Byte>>)
    requires chunks != [] && arena.Valid() && ShortRun(Opened(arena), chunks)
    ensures Sign(Opened(arena), chunks).reply != Undefined
  {
    hide Sign, ShortRun;
    LayoutFresh(arena);
    DefinedFrom(Opened(arena), ShortLength(Fresh(arena), []), chunks);
  }

  // ---------------------------------------------------------------- in terms of the bytes sent

  /** For every type but contract calls, under any cutting: the run is defined if one pass makes no bad copy. */
  lemma PlainlyDefined(arena: Arena, chunks: seq<seq<Byte>>)
    requires chunks != [] && arena.Valid() && PlainBytes(Concat(chunks))
    requires !AnyOverruns(Copies(Fresh(arena), Concat(chunks)))
    ensures Sign(Opened(arena), chunks).reply != Undefined
  {
    hide Sign, Run, Copies;
    PlainlyInside(arena, Concat(chunks));
    AnyCutting(arena, chunks);
  }

  /** One pass over such bytes, as `StraysExactly` says. */
  lemma PlainlyInside(arena: Arena, b: seq<Byte>)
    requires arena.Valid() && PlainBytes(b)
    ensures Run(Fresh(arena), b).Stray? <==> AnyOverruns(Copies(Fresh(arena), b))
  {
    hide Run, Copies;
    LayoutFresh(arena);
    StraysExactly(Fresh(arena), b);
  }

  lemma {:induction false} CleanlyDefinedFrom(h: Session, init: State, p: seq<Byte>, chunks: seq<seq<Byte>>)
    requires chunks != [] && Startable(init) && Mirrors(h, init, p) && CleanRun(h, chunks)
    requires !Run(init, p + Concat(chunks)).Stray?
    ensures Sign(h, chunks).reply != Undefined
    decreases |chunks|
  {
    hide Run, CleanCut;
    ConcatStep(p, chunks);
    var chunk, others := chunks[0], chunks[1..];
    OnePassContinues(h, init, p, chunk);
    Resume.Resume(init, p + chunk, Concat(others));
    ForgetStray(Run(init, p + chunk), Run(h.st, h.raw + chunk));
    var fed := Feed(h, chunk, |chunks| > 1);
    if |chunks| > 1 && fed.reply == SwOk {
      MirrorStep(h, init, p, chunk);
      CleanlyDefinedFrom(fed.session, init, p + chunk, others);
    }
  }

  lemma ForgetStray(e1: Ending, e2: Ending)
    requires Forget(e1) == Forget(e2)
    ensures e1.Stray? <==> e2.Stray?
  {
  }

  /** For every type, under clean cuttings: the run is defined if one pass over the same bytes makes no bad copy. */
  lemma CleanlyDefined(arena: Arena, chunks: seq<seq<Byte>>)
    requires chunks != [] && arena.Valid() && CleanRun(Opened(arena), chunks)
    requires |Concat(chunks)| < SIZE_T - 1 && !AnyOverruns(Copies(Fresh(arena), Concat(chunks)))
    ensures Sign(Opened(arena), chunks).reply != Undefined
  {
    hide Sign, Run, Copies, CleanRun;
    assert [] + Concat(chunks) == Concat(chunks);
    MirrorStart(arena);
    LayoutFresh(arena);
    StraysExactly(Fresh(arena), Concat(chunks));
    CleanlyDefinedFrom(Opened(arena), Fresh(arena), [], chunks);
  }

  /** A transfer whose address is announced with 450 bytes: 200 of them in the first chunk, the others in the second. */
  lemma StrayExample(arena: Arena)
    requires arena.Valid()
    ensures Sign(Opened(arena), [Head(0, 0) + [0xFD, 0xC2, 0x01] + Zeros(200), Zeros(250)]).reply == Undefined
  {
    hide Run, StepOf, Poke, WriteVarint, Head;
    var s := AtAddress(arena);
    var x, y: seq<Byte> := [0xFD, 0xC2, 0x01] + Zeros(200), WriteVarint(250) + Zeros(250);
    var first, second: seq<Byte> := Head(0, 0) + [0xFD, 0xC2, 0x01] + Zeros(200), Zeros(250);
    assert first == Head(0, 0) + x;
    HeadTaken(arena, 0, 0, x);
    Announced450(x);
    StepsToFetch(s, x, 450, Zeros(200));
    assert Zeros(200)[..200] == Zeros(200);
    StepRuns(s, x);
    var st := SetOff(Store(s, 0, Zeros(200)), 200);
    assert Run(s, x) == ShortValue(st, 250);
    StillFetching(s, 0, Zeros(200), 200);
    WrittenAnnounces(250, Zeros(250));
    StepsToFetch(st, y, 250, Zeros(250));
    assert Zeros(250)[..250] == Zeros(250);
    StepRuns(st, y);
    VarintWidth();
    assert |Head(0, 0)| == 11 by { HeadWidth(); }
    assert [] + first == first;
    assert Feed(Opened(arena), first, true) == Fed(Session(WriteVarint(250), st, first), SwOk);
    assert [first, second][1..] == [second];
  }

  lemma HeadWidth()
    ensures |Head(0, 0)| == 11
  {
  }

  lemma VarintWidth()
    ensures |WriteVarint(250)| == 1
  {
  }

  lemma Announced450(x: seq<Byte>)
    requires x == [0xFD, 0xC2, 0x01] + Zeros(200)
    ensures Announces(x, 450, Zeros(200))
  {
    assert x[1..3] == [0xC2, 0x01];
    assert [0xC2, 0x01][1..] == [0x01] && [0x01][1..] == [];
    assert x[3..] == Zeros(200);
  }

  /** A field whose `n` bytes are announced, of which `p` is there. */
  lemma PieceStops(s: State, n: nat, p: seq<Byte>)
    requires Want(s).Fetch? && |p| < n < SIZE_T && Want(s).at + Want(s).off + |p| <= ARENA_SIZE
    ensures var st := SetOff(Store(s, Want(s).at + Want(s).off, p), |p|);
            Run(s, WriteVarint(n) + p) == ShortValue(st, n - |p|) && Want(st) == Fetch(Want(s).at, |p|)
  {
    hide Run, StepOf, WriteVarint;
    WrittenAnnounces(n, p);
    StepsToFetch(s, WriteVarint(n) + p, n, p);
    SmallModulus(n);
    assert p[..|p|] == p;
    StepRuns(s, WriteVarint(n) + p);
    StillFetching(s, Want(s).at + Want(s).off, p, |p|);
  }

  lemma LastPieceGoes(s: State, p: seq<Byte>, rest: seq<Byte>)
    requires Want(s).Fetch? && |p| < SIZE_T && Want(s).at + Want(s).off + |p| <= ARENA_SIZE
    ensures Run(s, WriteVarint(|p|) + p + rest) == Run(Fetched(Store(s, Want(s).at + Want(s).off, p)), rest)
  {
    hide Run, StepOf, WriteVarint;
    assert WriteVarint(|p|) + p + rest == WriteVarint(|p|) + (p + rest);
    WrittenAnnounces(|p|, p + rest);
    StepsToFetch(s, WriteVarint(|p|) + p + rest, |p|, p + rest);
    SmallModulus(|p|);
    assert (p + rest)[..|p|] == p && (p + rest)[|p|..] == rest;
    StepRuns(s, WriteVarint(|p|) + p + rest);
  }

  /** The transfer of 450 bytes of address, 150 of them in a chunk. */
  function HiddenChunks(amount: seq<Byte>): seq<seq<Byte>> {
    [Head(0, 0) + (WriteVarint(450) + Zeros(150)), Zeros(150), Zeros(150) + Tail(amount)]
  }

  /**
   Without the condition on one pass cutting does make a difference: one pass over these bytes leaves the arena, but in
   three chunks, each laid at the length of the one before it, they are reviewed.
   */
  lemma StrayHidden(arena: Arena, amount: seq<Byte>)
    requires arena.Valid() && |amount| == 32
    ensures Run(Fresh(arena), Concat(HiddenChunks(amount))).Stray?
    ensures Sign(Opened(arena), HiddenChunks(amount)).reply == Review
  {
    hide Run, Head, WriteVarint, Tail, Zeros, Feed, Sign, Concat, Poke;
    HiddenFirst(arena, Zeros(150));
    HiddenOthers(arena, amount);
    HiddenWhole(arena, amount);
  }

  /** The session behind the first chunk. */
  function HiddenStart(arena: Arena, p: seq<Byte>): State { SetOff(Store(AtAddress(arena), 0, p), 150) }

  lemma HiddenFirst(arena: Arena, p: seq<Byte>)
    requires arena.Valid() && |p| == 150
    ensures var b := Head(0, 0) + (WriteVarint(450) + p);
            && Want(HiddenStart(arena, p)) == Fetch(0, 150)
            && Feed(Opened(arena), b, true) == Fed(Session(WriteVarint(300), HiddenStart(arena, p), b), SwOk)
  {
    hide Run, StepOf, Head, WriteVarint, Poke;
    var b := Head(0, 0) + (WriteVarint(450) + p);
    HeadTaken(arena, 0, 0, WriteVarint(450) + p);
    PieceStops(AtAddress(arena), 450, p);
    HeadWidth();
    WideVarint(450);
    assert [] + b == b;
  }

  lemma WideVarint(n: nat)
    ensures |WriteVarint(n)| <= 9
  {
  }

  lemma HiddenEnd(arena: Arena, p: seq<Byte>)
    requires arena.Valid()
    ensures var st := Store(SetOff(Store(HiddenStart(arena, p), 150, p), 150), 150, p);
            Fetched(st) == BehindAddress(st.arena.mem) && |st.arena.mem| == ARENA_SIZE
  {
    hide Poke;
  }

  lemma HiddenSecond(s: State, p: seq<Byte>, b: seq<Byte>)
    requires Want(s) == Fetch(0, 150) && |p| == 150
    ensures var st := SetOff(Store(s, 150, p), 150);
            && Want(st) == Fetch(0, 150)
            && Feed(Session(WriteVarint(300), s, b), p, true) == Fed(Session(WriteVarint(150), st, b + p), SwOk)
  {
    hide Run, StepOf, WriteVarint, Poke, Want;
    PieceStops(s, 300, p);
    WideVarint(300);
  }

  lemma HiddenThird(s: State, p: seq<Byte>, amount: seq<Byte>, b: seq<Byte>)
    requires Want(s) == Fetch(0, 150) && |p| == 150 && |amount| == 32
    requires var st := Store(s, 150, p); Fetched(st) == BehindAddress(st.arena.mem) && |st.arena.mem| == ARENA_SIZE
    ensures Feed(Session(WriteVarint(150), s, b), p + Tail(amount), false).reply == Review
  {
    hide Run, StepOf, WriteVarint, Poke, Want, Tail, Store, Fetched, BehindAddress;
    LastPieceGoes(s, p, Tail(amount));
    WideVarint(150);
    TailWidth(amount);
    TailTaken(Store(s, 150, p).arena.mem, amount);
    assert WriteVarint(150) + (p + Tail(amount)) == WriteVarint(150) + p + Tail(amount);
  }

  lemma HiddenOthers(arena: Arena, amount: seq<Byte>)
    requires arena.Valid() && |amount| == 32
    requires Want(HiddenStart(arena, Zeros(150))) == Fetch(0, 150)
    requires var b := Head(0, 0) + (WriteVarint(450) + Zeros(150));
             Feed(Opened(arena), b, true) == Fed(Session(WriteVarint(300), HiddenStart(arena, Zeros(150)), b), SwOk)
    ensures Sign(Opened(arena), HiddenChunks(amount)).reply == Review
  {
    hide Head, WriteVarint, Tail, Want, HiddenStart, Feed, Store, SetOff, Fetched, BehindAddress;
    var c, p := HiddenChunks(amount), Zeros(150);
    var s1 := HiddenStart(arena, p);
    var s2 := SetOff(Store(s1, 150, p), 150);
    HiddenSecond(s1, p, c[0]);
    HiddenEnd(arena, p);
    HiddenThird(s2, p, amount, c[0] + p);
    var h1, h2 := Session(WriteVarint(300), s1, c[0]), Session(WriteVarint(150), s2, c[0] + p);
    assert c[1..] == [p, p + Tail(amount)] && c[1..][1..] == [p + Tail(amount)];
    assert Sign(h2, c[1..][1..]).reply == Review;
    assert Sign(h1, c[1..]) == Sign(h2, c[1..][1..]);
  }

  lemma TailWidth(amount: seq<Byte>)
    ensures |Tail(amount)| == 12 + |amount|
  {
  }

  lemma HiddenWhole(arena: Arena, amount: seq<Byte>)
    requires arena.Valid() && |amount| == 32
    ensures Run(Fresh(arena), Concat(HiddenChunks(amount))).Stray?
  {
    hide Run, StepOf, Head, WriteVarint, Tail, Poke;
    var c := HiddenChunks(amount);
    var a, y := Zeros(150) + (Zeros(150) + Zeros(150)), Tail(amount);
    assert Concat(c) == Head(0, 0) + (WriteVarint(450) + (a + y)) by {
      assert |c| == 3;
      assert c[1..][1..][0] == Zeros(150) + y && c[1..][0] == Zeros(150);
      assert Concat(c[1..][1..]) == Zeros(150) + y;
      assert Concat(c[1..]) == Zeros(150) + (Zeros(150) + y);
    }
    HeadTaken(arena, 0, 0, WriteVarint(450) + (a + y));
    var s, b := AtAddress(arena), WriteVarint(450) + (a + y);
    WrittenAnnounces(450, a + y);
    StepsToFetch(s, b, 450, a + y);
    StepRuns(s, b);
  }
}
