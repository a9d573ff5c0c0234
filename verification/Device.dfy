/**
 What the device reviews: the transaction that the plain grammar reads from the bytes shown, which under a clean cutting
 are the bytes hashed.  Which transactions get there, and under which cuttings.
 */
module Device {
  import opened Bytes
  import opened TxMachine
  import opened Chunks
  import opened AnyCut
  import opened Grammar
  import opened OnePass
  import opened CallPass
  import opened Meaning
  import opened Buffering
  import opened Documented
  import opened LoneOutput
  import Safety
  import Cutting
  import Shown
  import Skimming
  import Distinct
  import Bytewise
  import LoneCall

  /** All of `chunks` were hashed and are under review. */
  predicate Reviewed(fed: Fed, chunks: seq<seq<Byte>>) {
    fed.reply == Review && fed.session.hashed == Concat(chunks)
  }

  /** The grammar reads a supported transaction from `b` and leaves nothing over. */
  predicate Readable(b: seq<Byte>) {
    Parse(b).Got? && Parse(b).rest == [] && Supported(Parse(b).value)
  }

  /** What the documented format makes of bytes that the source reads. */
  predicate AsDocumented(b: seq<Byte>) {
    if LengthsHold(b) then ParseDocumented(b) == Parse(b) else |b| < SIZE_T ==> ParseDocumented(b) == Fail
  }

  // ---------------------------------------------------------------- any cutting, any type

  /** The bytes shown: those of the chunks, but every copied field in pieces as its block shows it. */
  function ShownBy(chunks: seq<seq<Byte>>): seq<Byte> {
    Shown.ViewOf(Fresh(BLANK), Shown.View([], 0), chunks).bytes
  }

  /** Every chunk fits the buffer behind what is kept, as long as the parser waits for bytes. */
  predicate Fit(chunks: seq<seq<Byte>>) { Shown.ViewFits(Fresh(BLANK), Shown.View([], 0), chunks) }

  lemma Begun(arena: Arena)
    requires arena.Valid()
    ensures Shown.Begins(Fresh(arena)) && !Shown.InField(Run(Fresh(arena), []))
    ensures Shown.Follows(Opened(arena), Fresh(arena), Shown.View([], 0))
  {
    hide Run;
    NothingParsed(arena);
    LayoutFresh(arena);
  }

  /**
   What a run is, whatever the type and the cutting: one pass over the bytes shown.  All of the chunks are reviewed
   exactly when those are readable and the chunks fit, and every field under review is theirs; the answer is undefined
   exactly when that pass leaves the arena.
   */
  lemma ShownExactly(arena: Arena, chunks: seq<seq<Byte>>)
    requires chunks != [] && arena.Valid()
    ensures var fed, shown := Sign(Opened(arena), chunks), ShownBy(chunks);
            && (Reviewed(fed, chunks) <==> Readable(shown) && Fit(chunks))
            && (Reviewed(fed, chunks) ==>
                  && Run(Fresh(arena), shown) == Accepted(fed.session.st, [])
                  && Reviews(fed.session.st, Parse(shown).value))
            && (fed.reply == Undefined <==> Run(Fresh(arena), shown).Stray? && Fit(chunks))
            && (fed.reply == WrongTxLength <==> !Fit(chunks))
            && fed.reply != SwOk && (fed.reply == Review ==> Run(Fresh(arena), shown).Accepted?)
  {
    hide Sign, Run, Supported, Reviews, Parse, Concat, Shown.ViewOf, Shown.ViewFits, Shown.Follows, Shown.Begins;
    var w := Shown.View([], 0);
    Begun(arena);
    Shown.ShownFrom(Opened(arena), Fresh(arena), w, chunks);
    Shown.SameViews(arena, BLANK, w, chunks);
    OnePassMeaning(arena, ShownBy(chunks));
    assert [] + Concat(chunks) == Concat(chunks);
  }

  /** A review, with or without more chunks announced, is one of the chunks taken so far. */
  lemma ReviewIsOfPrefix(arena: Arena, chunks: seq<seq<Byte>>) returns (k: nat)
    requires chunks != [] && Sign(Opened(arena), chunks).reply == Review
    ensures 0 < k <= |chunks| && Sign(Opened(arena), chunks[..k]) == Sign(Opened(arena), chunks)
    ensures Reviewed(Sign(Opened(arena), chunks[..k]), chunks[..k])
  {
    hide Sign, Concat;
    HashedIsPrefix(Opened(arena), chunks);
    k :| 0 < k <= |chunks| && Sign(Opened(arena), chunks[..k]) == Sign(Opened(arena), chunks)
         && Sign(Opened(arena), chunks).session.hashed == [] + Concat(chunks[..k]);
    assert [] + Concat(chunks[..k]) == Concat(chunks[..k]);
  }

  /** As long as no field is shown shorter, the review is of the bytes hashed exactly when those are the bytes shown. */
  lemma HashedExactly(arena: Arena, chunks: seq<seq<Byte>>)
    requires chunks != [] && arena.Valid() && Reviewed(Sign(Opened(arena), chunks), chunks)
    requires |ShownBy(chunks)| == |Concat(chunks)|
    ensures Run(Fresh(arena), Concat(chunks)) == Accepted(Sign(Opened(arena), chunks).session.st, [])
            <==> ShownBy(chunks) == Concat(chunks)
  {
    hide Sign, Run, Readable, Reviews, Parse, Concat, Shown.ViewOf, Shown.ViewFits, Shown.Begins, Shown.Follows;
    ShownExactly(arena, chunks);
    Begun(arena);
    Shown.SameViews(arena, BLANK, Shown.View([], 0), chunks);
    Distinct.SameStateExactly(Fresh(arena), chunks);
  }

  /**
   Of every review, whatever the type and the cutting: the source's grammar reads exactly the hashed bytes, and type,
   sums, and the outputs' assets and amounts are theirs.
   */
  lemma ReviewLists(arena: Arena, chunks: seq<seq<Byte>>)
    requires chunks != [] && arena.Valid() && Sign(Opened(arena), chunks).reply == Review
    ensures var session, f := Sign(Opened(arena), chunks).session, Parse(Sign(Opened(arena), chunks).session.hashed);
            f.Got? && f.rest == [] && HasBlocks(f.value) && Lists(session.st, f.value) && AsDocumented(session.hashed)
  {
    hide Sign, Parse, Lists, HasBlocks, LengthsHold, ParseDocumented;
    var k := ReviewIsOfPrefix(arena, chunks);
    var session := Sign(Opened(arena), chunks).session;
    ShownLists(arena, chunks[..k]);
    DocumentedExactly(session.hashed);
  }

  lemma ShownLists(arena: Arena, chunks: seq<seq<Byte>>)
    requires chunks != [] && arena.Valid() && Reviewed(Sign(Opened(arena), chunks), chunks)
    ensures var f := Parse(Concat(chunks));
            f.Got? && f.rest == [] && HasBlocks(f.value) && Lists(Sign(Opened(arena), chunks).session.st, f.value)
  {
    hide Sign, Run, Readable, Parse, Concat, Lists, HasBlocks, Reviews, Pass, Skimming.NamedLike, Skimming.RunStyle;
    hide Shown.ViewOf, Shown.ViewFits, Shown.Begins, Shown.Follows;
    var init, shown := Fresh(arena), ShownBy(chunks);
    var st := Sign(Opened(arena), chunks).session.st;
    ShownExactly(arena, chunks);
    Begun(arena);
    var alias := Skimming.AliasOf(Skimming.RunStyle(init, shown));
    Skimming.AliasStyle(Skimming.RunStyle(init, shown));
    Skimming.NamedByRun(init, shown);
    Skimming.NearItself(init);
    Skimming.Lockstep(alias, init, init, shown);
    var w := Shown.View([], 0);
    Shown.SameViews(arena, BLANK, w, chunks);
    Skimming.Twins(alias, init, w, [], chunks);
    assert [] + Concat(chunks) == Concat(chunks);
    BlindMeaning(alias, arena, shown);
    BlindMeaning(alias, arena, Concat(chunks));
    SameLists(st, Pass(Blind(alias), init, shown).st, shown, Concat(chunks));
  }

  lemma {:induction false} AmountsParsed(n: nat, b: seq<Byte>)
    ensures var f := ParseTargets(n, b);
            f.Got? ==> forall k :: 0 <= k < |f.value| ==> |f.value[k].amount| == 32
  {
    hide ParseTarget;
    if n > 0 && ParseTarget(b).Got? {
      ParsedTarget(b);
      AmountsParsed(n - 1, ParseTarget(b).rest);
    }
  }

  lemma AmountsOf(b: seq<Byte>)
    ensures Parse(b).Got? ==> forall k :: 0 <= k < |Parse(b).value.targets| ==> |Parse(b).value.targets[k].amount| == 32
  {
    hide Field, ParseData, ParseSources, ParseTargets, Prefix;
    if Parse(b).Got? {
      var b3 := Field(Bite(4, Number(2, b).rest).rest).rest;
      var r := Prefix(ParseData(Number(2, b).value, b3).rest).rest;
      var s := ParseSources(Number(1, r).value, Number(1, r).rest);
      AmountsParsed(Number(1, s.rest).value, Number(1, s.rest).rest);
    }
  }

  /** What the blind pass lists is listed of both byte strings, and of the state under review. */
  lemma SameLists(st: State, t: State, shown: seq<Byte>, hashed: seq<Byte>)
    requires Parse(shown).Got? && Parse(hashed).Got? && Skimming.Bare(st) == Skimming.Bare(t)
    requires Reviews(st, Parse(shown).value) && Lists(t, Parse(shown).value) && Lists(t, Parse(hashed).value)
    ensures Lists(st, Parse(hashed).value)
  {
    hide Parse, SourceSum, TargetSum, DataShown;
    AmountsOf(shown);
    AmountsOf(hashed);
    var a, b := Parse(shown).value, Parse(hashed).value;
    forall k | 0 <= k < |b.targets|
      ensures BlockIs(st.arena.mem, st.coin.outs[k].amount, b.targets[k].amount)
    {
      assert Shows(st.coin.outs[k], a.targets[k], st.arena.mem);
      assert a.targets[k].amount == b.targets[k].amount;
    }
  }

  /** The answer is undefined exactly when one of the copies of that pass ends behind byte 400, and the chunks fit. */
  lemma UndefinedExactly(arena: Arena, chunks: seq<seq<Byte>>)
    requires chunks != [] && arena.Valid() && (|Concat(chunks)| < SIZE_T - 1 || PlainBytes(ShownBy(chunks)))
    ensures Sign(Opened(arena), chunks).reply == Undefined <==>
              Safety.AnyOverruns(Safety.Copies(Fresh(arena), ShownBy(chunks))) && Fit(chunks)
  {
    hide Sign, Run, Readable, Reviews, Parse, Concat, Shown.ViewOf, Shown.ViewFits, Shown.Begins, Shown.Follows;
    hide Safety.AnyOverruns, Safety.Copies;
    ShownExactly(arena, chunks);
    Begun(BLANK);
    LayoutFresh(arena);
    Distinct.ShownLength(Fresh(BLANK), Shown.View([], 0), chunks);
    Safety.StraysExactly(Fresh(arena), ShownBy(chunks));
  }

  // ---------------------------------------------------------------- clean cuttings

  /** Under a clean cutting the bytes shown are the bytes sent. */
  lemma CleanlyShown(arena: Arena, chunks: seq<seq<Byte>>)
    requires chunks != [] && arena.Valid() && CleanRun(Opened(arena), chunks)
    requires Sign(Opened(arena), chunks).reply != WrongTxLength
    ensures ShownBy(chunks) == Concat(chunks)
  {
    hide Sign, Run, CleanRun, Concat, Shown.ViewOf, Shown.ViewFits, Shown.Begins, Shown.Follows;
    var w := Shown.View([], 0);
    Begun(arena);
    Shown.SameViews(arena, BLANK, w, chunks);
    Shown.CleanShows(Opened(arena), Fresh(arena), w, chunks);
    assert [] + Concat(chunks) == Concat(chunks);
  }

  /**
   What is reviewed is what is hashed: after a clean run, whether or not more chunks were announced, the source's
   grammar reads exactly the hashed bytes as a supported transaction, and every field under review is its field.  The
   documented format reads the same transaction if the announced lengths hold, and none otherwise.
   */
  lemma ReviewIsFaithful(arena: Arena, chunks: seq<seq<Byte>>)
    requires chunks != [] && arena.Valid() && CleanRun(Opened(arena), chunks)
    requires Sign(Opened(arena), chunks).reply == Review
    ensures var session := Sign(Opened(arena), chunks).session;
            Readable(session.hashed) && Reviews(session.st, Parse(session.hashed).value)
    ensures var hashed := Sign(Opened(arena), chunks).session.hashed; AsDocumented(hashed)
  {
    hide Sign, Run, Supported, Reviews, Parse, CleanRun, LengthsHold, ParseDocumented;
    ReviewIsOnePass(arena, chunks);
    OnePassMeaning(arena, Sign(Opened(arena), chunks).session.hashed);
    DocumentedExactly(Sign(Opened(arena), chunks).session.hashed);
  }

  /** All of the chunks of a clean run are reviewed exactly when they are readable and fit the buffer. */
  lemma ReviewedExactly(arena: Arena, chunks: seq<seq<Byte>>)
    requires chunks != [] && arena.Valid() && CleanRun(Opened(arena), chunks)
    ensures Reviewed(Sign(Opened(arena), chunks), chunks) <==> Readable(Concat(chunks)) && ChunksFit(chunks)
  {
    hide Sign, Run, Supported, Reviews, Parse, CleanRun, Concat, BufferFits, ChunksFit;
    ChunkingInvariance(arena, chunks);
    OnePassMeaning(arena, Concat(chunks));
    FitsExactly(arena, chunks);
  }

  /**
   A supported transaction is reviewed exactly when the chunks fit the buffer, whatever the cutting, as long as no
   interior chunk is shorter than a split address or method name may need.
   */
  lemma ReviewIsReached(arena: Arena, chunks: seq<seq<Byte>>, longest: nat)
    requires chunks != [] && arena.Valid() && Readable(Concat(chunks))
    requires Within(Limits(longest, SIZE_T), Parse(Concat(chunks)).value)
    requires forall i :: 1 <= i < |chunks| - 1 ==> |chunks[i]| + 1 >= longest
    ensures CleanRun(Opened(arena), chunks)
    ensures Reviewed(Sign(Opened(arena), chunks), chunks) <==> ChunksFit(chunks)
  {
    hide Sign, Run, Supported, Within, Reviews, Parse, CleanRun, ShortFields, NarrowFields, Concat, ChunksFit;
    OnePassMeaning(arena, Concat(chunks));
    LimitsMeaning(Limits(longest, SIZE_T), arena, Concat(chunks));
    InteriorChunks(arena, chunks, longest);
    ReviewedExactly(arena, chunks);
  }

  // ---------------------------------------------------------------- which cuttings fit

  /** If no kept argument has more than `m` bytes, chunks that leave room for `m - 1` fit. */
  lemma SmallChunksFit(chunks: seq<seq<Byte>>, m: nat)
    requires Readable(Concat(chunks)) && m >= 32 && Within(Limits(SIZE_T, m), Parse(Concat(chunks)).value)
    requires forall i :: 0 <= i < |chunks| ==> |chunks[i]| <= MAX_TRANSACTION_LEN + 1 - m
    ensures ChunksFit(chunks)
  {
    hide Run, Supported, Within, Reviews, Parse, ShortFields, NarrowFields, Concat, ChunksFit, BufferFits;
    OnePassMeaning(BLANK, Concat(chunks));
    LimitsMeaning(Limits(SIZE_T, m), BLANK, Concat(chunks));
    assert [] + Concat(chunks) == Concat(chunks);
    SmallChunksFrom(Fresh(BLANK), [], chunks, m) by { LayoutFresh(BLANK); }
    FitsExactly(BLANK, chunks);
  }

  lemma PlainTransaction(b: seq<Byte>)
    requires Parse(b).Got? && Supported(Parse(b).value)
    ensures |b| >= 2 && Parse(b).value.typ == LittleEndian(b[..2])
    ensures PlainBytes(b) ==> Within(Limits(SIZE_T, 32), Parse(b).value)
  {
    hide Field, ParseData, ParseCoins;
    var typ := LittleEndian(b[..2]);
    var b3 := Field(Bite(4, b[2..]).rest).rest;
    CoinsParts(typ, ParseData(typ, b3).value, ParseData(typ, b3).rest);
    if PlainBytes(b) {
      NoCall(typ, b3);
    }
  }

  lemma NoCall(typ: nat, b: seq<Byte>)
    requires typ != 16
    ensures ParseData(typ, b).Got? ==> ParseData(typ, b).value.Other?
  {
  }

  // ---------------------------------------------------------------- any cutting

  /** For every type but contract calls, under any cutting in which one pass stays inside the arena. */
  lemma PlainReviewedExactly(arena: Arena, chunks: seq<seq<Byte>>)
    requires chunks != [] && arena.Valid() && PlainBytes(Concat(chunks))
    requires !Safety.AnyOverruns(Safety.Copies(Fresh(arena), Concat(chunks)))
    ensures Reviewed(Sign(Opened(arena), chunks), chunks) <==> Readable(Concat(chunks)) && ChunksFit(chunks)
  {
    hide Sign, Run, Supported, Reviews, Parse, Concat, BufferFits, ChunksFit, Safety.Copies, Safety.AnyOverruns;
    Safety.PlainlyInside(arena, Concat(chunks));
    AnyCutting(arena, chunks);
    OnePassMeaning(arena, Concat(chunks));
    FitsExactly(arena, chunks);
  }

  /** Even one byte at a time, a supported transaction that is no contract call is reviewed, if no chunk is too long. */
  lemma PlainIsReached(arena: Arena, chunks: seq<seq<Byte>>)
    requires chunks != [] && arena.Valid() && PlainBytes(Concat(chunks)) && Readable(Concat(chunks))
    ensures Reviewed(Sign(Opened(arena), chunks), chunks) <==> ChunksFit(chunks)
    ensures (forall i :: 0 <= i < |chunks| ==> |chunks[i]| <= 269) ==> ChunksFit(chunks)
  {
    hide Sign, Run, Supported, Reviews, Parse, Concat, BufferFits, ChunksFit, Within, PlainBytes;
    OnePassMeaning(arena, Concat(chunks));
    Safety.PlainlyInside(arena, Concat(chunks));
    PlainReviewedExactly(arena, chunks);
    PlainTransaction(Concat(chunks));
    if forall i :: 0 <= i < |chunks| ==> |chunks[i]| <= 269 {
      SmallChunksFit(chunks, 32);
    }
  }

  // ---------------------------------------------------------------- which transactions can be reviewed at all

  /** Some cutting brings exactly these bytes to the review. */
  ghost predicate Reviewable(arena: Arena, b: seq<Byte>) {
    exists chunks :: chunks != [] && Concat(chunks) == b && Reviewed(Sign(Opened(arena), chunks), chunks)
  }

  /** The grammar reads all of `b`, and its outputs have blocks. */
  predicate Listable(b: seq<Byte>) {
    Parse(b).Got? && Parse(b).rest == [] && HasBlocks(Parse(b).value)
  }

  /**
   One byte at a time, whatever names and arguments are: reviewed exactly when the grammar reads the bytes and there are
   blocks for the outputs.  No argument of a call is kept then.
   */
  lemma SentBytewise(arena: Arena, b: seq<Byte>)
    requires arena.Valid() && b != []
    ensures Concat(Bytewise.Single(b)) == b
    ensures var fed := Sign(Opened(arena), Bytewise.Single(b));
            && (Reviewed(fed, Bytewise.Single(b)) <==> Listable(b))
            && (Reviewed(fed, Bytewise.Single(b)) && Parse(b).value.data.Calls? ==> NoElements(fed.session.st.call))
  {
    hide Sign, Run, Pass, Parse, Concat, HasBlocks, Supported, Within, Shown.Begins, Bytewise.Tame;
    var init := Fresh(arena);
    Begun(arena);
    Bytewise.SingleConcat(b);
    Bytewise.BegunBytewise(arena);
    Bytewise.BytesFed(Opened(arena), init, [], b);
    assert [] + b == b;
    BlindMeaning([], arena, b);
    if Listable(b) {
      PassMeaning(Blind([]), arena, b);
      EmptyStyle();
      hide Reviews;
      NothingKept(Sign(Opened(arena), Bytewise.Single(b)).session.st, Pass(Blind([]), init, b).st, Parse(b).value);
    }
  }

  lemma NothingKept(st: State, t: State, tx: Transaction)
    requires Blur(st) == Blur(t) && Reviews(t, KeepAllOf(Blind([]), tx))
    ensures tx.data.Calls? ==> NoElements(st.call)
  {
    EmptyStyle();
  }

  /** A byte string can be cut so that it is reviewed exactly when the grammar reads it and its outputs have blocks. */
  lemma ReviewableExactly(arena: Arena, b: seq<Byte>)
    requires arena.Valid()
    ensures Reviewable(arena, b) <==> Listable(b)
  {
    hide Sign, Parse, Concat, HasBlocks, Reviewed, Lists;
    if Reviewable(arena, b) {
      var chunks :| chunks != [] && Concat(chunks) == b && Reviewed(Sign(Opened(arena), chunks), chunks);
      ShownLists(arena, chunks);
    }
    if Listable(b) {
      NotEmpty(b);
      SentBytewise(arena, b);
    }
  }

  lemma NotEmpty(b: seq<Byte>)
    requires Parse(b).Got?
    ensures b != []
  {
  }

  /** Some clean cutting does. */
  ghost predicate CleanlyReviewable(arena: Arena, b: seq<Byte>) {
    exists chunks :: chunks != [] && Concat(chunks) == b && CleanRun(Opened(arena), chunks)
                     && Reviewed(Sign(Opened(arena), chunks), chunks)
  }

  /**
   A byte string can be cut cleanly, so that every field is shown as it is, exactly when it is readable and no kept
   argument is longer than the buffer.
   */
  lemma CleanlyReviewableExactly(arena: Arena, b: seq<Byte>)
    requires arena.Valid()
    ensures CleanlyReviewable(arena, b) <==> Readable(b) && Within(Limits(SIZE_T, MAX_TRANSACTION_LEN), Parse(b).value)
  {
    hide Sign, Run, Supported, Reviews, Parse, CleanRun, Concat, ChunksFit, Within, Reviewed;
    if CleanlyReviewable(arena, b) {
      var chunks :| chunks != [] && Concat(chunks) == b && CleanRun(Opened(arena), chunks)
                    && Reviewed(Sign(Opened(arena), chunks), chunks);
      NeverOversized(arena, chunks);
    }
    if Readable(b) && Within(Limits(SIZE_T, MAX_TRANSACTION_LEN), Parse(b).value) {
      var chunks := CutToFit(arena, b);
      ReviewedExactly(arena, chunks);
    }
  }

  lemma ReadableRun(arena: Arena, b: seq<Byte>)
    requires arena.Valid()
    ensures Readable(b) <==> Run(Fresh(arena), b).Accepted? && Run(Fresh(arena), b).rest == []
  {
    hide Run, Supported, Reviews, Parse;
    OnePassMeaning(arena, b);
  }

  lemma NeverOversized(arena: Arena, chunks: seq<seq<Byte>>)
    requires chunks != [] && arena.Valid() && CleanRun(Opened(arena), chunks)
    requires Reviewed(Sign(Opened(arena), chunks), chunks)
    ensures Readable(Concat(chunks)) && Within(Limits(SIZE_T, MAX_TRANSACTION_LEN), Parse(Concat(chunks)).value)
  {
    hide Sign, Run, Supported, Reviews, Parse, CleanRun, Concat, BufferFits, NarrowFields, ShortFields, Within;
    ChunkingInvariance(arena, chunks);
    ReadableRun(arena, Concat(chunks));
    assert [] + Concat(chunks) == Concat(chunks);
    NarrowWithin(Fresh(arena), [], MAX_TRANSACTION_LEN);
    FitsNarrow(Fresh(arena), [], chunks) by { LayoutFresh(arena); }
    ShortAnyway(Fresh(arena), Concat(chunks));
    LimitsMeaning(Limits(SIZE_T, MAX_TRANSACTION_LEN), arena, Concat(chunks));
  }

  lemma {:induction false} ShortAnyway(s: State, b: seq<Byte>)
    ensures ShortFields(s, b, SIZE_T)
    decreases |b|, Rank(s)
  {
    if StepOf(s, b).Go? {
      StepProgress(s, b);
      ShortAnyway(StepOf(s, b).st, StepOf(s, b).rest);
    }
  }

  lemma CutToFit(arena: Arena, b: seq<Byte>) returns (chunks: seq<seq<Byte>>)
    requires arena.Valid() && Readable(b) && Within(Limits(SIZE_T, MAX_TRANSACTION_LEN), Parse(b).value)
    ensures chunks != [] && Concat(chunks) == b && CleanRun(Opened(arena), chunks) && ChunksFit(chunks)
  {
    hide Sign, Run, Supported, Reviews, Parse, CleanRun, BufferFits, ChunksFit, NarrowFields, ShortFields, Within;
    ReadableRun(arena, b);
    LimitsMeaning(Limits(SIZE_T, MAX_TRANSACTION_LEN), arena, b);
    MirrorStart(arena);
    LayoutFresh(arena);
    NothingParsed(arena);
    assert [] + b == b;
    chunks := Cutting.Cut(Opened(arena), Fresh(arena), [], b);
    FitsExactly(arena, chunks);
  }

  // ---------------------------------------------------------------- inputs

  /** In one chunk that fits the buffer, every readable byte string is reviewed, and as what it is. */
  lemma OneChunk(arena: Arena, b: seq<Byte>)
    requires arena.Valid() && Readable(b) && |b| <= MAX_TRANSACTION_LEN
    ensures Reviewed(Sign(Opened(arena), [b]), [b]) && CleanRun(Opened(arena), [b]) && Concat([b]) == b
    ensures Reviews(Sign(Opened(arena), [b]).session.st, Parse(b).value)
  {
    hide Sign, Supported, Reviews, Parse, Run;
    ConcatOne(b);
    NothingParsed(BLANK);
    assert Kept(Concat([b][..0])) == [];
    ReviewedExactly(arena, [b]);
    ReviewIsFaithful(arena, [b]);
  }

  lemma ConcatOne(b: seq<Byte>)
    ensures Concat([b]) == b
  {
    assert [b][1..] == [] && b + [] == b;
  }

  /** The lone transfer is reviewed in one chunk, whatever lengths it announces; the documented format has one pair. */
  lemma WrongLengthsReviewed(arena: Arena, dataSize: Byte, coinSize: Byte, address: seq<Byte>, amount: seq<Byte>)
    requires arena.Valid() && |address| <= 40 && |amount| == 32 && dataSize < 0xFD && coinSize < 0xFD
    ensures var b := Sized(dataSize, coinSize, address, amount);
            var fed := Sign(Opened(arena), [b]);
            && Reviewed(fed, [b]) && Concat([b]) == b && CleanRun(Opened(arena), [b])
            && Reviews(fed.session.st, LoneTransaction(address, amount))
            && (ParseDocumented(b) == Got(LoneTransaction(address, amount), []) <==>
                  dataSize == 0 && coinSize == |address| + 47)
  {
    hide Sign, Run, Reviews, Parse, ParseDocumented, LengthsHold, Sized;
    var b := Sized(dataSize, coinSize, address, amount);
    WrongLengths(dataSize, coinSize, address, amount);
    LoneSupported(address, amount);
    LoneLength(dataSize, coinSize, address, amount);
    OneChunk(arena, b);
    DocumentedExactly(b);
  }

  lemma LoneSupported(address: seq<Byte>, amount: seq<Byte>)
    requires |address| <= 40
    ensures Supported(LoneTransaction(address, amount))
  {
  }

  lemma LoneLength(dataSize: Byte, coinSize: Byte, address: seq<Byte>, amount: seq<Byte>)
    requires |address| <= 40 && |amount| == 32
    ensures |Sized(dataSize, coinSize, address, amount)| <= MAX_TRANSACTION_LEN
  {
  }

  /** So is the lone transfer with a remark announced with 2^32 bytes, of which the documented format reads nothing. */
  lemma WideRemarkReviewed(arena: Arena, address: seq<Byte>, amount: seq<Byte>)
    requires arena.Valid() && |address| <= 40 && |amount| == 32
    ensures var b := WideRemark(address, amount);
            var fed := Sign(Opened(arena), [b]);
            && Reviewed(fed, [b]) && Reviews(fed.session.st, LoneTransaction(address, amount))
            && ParseDocumented(b) == Fail
  {
    hide Sign, Run, Reviews, Parse, ParseDocumented, WideRemark;
    WideRemarkRead(address, amount);
    LoneSupported(address, amount);
    OneChunk(arena, WideRemark(address, amount));
  }

  /**
   A documented call with one argument is supported up to 304 bytes of it and can be reviewed under a clean cutting up
   to 300.  One byte at a time it is reviewed whatever its length, without its argument.
   */
  lemma OversizedCall(arena: Arena, e: seq<Byte>)
    requires arena.Valid() && |e| < 0xFFFF_FF00
    ensures var b := LoneCall.CallBytes(e);
            && Parse(b) == ParseDocumented(b) == Got(LoneCall.CallTransaction(e), [])
            && (Supported(LoneCall.CallTransaction(e)) <==> |e| <= 304)
            && (CleanlyReviewable(arena, b) <==> |e| <= 300)
            && var fed := Sign(Opened(arena), Bytewise.Single(b));
               && Concat(Bytewise.Single(b)) == b && Reviewed(fed, Bytewise.Single(b))
               && NoElements(fed.session.st.call)
  {
    hide CleanlyReviewable, Parse, ParseDocumented, LoneCall.CallBytes, Supported, Within, Sign, Concat, NoElements;
    LoneCall.CallRead(e);
    LoneCall.CallSupported(e, Limits(SIZE_T, MAX_TRANSACTION_LEN));
    CleanlyReviewableExactly(arena, LoneCall.CallBytes(e));
    NotEmpty(LoneCall.CallBytes(e));
    SentBytewise(arena, LoneCall.CallBytes(e));
  }
}
