/**
 Cuttings the clean-cut condition does not allow: an address in three pieces or more.  Its bytes then
 land in the wrong place (`Pieces.MisplacedPieces`), but for every transaction type other than a contract call
 acceptance, the two sums and all else outside the arena are still those of one pass.
 */
module AnyCut {
  import opened Bytes
  import opened Varint
  import opened TxMachine
  import opened Resume
  import opened Chunks
  import opened Budget

  const ADDRESS_ROOM := 40

  /** A state without what a misplaced piece can change. */
  function Blur(s: State): State {
    s.(arena := s.arena.(mem := []), call := s.call.(methodOff := 0),
       coin := s.coin.(cur := s.coin.cur.(off := 0)))
  }

  function BlurEnd(end: Ending): Ending {
    match end
    case Accepted(st, rest) => Accepted(Blur(st), rest)
    case ShortLength(st, rest) => ShortLength(Blur(st), rest)
    case ShortValue(st, lack) => ShortValue(Blur(st), lack)
    case _ => end
  }

  /** Not the bytes of a contract call. */
  predicate PlainBytes(b: seq<Byte>) { |b| >= 2 ==> LittleEndian(b[..2]) != CALL_CONTRACT }

  /** Not a contract call, and not about to become one. */
  predicate Plain(s: State, b: seq<Byte>) {
    && s.stack != 4
    && if s.stack == 0 then PlainBytes(b) else s.typ != CALL_CONTRACT
  }

  /** The same parser, but that `s2` may put the next piece of an address further in front. */
  predicate Behind(s2: State, s1: State) {
    Layout(s1) && Layout(s2) && Blur(s1) == Blur(s2) && OffOf(s2) <= OffOf(s1)
  }

  /** The same ending, in the same sense. */
  predicate EndsBehind(e2: Ending, e1: Ending) {
    BlurEnd(e1) == BlurEnd(e2) && (Short?(e1) ==> OffOf(e2.st) <= OffOf(e1.st))
  }

  lemma PlainStep(s: State, b: seq<Byte>)
    requires Plain(s, b) && StepOf(s, b).Go?
    ensures Plain(StepOf(s, b).st, StepOf(s, b).rest)
  {
    hide ReadVarint, LittleEndian;
  }

  predicate StepsBehind(f2: Step, f1: Step) {
    if f1.Go? then f2.Go? && Blur(f1.st) == Blur(f2.st) && OffOf(f2.st) <= OffOf(f1.st) && f1.rest == f2.rest
    else f2.Stop? && EndsBehind(f2.end, f1.end)
  }

  lemma BlurFetch(s1: State, s2: State, n: nat, p: seq<Byte>)
    requires Behind(s2, s1) && s1.stack >= 6 && Want(s1).Fetch?
    requires FetchPayload(s1, Want(s1).at, Want(s1).off, n, p) != Stop(Stray)
    ensures Want(s2).Fetch? && Want(s1).at == Want(s2).at
    ensures StepsBehind(FetchPayload(s2, Want(s2).at, Want(s2).off, n, p),
                        FetchPayload(s1, Want(s1).at, Want(s1).off, n, p))
  {
  }

  lemma BlurFixed(s1: State, s2: State, d: seq<Byte>)
    requires Blur(s1) == Blur(s2) && OffOf(s2) <= OffOf(s1) && s1.stack != 4 && s1.stack != 2
    requires Want(s1) == Fixed(|d|)
    ensures match (Take(s1, d), Take(s2, d))
            case (Into(t1), Into(t2)) => Blur(t1) == Blur(t2) && (t1.stack != 4 ==> OffOf(t2) <= OffOf(t1))
            case (Refuse, Refuse) => true
            case _ => false
  {
  }

  lemma BlurStep(s1: State, s2: State, b: seq<Byte>)
    requires Behind(s2, s1) && Plain(s1, b) && StepOf(s1, b) != Stop(Stray)
    ensures StepsBehind(StepOf(s2, b), StepOf(s1, b))
  {
    hide ReadVarint, LittleEndian;
    match Want(s1)
    case Fixed(n) =>
      if n <= |b| {
        BlurFixed(s1, s2, b[..n]);
        if StepOf(s1, b).Go? {
          PlainStep(s1, b);
        }
      }
    case Fetch(_, _) =>
      if ReadVarint(b).Read? {
        BlurFetch(s1, s2, ReadVarint(b).value % SIZE_T, b[ReadVarint(b).size..]);
      }
    case _ =>
  }

  lemma {:induction false} BlurRun(s1: State, s2: State, b: seq<Byte>)
    requires Behind(s2, s1) && Plain(s1, b) && !Run(s1, b).Stray?
    ensures EndsBehind(Run(s2, b), Run(s1, b))
    decreases |b|, Rank(s1)
  {
    hide ReadVarint, LittleEndian, StepOf, Layout, Plain;
    BlurStep(s1, s2, b);
    if StepOf(s1, b).Go? {
      StepProgress(s1, b);
      LayoutStep(s1, b);
      LayoutStep(s2, b);
      PlainStep(s1, b);
      BlurRun(StepOf(s1, b).st, StepOf(s2, b).st, StepOf(s1, b).rest);
    }
  }

  // ---------------------------------------------------------------- over a run

  lemma {:induction false} PlainResumes(s: State, x: seq<Byte>, y: seq<Byte>)
    requires Startable(s) && Plain(s, x + y) && Short?(Run(s, x))
    ensures Plain(Run(s, x).st, Left(Run(s, x)) + y)
    decreases |x|, Rank(s)
  {
    StepStable(s, x, y);
    if StepOf(s, x).Go? {
      StepProgress(s, x);
      SettledStep(s, x);
      ArenaSizeKept(s, x);
      PlainStep(s, x + y);
      PlainResumes(StepOf(s, x).st, StepOf(s, x).rest, y);
    }
  }

  /** The session stands where one pass over `p` stands, misplaced pieces apart. */
  predicate Shadows(h: Session, init: State, p: seq<Byte>) {
    && h.hashed == p
    && var end := Run(init, p);
       Short?(end) && Left(end) == h.raw && Behind(h.st, end.st)
  }

  /** One pass over `b` is no contract call and stays inside the arena. */
  predicate Ready(init: State, b: seq<Byte>) {
    Startable(init) && Layout(init) && Plain(init, b) && !Run(init, b).Stray?
  }

  lemma ReadyPrefix(init: State, x: seq<Byte>, y: seq<Byte>)
    requires Ready(init, x + y)
    ensures Ready(init, x)
  {
    Resume.Resume(init, x, y);
    assert |x| >= 2 ==> (x + y)[..2] == x[..2];
  }

  /** The exact and the shadowing parser take the next chunk alike. */
  lemma ShadowContinues(h: Session, init: State, p: seq<Byte>, chunk: seq<Byte>)
    requires Ready(init, p + chunk) && Shadows(h, init, p)
    ensures EndsBehind(Run(h.st, h.raw + chunk), Run(init, p + chunk))
    ensures Short?(Run(init, p + chunk)) ==> Behind(Run(h.st, h.raw + chunk).st, Run(init, p + chunk).st)
  {
    hide Layout, Plain;
    var exact, b := Run(init, p).st, h.raw + chunk;
    OnePassContinues(Session(h.raw, exact, p), init, p, chunk);
    PlainResumes(init, p, chunk);
    TrailsBehind(Run(exact, b), Run(init, p + chunk));
    BlurRun(exact, h.st, b);
    LayoutRun(h.st, b);
    LayoutRun(init, p + chunk);
  }

  lemma TrailsBehind(resumed: Ending, whole: Ending)
    requires Trails(resumed, whole)
    ensures EndsBehind(resumed, whole) && (resumed.Stray? <==> whole.Stray?)
  {
  }

  /** What a run under any cutting has to do with one pass. */
  predicate FollowsOnePass(fed: Fed, init: State, p: seq<Byte>, chunks: seq<seq<Byte>>) {
    var whole := Run(init, p + Concat(chunks));
    && fed.reply != Undefined
    && (fed.reply == Review && fed.session.hashed == p + Concat(chunks)
        <==> whole.Accepted? && whole.rest == [] && BufferFits(init, p, chunks))
    && (fed.reply == Review ==> BlurEnd(Run(init, fed.session.hashed)) == Accepted(Blur(fed.session.st), []))
  }

  lemma {:induction false} AnyRunFrom(h: Session, init: State, p: seq<Byte>, chunks: seq<seq<Byte>>)
    requires chunks != [] && Ready(init, p + Concat(chunks)) && Shadows(h, init, p)
    ensures FollowsOnePass(Sign(h, chunks), init, p, chunks)
    decreases |chunks|
  {
    hide Run, Layout, Plain, Blur, Ready;
    ConcatStep(p, chunks);
    var chunk, others := chunks[0], chunks[1..];
    ReadyPrefix(init, p + chunk, Concat(others));
    ShadowContinues(h, init, p, chunk);
    ReadyParts(init, p + chunk);
    var fed := Feed(h, chunk, |chunks| > 1);
    if |chunks| > 1 && fed.reply != WrongTxLength {
      if fed.reply == SwOk {
        AnyRunFrom(fed.session, init, p + chunk, others);
      } else {
        Resume.Resume(init, p + chunk, Concat(others));
        if fed.reply == Review {
          NothingLeft(p + chunk, Concat(others));
          if Concat(others) == [] {
            NothingFits(init, p + chunk, others);
          }
        }
      }
    } else {
      assert BufferFits(init, p, chunks) <==> fed.reply != WrongTxLength;
      assert FollowsOnePass(fed, init, p, chunks);
    }
  }

  lemma ReadyParts(init: State, b: seq<Byte>)
    requires Ready(init, b)
    ensures Startable(init) && !Run(init, b).Stray?
  {
  }

  /**
   However the bytes are cut, even one at a time: when the type is not a contract call and one pass stays inside the
   arena, the whole is reviewed exactly when that pass accepts it and the chunks fit the buffer.  What is reviewed,
   early or not, has the sums, outputs and lengths of one pass over the hashed bytes.
   */
  lemma AnyCutting(arena: Arena, chunks: seq<seq<Byte>>)
    requires chunks != [] && arena.Valid() && PlainBytes(Concat(chunks))
    requires !Run(Fresh(arena), Concat(chunks)).Stray?
    ensures var fed, whole := Sign(Opened(arena), chunks), Run(Fresh(arena), Concat(chunks));
            && fed.reply != Undefined
            && (fed.reply == Review && fed.session.hashed == Concat(chunks)
                <==> whole.Accepted? && whole.rest == [] && BufferFits(Fresh(arena), [], chunks))
            && (fed.reply == Review ==>
                  var pass := Run(Fresh(arena), fed.session.hashed);
                  && pass.Accepted? && pass.rest == []
                  && fed.session.st.coin == pass.st.coin
                  && fed.session.st.typ == pass.st.typ
                  && fed.session.st.arena.used == pass.st.arena.used)
  {
    hide Sign, Run, Ready, Shadows, Blur;
    assert [] + Concat(chunks) == Concat(chunks);
    StartsShadowing(arena, Concat(chunks));
    AnyRunFrom(Opened(arena), Fresh(arena), [], chunks);
    var fed := Sign(Opened(arena), chunks);
    if fed.reply == Review {
      LayoutSign(Opened(arena), chunks);
      LayoutRun(Fresh(arena), fed.session.hashed);
      BlurShows(fed.session.st, Run(Fresh(arena), fed.session.hashed).st);
    }
  }

  lemma StartsShadowing(arena: Arena, b: seq<Byte>)
    requires arena.Valid() && PlainBytes(b)
    requires !Run(Fresh(arena), b).Stray?
    ensures Ready(Fresh(arena), b) && Shadows(Opened(arena), Fresh(arena), [])
  {
    hide Run, ReadVarint, LittleEndian, Blur;
    NothingParsed(arena);
    LayoutFresh(arena);
  }

  lemma LayoutFresh(arena: Arena)
    requires arena.Valid()
    ensures Layout(Fresh(arena)) && Startable(Fresh(arena)) && !Want(Fresh(arena)).Fetch?
  {
  }

  lemma NothingParsed(arena: Arena)
    ensures Run(Fresh(arena), []) == ShortLength(Fresh(arena), [])
  {
    assert StepOf(Fresh(arena), []) == Stop(ShortLength(Fresh(arena), []));
  }

  /** What a misplaced piece can change is not in the sums, the outputs or the lengths. */
  lemma BlurShows(s1: State, s2: State)
    requires Blur(s1) == Blur(s2)
    ensures s1.coin.(cur := s2.coin.cur) == s2.coin && s1.typ == s2.typ && s1.arena.used == s2.arena.used
    ensures s1.coin.cur.(off := s2.coin.cur.off) == s2.coin.cur
  {
  }
}
