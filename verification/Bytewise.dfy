/**
 One byte at a time.  Every copied field then shows two bytes at most: no copy leaves the arena, no method name is told
 from another, no argument is kept.
 */
module Bytewise {
  import opened Bytes
  import opened Varint
  import opened TxMachine
  import opened Resume
  import opened Chunks
  import opened Budget
  import opened AnyCut
  import opened OnePass
  import opened CallPass
  import opened Cutting
  import opened Shown
  import opened Skimming

  /** The chunks of one byte each. */
  function Single(b: seq<Byte>): (chunks: seq<seq<Byte>>)
    ensures |chunks| == |b|
  {
    if b == [] then [] else [[b[0]]] + Single(b[1..])
  }

  lemma {:induction false} SingleConcat(b: seq<Byte>)
    ensures Concat(Single(b)) == b
  {
    if b != [] {
      SingleConcat(b[1..]);
      assert Single(b)[1..] == Single(b[1..]);
      assert [b[0]] + b[1..] == b;
    }
  }

  const NOTHING: Alias := []

  // ---------------------------------------------------------------- the parser and the blind pass

  /** Nothing is shown of the field being copied but its first two bytes. */
  predicate TwoBytes(s: State) {
    Want(s).Fetch? ==>
      var at := Want(s).at;
      && Want(s).off <= 1 && at + BLOCK <= |s.arena.mem|
      && forall i :: at + 2 <= i < at + BLOCK ==> s.arena.mem[i] == 0
  }

  /** The parser `s` and the blind pass `t`: one state, but for the arena's bytes and the place of the next piece. */
  predicate Tame(s: State, t: State) {
    && Layout(s) && |s.arena.mem| == ARENA_SIZE && Begins(t) && Blur(s) == Blur(t) && TwoBytes(s)
    && (if Want(s).Fetch? then Settled(Fetched(s)) else Settled(s))
    && (Named(s) ==> StyleOf(s).Other? && StyleOf(t).Other?)
  }

  predicate TameEnd(e: Ending, f: Ending) {
    match (e, f)
    case (Accepted(st, r), Accepted(st', r')) => Blur(st) == Blur(st') && r == r'
    case (ShortLength(st, r), ShortLength(st', r')) => Tame(st, st') && r == r'
    case (ShortValue(st, lack), ShortValue(st', lack')) => Tame(st, st') && lack == lack'
    case (Refused, Refused) => true
    case _ => false
  }

  lemma TameWant(s: State, t: State)
    requires Tame(s, t)
    ensures Want(s) == Want(t) || (Want(s).Fetch? && Want(t).Fetch? && Want(s).at == Want(t).at)
    ensures Want(t).Fetch? ==> Want(t).off == 0
  {
    hide CStringIs, Layout;
  }

  /** Where nothing is copied the two are in step. */
  lemma TameNear(s: State, t: State)
    requires Tame(s, t) && !Want(s).Fetch?
    ensures Near(s, t)
  {
    hide Layout, CStringIs;
  }

  lemma NearTame(s: State, t: State)
    requires Near(s, t) && (Named(s) ==> StyleOf(s).Other?)
    ensures Tame(s, t)
  {
    hide Layout, CStringIs;
  }

  predicate TameStep(f: Step, g: Step) {
    match (f, g)
    case (Go(st, r), Go(st', r')) => Tame(st, st') && r == r'
    case (Stop(e), Stop(e')) => TameEnd(e, e')
    case _ => false
  }

  lemma TamePlain(s: State, t: State, b: seq<Byte>)
    requires Tame(s, t) && !Want(s).Fetch? && StepOf(s, b) != Stop(Stray)
    ensures TameStep(StepOf(s, b), PassStep(Blind(NOTHING), t, b))
  {
    hide StepOf, PassStep, Layout, Begins, CStringIs, Blur;
    TameNear(s, t);
    NearStep(NOTHING, s, t, b);
    TameWant(s, t);
    BlindStep(NOTHING, t, b);
    if StepOf(s, b).Go? {
      TameGoes(s, t, b);
    } else {
      TameStops(s, t, b);
    }
  }

  lemma TameGoes(s: State, t: State, b: seq<Byte>)
    requires Near(s, t) && Tame(s, t) && !Want(s).Fetch? && StepOf(s, b).Go? && StepOf(t, b).Go?
    requires Bare(StepOf(s, b).st) == Bare(StepOf(t, b).st)
    ensures Tame(StepOf(s, b).st, StepOf(t, b).st)
  {
    hide StepOf, Layout, Begins, CStringIs, ZeroBlock;
    BeginsStep(s, b);
    BeginsStep(t, b);
    LayoutOf(s);
    LayoutOf(t);
    if Named(StepOf(s, b).st) {
      if Named(s) {
        StyleStep(s, b);
        StyleStep(t, b);
      } else {
        NamedArrival(s, b);
      }
    }
    hide Tame;
    NearTame(StepOf(s, b).st, StepOf(t, b).st);
  }

  lemma TameStops(s: State, t: State, b: seq<Byte>)
    requires Near(s, t) && Tame(s, t) && !Want(s).Fetch? && StepOf(s, b).Stop? && StepOf(t, b).Stop?
    requires BareEnd(StepOf(s, b).end, StepOf(t, b).end)
    ensures TameEnd(StepOf(s, b).end, StepOf(t, b).end)
  {
    hide StepOf, Layout, CStringIs, ZeroBlock;
    BeginsStartable(s);
    BeginsStartable(t);
    StepStable(s, b, []);
    StepStable(t, b, []);
    TameWant(s, t);
    if StepOf(s, b).end.ShortValue? {
      ValueMissing(s, b);
      ValueMissing(t, b);
    }
    if StepOf(s, b).end.Accepted? {
      BareBlurs(StepOf(s, b).end.st, StepOf(t, b).end.st);
    }
  }

  lemma BareBlurs(s: State, t: State)
    requires Bare(s) == Bare(t)
    ensures Blur(s) == Blur(t)
  {
  }

  /** One byte more of a copied field, or of its length. */
  lemma TameFetch(s: State, t: State, raw: seq<Byte>, x: Byte)
    requires Tame(s, t) && Want(s).Fetch? && Waits(t, raw) && Want(t).Fetch?
    ensures TameStep(StepOf(s, raw + [x]), PassStep(Blind(NOTHING), t, raw + [x]))
  {
    var b, r := raw + [x], ReadVarint(raw + [x]);
    BlindStep(NOTHING, t, b);
    TameWant(s, t);
    if r.Read? {
      OneByteMore(raw, x);
      TamePayload(s, t, r.value % SIZE_T, b[r.size..]);
    } else {
      TameOff(s, t, 0);
    }
  }

  lemma OneByteMore(raw: seq<Byte>, x: Byte)
    requires ReadVarint(raw + [x]).Read? && (ReadVarint(raw).Read? ==> ReadVarint(raw).size == |raw|)
    ensures |raw + [x]| - ReadVarint(raw + [x]).size <= 1
  {
    if ReadVarint(raw).Read? {
      Stable(raw, [x]);
    } else {
      VarintGrows(raw, [x]);
    }
  }

  lemma TamePayload(s: State, t: State, n: nat, p: seq<Byte>)
    requires Tame(s, t) && Want(s).Fetch? && Want(t).Fetch? && |p| <= 1
    ensures TameStep(FetchPayload(s, Want(s).at, Want(s).off, n, p), BlindPayload(Blind(NOTHING), t, n, p))
  {
    hide Tame, Want, Store, SetOff, Fetched, Skim, Blur;
    var at, off := Want(s).at, Want(s).off;
    var piece := p[..Min(n, |p|)];
    var s' := Store(s, at + off, piece);
    TameStore(s, t, piece);
    if |p| < n {
      TameOff(s', t, |p|);
    } else {
      TameFetched(s', t);
    }
  }

  lemma TameStore(s: State, t: State, d: seq<Byte>)
    requires Tame(s, t) && Want(s).Fetch? && Want(t).Fetch? && |d| <= 1
    ensures Want(s).at + Want(s).off + |d| <= ARENA_SIZE
    ensures Tame(Store(s, Want(s).at + Want(s).off, d), t) && Want(Store(s, Want(s).at + Want(s).off, d)).Fetch?
  {
    hide CStringIs;
  }

  lemma TameOff(s: State, t: State, off: nat)
    requires Tame(s, t) && Want(s).Fetch? && off <= 1
    ensures Tame(SetOff(s, off), t)
  {
    hide CStringIs;
  }

  lemma TameFetched(s: State, t: State)
    requires Tame(s, t) && Want(s).Fetch? && Want(t).Fetch?
    ensures Tame(Fetched(s), Skim(Blind(NOTHING), t))
  {
    SkimKeeps(NOTHING, t);
    StoresNothing(t, t.call.methodName.Pos());
    if s.stack == 4 {
      ShortStyle(s.arena.mem, 55);
      SkimStyle(NOTHING, t);
      EmptyAlias();
    }
  }

  lemma EmptyAlias()
    ensures StyleOfName(NOTHING).Other?
  {
    AliasStyle(Style.Other);
  }

  /** Two bytes are no name. */
  lemma ShortStyle(mem: seq<Byte>, at: nat)
    requires at + BLOCK <= |mem| && mem[at + 2] == 0
    ensures !CStringIs(mem, at, TRANSFER) && !CStringIs(mem, at, TRANSFER_FROM)
  {
    assert mem[at..at + 8][2] == mem[at + 2] && mem[at..at + 12][2] == mem[at + 2];
    assert TRANSFER[2] != 0 && TRANSFER_FROM[2] != 0;
  }

  // ---------------------------------------------------------------- one chunk

  lemma OneByteStep(s: State, t: State, raw: seq<Byte>, x: Byte)
    requires Tame(s, t) && Waits(t, raw)
    ensures var f, g := StepOf(s, raw + [x]), PassStep(Blind(NOTHING), t, raw + [x]);
            TameStep(f, g) && (g.Go? ==> g.rest == [])
  {
    hide StepOf, PassStep, Tame, Waits, TameStep;
    TameWant(s, t);
    BlindStep(NOTHING, t, raw + [x]);
    if Want(s).Fetch? {
      TameFetch(s, t, raw, x);
      if PassStep(Blind(NOTHING), t, raw + [x]).Go? {
        BlindTakesMore(t, raw, x);
      }
    } else {
      NoStray(s, t, raw + [x]);
      TamePlain(s, t, raw + [x]);
      if StepOf(t, raw + [x]).Go? {
        TakesMore(t, raw, [x]);
      }
    }
  }

  lemma BlindTakesMore(t: State, raw: seq<Byte>, x: Byte)
    requires Want(t).Fetch? && Waits(t, raw) && StepBlind(Blind(NOTHING), t, raw + [x]).Go?
    ensures StepBlind(Blind(NOTHING), t, raw + [x]).rest == []
  {
    OneByteMore(raw, x);
    if ReadVarint(raw).Read? {
      Stable(raw, [x]);
    }
  }

  /** Of a field that is not kept no more than 32 bytes are read at once. */
  lemma NoStray(s: State, t: State, b: seq<Byte>)
    requires Tame(s, t) && !Want(s).Fetch?
    ensures StepOf(s, b) != Stop(Stray)
    ensures Want(s).Fixed? ==> 0 < Want(s).n <= 32
  {
    hide CStringIs;
  }

  /** Without a byte both wait, or are done. */
  lemma TameIdle(s: State, t: State)
    requires Tame(s, t)
    ensures TameEnd(Run(s, []), Pass(Blind(NOTHING), t, []))
    ensures Pass(Blind(NOTHING), t, []).Accepted? || Pass(Blind(NOTHING), t, []).ShortLength?
    ensures Pass(Blind(NOTHING), t, []).ShortLength? ==>
              Pass(Blind(NOTHING), t, []) == ShortLength(t, []) && Waits(t, [])
  {
    TameWant(s, t);
    BlindStep(NOTHING, t, []);
    if Want(s).Fetch? {
      TameOff(s, t, 0);
    } else {
      NoStray(s, t, []);
    }
    hide CStringIs, Layout, ZeroBlock, Blur;
  }

  lemma BlindWaits(t: State, b: seq<Byte>)
    requires Begins(t) && PassStep(Blind(NOTHING), t, b).Stop? && Short?(PassStep(Blind(NOTHING), t, b).end)
    ensures var e := PassStep(Blind(NOTHING), t, b).end; Waits(e.st, Left(e))
  {
    BlindStep(NOTHING, t, b);
    BeginsStartable(t);
    if Want(t).Fetch? {
      var e := StepBlind(Blind(NOTHING), t, b).end;
      if e.ShortValue? {
        RoundTrip(e.lack, []);
        assert WriteVarint(e.lack) + [] == WriteVarint(e.lack);
      }
    } else {
      StopWaits(t, b);
    }
  }

  /** The session and the blind pass over the bytes sent so far. */
  predicate OneByOne(h: Session, init: State, p: seq<Byte>) {
    var e := Pass(Blind(NOTHING), init, p);
    Short?(e) && Left(e) == h.raw && Tame(h.st, e.st) && Waits(e.st, h.raw)
  }

  lemma ByteRun(s: State, t: State, raw: seq<Byte>, x: Byte)
    requires Tame(s, t) && Waits(t, raw)
    ensures var e, f := Run(s, raw + [x]), Pass(Blind(NOTHING), t, raw + [x]);
            TameEnd(e, f) && (Short?(f) ==> Waits(f.st, Left(f)))
  {
    hide StepOf, PassStep, Tame, Waits;
    var b := raw + [x];
    OneByteStep(s, t, raw, x);
    GoesOn(s, b);
    if PassStep(Blind(NOTHING), t, b).Go? {
      TameIdle(StepOf(s, b).st, PassStep(Blind(NOTHING), t, b).st);
    } else {
      PassStops(Blind(NOTHING), t, b);
      if Short?(PassStep(Blind(NOTHING), t, b).end) {
        BlindWaits(t, b) by { TameBegins(s, t); }
      }
    }
  }

  lemma TameBegins(s: State, t: State)
    requires Tame(s, t)
    ensures Begins(t)
  {
  }

  lemma SmallRaw(s: State, t: State, raw: seq<Byte>)
    requires Tame(s, t) && Waits(t, raw)
    ensures |raw| < 32
  {
    TameWant(s, t);
    if !Want(s).Fetch? {
      NoStray(s, t, []);
    }
  }

  lemma ByteFed(h: Session, init: State, p: seq<Byte>, x: Byte, more: bool)
    requires Begins(init) && OneByOne(h, init, p)
    ensures var fed, e := Feed(h, [x], more), Pass(Blind(NOTHING), init, p + [x]);
            && (Short?(e) ==> fed.reply == if more then SwOk else TxParsingFail)
            && (Short?(e) && more ==> OneByOne(fed.session, init, p + [x]))
            && (!Short?(e) ==> fed.reply == if e.Accepted? && e.rest == [] then Review else TxParsingFail)
            && (fed.reply == Review ==> Blur(fed.session.st) == Blur(e.st))
            && (fed.reply == Review || fed.reply == SwOk ==> fed.session.hashed == h.hashed + [x])
  {
    hide Run, Pass, Tame, Waits, Begins;
    var t := Pass(Blind(NOTHING), init, p).st;
    BlindResume(NOTHING, init, p, [x]);
    ByteRun(h.st, t, h.raw, x);
    SmallRaw(h.st, t, h.raw);
  }

  lemma {:induction false} BytesFed(h: Session, init: State, p: seq<Byte>, b: seq<Byte>)
    requires Begins(init) && OneByOne(h, init, p) && b != []
    ensures var fed, e := Sign(h, Single(b)), Pass(Blind(NOTHING), init, p + b);
            && (fed.reply == Review && fed.session.hashed == h.hashed + b <==> e.Accepted? && e.rest == [])
            && (fed.reply == Review && fed.session.hashed == h.hashed + b ==> Blur(fed.session.st) == Blur(e.st))
    decreases |b|
  {
    hide Run, Pass, OneByOne, Feed, Begins, Blur;
    var x, y := b[0], b[1..];
    ByteFed(h, init, p, x, y != []);
    assert p + b == p + [x] + y && h.hashed + b == h.hashed + [x] + y;
    var fed, e := Feed(h, [x], y != []), Pass(Blind(NOTHING), init, p + [x]);
    SingleStep(h, b);
    if y == [] {
      assert p + b == p + [x] && h.hashed + b == h.hashed + [x];
    } else if Short?(e) {
      BytesFed(fed.session, init, p + [x], y);
    } else {
      BlindResume(NOTHING, init, p + [x], y);
      NothingLeft(h.hashed + [x], y);
      assert Sign(h, Single(b)) == fed;
    }
  }

  lemma SingleStep(h: Session, b: seq<Byte>)
    requires b != []
    ensures var fed := Feed(h, [b[0]], b[1..] != []);
            Sign(h, Single(b)) == if fed.reply == SwOk && b[1..] != [] then Sign(fed.session, Single(b[1..])) else fed
  {
    hide Feed;
    assert Single(b)[1..] == Single(b[1..]) && Single(b)[0] == [b[0]];
  }

  lemma BegunBytewise(arena: Arena)
    requires arena.Valid()
    ensures OneByOne(Opened(arena), Fresh(arena), [])
  {
    BlindStep(NOTHING, Fresh(arena), []);
    PassStops(Blind(NOTHING), Fresh(arena), []);
  }
}
