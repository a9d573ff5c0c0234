/**
 The bytes hashed against the bytes shown.  A pass that copies nothing cannot tell them apart; so the type, the sums,
 the outputs' assets and amounts under review are those of the bytes hashed, whatever the cutting.
 */
module Skimming {
  import opened Bytes
  import opened Varint
  import opened TxMachine
  import opened Resume
  import opened Chunks
  import opened Budget
  import opened OnePass
  import opened CallPass
  import opened Shown

  type Alias = a: seq<Byte> | |a| <= 40 witness []

  lemma BlindStep(alias: Alias, s: State, b: seq<Byte>)
    ensures PassStep(Blind(alias), s, b) == if Want(s).Fetch? then StepBlind(Blind(alias), s, b) else StepOf(s, b)
  {
  }

  // ---------------------------------------------------------------- a blind pass resumes

  /** What a blind pass makes of a copied field is what the parser makes of the alias, or of an empty address. */
  function Instead(alias: Alias, s: State): seq<Byte> {
    if s.stack == 4 then WriteVarint(|alias|) + alias else [0]
  }

  lemma FetchesWhole(s: State, at: nat, x: seq<Byte>, d: seq<Byte>)
    requires Want(s) == Fetch(at, 0) && at + |d| <= ARENA_SIZE && |d| < SIZE_T && Announces(x, |d|, d)
    ensures StepOf(s, x) == Go(Fetched(Store(s, at, d)), [])
  {
    hide Poke, Fetched, Want;
    SmallModulus(|d|);
    assert d[..|d|] == d;
  }

  lemma SkimSteps(alias: Alias, s: State)
    requires Want(s).Fetch? && Settled(s) && Want(s).at + BLOCK <= ARENA_SIZE
    ensures StepOf(s, Instead(alias, s)) == Go(Skim(Blind(alias), s), [])
  {
    hide StepOf, Poke, WriteVarint;
    FetchStart(s);
    WrittenAnnounces(|alias|, alias);
    NothingAnnounced();
    FetchesWhole(s, Want(s).at, Instead(alias, s), if s.stack == 4 then alias else []);
    StoresNothing(s, Want(s).at);
  }

  lemma NothingAnnounced()
    ensures Announces([0], 0, [])
  {
    assert [0][1..] == [];
  }

  lemma SkimKeeps(alias: Alias, s: State)
    requires Startable(s) && Layout(s) && ZeroBlock(s) && Want(s).Fetch?
    ensures var t := Skim(Blind(alias), s); Startable(t) && Layout(t) && ZeroBlock(t)
  {
    hide StepOf, Layout, Skim;
    BlockInside(s);
    SkimSteps(alias, s);
    SettledStep(s, Instead(alias, s));
    ArenaSizeKept(s, Instead(alias, s));
    LayoutStep(s, Instead(alias, s));
    ZeroStep(s, Instead(alias, s));
  }

  lemma BlockInside(s: State)
    requires Startable(s) && ZeroBlock(s) && Want(s).Fetch?
    ensures Want(s).at + BLOCK <= ARENA_SIZE
  {
  }

  lemma BlindKeeps(alias: Alias, s: State, b: seq<Byte>)
    requires Begins(s) && PassStep(Blind(alias), s, b).Go?
    ensures Begins(PassStep(Blind(alias), s, b).st)
  {
    hide StepOf, Layout, Skim, ZeroBlock;
    BlindStep(alias, s, b);
    if Want(s).Fetch? {
      SkimKeeps(alias, s);
    } else {
      SettledStep(s, b);
      ArenaSizeKept(s, b);
      LayoutStep(s, b);
      ZeroStep(s, b);
    }
  }

  lemma BlindStable(alias: Alias, s: State, x: seq<Byte>, y: seq<Byte>)
    requires Startable(s)
    ensures var l := Blind(alias);
            match PassStep(l, s, x)
            case Go(st, rest) => PassStep(l, s, x + y) == Go(st, rest + y)
            case Stop(Accepted(st, rest)) => PassStep(l, s, x + y) == Stop(Accepted(st, rest + y))
            case Stop(ShortLength(st, rest)) => st == s && rest == x
            case Stop(ShortValue(st, lack)) =>
              st == s && 0 < lack < SIZE_T && PassStep(l, s, x + y) == PassStep(l, s, WriteVarint(lack) + y)
            case Stop(end) => PassStep(l, s, x + y) == Stop(end)
  {
    var l := Blind(alias);
    BlindStep(alias, s, x);
    BlindStep(alias, s, x + y);
    if Want(s).Fetch? {
      BlindFetch(l, s, x, y);
    } else {
      hide StepOf;
      StepStable(s, x, y);
      if StepOf(s, x).Stop? && StepOf(s, x).end.ShortValue? {
        ValueMissing(s, x);
        FieldResumes(s, x, y);
        NoOffOf(s);
        BlindStep(alias, s, WriteVarint(StepOf(s, x).end.lack) + y);
      }
    }
  }

  lemma NoOffOf(s: State)
    requires Settled(s)
    ensures OffOf(s) == 0
  {
  }

  lemma BlindFetch(l: Limit, s: State, x: seq<Byte>, y: seq<Byte>)
    requires Want(s).Fetch? && l.blind
    ensures match StepBlind(l, s, x)
            case Go(st, rest) => StepBlind(l, s, x + y) == Go(st, rest + y)
            case Stop(ShortLength(st, rest)) => st == s && rest == x
            case Stop(ShortValue(st, lack)) =>
              st == s && 0 < lack < SIZE_T && StepBlind(l, s, x + y) == StepBlind(l, s, WriteVarint(lack) + y)
            case _ => false
  {
    hide ReadVarint, WriteVarint, Skim;
    if ReadVarint(x).Read? {
      var k, n := ReadVarint(x).size, ReadVarint(x).value % SIZE_T;
      Stable(x, y);
      DropAppend(x, y, k);
      BlindRest(l, s, n, x[k..], y);
      if |x[k..]| < n {
        WrittenAnnounces(n - |x[k..]|, y);
        SmallModulus(n - |x[k..]|);
      }
    }
  }

  lemma BlindRest(l: Limit, s: State, n: nat, p: seq<Byte>, y: seq<Byte>)
    ensures |p| < n ==> BlindPayload(l, s, n, p + y) == BlindPayload(l, s, n - |p|, y)
    ensures |p| >= n ==> BlindPayload(l, s, n, p + y) == Go(Skim(l, s), p[n..] + y)
  {
    if |p| >= n {
      assert (p + y)[n..] == p[n..] + y;
    } else if n <= |p + y| {
      assert (p + y)[n..] == y[n - |p|..];
    }
  }

  lemma {:induction false} BlindResume(alias: Alias, s: State, x: seq<Byte>, y: seq<Byte>)
    requires Begins(s)
    ensures var l := Blind(alias);
            match Pass(l, s, x)
            case Accepted(st, rest) => Pass(l, s, x + y) == Accepted(st, rest + y)
            case ShortLength(st, rest) => Begins(st) && Pass(l, s, x + y) == Pass(l, st, rest + y)
            case ShortValue(st, lack) =>
              Begins(st) && 0 < lack < SIZE_T && Pass(l, s, x + y) == Pass(l, st, WriteVarint(lack) + y)
            case end => Pass(l, s, x + y) == end
    decreases |x|, Rank(s)
  {
    hide PassStep, Layout, ZeroBlock;
    var l := Blind(alias);
    BlindStable(alias, s, x, y);
    if PassStep(l, s, x).Go? {
      PassProgress(l, s, x);
      BlindKeeps(alias, s, x);
      BlindResume(alias, PassStep(l, s, x).st, PassStep(l, s, x).rest, y);
    }
  }

  // ---------------------------------------------------------------- in step with the parser

  /** The state without its arena bytes. */
  function Bare(s: State): State { s.(arena := s.arena.(mem := [])) }

  predicate Named(s: State) { s.stack == 4 && s.call.stack >= 6 }

  /** The same state, but for arena bytes, and of a method name the same as far as arguments are told apart. */
  predicate Near(s: State, t: State) {
    Begins(s) && Begins(t) && Bare(s) == Bare(t) && (Named(s) ==> StyleOf(s) == StyleOf(t))
  }

  /** Every method name completed on the way is of this style. */
  predicate NamedLike(s: State, b: seq<Byte>, style: Style)
    decreases |b|, Rank(s)
  {
    StepOf(s, b).Go? ==>
      && (s.stack == 4 && Want(s).Fetch? ==> StyleOf(StepOf(s, b).st) == style)
      && (StepProgress(s, b); NamedLike(StepOf(s, b).st, StepOf(s, b).rest, style))
  }

  predicate BareEnd(e: Ending, f: Ending) {
    match (e, f)
    case (Accepted(st, r), Accepted(st', r')) => Bare(st) == Bare(st') && r == r'
    case (ShortLength(st, r), ShortLength(st', r')) => Near(st, st') && r == r'
    case (ShortValue(st, lack), ShortValue(st', lack')) => lack == lack'
    case (Refused, Refused) => true
    case _ => false
  }

  predicate BareStep(f: Step, g: Step) {
    match (f, g)
    case (Go(st, r), Go(st', r')) => Bare(st) == Bare(st') && r == r'
    case (Stop(e), Stop(e')) => BareEnd(e, e')
    case _ => false
  }

  /** The style of a name is not touched behind it. */
  lemma StyleStep(s: State, b: seq<Byte>)
    requires Layout(s) && Named(s) && StepOf(s, b).Go?
    ensures StyleOf(StepOf(s, b).st) == StyleOf(s)
  {
    hide ReadVarint, LittleEndian, CStringIs, Poke;
    if Want(s) == Length {
      StyleKept(s, s.arena.used, Zeros((ReadVarint(b).value + 1) % SIZE_T));
    } else if Want(s).Fixed? && s.call.stack >= 8 && s.call.inner > 0 {
      StyleKept(s, ElementOf(s.call, StyleOf(s)).Pos(), b[..Want(s).n] + [0]);
    }
  }

  lemma SameWant(s: State, t: State)
    requires Near(s, t)
    ensures Want(s) == Want(t)
  {
  }

  lemma BareFixed(s: State, t: State, d: seq<Byte>)
    requires Near(s, t) && Want(s) == Fixed(|d|)
    ensures match (Take(s, d), Take(t, d))
            case (Into(s'), Into(t')) => Bare(s') == Bare(t')
            case (Refuse, Refuse) => true
            case _ => false
  {
    hide LittleEndian, Poke, CStringIs, Layout, ZeroBlock;
    if Named(s) {
      assert StyleOf(s) == StyleOf(t);
    }
  }

  lemma BareLength(s: State, t: State, v: nat)
    requires Near(s, t) && Want(s) == Length
    ensures match (TakeLength(s, v), TakeLength(t, v))
            case (Into(s'), Into(t')) => Bare(s') == Bare(t')
            case (Refuse, Refuse) => true
            case _ => false
  {
    hide Poke, CStringIs, Layout, ZeroBlock;
  }

  lemma NearStep(alias: Alias, s: State, t: State, b: seq<Byte>)
    requires Near(s, t) && StepOf(s, b) != Stop(Stray)
    ensures BareStep(StepOf(s, b), PassStep(Blind(alias), t, b))
  {
    hide ReadVarint, LittleEndian, Poke, CStringIs, Take, TakeLength;
    SameWant(s, t);
    BlindStep(alias, t, b);
    match Want(s)
    case Finished =>
    case Fixed(n) =>
      if n <= |b| {
        BareFixed(s, t, b[..n]);
      }
    case Length =>
      if ReadVarint(b).Read? {
        BareLength(s, t, ReadVarint(b).value);
      }
    case _ =>
  }

  lemma BeginsStep(s: State, b: seq<Byte>)
    requires Begins(s) && StepOf(s, b).Go?
    ensures Begins(StepOf(s, b).st)
  {
    hide StepOf, Layout, ZeroBlock;
    SettledStep(s, b);
    ArenaSizeKept(s, b);
    LayoutStep(s, b);
    ZeroStep(s, b);
  }

  lemma NamedArrival(s: State, b: seq<Byte>)
    requires Layout(s) && StepOf(s, b).Go? && Named(StepOf(s, b).st) && !Named(s)
    ensures s.stack == 4 && Want(s).Fetch?
  {
    hide ReadVarint, LittleEndian, Poke, CStringIs;
  }

  lemma SkimStyle(alias: Alias, t: State)
    requires Begins(t) && t.stack == 4 && Want(t).Fetch?
    ensures StyleOf(Skim(Blind(alias), t)) == StyleOfName(alias)
  {
    NameStyle(t, alias, 0);
  }

  lemma NearGoes(alias: Alias, s: State, t: State, b: seq<Byte>)
    requires Near(s, t) && StepOf(s, b).Go? && NamedLike(s, b, StyleOfName(alias))
    ensures PassStep(Blind(alias), t, b).Go? && PassStep(Blind(alias), t, b).rest == StepOf(s, b).rest
    ensures Near(StepOf(s, b).st, PassStep(Blind(alias), t, b).st)
  {
    hide StepOf, Layout, ZeroBlock, StyleOf, StyleOfName, PassStep, Begins;
    NearStep(alias, s, t, b);
    BeginsStep(s, b);
    BlindKeeps(alias, t, b);
    BlindStep(alias, t, b);
    SameWant(s, t);
    LayoutOf(s);
    LayoutOf(t);
    if Named(StepOf(s, b).st) {
      if Named(s) {
        StyleStep(s, b);
        StyleStep(t, b);
      } else {
        NamedArrival(s, b);
        SkimStyle(alias, t);
        BlindGoes(Blind(alias), t, b);
      }
    }
  }

  lemma LayoutOf(s: State)
    requires Begins(s)
    ensures Layout(s)
  {
  }

  lemma BlindGoes(l: Limit, t: State, b: seq<Byte>)
    requires StepBlind(l, t, b).Go?
    ensures StepBlind(l, t, b).st == Skim(l, t)
  {
  }

  /** On the same bytes, the parser and the blind pass with an alias of the right style end alike. */
  lemma {:induction false} Lockstep(alias: Alias, s: State, t: State, b: seq<Byte>)
    requires Near(s, t) && NamedLike(s, b, StyleOfName(alias)) && !Run(s, b).Stray?
    ensures BareEnd(Run(s, b), Pass(Blind(alias), t, b))
    decreases |b|, Rank(s)
  {
    hide StepOf, PassStep, Near, BareEnd, StyleOfName;
    if StepOf(s, b).Go? {
      NearGoes(alias, s, t, b);
      StepProgress(s, b);
      PassProgress(Blind(alias), t, b);
      Lockstep(alias, StepOf(s, b).st, PassStep(Blind(alias), t, b).st, StepOf(s, b).rest);
    } else {
      NearStep(alias, s, t, b);
    }
  }

  // ---------------------------------------------------------------- the name of a run

  lemma {:induction false} NamedPrefix(s: State, x: seq<Byte>, y: seq<Byte>, style: Style)
    requires Startable(s) && NamedLike(s, x + y, style)
    ensures NamedLike(s, x, style)
    decreases |x|, Rank(s)
  {
    hide StepOf;
    StepStable(s, x, y);
    if StepOf(s, x).Go? {
      StepProgress(s, x);
      SettledStep(s, x);
      ArenaSizeKept(s, x);
      NamedPrefix(StepOf(s, x).st, StepOf(s, x).rest, y, style);
    }
  }

  /** A field that is not complete names nothing. */
  lemma {:induction false} NamedBefore(s: State, b: seq<Byte>, style: Style)
    requires Startable(s) && NamedLike(s, b[..PendingAt(s, b)], style)
    ensures NamedLike(s, b, style)
    decreases |b|, Rank(s)
  {
    hide StepOf;
    if StepOf(s, b).Go? {
      StepProgress(s, b);
      SettledStep(s, b);
      ArenaSizeKept(s, b);
      StepPart(s, b, PendingAt(StepOf(s, b).st, StepOf(s, b).rest));
      NamedBefore(StepOf(s, b).st, StepOf(s, b).rest, style);
    }
  }

  lemma NamedView(init: State, w: View, chunk: seq<Byte>, style: Style)
    requires Begins(init) && NamedLike(init, NextView(init, w, chunk).bytes, style)
    ensures NamedLike(init, w.bytes, style)
  {
    hide NamedLike, Begins, NextView;
    BeginsStartable(init);
    var n, b := PendingAt(init, w.bytes), NextView(init, w, chunk).bytes;
    NextFront(init, w, chunk);
    if b == w.bytes + chunk {
      NamedPrefix(init, w.bytes, chunk, style);
    } else {
      assert b == w.bytes[..n] + b[n..];
      NamedPrefix(init, w.bytes[..n], b[n..], style);
      NamedBefore(init, w.bytes, style);
    }
  }

  /** Either the chunk is appended, or what is before the field being copied stays. */
  lemma NextFront(init: State, w: View, chunk: seq<Byte>)
    ensures var n, b := PendingAt(init, w.bytes), NextView(init, w, chunk).bytes;
            b == w.bytes + chunk || (n <= |b| && b[..n] == w.bytes[..n])
  {
    hide Run, Overlay, Size, PendingAt;
  }

  lemma {:induction false} NamedViews(init: State, w: View, chunks: seq<seq<Byte>>, style: Style)
    requires Begins(init) && NamedLike(init, ViewOf(init, w, chunks).bytes, style)
    ensures NamedLike(init, w.bytes, style)
    decreases |chunks|
  {
    hide NextView, NamedLike, Begins;
    if chunks != [] {
      NamedViews(init, NextView(init, w, chunks[0]), chunks[1..], style);
      NamedView(init, w, chunks[0], style);
    }
  }

  /** The style of the name completed on the way, if one is. */
  function RunStyle(s: State, b: seq<Byte>): Style
    decreases |b|, Rank(s)
  {
    if StepOf(s, b).Go? then
      StepProgress(s, b);
      if s.stack == 4 && Want(s).Fetch? then StyleOf(StepOf(s, b).st)
      else RunStyle(StepOf(s, b).st, StepOf(s, b).rest)
    else Style.Other
  }

  predicate PastName(s: State) { s.stack >= 5 || Named(s) }

  lemma PastStep(s: State, b: seq<Byte>)
    requires PastName(s) && StepOf(s, b).Go?
    ensures PastName(StepOf(s, b).st)
  {
    hide ReadVarint, LittleEndian, Poke, CStringIs;
  }

  lemma NameTaken(s: State, b: seq<Byte>)
    requires s.stack == 4 && Want(s).Fetch? && StepOf(s, b).Go?
    ensures PastName(StepOf(s, b).st)
  {
  }

  lemma {:induction false} NoOtherName(s: State, b: seq<Byte>, style: Style)
    requires PastName(s)
    ensures NamedLike(s, b, style)
    decreases |b|, Rank(s)
  {
    hide StepOf;
    if StepOf(s, b).Go? {
      StepProgress(s, b);
      PastStep(s, b);
      PastFetch(s);
      NoOtherName(StepOf(s, b).st, StepOf(s, b).rest, style);
    }
  }

  lemma PastFetch(s: State)
    requires PastName(s)
    ensures s.stack == 4 ==> !Want(s).Fetch?
  {
  }

  lemma {:induction false} NamedByRun(s: State, b: seq<Byte>)
    ensures NamedLike(s, b, RunStyle(s, b))
    decreases |b|, Rank(s)
  {
    hide StepOf;
    if StepOf(s, b).Go? {
      StepProgress(s, b);
      if s.stack == 4 && Want(s).Fetch? {
        NameTaken(s, b);
        NoOtherName(StepOf(s, b).st, StepOf(s, b).rest, RunStyle(s, b));
      } else {
        NamedByRun(StepOf(s, b).st, StepOf(s, b).rest);
      }
    }
  }

  /** A name of each style. */
  function AliasOf(style: Style): Alias {
    match style
    case Transfer => TRANSFER
    case TransferFrom => TRANSFER_FROM
    case Other => []
  }

  lemma AliasStyle(style: Style)
    ensures StyleOfName(AliasOf(style)) == style
  {
    assert (TRANSFER + Zeros(40))[0..8] == TRANSFER && (TRANSFER + Zeros(40))[8] == 0;
    assert (TRANSFER_FROM + Zeros(40))[0..12] == TRANSFER_FROM && (TRANSFER_FROM + Zeros(40))[12] == 0;
    assert (TRANSFER_FROM + Zeros(40))[8] != 0;
    assert ([] + Zeros(40))[0] == 0 && ([] + Zeros(40))[0..8][0] == 0 && ([] + Zeros(40))[0..12][0] == 0;
  }

  // ---------------------------------------------------------------- the bytes hashed and the bytes shown

  lemma NearItself(s: State)
    requires Begins(s)
    ensures Near(s, s)
  {
  }

  lemma BlindLaying(l: Limit, t: State, lack: nat, chunk: seq<Byte>, m: nat, shown: seq<Byte>)
    requires m == Min(lack, |chunk|)
    ensures BlindPayload(l, t, |shown| + (lack - m), shown + chunk[m..]) == BlindPayload(l, t, lack, chunk)
  {
    var z := shown + chunk[m..];
    if m == lack {
      assert z[|shown|..] == chunk[m..];
    }
  }

  lemma BlindReads(l: Limit, t: State, b: seq<Byte>, v: nat, p: seq<Byte>)
    requires Want(t).Fetch? && Announces(b, v, p) && l.blind
    ensures PassStep(l, t, b) == BlindPayload(l, t, v % SIZE_T, p)
  {
  }

  lemma SamePassStep(l: Limit, t: State, a: seq<Byte>, b: seq<Byte>)
    requires PassStep(l, t, a) == PassStep(l, t, b)
    ensures Pass(l, t, a) == Pass(l, t, b)
  {
  }

  /** With the next chunk the two still end alike. */
  lemma TwinStep(alias: Alias, init: State, w: View, p: seq<Byte>, chunk: seq<Byte>)
    requires Begins(init) && Pass(Blind(alias), init, w.bytes) == Pass(Blind(alias), init, p)
    requires NamedLike(init, w.bytes, StyleOfName(alias))
    ensures Pass(Blind(alias), init, NextView(init, w, chunk).bytes) == Pass(Blind(alias), init, p + chunk)
  {
    hide Pass, NamedLike, StyleOfName, Begins;
    BlindResume(alias, init, p, chunk);
    var tail := w.bytes[PendingAt(init, w.bytes)..][Width(w.bytes[PendingAt(init, w.bytes)..])..];
    if InField(Run(init, w.bytes)) && w.last <= |tail| {
      TwinInField(alias, init, w, p, chunk);
    } else {
      BlindResume(alias, init, w.bytes, chunk);
    }
  }

  lemma TwinInField(alias: Alias, init: State, w: View, p: seq<Byte>, chunk: seq<Byte>)
    requires Begins(init) && Pass(Blind(alias), init, w.bytes) == Pass(Blind(alias), init, p)
    requires NamedLike(init, w.bytes, StyleOfName(alias))
    requires InField(Run(init, w.bytes))
    requires w.last <= |w.bytes[PendingAt(init, w.bytes)..]| - Width(w.bytes[PendingAt(init, w.bytes)..])
    ensures Pass(Blind(alias), init, NextView(init, w, chunk).bytes) == Pass(Blind(alias), init, p + chunk)
  {
    hide Pass, NamedLike, StyleOfName, Overlay, Size, StepOf, InFieldOf, Layout, ZeroBlock;
    var e, n := Run(init, w.bytes), PendingAt(init, w.bytes);
    var head, x := w.bytes[..n], w.bytes[n..];
    PendingField(init, w.bytes);
    assert head + x == w.bytes;
    FieldAwaited(Run(init, head).st, x, e);
    BlindAtField(alias, init, head, x);
    var m := Min(e.lack, |chunk|);
    var shown := Overlay(x[Width(x)..], w.last, chunk[..m]);
    assert NextView(init, w, chunk).bytes
        == head + Size(x, |shown|, e.lack - m, |x| - Width(x) + m) + shown + chunk[m..];
    TwinLaying(alias, init, head, Run(init, head).st, x, e, w.last, p, chunk, m, shown);
  }

  lemma FieldAwaited(s: State, x: seq<Byte>, e: Ending)
    requires InFieldOf(s, x, e)
    ensures Want(s).Fetch?
  {
  }

  /** Where the parser waits for the bytes of a field the blind pass waits, too. */
  lemma BlindAtField(alias: Alias, init: State, head: seq<Byte>, x: seq<Byte>)
    requires Begins(init) && NamedLike(init, head + x, StyleOfName(alias))
    requires var e := Run(init, head); e.ShortLength? && e.rest == [] && Want(e.st).Fetch?
    ensures var e := Pass(Blind(alias), init, head);
            e.ShortLength? && e.rest == [] && Want(e.st).Fetch? && Begins(e.st)
  {
    hide NamedLike, StyleOfName, Pass, Begins;
    NamedPrefix(init, head, x, StyleOfName(alias)) by { BeginsStartable(init); }
    NearItself(init);
    Lockstep(alias, init, init, head);
    SameWant(Run(init, head).st, Pass(Blind(alias), init, head).st);
    BlindResume(alias, init, head, []);
  }

  lemma TwinLaying(alias: Alias, init: State, head: seq<Byte>, s: State, x: seq<Byte>, e: Ending, off: nat,
                   p: seq<Byte>, chunk: seq<Byte>, m: nat, shown: seq<Byte>)
    requires Begins(init) && Laying(s, x, e, off, chunk, m, shown)
    requires Pass(Blind(alias), init, head + x) == Pass(Blind(alias), init, p)
    requires var f := Pass(Blind(alias), init, head);
             f.ShortLength? && f.rest == [] && Want(f.st).Fetch? && Begins(f.st)
    ensures Pass(Blind(alias), init,
                 head + Size(x, |shown|, e.lack - m, |x| - Width(x) + m) + shown + chunk[m..])
         == Pass(Blind(alias), init, p + chunk)
  {
    hide Pass, Size, Begins;
    var size := Size(x, |shown|, e.lack - m, |x| - Width(x) + m);
    var t := Pass(Blind(alias), init, head).st;
    TwinWaits(alias, init, head, s, x, e, off, chunk, m, shown);
    var v := SizeOfLaying(s, x, e, off, chunk, m, shown);
    LayingFacts(s, x, e, off, chunk, m, shown);
    hide Laying;
    TwinField(alias, init, head, t, e.lack, p, chunk, m, size, shown, v);
  }

  lemma TwinWaits(alias: Alias, init: State, head: seq<Byte>, s: State, x: seq<Byte>, e: Ending, off: nat,
                  chunk: seq<Byte>, m: nat, shown: seq<Byte>)
    requires Begins(init) && Laying(s, x, e, off, chunk, m, shown)
    requires var f := Pass(Blind(alias), init, head); f.ShortLength? && f.rest == [] && Want(f.st).Fetch?
    ensures Pass(Blind(alias), init, head + x) == ShortValue(Pass(Blind(alias), init, head).st, e.lack)
  {
    LayingFacts(s, x, e, off, chunk, m, shown);
    var k, v, lack := Width(x), ReadVarint(x).value, e.lack;
    hide *;
    TwinBefore(alias, init, head, x, v, |x| - k + lack, k);
  }

  lemma SizeOfLaying(s: State, x: seq<Byte>, e: Ending, off: nat, chunk: seq<Byte>, m: nat, shown: seq<Byte>)
    returns (v: nat)
    requires Laying(s, x, e, off, chunk, m, shown)
    ensures |x| >= Width(x) && e.ShortValue? && m <= e.lack && m <= |chunk|
    ensures var z := shown + chunk[m..];
            && Announces(Size(x, |shown|, e.lack - m, |x| - Width(x) + m) + z, v, z)
            && v % SIZE_T == |shown| + (e.lack - m)
  {
    LayingFacts(s, x, e, off, chunk, m, shown);
    hide Laying, Size;
    v := SizeAnnounces(x, |shown|, e.lack - m, |x| - Width(x) + m, shown + chunk[m..]);
  }

  lemma TwinField(alias: Alias, init: State, head: seq<Byte>, t: State, lack: nat, p: seq<Byte>, chunk: seq<Byte>,
                  m: nat, size: seq<Byte>, shown: seq<Byte>, v: nat)
    requires Begins(init) && 0 < lack < SIZE_T && m == Min(lack, |chunk|) && m <= lack && m <= |chunk|
    requires Pass(Blind(alias), init, head) == ShortLength(t, []) && Want(t).Fetch?
    requires Pass(Blind(alias), init, p) == ShortValue(t, lack)
    requires Announces(size + (shown + chunk[m..]), v, shown + chunk[m..]) && v % SIZE_T == |shown| + (lack - m)
    ensures Pass(Blind(alias), init, head + size + shown + chunk[m..]) == Pass(Blind(alias), init, p + chunk)
  {
    hide *;
    TwinHashed(alias, init, p, t, lack, chunk);
    TwinShown(alias, init, head, t, size, shown, chunk[m..]);
    BlindIsBlind(alias);
    TwinPayload(Blind(alias), t, size + (shown + chunk[m..]), v, lack, chunk, m, shown);
  }

  lemma TwinHashed(alias: Alias, init: State, p: seq<Byte>, t: State, lack: nat, chunk: seq<Byte>)
    requires Begins(init) && Pass(Blind(alias), init, p) == ShortValue(t, lack)
    ensures Pass(Blind(alias), init, p + chunk) == Pass(Blind(alias), t, WriteVarint(lack) + chunk)
  {
    hide *;
    BlindResume(alias, init, p, chunk);
  }

  lemma TwinShown(alias: Alias, init: State, head: seq<Byte>, t: State, size: seq<Byte>, shown: seq<Byte>,
                  rest: seq<Byte>)
    requires Begins(init) && Pass(Blind(alias), init, head) == ShortLength(t, [])
    ensures Pass(Blind(alias), init, head + size + shown + rest) == Pass(Blind(alias), t, size + (shown + rest))
  {
    hide *;
    assert head + size + shown + rest == head + (size + (shown + rest));
    BlindResume(alias, init, head, size + (shown + rest));
    assert [] + (size + (shown + rest)) == size + (shown + rest);
  }

  /** Before the chunk the blind pass waits for the bytes that the field misses. */
  lemma TwinBefore(alias: Alias, init: State, head: seq<Byte>, x: seq<Byte>, v: nat, n: nat, k: nat)
    requires Begins(init) && k <= |x| && Announces(x, v, x[k..]) && v % SIZE_T == n > |x| - k
    requires var f := Pass(Blind(alias), init, head); f.ShortLength? && f.rest == [] && Want(f.st).Fetch?
    ensures var t := Pass(Blind(alias), init, head).st;
            Pass(Blind(alias), init, head + x) == ShortValue(t, n - (|x| - k))
  {
    var l, t := Blind(alias), Pass(Blind(alias), init, head).st;
    hide *;
    BlindIsBlind(alias);
    BlindResume(alias, init, head, x);
    assert [] + x == x;
    BlindReads(l, t, x, v, x[k..]);
    BlindShort(l, t, n, x[k..]);
    PassStops(l, t, x);
  }

  lemma BlindIsBlind(alias: Alias)
    ensures Blind(alias).blind
  {
  }

  /** With the chunk it goes on from both alike. */
  lemma TwinPayload(l: Limit, t: State, b: seq<Byte>, v: nat, lack: nat, chunk: seq<Byte>, m: nat, shown: seq<Byte>)
    requires Want(t).Fetch? && l.blind && m == Min(lack, |chunk|) && 0 < lack < SIZE_T
    requires Announces(b, v, shown + chunk[m..]) && v % SIZE_T == |shown| + (lack - m)
    ensures Pass(l, t, b) == Pass(l, t, WriteVarint(lack) + chunk)
  {
    BlindLaying(l, t, lack, chunk, m, shown);
    hide *;
    BlindReads(l, t, b, v, shown + chunk[m..]);
    WrittenAnnounces(lack, chunk);
    SmallModulus(lack);
    BlindReads(l, t, WriteVarint(lack) + chunk, lack, chunk);
    SamePassStep(l, t, b, WriteVarint(lack) + chunk);
  }

  lemma BlindShort(l: Limit, t: State, n: nat, p: seq<Byte>)
    ensures |p| < n ==> BlindPayload(l, t, n, p) == Stop(ShortValue(t, n - |p|))
  {
  }

  lemma LayingFacts(s: State, x: seq<Byte>, e: Ending, off: nat, chunk: seq<Byte>, m: nat, shown: seq<Byte>)
    requires Laying(s, x, e, off, chunk, m, shown)
    ensures var k := Width(x);
            && Announces(x, ReadVarint(x).value, x[k..]) && ReadVarint(x).Read?
            && ReadVarint(x).value % SIZE_T == |x| - k + e.lack && e.ShortValue? && 0 < e.lack < SIZE_T
            && k <= |x| && m == Min(e.lack, |chunk|) && m <= e.lack && m <= |chunk| && |shown| <= |x| - k + m
  {
    hide Overlay;
    ReachBound(|x| - Width(x), off, m);
  }

  lemma PassStops(l: Limit, t: State, b: seq<Byte>)
    ensures PassStep(l, t, b).Stop? ==> Pass(l, t, b) == PassStep(l, t, b).end
  {
  }

  lemma {:induction false} Twins(alias: Alias, init: State, w: View, p: seq<Byte>, chunks: seq<seq<Byte>>)
    requires Begins(init) && Pass(Blind(alias), init, w.bytes) == Pass(Blind(alias), init, p)
    requires NamedLike(init, ViewOf(init, w, chunks).bytes, StyleOfName(alias))
    ensures Pass(Blind(alias), init, ViewOf(init, w, chunks).bytes) == Pass(Blind(alias), init, p + Concat(chunks))
    decreases |chunks|
  {
    hide Pass, NamedLike, StyleOfName, NextView, Begins;
    if chunks == [] {
      assert p + [] == p;
    } else {
      NamedViews(init, w, chunks, StyleOfName(alias));
      TwinStep(alias, init, w, p, chunks[0]);
      ConcatStep(p, chunks);
      Twins(alias, init, NextView(init, w, chunks[0]), p + chunks[0], chunks[1..]);
    }
  }
}
