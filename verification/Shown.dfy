/**
 Any cutting, any type: a chunked run is one pass over the bytes it shows, in which every copied field that came in
 pieces stands as its block shows it.  Up to the 40 bytes of the block that is a field of the same length; of a longer
 one it is what the pieces reach.
 */
module Shown {
  import opened Bytes
  import opened Varint
  import opened TxMachine
  import opened Resume
  import opened Chunks
  import opened Budget
  import opened Buffering
  import opened Cutting
  import opened Forgetful
  import Pieces

  const BLOCK := 40

  // ---------------------------------------------------------------- the bytes shown

  /** Where in `b` the field begins at which the run stops. */
  function PendingAt(s: State, b: seq<Byte>): (n: nat)
    ensures n <= |b|
    decreases |b|, Rank(s)
  {
    if StepOf(s, b).Go? then
      StepProgress(s, b);
      |b| - |StepOf(s, b).rest| + PendingAt(StepOf(s, b).st, StepOf(s, b).rest)
    else 0
  }

  /** The bytes shown so far, and the length of the last piece of a field that is still being copied. */
  datatype View = View(bytes: seq<Byte>, last: nat)

  /** A copied field of which a piece is there. */
  predicate InField(e: Ending) { e.ShortValue? && OffOf(e.st) > 0 }

  function LastOf(e: Ending): nat { if e.ShortValue? then OffOf(e.st) else 0 }

  function Max(a: nat, b: nat): nat { if a < b then b else a }

  /** How many bytes of a field are shown when `m` more are laid at `off` behind the `t` that are. */
  function Reach(t: nat, off: nat, m: nat): nat {
    if t + m <= BLOCK then t + m else Max(t, Max(off + m, BLOCK))
  }

  /** The bytes of a field when the piece `d` is laid at `off`. */
  function Overlay(tail: seq<Byte>, off: nat, d: seq<Byte>): (shown: seq<Byte>)
    requires off <= |tail|
    ensures |shown| == Reach(|tail|, off, |d|) >= |tail|
  {
    Poke(tail + Zeros(Reach(|tail|, off, |d|) - |tail|), off, d)
  }

  /** The length of a varint at the head of `x`. */
  function Width(x: seq<Byte>): (k: nat)
    ensures k <= |x|
  {
    match ReadVarint(x)
    case Short => 0
    case Read(_, k) => k
  }

  /** The length of the field: as it was, unless less of it is shown. */
  function Size(x: seq<Byte>, shown: nat, missing: nat, whole: nat): seq<Byte> {
    if shown == whole then x[..Width(x)] else WriteVarint(shown + missing)
  }

  function NextView(init: State, w: View, chunk: seq<Byte>): View {
    var e := Run(init, w.bytes);
    var n := PendingAt(init, w.bytes);
    var x := w.bytes[n..];
    var tail := x[Width(x)..];
    if InField(e) && w.last <= |tail| then
      var m := Min(e.lack, |chunk|);
      var shown := Overlay(tail, w.last, chunk[..m]);
      var bytes := w.bytes[..n] + Size(x, |shown|, e.lack - m, |tail| + m) + shown + chunk[m..];
      View(bytes, if m < e.lack then |chunk| else LastOf(Run(init, bytes)))
    else
      View(w.bytes + chunk, LastOf(Run(init, w.bytes + chunk)))
  }

  function ViewOf(init: State, w: View, chunks: seq<seq<Byte>>): View
    decreases |chunks|
  {
    if chunks == [] then w else ViewOf(init, NextView(init, w, chunks[0]), chunks[1..])
  }

  // ---------------------------------------------------------------- a field in the middle of a pass

  /** A block that is about to be copied to is zero. */
  predicate ZeroBlock(s: State) {
    Want(s).Fetch? ==>
      var at := Want(s).at;
      at + BLOCK <= |s.arena.mem| && s.arena.mem[at..at + BLOCK] == Zeros(BLOCK)
  }

  lemma ZeroStep(s: State, b: seq<Byte>)
    requires Layout(s) && StepOf(s, b).Go?
    ensures ZeroBlock(StepOf(s, b).st)
  {
    if s.stack == 4 {
      ZeroCall(s, b);
    } else {
      ZeroCoin(s, b);
    }
  }

  lemma ZeroCall(s: State, b: seq<Byte>)
    requires Layout(s) && s.stack == 4 && StepOf(s, b).Go?
    ensures ZeroBlock(StepOf(s, b).st)
  {
    hide ReadVarint, LittleEndian, CStringIs;
  }

  lemma ZeroCoin(s: State, b: seq<Byte>)
    requires Layout(s) && s.stack != 4 && StepOf(s, b).Go?
    ensures ZeroBlock(StepOf(s, b).st)
  {
    hide ReadVarint, LittleEndian, CStringIs;
  }

  /** The state `s` before the field, and what was read of it. */
  predicate InFieldOf(s: State, x: seq<Byte>, e: Ending) {
    var k := Width(x);
    && Settled(s) && |s.arena.mem| == ARENA_SIZE && Want(s).Fetch? && ZeroBlock(s)
    && ReadVarint(x).Read? && e.ShortValue? && 0 < e.lack < SIZE_T
    && ReadVarint(x).value % SIZE_T == |x| - k + e.lack
    && Want(s).at + (|x| - k) <= ARENA_SIZE
    && e.st == SetOff(Store(s, Want(s).at, x[k..]), |x| - k)
  }

  lemma {:induction false} PendingField(s: State, b: seq<Byte>)
    requires Startable(s) && Layout(s) && ZeroBlock(s) && InField(Run(s, b))
    ensures var n := PendingAt(s, b);
            var e := Run(s, b[..n]);
            && e.ShortLength? && e.rest == []
            && InFieldOf(e.st, b[n..], Run(s, b))
    decreases |b|, Rank(s)
  {
    hide StepOf, Layout, ZeroBlock, InFieldOf;
    if StepOf(s, b).Go? {
      var f := StepOf(s, b);
      StepProgress(s, b);
      SettledStep(s, b);
      ArenaSizeKept(s, b);
      LayoutStep(s, b);
      ZeroStep(s, b);
      PendingField(f.st, f.rest);
      var n := PendingAt(f.st, f.rest);
      var k := |b| - |f.rest|;
      RestIsTail(s, b);
      StepPart(s, b, n);
      GoesOn(s, b);
      GoesOn(s, b[..k + n]);
      assert b[k + n..] == f.rest[n..];
    } else {
      AtField(s, b);
    }
  }

  /** A step goes the same way when fewer bytes follow. */
  lemma StepPart(s: State, b: seq<Byte>, n: nat)
    requires Settled(s) && StepOf(s, b).Go? && n <= |StepOf(s, b).rest|
    ensures |StepOf(s, b).rest| <= |b|
    ensures StepOf(s, b[..|b| - |StepOf(s, b).rest| + n]) == Go(StepOf(s, b).st, StepOf(s, b).rest[..n])
  {
    hide StepOf;
    StepFront(s, b);
    RestIsTail(s, b);
    var k, rest := |b| - |StepOf(s, b).rest|, StepOf(s, b).rest;
    StepStable(s, b[..k], rest[..n]);
    assert b[..k + n] == b[..k] + rest[..n];
    assert [] + rest[..n] == rest[..n];
  }

  lemma AtField(s: State, b: seq<Byte>)
    requires Startable(s) && ZeroBlock(s) && StepOf(s, b).Stop? && InField(StepOf(s, b).end)
    ensures Run(s, []) == ShortLength(s, []) && InFieldOf(s, b, StepOf(s, b).end)
  {
    hide Poke, ZeroBlock, LittleEndian, WriteVarint;
    ValueMissing(s, b);
    if Want(s).Fetch? {
      FetchStart(s);
      var r := ReadVarint(b);
      FetchShort(s, Want(s).at, r.value % SIZE_T, b[r.size..]);
      SameStart(s);
    }
  }

  lemma SameStart(s: State)
    requires Settled(s) && Want(s).Fetch?
    ensures SetOff(s, 0) == s
  {
  }

  // ---------------------------------------------------------------- one piece

  /** Laying a piece over a field in its zeroed block leaves in memory what the field so shown leaves. */
  lemma OverlayMem(mem: seq<Byte>, at: nat, tail: seq<Byte>, off: nat, d: seq<Byte>)
    requires at + |tail| <= |mem| && at + BLOCK <= |mem| && mem[at..at + BLOCK] == Zeros(BLOCK) && off <= |tail|
    ensures var shown := Overlay(tail, off, d);
            && (at + off + |d| <= |mem| <==> at + |shown| <= |mem|)
            && (at + |shown| <= |mem| ==> Poke(Poke(mem, at, tail), at + off, d) == Poke(mem, at, shown))
  {
    var shown := Overlay(tail, off, d);
    if at + |shown| <= |mem| {
      var m, k := Poke(Poke(mem, at, tail), at + off, d), Poke(mem, at, shown);
      forall i | 0 <= i < |mem|
        ensures m[i] == k[i]
      {
        ZeroAt(mem, at, i);
        OverlayByte(mem, at, tail, off, d, i);
      }
    }
  }

  lemma OverlayByte(mem: seq<Byte>, at: nat, tail: seq<Byte>, off: nat, d: seq<Byte>, i: nat)
    requires at + |tail| <= |mem| && i < |mem| && (at <= i < at + BLOCK ==> mem[i] == 0) && off <= |tail|
    requires at + |Overlay(tail, off, d)| <= |mem| && at + off + |d| <= |mem|
    ensures Poke(Poke(mem, at, tail), at + off, d)[i] == Poke(mem, at, Overlay(tail, off, d))[i]
  {
    hide Poke, Overlay, Reach;
    PokeAt(mem, at, Overlay(tail, off, d), i);
    PokeAt(mem, at, tail, i);
    PokeAt(Poke(mem, at, tail), at + off, d, i);
    if at <= i < at + |Overlay(tail, off, d)| {
      ShownByte(tail, off, d, i - at);
    } else {
      OverlayLength(tail, off, d);
    }
  }

  lemma OverlayLength(tail: seq<Byte>, off: nat, d: seq<Byte>)
    requires off <= |tail|
    ensures |Overlay(tail, off, d)| >= |tail| && |Overlay(tail, off, d)| >= off + |d|
  {
  }

  lemma ZeroAt(mem: seq<Byte>, at: nat, i: nat)
    requires at + BLOCK <= |mem| && mem[at..at + BLOCK] == Zeros(BLOCK)
    ensures at <= i < at + BLOCK ==> mem[i] == 0
  {
    if at <= i < at + BLOCK {
      assert mem[at..at + BLOCK][i - at] == mem[i];
    }
  }

  /** A byte of the field is that of the piece, else what was there; behind that it is zero, and in the block. */
  lemma ShownByte(tail: seq<Byte>, off: nat, d: seq<Byte>, j: nat)
    requires off <= |tail| && j < |Overlay(tail, off, d)|
    ensures Overlay(tail, off, d)[j] == if off <= j < off + |d| then d[j - off] else if j < |tail| then tail[j] else 0
    ensures !(off <= j < off + |d|) && j >= |tail| ==> j < BLOCK
  {
    hide Poke;
    PokeAt(tail + Zeros(|Overlay(tail, off, d)| - |tail|), off, d, j);
  }

  lemma PokeAt(mem: seq<Byte>, at: nat, d: seq<Byte>, i: nat)
    requires at + |d| <= |mem| && i < |mem|
    ensures Poke(mem, at, d)[i] == if at <= i < at + |d| then d[i - at] else mem[i]
  {
  }

  lemma SizeAnnounces(x: seq<Byte>, shown: nat, missing: nat, whole: nat, z: seq<Byte>) returns (v: nat)
    requires ReadVarint(x).Read? && ReadVarint(x).value % SIZE_T == whole + missing && shown <= whole
    ensures Announces(Size(x, shown, missing, whole) + z, v, z) && v % SIZE_T == shown + missing
  {
    if shown == whole {
      v := ReadVarint(x).value;
      var k := Width(x);
      VarintFront(x, k);
      Stable(x[..k], z);
      assert (x[..k] + z)[k..] == z;
    } else {
      v := shown + missing;
      WrittenAnnounces(v, z);
      SmallModulus(v);
    }
  }

  /** The bytes of a field with the next piece laid over it, and how many are missing then. */
  predicate Laying(s: State, x: seq<Byte>, e: Ending, off: nat, chunk: seq<Byte>, m: nat, shown: seq<Byte>) {
    && InFieldOf(s, x, e) && off <= |x| - Width(x) && m == Min(e.lack, |chunk|)
    && shown == Overlay(x[Width(x)..], off, chunk[..m])
  }

  lemma CutPayload(s: State, x: seq<Byte>, e: Ending, off: nat, chunk: seq<Byte>, m: nat, shown: seq<Byte>)
    requires Laying(s, x, e, off, chunk, m, shown)
    ensures var at := Want(s).at;
            var end := Store(s, at, shown);
            StepOf(SetOff(e.st, off), WriteVarint(e.lack) + chunk) ==
              if at + |shown| > ARENA_SIZE then Stop(Stray)
              else if m < e.lack then Stop(ShortValue(SetOff(end, |chunk|), e.lack - m))
              else Go(Fetched(end), chunk[m..])
  {
    hide StepOf, Poke, WriteVarint, Overlay;
    var at, tail, st := Want(s).at, x[Width(x)..], SetOff(e.st, off);
    var k := |tail|;
    StillFetching(s, at, tail, k);
    StillFetching(s, at, tail, off);
    assert st == SetOff(Store(s, at, tail), off);
    WrittenAnnounces(e.lack, chunk);
    StepsToFetch(st, WriteVarint(e.lack) + chunk, e.lack, chunk);
    SmallModulus(e.lack);
    BlockAt(s);
    OverlayMem(s.arena.mem, at, tail, off, chunk[..m]);
    PayloadOf(st, at, off, e.lack, chunk, m);
    if at + |shown| <= ARENA_SIZE {
      SameBehind(s, at, tail, off, chunk[..m], shown);
    }
  }

  lemma BlockAt(s: State)
    requires ZeroBlock(s) && Want(s).Fetch?
    ensures Want(s).at + BLOCK <= |s.arena.mem|
    ensures s.arena.mem[Want(s).at..Want(s).at + BLOCK] == Zeros(BLOCK)
  {
  }

  lemma PayloadOf(s: State, at: nat, off: nat, n: nat, p: seq<Byte>, m: nat)
    requires m == Min(n, |p|)
    ensures FetchPayload(s, at, off, n, p) ==
              if at + off + m > ARENA_SIZE then Stop(Stray)
              else if m < n then Stop(ShortValue(SetOff(Store(s, at + off, p[..m]), |p|), n - m))
              else Go(Fetched(Store(s, at + off, p[..m])), p[m..])
  {
  }

  lemma SameBehind(s: State, at: nat, tail: seq<Byte>, off: nat, d: seq<Byte>, shown: seq<Byte>)
    requires Poke(Poke(s.arena.mem, at, tail), at + off, d) == Poke(s.arena.mem, at, shown)
    ensures var cut := Store(SetOff(Store(s, at, tail), off), at + off, d);
            && Fetched(cut) == Fetched(Store(s, at, shown))
            && forall n :: SetOff(cut, n) == SetOff(Store(s, at, shown), n)
  {
  }

  lemma ShownPayload(s: State, x: seq<Byte>, e: Ending, off: nat, chunk: seq<Byte>, m: nat, shown: seq<Byte>)
    requires Laying(s, x, e, off, chunk, m, shown)
    ensures var at := Want(s).at;
            var end := Store(s, at, shown);
            StepOf(s, Size(x, |shown|, e.lack - m, |x| - Width(x) + m) + shown + chunk[m..]) ==
              if at + |shown| > ARENA_SIZE then Stop(Stray)
              else if m < e.lack then Stop(ShortValue(SetOff(end, |shown|), e.lack - m))
              else Go(Fetched(end), chunk[m..])
  {
    hide StepOf, Poke, WriteVarint, Overlay, Size, ZeroBlock;
    var size := Size(x, |shown|, e.lack - m, |x| - Width(x) + m);
    ReachBound(|x| - Width(x), off, m);
    FetchStart(s);
    var v := SizeAnnounces(x, |shown|, e.lack - m, |x| - Width(x) + m, shown + chunk[m..]);
    WholePayload(s, size, v, shown, chunk[m..], e.lack - m);
  }

  /** A field at the start of its block, of which `missing` bytes are missing. */
  lemma WholePayload(s: State, size: seq<Byte>, v: nat, shown: seq<Byte>, rest: seq<Byte>, missing: nat)
    requires Want(s).Fetch? && Want(s).off == 0 && (missing > 0 ==> rest == [])
    requires Announces(size + (shown + rest), v, shown + rest) && v % SIZE_T == |shown| + missing
    ensures var at := Want(s).at;
            var end := Store(s, at, shown);
            StepOf(s, size + shown + rest) ==
              if at + |shown| > ARENA_SIZE then Stop(Stray)
              else if missing > 0 then Stop(ShortValue(SetOff(end, |shown|), missing))
              else Go(Fetched(end), rest)
  {
    hide StepOf, Store, SetOff, Fetched, Announces;
    var z := shown + rest;
    assert size + shown + rest == size + z;
    StepsToFetch(s, size + z, v, z);
    PayloadOf(s, Want(s).at, 0, |shown| + missing, z, |shown|);
    assert z[..|shown|] == shown && z[|shown|..] == rest;
  }

  lemma ReachBound(t: nat, off: nat, m: nat)
    requires off <= t
    ensures t <= Reach(t, off, m) <= t + m && m <= Reach(t, off, m)
  {
  }

  // ---------------------------------------------------------------- one chunk

  /** A state in which a session can begin. */
  predicate Begins(init: State) { Startable(init) && Layout(init) && ZeroBlock(init) }

  /** The session stands where one pass over the bytes shown stands, but for the place of the next piece. */
  predicate Follows(h: Session, init: State, w: View) {
    var e := Run(init, w.bytes);
    && Short?(e) && Left(e) == h.raw
    && if InField(e) then w.last <= OffOf(e.st) && h.st == SetOff(e.st, w.last) else h.st == e.st
  }

  predicate EndFollows(r: Ending, e: Ending, last: nat) {
    if InField(e) then r.ShortValue? && r.lack == e.lack && last <= OffOf(e.st) && r.st == SetOff(e.st, last)
    else r == e
  }

  lemma OffOfField(s: State, x: seq<Byte>, e: Ending)
    requires InFieldOf(s, x, e)
    ensures OffOf(e.st) == |x| - Width(x)
  {
    StillFetching(s, Want(s).at, x[Width(x)..], |x| - Width(x));
  }

  /** The next chunk, when a copied field is cut. */
  lemma ViewInField(h: Session, init: State, w: View, chunk: seq<Byte>)
    requires Begins(init) && Follows(h, init, w) && InField(Run(init, w.bytes))
    ensures var w' := NextView(init, w, chunk);
            EndFollows(Run(h.st, h.raw + chunk), Run(init, w'.bytes), w'.last)
  {
    hide StepOf, Poke, WriteVarint, Overlay, Size, Layout, ZeroBlock, Reach;
    var e, n := Run(init, w.bytes), PendingAt(init, w.bytes);
    PendingField(init, w.bytes);
    var s, x := Run(init, w.bytes[..n]).st, w.bytes[n..];
    OffOfField(s, x, e);
    var m := Min(e.lack, |chunk|);
    var shown := Overlay(x[Width(x)..], w.last, chunk[..m]);
    CutPayload(s, x, e, w.last, chunk, m, shown);
    ShownPayload(s, x, e, w.last, chunk, m, shown);
    var z := Size(x, |shown|, e.lack - m, |x| - Width(x) + m) + shown + chunk[m..];
    var w' := NextView(init, w, chunk);
    assert w'.bytes == w.bytes[..n] + z;
    Resume.Resume(init, w.bytes[..n], z);
    assert [] + z == z;
    GoesOn(s, z);
    GoesOn(h.st, h.raw + chunk);
    ReachBound(|x| - Width(x), w.last, m);
    StillFetching(s, Want(s).at, shown, |shown|);
    if m < e.lack {
      assert m == |chunk|;
      SetTwice(Store(s, Want(s).at, shown), |shown|, |chunk|);
    }
  }

  lemma SetTwice(s: State, a: nat, b: nat)
    ensures SetOff(SetOff(s, a), b) == SetOff(s, b)
  {
  }

  lemma ViewStep(h: Session, init: State, w: View, chunk: seq<Byte>)
    requires Begins(init) && Follows(h, init, w)
    ensures var w' := NextView(init, w, chunk);
            EndFollows(Run(h.st, h.raw + chunk), Run(init, w'.bytes), w'.last)
  {
    var e := Run(init, w.bytes);
    if InField(e) {
      ViewInField(h, init, w, chunk);
    } else {
      hide Layout, ZeroBlock;
      NoOffset(init, w.bytes);
      OnePassContinues(Session(h.raw, h.st, w.bytes), init, w.bytes, chunk);
      var e' := Run(init, w.bytes + chunk);
      if InField(e') {
        SameOff(e'.st);
      }
    }
  }

  lemma NoOffset(init: State, b: seq<Byte>)
    requires Startable(init) && Short?(Run(init, b)) && !InField(Run(init, b))
    ensures OffOf(Run(init, b).st) == 0
  {
    Resume.Resume(init, b, []);
  }

  lemma SameOff(s: State)
    ensures SetOff(s, OffOf(s)) == s
  {
  }

  lemma FollowsStep(h: Session, init: State, w: View, chunk: seq<Byte>)
    requires Begins(init) && Follows(h, init, w) && Feed(h, chunk, true).reply == SwOk
    ensures Follows(Feed(h, chunk, true).session, init, NextView(init, w, chunk))
  {
    hide Begins;
    ViewStep(h, init, w, chunk);
  }

  // ---------------------------------------------------------------- a whole run

  /** Every chunk, until the parser stops for another reason than want of bytes, fits behind what is kept. */
  predicate ViewFits(init: State, w: View, chunks: seq<seq<Byte>>)
    decreases |chunks|
  {
    chunks == [] ||
    var e := Run(init, w.bytes);
    && (chunks[0] == [] || !Short?(e) || |Left(e)| + |chunks[0]| <= MAX_TRANSACTION_LEN)
    && ViewFits(init, NextView(init, w, chunks[0]), chunks[1..])
  }

  /** An ending that is no want of bytes stays, whatever follows. */
  predicate Extends(e: Ending, e': Ending, y: seq<Byte>) {
    match e
    case Accepted(st, rest) => e' == Accepted(st, rest + y)
    case _ => e' == e
  }

  /** The next chunk is appended then. */
  lemma EndedNext(init: State, w: View, chunk: seq<Byte>)
    requires Startable(init) && !Short?(Run(init, w.bytes))
    ensures NextView(init, w, chunk).bytes == w.bytes + chunk
    ensures Extends(Run(init, w.bytes), Run(init, w.bytes + chunk), chunk) && !Short?(Run(init, w.bytes + chunk))
  {
    hide Run, Overlay, Size, PendingAt;
    Resume.Resume(init, w.bytes, chunk);
  }

  lemma ExtendsTwice(e: Ending, f: Ending, g: Ending, x: seq<Byte>, y: seq<Byte>)
    requires Extends(e, f, x) && Extends(f, g, y)
    ensures Extends(e, g, x + y)
  {
    if e.Accepted? {
      assert e.rest + x + y == e.rest + (x + y);
    }
  }

  lemma {:induction false} StaysEnded(init: State, w: View, chunks: seq<seq<Byte>>)
    requires Startable(init) && !Short?(Run(init, w.bytes))
    ensures Extends(Run(init, w.bytes), Run(init, ViewOf(init, w, chunks).bytes), Concat(chunks))
    ensures ViewFits(init, w, chunks)
    decreases |chunks|
  {
    hide Run, NextView, Extends, Startable;
    if chunks == [] {
      EmptyEnd(Run(init, w.bytes));
    } else {
      var w' := NextView(init, w, chunks[0]);
      EndedNext(init, w, chunks[0]);
      StaysEnded(init, w', chunks[1..]);
      ExtendsTwice(Run(init, w.bytes), Run(init, w'.bytes), Run(init, ViewOf(init, w', chunks[1..]).bytes), chunks[0],
                   Concat(chunks[1..]));
    }
  }

  lemma EmptyEnd(e: Ending)
    ensures Extends(e, e, [])
  {
    if e.Accepted? {
      assert e.rest + [] == e.rest;
    }
  }

  /** What a run under any cutting is. */
  predicate IsShown(fed: Fed, init: State, w: View, p: seq<Byte>, chunks: seq<seq<Byte>>) {
    var end := Run(init, ViewOf(init, w, chunks).bytes);
    && (fed.reply == Undefined <==> end.Stray? && ViewFits(init, w, chunks))
    && (fed.reply == WrongTxLength <==> !ViewFits(init, w, chunks))
    && fed.reply != SwOk && (fed.reply == Review ==> end.Accepted?)
    && (fed.reply == Review && fed.session.hashed == p + Concat(chunks)
        <==> end.Accepted? && end.rest == [] && ViewFits(init, w, chunks))
    && (fed.reply == Review && fed.session.hashed == p + Concat(chunks) ==> fed.session.st == end.st)
  }

  lemma {:induction false} ShownFrom(h: Session, init: State, w: View, chunks: seq<seq<Byte>>)
    requires chunks != [] && Begins(init) && Follows(h, init, w)
    ensures IsShown(Sign(h, chunks), init, w, h.hashed, chunks)
    decreases |chunks|
  {
    hide Run, NextView, Begins;
    var chunk, others := chunks[0], chunks[1..];
    var w' := NextView(init, w, chunk);
    ConcatStep(h.hashed, chunks);
    ViewStep(h, init, w, chunk);
    var fed := Feed(h, chunk, |chunks| > 1);
    if fed.reply == WrongTxLength {
      assert !ViewFits(init, w, chunks);
    } else if fed.reply == SwOk {
      FollowsStep(h, init, w, chunk);
      ShownFrom(fed.session, init, w', others);
    } else {
      ShownStops(h, init, w, chunks);
    }
  }

  lemma ViewUnfold(init: State, w: View, chunks: seq<seq<Byte>>)
    requires chunks != []
    ensures ViewOf(init, w, chunks) == ViewOf(init, NextView(init, w, chunks[0]), chunks[1..])
    ensures ViewFits(init, w, chunks) <==>
              var e := Run(init, w.bytes);
              && (chunks[0] == [] || !Short?(e) || |Left(e)| + |chunks[0]| <= MAX_TRANSACTION_LEN)
              && ViewFits(init, NextView(init, w, chunks[0]), chunks[1..])
  {
  }

  lemma NoMore(init: State, w: View)
    ensures ViewOf(init, w, []) == w && ViewFits(init, w, [])
  {
  }

  /** The run ends with this chunk. */
  lemma ShownStops(h: Session, init: State, w: View, chunks: seq<seq<Byte>>)
    requires chunks != [] && Begins(init) && Follows(h, init, w)
    requires var fed := Feed(h, chunks[0], |chunks| > 1); fed.reply != SwOk && fed.reply != WrongTxLength
    ensures IsShown(Sign(h, chunks), init, w, h.hashed, chunks)
  {
    hide Run, NextView, Begins, ViewOf, ViewFits, OffOf;
    var chunk, others := chunks[0], chunks[1..];
    var w' := NextView(init, w, chunk);
    ViewUnfold(init, w, chunks);
    ConcatStep(h.hashed, chunks);
    ViewStep(h, init, w, chunk);
    NothingLeft(h.hashed + chunk, Concat(others));
    var e := Run(init, w'.bytes);
    if Short?(e) {
      assert others == [];
      NoMore(init, w');
    } else {
      StaysEnded(init, w', others) by { BeginsStartable(init); }
      assert Run(h.st, h.raw + chunk) == e;
    }
  }

  lemma BeginsStartable(init: State)
    requires Begins(init)
    ensures Startable(init)
  {
  }

  // ---------------------------------------------------------------- whatever was in the arena

  lemma {:induction false} SamePending(s1: State, s2: State, b: seq<Byte>)
    requires Like(s1, s2) && Layout(s1)
    ensures PendingAt(s1, b) == PendingAt(s2, b)
    decreases |b|, Rank(s1)
  {
    hide StepOf, Layout, Like;
    StepsAlike(s1, s2, b);
    if StepOf(s1, b).Go? {
      StepProgress(s1, b);
      LayoutStep(s1, b);
      SamePending(StepOf(s1, b).st, StepOf(s2, b).st, StepOf(s1, b).rest);
    }
  }

  lemma PendingTyped(a: Arena, b: seq<Byte>)
    ensures PendingAt(Fresh(a), b) == if |b| < 2 then 0 else 2 + PendingAt(Typed(a, b), b[2..])
  {
    hide LittleEndian;
    assert StepOf(Fresh(a), b) == if |b| < 2 then Stop(ShortLength(Fresh(a), b)) else Go(Typed(a, b), b[2..]);
  }

  lemma SameEnds(a1: Arena, a2: Arena, b: seq<Byte>)
    requires a1.Valid() && a2.Valid()
    ensures PendingAt(Fresh(a1), b) == PendingAt(Fresh(a2), b)
    ensures var e, f := Run(Fresh(a1), b), Run(Fresh(a2), b);
            && InField(e) == InField(f) && LastOf(e) == LastOf(f) && Short?(e) == Short?(f) && Left(e) == Left(f)
            && (e.ShortValue? ==> f.ShortValue? && e.lack == f.lack)
  {
    hide Run, StepOf;
    ArenaForgotten(a1, a2, b);
    PendingTyped(a1, b);
    PendingTyped(a2, b);
    if |b| >= 2 {
      TypeTaken(a1, b);
      SamePending(Typed(a1, b), Typed(a2, b), b[2..]);
    }
  }

  lemma SameView(a1: Arena, a2: Arena, w: View, chunk: seq<Byte>)
    requires a1.Valid() && a2.Valid()
    ensures NextView(Fresh(a1), w, chunk) == NextView(Fresh(a2), w, chunk)
  {
    hide Run, Overlay, Size, PendingAt;
    SameEnds(a1, a2, w.bytes);
    SameEnds(a1, a2, w.bytes + chunk);
    SameEnds(a1, a2, NextView(Fresh(a1), w, chunk).bytes);
  }

  /** The bytes shown, and whether the chunks fit, depend on the chunks alone. */
  lemma {:induction false} SameViews(a1: Arena, a2: Arena, w: View, chunks: seq<seq<Byte>>)
    requires a1.Valid() && a2.Valid()
    ensures ViewOf(Fresh(a1), w, chunks) == ViewOf(Fresh(a2), w, chunks)
    ensures ViewFits(Fresh(a1), w, chunks) == ViewFits(Fresh(a2), w, chunks)
    decreases |chunks|
  {
    hide Run, NextView;
    if chunks != [] {
      SameEnds(a1, a2, w.bytes);
      SameView(a1, a2, w, chunks[0]);
      SameViews(a1, a2, NextView(Fresh(a1), w, chunks[0]), chunks[1..]);
    }
  }

  // ---------------------------------------------------------------- clean cuttings

  lemma CleanView(h: Session, init: State, w: View, chunk: seq<Byte>)
    requires Begins(init) && Follows(h, init, w)
    requires InField(Run(init, w.bytes)) ==> w.last == LastOf(Run(init, w.bytes))
    ensures NextView(init, w, chunk).bytes == w.bytes + chunk
    ensures CleanCut(h, chunk) ==> NextView(init, w, chunk).last == LastOf(Run(init, w.bytes + chunk))
  {
    if InField(Run(init, w.bytes)) {
      CleanInField(h, init, w, chunk);
    }
  }

  lemma CleanInField(h: Session, init: State, w: View, chunk: seq<Byte>)
    requires Begins(init) && Follows(h, init, w)
    requires InField(Run(init, w.bytes)) && w.last == LastOf(Run(init, w.bytes))
    ensures NextView(init, w, chunk).bytes == w.bytes + chunk
    ensures CleanCut(h, chunk) ==> NextView(init, w, chunk).last == LastOf(Run(init, w.bytes + chunk))
  {
    hide StepOf, Poke, WriteVarint, Layout, ZeroBlock, InFieldOf, Overlay, ReadVarint;
    var e, n := Run(init, w.bytes), PendingAt(init, w.bytes);
    PendingField(init, w.bytes);
    var x := w.bytes[n..];
    OffOfField(Run(init, w.bytes[..n]).st, x, e);
    var tail, m := x[Width(x)..], Min(e.lack, |chunk|);
    Appended(tail, chunk[..m]);
    assert w.bytes[..n] + x[..Width(x)] + (tail + chunk[..m]) + chunk[m..] == w.bytes + chunk;
    LackBound(init, w.bytes);
    RoundTrip(e.lack, []);
    assert WriteVarint(e.lack) + [] == WriteVarint(e.lack);
  }

  /** A piece behind the others is no overlay. */
  lemma Appended(tail: seq<Byte>, d: seq<Byte>)
    ensures Overlay(tail, |tail|, d) == tail + d
  {
  }

  /** Under a clean cutting the bytes shown are the bytes sent. */
  lemma {:induction false} CleanShows(h: Session, init: State, w: View, chunks: seq<seq<Byte>>)
    requires chunks != [] && Begins(init) && Follows(h, init, w) && CleanRun(h, chunks)
    requires InField(Run(init, w.bytes)) ==> w.last == LastOf(Run(init, w.bytes))
    requires Sign(h, chunks).reply != WrongTxLength
    ensures ViewOf(init, w, chunks).bytes == w.bytes + Concat(chunks)
    decreases |chunks|
  {
    hide Run, NextView, Begins, CleanCut, Follows;
    var chunk, others := chunks[0], chunks[1..];
    var w' := NextView(init, w, chunk);
    CleanView(h, init, w, chunk);
    ConcatStep(w.bytes, chunks);
    if |chunks| == 1 {
      assert Concat(others) == [];
    } else if Feed(h, chunk, true).reply == SwOk {
      FollowsStep(h, init, w, chunk);
      CleanShows(Feed(h, chunk, true).session, init, w', others);
    } else {
      ViewStep(h, init, w, chunk);
      EndedAppends(init, w', others);
    }
  }

  lemma {:induction false} EndedAppends(init: State, w: View, chunks: seq<seq<Byte>>)
    requires Begins(init) && !Short?(Run(init, w.bytes))
    ensures ViewOf(init, w, chunks).bytes == w.bytes + Concat(chunks)
    decreases |chunks|
  {
    hide Run, Begins, NextView;
    if chunks != [] {
      BeginsStartable(init);
      EndedNext(init, w, chunks[0]);
      ConcatStep(w.bytes, chunks);
      EndedAppends(init, NextView(init, w, chunks[0]), chunks[1..]);
    } else {
      assert w.bytes + [] == w.bytes;
    }
  }

  // ---------------------------------------------------------------- a field that fits its block

  /** The bytes of a field behind `tail`, the piece before ending there having `off` bytes. */
  function Overlays(tail: seq<Byte>, off: nat, pieces: seq<seq<Byte>>): (shown: seq<Byte>)
    requires off <= |tail|
    decreases |pieces|
  {
    if pieces == [] then tail
    else
      ReachBound(|tail|, off, |pieces[0]|);
      Overlays(Overlay(tail, off, pieces[0]), |pieces[0]|, pieces[1..])
  }

  /** Up to 40 bytes it is what the zeroed block shows of the pieces. */
  lemma {:induction false} OverlaysLaid(tail: seq<Byte>, off: nat, pieces: seq<seq<Byte>>)
    requires off <= |tail| && |tail| + |Concat(pieces)| <= BLOCK
    ensures Overlays(tail, off, pieces) == Pieces.Laid(tail + Zeros(|Concat(pieces)|), 0, off, pieces)
    decreases |pieces|
  {
    if pieces == [] {
      assert tail + Zeros(0) == tail;
    } else {
      var d, others := pieces[0], pieces[1..];
      var z := |Concat(others)|;
      ReachBound(|tail|, off, |d|);
      OverlaysLaid(Overlay(tail, off, d), |d|, others);
      assert Poke(tail + Zeros(|d| + z), off, d) == Poke(tail + Zeros(|d|), off, d) + Zeros(z);
    }
  }
}
