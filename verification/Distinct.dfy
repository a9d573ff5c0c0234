/**
 When the bytes shown are not the bytes hashed, one pass over the bytes hashed ends in another state: a field that has
 been copied stays in its block to the end.
 */
module Distinct {
  import opened Bytes
  import opened Varint
  import opened TxMachine
  import opened Resume
  import opened Chunks
  import opened Budget
  import opened OnePass
  import opened Cutting
  import opened Shown

  // ---------------------------------------------------------------- what is not written any more

  /** The lowest byte of the arena that is still to be written. */
  function Floor(s: State): nat {
    if Want(s).Fetch? then Want(s).at
    else if s.stack == 4 && s.call.stack == 1 then s.call.contractAddress.Pos()
    else if s.stack == 4 && s.call.stack == 2 then s.call.value.Pos()
    else if s.stack == 4 && s.call.stack >= 8 && s.call.inner >= 2 then ElementOf(s.call, StyleOf(s)).Pos()
    else if s.stack >= 6 && InEntry(s.coin) && s.coin.cur.stack == 3 then s.coin.cur.amount.Pos()
    else s.arena.used
  }

  lemma FloorCall(s: State, b: seq<Byte>, n: nat)
    requires Layout(s) && s.stack == 4 && s.call.stack >= 5 && n <= Floor(s) && StepOf(s, b).Go?
    ensures Agree(s.arena.mem, StepOf(s, b).st.arena.mem, n) && n <= Floor(StepOf(s, b).st)
  {
    hide ReadVarint, LittleEndian, CStringIs;
    if Want(s) == Length {
      StyleKept(s, s.arena.used, Zeros((ReadVarint(b).value + 1) % SIZE_T));
    } else if Want(s).Fixed? && s.call.stack >= 8 && s.call.inner > 0 {
      StyleKept(s, ElementOf(s.call, StyleOf(s)).Pos(), b[..Want(s).n] + [0]);
    }
  }

  lemma FloorCoin(s: State, b: seq<Byte>, n: nat)
    requires Layout(s) && s.stack >= 5 && n <= Floor(s) && StepOf(s, b).Go?
    ensures Agree(s.arena.mem, StepOf(s, b).st.arena.mem, n) && n <= Floor(StepOf(s, b).st)
  {
    if s.stack >= 6 && s.coin.stack >= 3 {
      FloorTo(s, b, n);
    } else {
      hide ReadVarint, LittleEndian, CStringIs;
    }
  }

  /** In an output. */
  lemma FloorTo(s: State, b: seq<Byte>, n: nat)
    requires Layout(s) && s.stack >= 6 && s.coin.stack >= 3 && n <= Floor(s) && StepOf(s, b).Go?
    ensures Agree(s.arena.mem, StepOf(s, b).st.arena.mem, n) && n <= Floor(StepOf(s, b).st)
  {
    hide ReadVarint, LittleEndian, CStringIs;
  }

  lemma FloorStays(s: State, b: seq<Byte>)
    requires Layout(s) && (s.stack >= 5 || (s.stack == 4 && s.call.stack >= 5)) && StepOf(s, b).Go?
    ensures var t := StepOf(s, b).st; t.stack >= 5 || (t.stack == 4 && t.call.stack >= 5)
  {
    if s.stack >= 5 {
      CoinStays(s, b);
    } else {
      hide ReadVarint, LittleEndian, CStringIs, Poke;
    }
  }

  lemma CoinStays(s: State, b: seq<Byte>)
    requires s.stack >= 5 && StepOf(s, b).Go?
    ensures StepOf(s, b).st.stack >= 5
  {
    hide ReadVarint, LittleEndian, CStringIs, Poke;
  }

  lemma {:induction false} Frozen(s: State, b: seq<Byte>, n: nat)
    requires Layout(s) && (s.stack >= 5 || (s.stack == 4 && s.call.stack >= 5)) && n <= Floor(s)
    ensures Run(s, b).Accepted? ==> Agree(s.arena.mem, Run(s, b).st.arena.mem, n)
    decreases |b|, Rank(s)
  {
    hide StepOf, Floor, Agree;
    GoesOn(s, b);
    if StepOf(s, b).Go? {
      var t := StepOf(s, b).st;
      if s.stack == 4 {
        FloorCall(s, b, n);
      } else {
        FloorCoin(s, b, n);
      }
      StepProgress(s, b);
      LayoutStep(s, b);
      FloorStays(s, b);
      Frozen(t, StepOf(s, b).rest, n);
      if Run(s, b).Accepted? {
        AgreeTrans(s.arena.mem, t.arena.mem, Run(s, b).st.arena.mem, n, n);
      }
    } else if StepOf(s, b).end.Accepted? {
      FloorInside(s, b, n);
    }
  }

  lemma FloorInside(s: State, b: seq<Byte>, n: nat)
    requires Layout(s) && n <= Floor(s) && StepOf(s, b).Stop? && StepOf(s, b).end.Accepted?
    ensures Agree(s.arena.mem, StepOf(s, b).end.st.arena.mem, n)
  {
  }

  /** Up to 40 bytes of a copied field are in their block when the run is accepted. */
  lemma FieldStays(s: State, x: seq<Byte>, rest: seq<Byte>)
    requires Begins(s) && Want(s).Fetch? && |x| <= BLOCK
    ensures var e := Run(Fetched(Store(s, Want(s).at, x)), rest);
            e.Accepted? ==> |e.st.arena.mem| == ARENA_SIZE && Want(s).at + |x| <= ARENA_SIZE
                            && e.st.arena.mem[Want(s).at..Want(s).at + |x|] == x
  {
    var at := Want(s).at;
    var t := Fetched(Store(s, at, x));
    FieldDone(s, x);
    hide Layout, ZeroBlock, Floor;
    Frozen(t, rest, at + |x|);
    if Run(t, rest).Accepted? {
      var m, m' := t.arena.mem, Run(t, rest).st.arena.mem;
      assert m[at..at + |x|] == x;
      assert m[at..at + |x|] == m[..at + |x|][at..] && m'[at..at + |x|] == m'[..at + |x|][at..];
    }
  }

  lemma FieldDone(s: State, x: seq<Byte>)
    requires Begins(s) && Want(s).Fetch? && |x| <= BLOCK
    ensures var at, t := Want(s).at, Fetched(Store(s, Want(s).at, x));
            && at + |x| <= ARENA_SIZE && Layout(t) && (t.stack >= 5 || (t.stack == 4 && t.call.stack >= 5))
            && at + |x| <= Floor(t) && t.arena.mem == Poke(s.arena.mem, at, x) && |t.arena.mem| == ARENA_SIZE
  {
    FetchStart(s);
    hide Poke;
  }

  // ---------------------------------------------------------------- two inputs

  /** In `a` a field of at most 40 bytes is complete that has other bytes in `b`; before it the two are the same. */
  predicate Witness(init: State, a: seq<Byte>, b: seq<Byte>, n: nat, k: nat, len: nat) {
    && |a| == |b| && n + k + len <= PendingAt(init, a) && len <= BLOCK
    && a[..n + k] == b[..n + k] && a[n + k..n + k + len] != b[n + k..n + k + len]
    && ReadVarint(a[n..]).Read? && ReadVarint(a[n..]).size == k && ReadVarint(a[n..]).value % SIZE_T == len
    && var e := Run(init, a[..n]);
       e.ShortLength? && e.rest == [] && Want(e.st).Fetch?
  }

  ghost predicate Apart(init: State, a: seq<Byte>, b: seq<Byte>) {
    exists n: nat, k: nat, len: nat :: Witness(init, a, b, n, k, len)
  }

  /** One pass over a field of at most 40 bytes. */
  lemma OverField(init: State, head: seq<Byte>, x: seq<Byte>, k: nat, len: nat)
    requires Begins(init)
    requires var e := Run(init, head); e.ShortLength? && e.rest == [] && Want(e.st).Fetch?
    requires ReadVarint(x).Read? && ReadVarint(x).size == k && ReadVarint(x).value % SIZE_T == len <= BLOCK
    requires k + len <= |x|
    ensures var s := Run(init, head).st;
            && Begins(s)
            && StepOf(s, x) == Go(Fetched(Store(s, Want(s).at, x[k..k + len])), x[k + len..])
            && Run(init, head + x) == Run(Fetched(Store(s, Want(s).at, x[k..k + len])), x[k + len..])
            && PendingAt(init, head + x) == |head| + PendingAt(s, x)
  {
    hide StepOf, Poke, Layout, ZeroBlock;
    var s := Run(init, head).st;
    BeginsAt(init, head);
    Resume.Resume(init, head, x);
    assert [] + x == x;
    PendingBehind(init, head, x);
    FetchStart(s);
    BlockAt(s);
    StepsToFetch(s, x, ReadVarint(x).value, x[k..]);
    PayloadOf(s, Want(s).at, 0, len, x[k..], len);
    assert x[k..][..len] == x[k..k + len] && x[k..][len..] == x[k + len..];
    GoesOn(s, x);
  }

  lemma {:induction false} BeginsAt(init: State, b: seq<Byte>)
    requires Begins(init) && Run(init, b).ShortLength?
    ensures Begins(Run(init, b).st)
    decreases |b|, Rank(init)
  {
    hide StepOf, Layout, ZeroBlock;
    GoesOn(init, b);
    StepStable(init, b, []);
    if StepOf(init, b).Go? {
      StepProgress(init, b);
      SettledStep(init, b);
      ArenaSizeKept(init, b);
      LayoutStep(init, b);
      ZeroStep(init, b);
      BeginsAt(StepOf(init, b).st, StepOf(init, b).rest);
    }
  }

  lemma {:induction false} PendingBehind(s: State, x: seq<Byte>, y: seq<Byte>)
    requires Startable(s)
    ensures PendingAt(s, x + y) >= PendingAt(s, x)
    ensures Run(s, x).ShortLength? && Run(s, x).rest == [] ==> PendingAt(s, x + y) == |x| + PendingAt(Run(s, x).st, y)
    decreases |x|, Rank(s)
  {
    hide StepOf;
    GoesOn(s, x);
    StepStable(s, x, y);
    if StepOf(s, x).Go? {
      StepProgress(s, x);
      SettledStep(s, x);
      ArenaSizeKept(s, x);
      PendingBehind(StepOf(s, x).st, StepOf(s, x).rest, y);
    } else if x == [] {
      assert x + y == y;
    }
  }

  lemma WitnessStates(init: State, a: seq<Byte>, b: seq<Byte>, n: nat, k: nat, len: nat)
    requires Begins(init) && Witness(init, a, b, n, k, len) && Run(init, a).Accepted?
    ensures Run(init, b) != Run(init, a)
  {
    hide Run, StepOf, Begins, PendingAt, ReadVarint, Fetched, Store, Want;
    var x, y := a[n..], b[n..];
    assert a[..n] == a[..n + k][..n] && b[..n] == b[..n + k][..n];
    assert a == a[..n] + x && b == a[..n] + y;
    SameVarint(a, b, n, k);
    OverField(init, a[..n], x, k, len);
    OverField(init, a[..n], y, k, len);
    var s := Run(init, a[..n]).st;
    FieldStays(s, x[k..k + len], x[k + len..]);
    FieldStays(s, y[k..k + len], y[k + len..]);
    assert x[k..k + len] == a[n + k..n + k + len] && y[k..k + len] == b[n + k..n + k + len];
  }

  /** Two inputs of which one field is apart are not accepted in one state. */
  lemma ApartStates(init: State, a: seq<Byte>, b: seq<Byte>)
    requires Begins(init) && Apart(init, a, b) && Run(init, a).Accepted?
    ensures Run(init, b) != Run(init, a)
  {
    hide Run, Witness, Begins;
    var n: nat, k: nat, len: nat :| Witness(init, a, b, n, k, len);
    WitnessStates(init, a, b, n, k, len);
  }

  lemma SameVarint(a: seq<Byte>, b: seq<Byte>, n: nat, k: nat)
    requires n + k <= |a| && n + k <= |b| && a[..n + k] == b[..n + k]
    requires ReadVarint(a[n..]).Read? && ReadVarint(a[n..]).size == k
    ensures ReadVarint(b[n..]) == ReadVarint(a[n..])
  {
    hide ReadVarint;
    VarintFront(a[n..], k);
    assert a[n..][..k] == a[..n + k][n..] && b[n..][..k] == b[..n + k][n..];
    Stable(b[n..][..k], b[n..][k..]);
    assert b[n..][..k] + b[n..][k..] == b[n..];
  }

  // ---------------------------------------------------------------- over a run

  /** The field that is being copied is shown otherwise than it was sent, or may be. */
  predicate HalfApart(init: State, w: View, p: seq<Byte>)
    requires |w.bytes| == |p|
  {
    var e, n := Run(init, w.bytes), PendingAt(init, w.bytes);
    var k := Width(w.bytes[n..]);
    InField(e) && w.last < OffOf(e.st) && w.bytes[..n + k] == p[..n + k]
  }

  /** The bytes shown and the bytes sent, of one length: the same, or apart in a field. */
  ghost predicate Beside(init: State, w: View, p: seq<Byte>) {
    |w.bytes| == |p| && (w.bytes == p || Apart(init, w.bytes, p) || HalfApart(init, w, p))
  }

  lemma WitnessStays(init: State, a: seq<Byte>, b: seq<Byte>, i: nat, k: nat, len: nat, n: nat, y: seq<Byte>,
                     z: seq<Byte>)
    requires Witness(init, a, b, i, k, len) && PendingAt(init, a) <= n <= |a| && |y| == |z|
    requires PendingAt(init, a[..n] + y) >= PendingAt(init, a)
    ensures Witness(init, a[..n] + y, b[..n] + z, i, k, len)
  {
    hide Run, PendingAt, ReadVarint, Want;
    var a', b' := a[..n] + y, b[..n] + z;
    assert a'[..i] == a[..i] && a'[..i + k] == a[..i + k] && b'[..i + k] == b[..i + k];
    assert a'[i + k..i + k + len] == a[i + k..i + k + len] && b'[i + k..i + k + len] == b[i + k..i + k + len];
    SameVarint(a, a', i, k);
  }

  /** What the two have in front stays apart. */
  lemma ApartStays(init: State, a: seq<Byte>, b: seq<Byte>, n: nat, y: seq<Byte>, z: seq<Byte>)
    requires Apart(init, a, b) && PendingAt(init, a) <= n <= |a| == |b| && |y| == |z|
    requires PendingAt(init, a[..n] + y) >= PendingAt(init, a)
    ensures Apart(init, a[..n] + y, b[..n] + z)
  {
    hide Run, PendingAt, Witness;
    var i: nat, k: nat, len: nat :| Witness(init, a, b, i, k, len);
    WitnessStays(init, a, b, i, k, len, n, y, z);
  }

  lemma BesideAppend(init: State, w: View, p: seq<Byte>, chunk: seq<Byte>)
    requires Begins(init) && Beside(init, w, p) && !InField(Run(init, w.bytes))
    ensures Beside(init, NextView(init, w, chunk), p + chunk)
  {
    if w.bytes != p {
      var n := |w.bytes|;
      assert w.bytes[..n] == w.bytes && p[..n] == p;
      PendingBehind(init, w.bytes, chunk);
      ApartStays(init, w.bytes, p, n, chunk, chunk);
    }
  }

  lemma BesideStep(h: Session, init: State, w: View, p: seq<Byte>, chunk: seq<Byte>)
    requires Begins(init) && Follows(h, init, w) && Beside(init, w, p)
    requires |NextView(init, w, chunk).bytes| == |w.bytes| + |chunk|
    ensures Beside(init, NextView(init, w, chunk), p + chunk)
  {
    hide Run, NextView, Begins, Apart;
    var e := Run(init, w.bytes);
    if InField(e) {
      if Apart(init, w.bytes, p) {
        BesideApart(h, init, w, p, chunk);
      } else if w.bytes == p && w.last == LastOf(e) {
        CleanView(h, init, w, chunk);
      } else {
        BesideField(h, init, w, p, chunk);
      }
    } else {
      BesideAppend(init, w, p, chunk);
    }
  }

  lemma BesideApart(h: Session, init: State, w: View, p: seq<Byte>, chunk: seq<Byte>)
    requires Begins(init) && Follows(h, init, w) && |w.bytes| == |p| && Apart(init, w.bytes, p)
    requires InField(Run(init, w.bytes)) && |NextView(init, w, chunk).bytes| == |w.bytes| + |chunk|
    ensures Apart(init, NextView(init, w, chunk).bytes, p + chunk)
  {
    hide Apart, StepOf, Layout, ZeroBlock, Overlay, Size;
    var n, w' := PendingAt(init, w.bytes), NextView(init, w, chunk);
    PendingField(init, w.bytes);
    OffOfField(Run(init, w.bytes[..n]).st, w.bytes[n..], Run(init, w.bytes));
    var y := w'.bytes[n..];
    assert w'.bytes == w.bytes[..n] + y;
    PendingBehind(init, w.bytes[..n], y);
    assert p + chunk == p[..n] + (p[n..] + chunk);
    ApartStays(init, w.bytes, p, n, y, p[n..] + chunk);
  }

  lemma NoShrink(x: seq<Byte>, shown: nat, missing: nat, whole: nat)
    requires ReadVarint(x).Read? && ReadVarint(x).value % SIZE_T == whole + missing && shown <= whole
    requires |Size(x, shown, missing, whole)| + shown == Width(x) + whole
    ensures shown == whole
  {
    ModulusBelow(ReadVarint(x).value);
    Shortest(x, shown + missing);
  }

  lemma ModulusBelow(v: nat)
    ensures v % SIZE_T <= v
  {
  }

  /** No varint is shorter than the one the source writes, nor one of a greater number. */
  lemma Shortest(x: seq<Byte>, n: nat)
    requires ReadVarint(x).Read? && n <= ReadVarint(x).value
    ensures |WriteVarint(n)| <= ReadVarint(x).size
  {
    hide LittleEndian, ToLittleEndian;
    var r := ReadVarint(x);
    if r.size == 3 {
      NumberWidth(x[1..3]);
    } else if r.size == 5 {
      NumberWidth(x[1..5]);
    }
  }

  lemma NumberWidth(d: seq<Byte>)
    ensures |d| == 2 ==> LittleEndian(d) < 0x1_0000
    ensures |d| == 4 ==> LittleEndian(d) < 0x1_0000_0000
  {
    Widths();
  }

  lemma SameWidth(x: seq<Byte>, z: seq<Byte>)
    requires ReadVarint(x).Read?
    ensures ReadVarint(x[..Width(x)] + z) == ReadVarint(x) && Width(x[..Width(x)] + z) == Width(x)
  {
    VarintFront(x, Width(x));
    Stable(x[..Width(x)], z);
  }

  lemma NotAppended(t: nat, last: nat, m: nat)
    requires last < t && m > 0 && Reach(t, last, m) == t + m
    ensures t + m <= BLOCK
  {
  }

  /**
   The next chunk, when no field shown becomes shorter: `n` bytes stand before the field being copied, `k` are its
   length, `m` of the chunk are its own.
   */
  predicate NextIs(init: State, w: View, chunk: seq<Byte>, n: nat, k: nat, m: nat, s: State) {
    && n <= |w.bytes| && k <= |w.bytes[n..]|
    && var e, x := Run(init, w.bytes), w.bytes[n..];
       && Run(init, w.bytes[..n]) == ShortLength(s, []) && Begins(s) && k == Width(x)
       && InField(e) && w.last <= |x| - k == OffOf(e.st) && m == Min(e.lack, |chunk|)
       && var shown := Overlay(x[k..], w.last, chunk[..m]);
          && Laying(s, x, e, w.last, chunk, m, shown) && |shown| == |x| - k + m
          && NextView(init, w, chunk).bytes == w.bytes[..n] + (x[..k] + shown + chunk[m..])
  }

  lemma NextLaid(init: State, w: View, chunk: seq<Byte>, n: nat, k: nat, m: nat)
    requires InField(Run(init, w.bytes)) && n == PendingAt(init, w.bytes) <= |w.bytes| && k == Width(w.bytes[n..])
    requires m == Min(Run(init, w.bytes).lack, |chunk|) && w.last <= |w.bytes[n..]| - k
    ensures var x := w.bytes[n..];
            var t, shown := |x| - k, Overlay(x[k..], w.last, chunk[..m]);
            NextView(init, w, chunk).bytes
              == w.bytes[..n] + (Size(x, |shown|, Run(init, w.bytes).lack - m, t + m) + shown + chunk[m..])
  {
    hide Run, Overlay, Size, Width, PendingAt;
  }

  lemma FieldNext(h: Session, init: State, w: View, chunk: seq<Byte>, n: nat, k: nat, m: nat)
    returns (s: State)
    requires Begins(init) && Follows(h, init, w) && InField(Run(init, w.bytes))
    requires |NextView(init, w, chunk).bytes| == |w.bytes| + |chunk|
    requires n == PendingAt(init, w.bytes) && k == Width(w.bytes[n..]) && m == Min(Run(init, w.bytes).lack, |chunk|)
    ensures NextIs(init, w, chunk, n, k, m, s)
  {
    hide Run, StepOf, Want, Poke, Overlay, Size, Layout, ZeroBlock, Reach, InFieldOf, NextView;
    var e := Run(init, w.bytes);
    PendingField(init, w.bytes);
    s := Run(init, w.bytes[..n]).st;
    var x := w.bytes[n..];
    OffOfField(s, x, e);
    NextLaid(init, w, chunk, n, k, m);
    FieldLength(s, x, e);
    BeginsAt(init, w.bytes[..n]);
    var t, shown := |x| - k, Overlay(x[k..], w.last, chunk[..m]);
    ReachBound(t, w.last, m);
    NoShrink(x, |shown|, e.lack - m, t + m);
    KeptSize(x, t + m, e.lack - m);
  }

  lemma BesideField(h: Session, init: State, w: View, p: seq<Byte>, chunk: seq<Byte>)
    requires Begins(init) && Follows(h, init, w) && |w.bytes| == |p|
    requires InField(Run(init, w.bytes)) && w.last < OffOf(Run(init, w.bytes).st)
    requires |NextView(init, w, chunk).bytes| == |w.bytes| + |chunk|
    requires w.bytes == p || HalfApart(init, w, p)
    ensures Beside(init, NextView(init, w, chunk), p + chunk)
  {
    hide Begins, Follows, NextView, OffOf, NextIs;
    var n := PendingAt(init, w.bytes);
    var k, m := Width(w.bytes[n..]), Min(Run(init, w.bytes).lack, |chunk|);
    SameBefore(init, w, p, n, k);
    var s := FieldNext(h, init, w, chunk, n, k, m);
    hide *;
    if m < Run(init, w.bytes).lack {
      StillCut(init, w, p, chunk, n, k, m, s);
    } else {
      Completed(init, w, p, chunk, n, k, m, s);
    }
  }

  /** The field is still cut. */
  lemma StillCut(init: State, w: View, p: seq<Byte>, chunk: seq<Byte>, n: nat, k: nat, m: nat, s: State)
    requires Begins(init) && NextIs(init, w, chunk, n, k, m, s) && |w.bytes| == |p|
    requires w.last < OffOf(Run(init, w.bytes).st) && n == PendingAt(init, w.bytes)
    requires n + k <= |p| && w.bytes[..n + k] == p[..n + k] && m < Run(init, w.bytes).lack
    ensures Beside(init, NextView(init, w, chunk), p + chunk)
  {
    var e, x, w' := Run(init, w.bytes), w.bytes[n..], NextView(init, w, chunk);
    var shown := Overlay(x[k..], w.last, chunk[..m]);
    hide *;
    MinOf(e.lack, |chunk|);
    LastCut(init, w, chunk, e, m);
    FrontKept(p, chunk, n + k);
    SplitAt(w.bytes, n, k);
    CutAgain(init, w.bytes[..n], s, x, e, w.last, chunk, m, shown, x[..k] + shown + chunk[m..], w', p + chunk);
    HalfBeside(init, w', p + chunk);
  }

  /** The chunk completes the field. */
  lemma Completed(init: State, w: View, p: seq<Byte>, chunk: seq<Byte>, n: nat, k: nat, m: nat, s: State)
    requires Begins(init) && NextIs(init, w, chunk, n, k, m, s) && |w.bytes| == |p|
    requires w.last < OffOf(Run(init, w.bytes).st)
    requires n + k <= |p| && w.bytes[..n + k] == p[..n + k] && m >= Run(init, w.bytes).lack
    ensures Beside(init, NextView(init, w, chunk), p + chunk)
  {
    var e, x := Run(init, w.bytes), w.bytes[n..];
    var shown := Overlay(x[k..], w.last, chunk[..m]);
    FieldLength(s, x, e);
    FieldAwaits(s, x, e);
    hide *;
    MinOf(e.lack, |chunk|);
    NotAppended(|x| - k, w.last, m);
    SplitAt(w.bytes, n, k);
    Whole(init, w, p, chunk, w.bytes[..n], s, x, k, m, shown);
  }

  lemma MinOf(a: nat, b: nat)
    ensures Min(a, b) <= a && Min(a, b) <= b && (Min(a, b) == a || Min(a, b) == b)
  {
  }

  lemma SameBefore(init: State, w: View, p: seq<Byte>, n: nat, k: nat)
    requires |w.bytes| == |p| && (w.bytes == p || HalfApart(init, w, p))
    requires n == PendingAt(init, w.bytes) && k == Width(w.bytes[n..])
    ensures n + k <= |p| && w.bytes[..n + k] == p[..n + k]
  {
    hide Run, PendingAt;
  }

  lemma SplitAt(b: seq<Byte>, n: nat, k: nat)
    requires n + k <= |b|
    ensures b == b[..n] + b[n..] && b[..n + k] == b[..n] + b[n..][..k]
  {
  }

  lemma FrontKept(p: seq<Byte>, y: seq<Byte>, n: nat)
    requires n <= |p|
    ensures (p + y)[..n] == p[..n]
  {
  }

  lemma HalfBeside(init: State, w: View, p: seq<Byte>)
    requires |w.bytes| == |p| && HalfApart(init, w, p)
    ensures Beside(init, w, p)
  {
  }

  lemma LastCut(init: State, w: View, chunk: seq<Byte>, e: Ending, m: nat)
    requires e == Run(init, w.bytes) && InField(e) && m == Min(e.lack, |chunk|) < e.lack
    requires w.last <= |w.bytes[PendingAt(init, w.bytes)..]| - Width(w.bytes[PendingAt(init, w.bytes)..])
    ensures NextView(init, w, chunk).last == |chunk|
  {
    hide Run, Overlay, Size;
  }

  lemma CutAgain(init: State, head: seq<Byte>, s: State, x: seq<Byte>, e: Ending, off: nat, chunk: seq<Byte>, m: nat,
                 shown: seq<Byte>, z: seq<Byte>, w: View, p: seq<Byte>)
    requires Begins(init) && Laying(s, x, e, off, chunk, m, shown) && m < e.lack
    requires Run(init, head) == ShortLength(s, [])
    requires |shown| == |x| - Width(x) + m && z == x[..Width(x)] + shown + chunk[m..] && off < |x| - Width(x)
    requires w.bytes == head + z && w.last == |chunk| && |p| == |w.bytes|
    requires head + x[..Width(x)] == p[..|head| + Width(x)]
    ensures HalfApart(init, w, p)
  {
    hide StepOf, Begins, Run, PendingAt, Overlay;
    FieldCut(init, head, s, x, e, off, chunk, m, shown, z);
    FieldLength(s, x, e);
    SameWidth(x, shown + chunk[m..]);
    Rejoin(head, x, Width(x), shown, chunk[m..]);
    assert w.bytes[..|head| + Width(x)] == head + x[..Width(x)];
    StillHalf(init, w, p, |head|, z);
  }

  lemma Whole(init: State, w: View, p: seq<Byte>, chunk: seq<Byte>, head: seq<Byte>, s: State, x: seq<Byte>, k: nat,
              m: nat, shown: seq<Byte>)
    requires Begins(init) && Run(init, head) == ShortLength(s, []) && Want(s).Fetch?
    requires ReadVarint(x).Read? && ReadVarint(x).size == k && ReadVarint(x).value % SIZE_T == |shown| <= BLOCK
    requires w.bytes == head + x && |p| == |w.bytes| && m <= |chunk| && |shown| == |x| - k + m
    requires head + x[..k] == p[..|head| + k]
    requires NextView(init, w, chunk).bytes == head + (x[..k] + shown + chunk[m..])
    ensures Beside(init, NextView(init, w, chunk), p + chunk)
  {
    hide *;
    var n, t, z := |head|, |x| - k, x[..k] + shown + chunk[m..];
    WidthOf(x);
    SameWidth(x, shown + chunk[m..]);
    Rejoin(head, x, k, shown, chunk[m..]);
    OverField(init, head, z, k, t + m);
    FieldTaken(s, z, k, t + m);
    FieldFound(init, w, p, chunk, n, k, t, m, shown);
  }

  lemma WidthOf(x: seq<Byte>)
    ensures ReadVarint(x).Read? ==> ReadVarint(x).size == Width(x)
  {
  }

  lemma Rejoin(head: seq<Byte>, x: seq<Byte>, k: nat, shown: seq<Byte>, rest: seq<Byte>)
    requires k <= |x|
    ensures var z := x[..k] + shown + rest;
            && x[..k] + (shown + rest) == z && (head + z)[|head|..] == z && (head + z)[..|head|] == head
            && (head + x)[..|head| + k] == head + x[..k]
            && head + z == (head + x)[..|head| + k] + shown + rest
            && z[k..k + |shown|] == shown && z[k + |shown|..] == rest
  {
  }

  lemma KeptSize(x: seq<Byte>, whole: nat, missing: nat)
    ensures Size(x, whole, missing, whole) == x[..Width(x)]
  {
  }

  lemma FieldLength(s: State, x: seq<Byte>, e: Ending)
    requires InFieldOf(s, x, e)
    ensures ReadVarint(x).Read? && Width(x) == ReadVarint(x).size && e.ShortValue? && e.lack > 0
    ensures ReadVarint(x).value % SIZE_T == |x| - Width(x) + e.lack
  {
  }

  lemma FieldAwaits(s: State, x: seq<Byte>, e: Ending)
    requires InFieldOf(s, x, e)
    ensures Want(s).Fetch?
  {
  }

  lemma FieldTaken(s: State, z: seq<Byte>, k: nat, len: nat)
    requires StepOf(s, z).Go? && k + len <= |z| && |StepOf(s, z).rest| == |z| - (k + len)
    ensures PendingAt(s, z) >= k + len
  {
  }

  /** The field is still cut, and begins where it began. */
  lemma FieldCut(init: State, head: seq<Byte>, s: State, x: seq<Byte>, e: Ending, off: nat, chunk: seq<Byte>, m: nat,
                 shown: seq<Byte>, z: seq<Byte>)
    requires Begins(init) && Laying(s, x, e, off, chunk, m, shown) && m < e.lack
    requires Run(init, head) == ShortLength(s, [])
    requires |shown| == |x| - Width(x) + m && z == x[..Width(x)] + shown + chunk[m..] && off < |x| - Width(x)
    ensures PendingAt(init, head + z) == |head|
    ensures InField(Run(init, head + z)) && |chunk| < OffOf(Run(init, head + z).st)
  {
    hide StepOf, Overlay, Layout, ZeroBlock, Poke;
    var t := |x| - Width(x);
    KeptSize(x, t + m, e.lack - m);
    ShownPayload(s, x, e, off, chunk, m, shown);
    CutPayload(s, x, e, off, chunk, m, shown);
    PendingBehind(init, head, z) by { BeginsStartable(init); }
    Resume.Resume(init, head, z) by { BeginsStartable(init); }
    assert [] + z == z;
    GoesOn(s, z);
    StillFetching(s, Want(s).at, shown, |shown|);
    InsideArena(s, x, e, off, m);
  }

  /** A piece in front of the others leaves the arena no more than they do. */
  lemma InsideArena(s: State, x: seq<Byte>, e: Ending, off: nat, m: nat)
    requires InFieldOf(s, x, e) && off < |x| - Width(x) && Reach(|x| - Width(x), off, m) == |x| - Width(x) + m
    ensures Want(s).at + (|x| - Width(x)) + m <= ARENA_SIZE
  {
  }

  lemma StillHalf(init: State, w: View, p: seq<Byte>, n: nat, z: seq<Byte>)
    requires |w.bytes| == |p| && n <= |w.bytes| && w.bytes[n..] == z && PendingAt(init, w.bytes) == n
    requires var e := Run(init, w.bytes); InField(e) && w.last < OffOf(e.st)
    requires w.bytes[..n + Width(z)] == p[..n + Width(z)]
    ensures HalfApart(init, w, p)
  {
  }

  /** The field is complete: it shows itself, or the two are apart in it. */
  lemma FieldFound(init: State, w: View, p: seq<Byte>, chunk: seq<Byte>, n: nat, k: nat, t: nat, m: nat,
                   shown: seq<Byte>)
    requires |w.bytes| == |p| == n + k + t && m <= |chunk| && |shown| == t + m <= BLOCK
    requires w.bytes[..n + k] == p[..n + k]
    requires var a := NextView(init, w, chunk).bytes;
             && a == w.bytes[..n + k] + shown + chunk[m..]
             && ReadVarint(a[n..]).Read? && ReadVarint(a[n..]).size == k && ReadVarint(a[n..]).value % SIZE_T == t + m
             && n + k + t + m <= PendingAt(init, a)
             && var e := Run(init, a[..n]); e.ShortLength? && e.rest == [] && Want(e.st).Fetch?
    ensures Beside(init, NextView(init, w, chunk), p + chunk)
  {
    hide Run, NextView, PendingAt, ReadVarint, HalfApart;
    var a, b := NextView(init, w, chunk).bytes, p + chunk;
    assert a[..n + k] == b[..n + k];
    assert a[n + k..n + k + (t + m)] == shown;
    assert b[n + k + (t + m)..] == chunk[m..] && a[n + k + (t + m)..] == chunk[m..];
    if b[n + k..n + k + (t + m)] == shown {
      assert a == a[..n + k] + a[n + k..n + k + (t + m)] + a[n + k + (t + m)..];
      assert b == b[..n + k] + b[n + k..n + k + (t + m)] + b[n + k + (t + m)..];
    } else {
      assert Witness(init, a, b, n, k, t + m);
    }
  }

  // ---------------------------------------------------------------- the whole of the chunks

  predicate Sound(init: State, w: View) {
    InField(Run(init, w.bytes)) ==> w.last <= OffOf(Run(init, w.bytes).st)
  }

  /** A session that stands there. */
  function SessionAt(init: State, w: View): Session
    requires Short?(Run(init, w.bytes))
  {
    var e := Run(init, w.bytes);
    Session(Left(e), if InField(e) then SetOff(e.st, w.last) else e.st, [])
  }

  lemma SoundStep(init: State, w: View, chunk: seq<Byte>)
    requires Begins(init) && Sound(init, w)
    ensures Sound(init, NextView(init, w, chunk))
  {
    hide Run, NextView, Begins;
    if Short?(Run(init, w.bytes)) {
      ViewStep(SessionAt(init, w), init, w, chunk);
    } else {
      BeginsStartable(init);
      EndedNext(init, w, chunk);
    }
  }

  /** Only a field of more than 40 bytes can become shorter. */
  lemma NextLength(init: State, w: View, chunk: seq<Byte>)
    requires Begins(init) && Sound(init, w)
    ensures |NextView(init, w, chunk).bytes| <= |w.bytes| + |chunk|
    ensures |NextView(init, w, chunk).bytes| < |w.bytes| + |chunk| ==>
              var r := ReadVarint(w.bytes[PendingAt(init, w.bytes)..]);
              r.Read? && r.value % SIZE_T > BLOCK
  {
    hide StepOf, Overlay, Layout, ZeroBlock, Reach, InFieldOf, WriteVarint;
    var e, n := Run(init, w.bytes), PendingAt(init, w.bytes);
    if InField(e) {
      PendingField(init, w.bytes);
      var x := w.bytes[n..];
      OffOfField(Run(init, w.bytes[..n]).st, x, e);
      FieldLength(Run(init, w.bytes[..n]).st, x, e);
      var t, m := |x| - Width(x), Min(e.lack, |chunk|);
      ReachBound(t, w.last, m);
      SizeLength(x, Reach(t, w.last, m), e.lack - m, t + m);
      if t + m <= BLOCK {
        InBlockReach(t, w.last, m);
        KeptSize(x, t + m, e.lack - m);
      }
    }
  }

  lemma InBlockReach(t: nat, off: nat, m: nat)
    requires t + m <= BLOCK
    ensures Reach(t, off, m) == t + m
  {
  }

  lemma SizeLength(x: seq<Byte>, shown: nat, missing: nat, whole: nat)
    requires ReadVarint(x).Read? && ReadVarint(x).value % SIZE_T == whole + missing && shown <= whole
    ensures |Size(x, shown, missing, whole)| <= Width(x)
  {
    ModulusBelow(ReadVarint(x).value);
    Shortest(x, shown + missing);
  }

  /** No more bytes are shown than are sent. */
  lemma {:induction false} ShownLength(init: State, w: View, chunks: seq<seq<Byte>>)
    requires Begins(init) && Sound(init, w)
    ensures |ViewOf(init, w, chunks).bytes| <= |w.bytes| + |Concat(chunks)|
    decreases |chunks|
  {
    hide Run, NextView, Begins, Sound;
    if chunks != [] {
      NextLength(init, w, chunks[0]);
      SoundStep(init, w, chunks[0]);
      ShownLength(init, NextView(init, w, chunks[0]), chunks[1..]);
    }
  }

  lemma {:induction false} Besides(init: State, w: View, p: seq<Byte>, chunks: seq<seq<Byte>>)
    requires Begins(init) && Sound(init, w) && Beside(init, w, p)
    requires |ViewOf(init, w, chunks).bytes| == |w.bytes| + |Concat(chunks)|
    ensures Beside(init, ViewOf(init, w, chunks), p + Concat(chunks))
    decreases |chunks|
  {
    hide Run, NextView, Begins, Sound, Beside;
    if chunks == [] {
      assert p + [] == p;
    } else {
      var w' := NextView(init, w, chunks[0]);
      NextLength(init, w, chunks[0]);
      SoundStep(init, w, chunks[0]);
      ShownLength(init, w', chunks[1..]);
      ConcatStep(p, chunks);
      BesideNext(init, w, p, chunks[0]);
      Besides(init, w', p + chunks[0], chunks[1..]);
    }
  }

  lemma BesideNext(init: State, w: View, p: seq<Byte>, chunk: seq<Byte>)
    requires Begins(init) && Sound(init, w) && Beside(init, w, p)
    requires |NextView(init, w, chunk).bytes| == |w.bytes| + |chunk|
    ensures Beside(init, NextView(init, w, chunk), p + chunk)
  {
    hide Run, NextView, Begins, Beside;
    if Short?(Run(init, w.bytes)) {
      BesideStep(SessionAt(init, w), init, w, p, chunk);
    } else {
      BesideAppend(init, w, p, chunk);
    }
  }

  /**
   As long as no field shown is shorter than the one sent, one pass over the bytes sent is accepted in the state of the
   run exactly when the bytes shown are the bytes sent.
   */
  lemma SameStateExactly(init: State, chunks: seq<seq<Byte>>)
    requires Begins(init) && !InField(Run(init, []))
    requires var shown := ViewOf(init, View([], 0), chunks).bytes;
             |shown| == |Concat(chunks)| && Run(init, shown).Accepted?
    ensures var shown := ViewOf(init, View([], 0), chunks).bytes;
            Run(init, Concat(chunks)) == Run(init, shown) <==> shown == Concat(chunks)
  {
    hide Run, Begins, ViewOf;
    var w := ViewOf(init, View([], 0), chunks);
    assert [] + Concat(chunks) == Concat(chunks);
    Besides(init, View([], 0), [], chunks);
    if w.bytes != Concat(chunks) {
      ApartStates(init, w.bytes, Concat(chunks));
    }
  }
}
