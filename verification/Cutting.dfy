/**
 How a host can always cut: field by field, and a longer skipped or copied field in pieces of 250 bytes.  Such a cutting
 fits the buffer if no field of known length is longer than the buffer.
 */
module Cutting {
  import opened Bytes
  import opened Varint
  import opened TxMachine
  import opened Resume
  import opened Chunks

  const PIECE := 250

  // ---------------------------------------------------------------- one step

  /** A step does not look behind what it takes. */
  lemma StepFront(s: State, b: seq<Byte>)
    requires StepOf(s, b).Go?
    ensures |StepOf(s, b).rest| <= |b|
    ensures StepOf(s, b[..|b| - |StepOf(s, b).rest|]) == Go(StepOf(s, b).st, [])
  {
    StepProgress(s, b);
    var k := |b| - |StepOf(s, b).rest|;
    match Want(s)
    case Fixed(n) => assert b[..k][..n] == b[..n];
    case Length => VarintFront(b, k);
    case Skip =>
      VarintFront(b, k);
    case Fetch(at, off) =>
      VarintFront(b, k);
      var r := ReadVarint(b);
      assert b[..k][r.size..][..r.value % SIZE_T] == b[r.size..][..r.value % SIZE_T];
  }

  lemma VarintFront(b: seq<Byte>, k: nat)
    requires ReadVarint(b).Read? && ReadVarint(b).size <= k <= |b|
    ensures ReadVarint(b[..k]) == ReadVarint(b)
  {
    var n := ReadVarint(b).size;
    assert b[..k][1..n] == b[1..n];
  }

  /** A field that is copied or skipped, cut behind its length. */
  lemma StepCut(s: State, b: seq<Byte>, k: nat)
    requires StepOf(s, b).Go? && (Want(s) == Skip || Want(s).Fetch?)
    requires ReadVarint(b).Read? && ReadVarint(b).size <= k < |b| - |StepOf(s, b).rest|
    ensures StepOf(s, b[..k]).Stop? && StepOf(s, b[..k]).end.ShortValue?
    ensures StepOf(s, b[..k]).end.lack == |b| - |StepOf(s, b).rest| - k
  {
    VarintFront(b, k);
  }

  // ---------------------------------------------------------------- where a run waits

  /** The parser needs more than `x`; of a field whose length is there it has no byte. */
  predicate Waits(s: State, x: seq<Byte>) {
    match Want(s)
    case Finished => false
    case Fixed(n) => |x| < n
    case Length => ReadVarint(x).Short?
    case _ => ReadVarint(x).Short? || (ReadVarint(x).size == |x| && 0 < ReadVarint(x).value < SIZE_T)
  }

  lemma {:induction false} ShortWaits(s: State, x: seq<Byte>)
    requires Startable(s) && Short?(Run(s, x))
    ensures Waits(Run(s, x).st, Left(Run(s, x)))
    ensures OffOf(Run(s, x).st) > 0 ==> Want(Run(s, x).st).Fetch? && ReadVarint(Left(Run(s, x))).Read?
    decreases |x|, Rank(s)
  {
    if StepOf(s, x).Go? {
      StepProgress(s, x);
      SettledStep(s, x);
      ArenaSizeKept(s, x);
      ShortWaits(StepOf(s, x).st, StepOf(s, x).rest);
    } else {
      StopWaits(s, x);
    }
  }

  lemma StopWaits(s: State, x: seq<Byte>)
    requires Startable(s) && StepOf(s, x).Stop? && Short?(StepOf(s, x).end)
    ensures var e := StepOf(s, x).end;
            && Waits(e.st, Left(e))
            && (OffOf(e.st) > 0 ==> Want(e.st).Fetch? && ReadVarint(Left(e)).Read?)
  {
    var e := StepOf(s, x).end;
    StepStable(s, x, []);
    if e.ShortValue? {
      ValueMissing(s, x);
      RoundTrip(e.lack, []);
      assert WriteVarint(e.lack) + [] == WriteVarint(e.lack);
    }
  }

  /** The next step takes all that was kept and more; of a field whose length is kept, exactly its bytes. */
  lemma TakesMore(s: State, x: seq<Byte>, c: seq<Byte>)
    requires Waits(s, x) && StepOf(s, x + c).Go?
    ensures |StepOf(s, x + c).rest| < |c|
    ensures (Want(s) == Skip || Want(s).Fetch?) && ReadVarint(x).Read? ==>
              |c| - |StepOf(s, x + c).rest| == ReadVarint(x).value && |x| <= 9
  {
    if ReadVarint(x).Read? {
      Stable(x, c);
    } else if ReadVarint(x + c).Read? {
      VarintGrows(x, c);
    }
  }

  lemma VarintGrows(x: seq<Byte>, c: seq<Byte>)
    requires ReadVarint(x).Short? && ReadVarint(x + c).Read?
    ensures ReadVarint(x + c).size > |x|
  {
  }

  /** The field a run waits for is none over the limit if the whole has none. */
  lemma {:induction false} WaitsNarrowly(s: State, x: seq<Byte>, y: seq<Byte>, m: nat)
    requires Startable(s) && NarrowFields(s, x + y, m) && Short?(Run(s, x))
    requires StepOf(Run(s, x).st, Left(Run(s, x)) + y).Go?
    ensures Want(Run(s, x).st).Fixed? ==> Want(Run(s, x).st).n <= m
    decreases |x|, Rank(s)
  {
    StepStable(s, x, y);
    if StepOf(s, x).Go? {
      StepProgress(s, x);
      SettledStep(s, x);
      ArenaSizeKept(s, x);
      WaitsNarrowly(StepOf(s, x).st, StepOf(s, x).rest, y, m);
    } else if StepOf(s, x).end.ShortValue? {
      ValueMissing(s, x);
    }
  }

  lemma {:induction false} NothingKept(s: State)
    ensures Short?(Run(s, [])) ==> Run(s, []).ShortLength? && Left(Run(s, [])) == []
    decreases Rank(s)
  {
    if StepOf(s, []).Go? {
      StepProgress(s, []);
      assert StepOf(s, []).rest == [];
      NothingKept(StepOf(s, []).st);
    }
  }

  // ---------------------------------------------------------------- a whole cutting

  /** A copied field of which a piece is missing ends within the next chunk. */
  predicate SmallRest(st: State, raw: seq<Byte>) {
    OffOf(st) > 0 ==> ReadVarint(raw).Read? && ReadVarint(raw).value <= 290
  }

  predicate CanGoOn(h: Session, init: State, p: seq<Byte>, b: seq<Byte>) {
    && Startable(init) && Mirrors(h, init, p) && b != []
    && Run(init, p + b).Accepted? && Run(init, p + b).rest == []
    && NarrowFields(init, p + b, MAX_TRANSACTION_LEN)
    && SmallRest(h.st, h.raw)
  }

  lemma NextStep(h: Session, init: State, p: seq<Byte>, b: seq<Byte>)
    requires CanGoOn(h, init, p, b)
    ensures StepOf(h.st, h.raw + b).Go? && |StepOf(h.st, h.raw + b).rest| < |b| && Waits(h.st, h.raw)
    ensures Want(h.st).Fixed? ==> Want(h.st).n <= MAX_TRANSACTION_LEN
    ensures OffOf(h.st) > 0 ==> Want(h.st).Fetch? && ReadVarint(h.raw).Read?
                                && |b| - |StepOf(h.st, h.raw + b).rest| == ReadVarint(h.raw).value && |h.raw| <= 9
  {
    hide NarrowFields, Waits, StepOf;
    OnePassContinues(h, init, p, b);
    ShortWaits(init, p);
    WaitsEndless(h.st, h.raw, h.raw + b);
    TakesMore(h.st, h.raw, b);
    WaitsNarrowly(init, p, b, MAX_TRANSACTION_LEN);
  }

  lemma WaitsEndless(s: State, x: seq<Byte>, b: seq<Byte>)
    requires Waits(s, x) && Run(s, b).Accepted?
    ensures StepOf(s, b).Go?
  {
  }

  /** A chunk that ends with the next field. */
  lemma WholeField(h: Session, init: State, p: seq<Byte>, b: seq<Byte>, c: nat)
    requires CanGoOn(h, init, p, b) && StepOf(h.st, h.raw + b).Go?
    requires c == |b| - |StepOf(h.st, h.raw + b).rest| && 0 < c <= |b| && CleanCut(h, b[..c])
    ensures var e := Run(h.st, h.raw + b[..c]);
            c < |b| ==> Short?(e) && SmallRest(e.st, Left(e))
  {
    hide NarrowFields, StepOf;
    var w, f := h.raw + b, StepOf(h.st, h.raw + b);
    StepFront(h.st, w);
    assert w[..|w| - |f.rest|] == h.raw + b[..c];
    GoesOn(h.st, h.raw + b[..c]);
    OnePassContinues(h, init, p, b[..c]);
    if c < |b| {
      assert p + b == (p + b[..c]) + b[c..];
      Resume.Resume(init, p + b[..c], b[c..]);
      NothingKept(f.st);
    }
  }

  lemma GoesOn(s: State, b: seq<Byte>)
    ensures StepOf(s, b).Go? ==> Run(s, b) == Run(StepOf(s, b).st, StepOf(s, b).rest)
    ensures StepOf(s, b).Stop? ==> Run(s, b) == StepOf(s, b).end
  {
  }

  /** A chunk that ends inside a field too long for one. */
  lemma PieceOfField(h: Session, b: seq<Byte>, c: nat)
    requires StepOf(h.st, h.raw + b).Go? && Waits(h.st, h.raw)
    requires c == |b| - |StepOf(h.st, h.raw + b).rest| && MAX_TRANSACTION_LEN - |h.raw| < c <= |b|
    requires Want(h.st).Fixed? ==> Want(h.st).n <= MAX_TRANSACTION_LEN
    requires OffOf(h.st) == 0
    ensures |h.raw| <= 9 && PIECE < |b|
    ensures var e := Run(h.st, h.raw + b[..PIECE]);
            Short?(e) && SmallRest(e.st, Left(e))
  {
    LongField(h.st, h.raw, b, c);
    var w := h.raw + b;
    StepCut(h.st, w, |h.raw| + PIECE);
    assert w[..|h.raw| + PIECE] == h.raw + b[..PIECE];
    var e := StepOf(h.st, h.raw + b[..PIECE]).end;
    GoesOn(h.st, h.raw + b[..PIECE]);
    LackBound(h.st, h.raw + b[..PIECE]);
    RoundTrip(e.lack, []);
    assert WriteVarint(e.lack) + [] == WriteVarint(e.lack);
    if Want(h.st) == Skip {
      ValueMissing(h.st, h.raw + b[..PIECE]);
    }
  }

  lemma LongField(s: State, raw: seq<Byte>, b: seq<Byte>, c: nat)
    requires StepOf(s, raw + b).Go? && Waits(s, raw)
    requires c == |b| - |StepOf(s, raw + b).rest| && MAX_TRANSACTION_LEN - |raw| < c <= |b|
    requires Want(s).Fixed? ==> Want(s).n <= MAX_TRANSACTION_LEN
    ensures |raw| <= 9 && (Want(s) == Skip || Want(s).Fetch?) && ReadVarint(raw + b).Read?
    ensures Want(s).Fetch? ==> c <= ARENA_SIZE + 9
  {
  }

  lemma NextCut(h: Session, init: State, p: seq<Byte>, b: seq<Byte>) returns (n: nat)
    requires CanGoOn(h, init, p, b)
    ensures 0 < n <= |b| && |h.raw| + n <= MAX_TRANSACTION_LEN && CleanCut(h, b[..n])
    ensures var e := Run(h.st, h.raw + b[..n]);
            n < |b| ==> Short?(e) && SmallRest(e.st, Left(e))
  {
    hide CanGoOn, Run, StepOf, Waits;
    NextStep(h, init, p, b);
    n := |b| - |StepOf(h.st, h.raw + b).rest|;
    if |h.raw| + n <= MAX_TRANSACTION_LEN {
      WholeField(h, init, p, b, n);
    } else {
      NoLongRest(h, init, p, b, n);
      PieceOfField(h, b, n);
      n := PIECE;
    }
  }

  lemma NoLongRest(h: Session, init: State, p: seq<Byte>, b: seq<Byte>, c: nat)
    requires CanGoOn(h, init, p, b) && |h.raw| + c > MAX_TRANSACTION_LEN
    requires OffOf(h.st) > 0 ==> ReadVarint(h.raw).Read? && c == ReadVarint(h.raw).value && |h.raw| <= 9
    ensures OffOf(h.st) == 0
  {
  }

  /** From any session that can still reach the review, the rest of the bytes can be cut so that it does. */
  lemma {:induction false} Cut(h: Session, init: State, p: seq<Byte>, b: seq<Byte>) returns (chunks: seq<seq<Byte>>)
    requires CanGoOn(h, init, p, b)
    ensures chunks != [] && Concat(chunks) == b && CleanRun(h, chunks) && BufferFits(init, p, chunks)
    decreases |b|
  {
    hide Run, NarrowFields, CleanCut;
    var n := NextCut(h, init, p, b);
    if n == |b| {
      chunks := [b];
      assert chunks[1..] == [] && b[..n] == b;
      assert b + [] == b;
    } else {
      var chunk := b[..n];
      MirrorStep(h, init, p, chunk);
      var fed := Feed(h, chunk, true);
      assert p + b == (p + chunk) + b[n..];
      var others := Cut(fed.session, init, p + chunk, b[n..]);
      chunks := [chunk] + others;
      assert chunks[1..] == others;
      assert chunk + b[n..] == b;
    }
  }
}
