/**
 Stopping for want of bytes and going on later is the same as having had the bytes at once.
 This is the law behind the chunked parser: it holds for one field (`StepStable`, `FieldResumes`)
 and so for a whole run (`Resume`).
 */
module Resume {
  import opened Bytes
  import opened Varint
  import opened TxMachine

  /** No field is half copied. */
  predicate Settled(s: State) {
    s.call.methodOff == 0 && s.coin.cur.off == 0
  }

  function OffOf(s: State): nat {
    if s.stack == 4 then s.call.methodOff else s.coin.cur.off
  }

  /** What the handler keeps of its buffer: the unread tail, or a varint of the missing bytes. */
  function Left(end: Ending): seq<Byte> {
    match end
    case ShortLength(_, rest) => rest
    case ShortValue(_, lack) => WriteVarint(lack)
    case _ => []
  }

  predicate Short?(end: Ending) { end.ShortLength? || end.ShortValue? }

  /** An ending, whatever it says about where the next piece of a split field goes. */
  function Forget(end: Ending): Ending {
    match end
    case ShortValue(st, lack) => ShortValue(SetOff(st, 0), lack)
    case _ => end
  }

  /** The same ending, but that the kept place of the next piece may be further in front. */
  predicate Trails(resumed: Ending, whole: Ending) {
    && Forget(resumed) == Forget(whole)
    && (Short?(whole) ==> OffOf(resumed.st) <= OffOf(whole.st))
  }

  lemma SettledStep(s: State, b: seq<Byte>)
    requires Settled(s) && StepOf(s, b).Go?
    ensures Settled(StepOf(s, b).st)
  {
  }

  lemma DropAppend(x: seq<Byte>, y: seq<Byte>, k: nat)
    requires k <= |x|
    ensures (x + y)[k..] == x[k..] + y
  {
  }

  /** More bytes behind the field being read change nothing. */
  lemma StepStable(s: State, x: seq<Byte>, y: seq<Byte>)
    requires Settled(s)
    ensures match StepOf(s, x)
            case Go(st, rest) => StepOf(s, x + y) == Go(st, rest + y)
            case Stop(Accepted(st, rest)) => StepOf(s, x + y) == Stop(Accepted(st, rest + y))
            case Stop(ShortLength(st, rest)) => st == s && rest == x
            case Stop(ShortValue(_, _)) => true
            case Stop(end) => StepOf(s, x + y) == Stop(end)
  {
    if ReadVarint(x).Read? {
      Stable(x, y);
    }
    match Want(s)
    case Finished =>
    case Fixed(n) =>
      if n <= |x| {
        assert (x + y)[..n] == x[..n] && (x + y)[n..] == x[n..] + y;
      }
    case Length =>
      if ReadVarint(x).Read? {
        var k := ReadVarint(x).size;
        assert (x + y)[k..] == x[k..] + y;
      }
    case Skip =>
      if ReadVarint(x).Read? {
        var k := ReadVarint(x).size;
        DropAppend(x, y, k);
        if ReadVarint(x).value % SIZE_T <= |x| - k {
          SkipStable(s, ReadVarint(x).value % SIZE_T, x[k..], y);
        }
      }
    case Fetch(at, off) =>
      if ReadVarint(x).Read? {
        var k := ReadVarint(x).size;
        DropAppend(x, y, k);
        FetchStable(s, at, off, ReadVarint(x).value % SIZE_T, x[k..], y);
      }
  }

  lemma SkipStable(s: State, n: nat, p: seq<Byte>, y: seq<Byte>)
    requires n <= |p|
    ensures SkipPayload(s, n, p + y) == Go(Skipped(s), p[n..] + y)
  {
    assert (p + y)[n..] == p[n..] + y;
  }

  lemma FetchStable(s: State, at: nat, off: nat, n: nat, p: seq<Byte>, y: seq<Byte>)
    ensures FetchPayload(s, at, off, n, p) == Stop(Stray) ==> FetchPayload(s, at, off, n, p + y) == Stop(Stray)
    ensures FetchPayload(s, at, off, n, p).Go? ==>
              FetchPayload(s, at, off, n, p + y)
              == Go(FetchPayload(s, at, off, n, p).st, FetchPayload(s, at, off, n, p).rest + y)
  {
    if n <= |p| {
      assert (p + y)[..n] == p[..n] && (p + y)[n..] == p[n..] + y;
    }
  }

  lemma PokeTwice(mem: seq<Byte>, at: nat, x: seq<Byte>, y: seq<Byte>)
    requires at + |x| + |y| <= |mem|
    ensures Poke(Poke(mem, at, x), at + |x|, y) == Poke(mem, at, x + y)
  {
    assert Poke(mem, at, x)[..at + |x|] == mem[..at] + x;
    assert Poke(mem, at, x)[at + |x| + |y|..] == mem[at + |x| + |y|..];
  }

  /** `w` is a varint of `lack` with `y` behind it. */
  predicate Announces(w: seq<Byte>, lack: nat, y: seq<Byte>) {
    ReadVarint(w).Read? && ReadVarint(w).value == lack && w[ReadVarint(w).size..] == y
  }

  lemma WrittenAnnounces(lack: nat, y: seq<Byte>)
    requires lack < SIZE_T
    ensures Announces(WriteVarint(lack) + y, lack, y)
  {
    RoundTrip(lack, y);
  }

  lemma Extended(x: seq<Byte>, y: seq<Byte>, v: nat, p: seq<Byte>)
    requires Announces(x, v, p)
    ensures Announces(x + y, v, p + y)
  {
    Stable(x, y);
    DropAppend(x, y, ReadVarint(x).size);
  }

  /** The two pieces of a copied field against the whole of it. */
  lemma PiecesResume(s: State, at: nat, n: nat, p: seq<Byte>, y: seq<Byte>)
    requires |s.arena.mem| == ARENA_SIZE && |p| < n && at + |p| <= ARENA_SIZE
    ensures var st := SetOff(Store(s, at, p), |p|);
            var whole, resumed := FetchPayload(s, at, 0, n, p + y), FetchPayload(st, at, |p|, n - |p|, y);
            && (n - |p| <= |y| || |p| == 0 ==> whole == resumed)
            && (n - |p| > |y| ==> whole.Stop? && resumed.Stop? && Trails(resumed.end, whole.end))
  {
    var lack := n - |p|;
    var m := Min(lack, |y|);
    assert (p + y)[..Min(n, |p + y|)] == p + y[..m];
    if at + |p| + m <= ARENA_SIZE {
      PokeTwice(s.arena.mem, at, p, y[..m]);
    }
    if lack <= |y| {
      assert (p + y)[n..] == y[lack..];
    }
  }

  lemma FetchShort(s: State, at: nat, n: nat, p: seq<Byte>)
    ensures var f := FetchPayload(s, at, 0, n, p);
            f.Stop? && f.end.ShortValue? ==>
              |p| < n && at + |p| <= ARENA_SIZE
              && f.end == ShortValue(SetOff(Store(s, at, p), |p|), n - |p|)
  {
    if |p| < n {
      assert p[..Min(n, |p|)] == p;
    }
  }

  /** A skipped field cut in two. */
  lemma RestIsSkipped(s: State, n: nat, p: seq<Byte>, y: seq<Byte>)
    requires |p| < n
    ensures SkipPayload(s, n, p + y) == SkipPayload(s, n - |p|, y)
  {
    if n <= |p + y| {
      assert (p + y)[n..] == y[n - |p|..];
    }
  }

  lemma StepsToSkip(s: State, b: seq<Byte>, v: nat, p: seq<Byte>)
    requires Want(s) == Skip && Announces(b, v, p)
    ensures StepOf(s, b) == SkipPayload(s, v % SIZE_T, p)
  {
  }

  lemma StepsToFetch(s: State, b: seq<Byte>, v: nat, p: seq<Byte>)
    requires Want(s).Fetch? && Announces(b, v, p)
    ensures StepOf(s, b) == FetchPayload(s, Want(s).at, Want(s).off, v % SIZE_T, p)
  {
  }

  lemma StillFetching(s: State, at: nat, p: seq<Byte>, off: nat)
    requires Want(s).Fetch?
    ensures var st := SetOff(Store(s, at, p), off);
            && Want(st) == Fetch(Want(s).at, off)
            && OffOf(st) == off
            && |st.arena.mem| == |s.arena.mem|
  {
  }

  lemma FetchStart(s: State)
    requires Settled(s) && Want(s).Fetch?
    ensures Want(s).off == 0
  {
  }

  lemma ValueMissing(s: State, x: seq<Byte>)
    requires StepOf(s, x).Stop? && StepOf(s, x).end.ShortValue?
    ensures Want(s) == Skip || Want(s).Fetch?
    ensures Want(s) == Skip ==> StepOf(s, x).end.st == s
    ensures ReadVarint(x).Read? && 0 < StepOf(s, x).end.lack < SIZE_T
  {
  }

  /** One field, cut anywhere: the varint of what is missing stands for the rest of it. */
  lemma FieldResumes(s: State, x: seq<Byte>, y: seq<Byte>)
    requires Settled(s) && |s.arena.mem| == ARENA_SIZE
    requires StepOf(s, x).Stop? && StepOf(s, x).end.ShortValue?
    ensures var ShortValue(st, lack) := StepOf(s, x).end;
            var whole, resumed := StepOf(s, x + y), StepOf(st, WriteVarint(lack) + y);
            && 0 < lack < SIZE_T
            && |st.arena.mem| == ARENA_SIZE
            && (lack <= |y| || OffOf(st) == 0 ==> whole == resumed)
            && (whole == resumed || (whole.Stop? && resumed.Stop? && Trails(resumed.end, whole.end)))
  {
    var ShortValue(st, lack) := StepOf(s, x).end;
    ValueMissing(s, x);
    var v, p := ReadVarint(x).value, x[ReadVarint(x).size..];
    var w := WriteVarint(lack) + y;
    assert Announces(x, v, p);
    Extended(x, y, v, p);
    WrittenAnnounces(lack, y);
    SmallModulus(lack);
    if Want(s) == Skip {
      StepsToSkip(s, x, v, p);
      StepsToSkip(s, x + y, v, p + y);
      StepsToSkip(s, w, lack, y);
      RestIsSkipped(s, v % SIZE_T, p, y);
    } else {
      var at := Want(s).at;
      FetchStart(s);
      StepsToFetch(s, x, v, p);
      StepsToFetch(s, x + y, v, p + y);
      FetchShort(s, at, v % SIZE_T, p);
      StillFetching(s, at, p, |p|);
      StepsToFetch(st, w, lack, y);
      PiecesResume(s, at, v % SIZE_T, p, y);
    }
  }

  lemma {:induction false} LackBound(s: State, b: seq<Byte>)
    ensures Run(s, b).ShortValue? ==> 0 < Run(s, b).lack < SIZE_T
    decreases |b|, Rank(s)
  {
    if StepOf(s, b).Go? {
      StepProgress(s, b);
      LackBound(StepOf(s, b).st, StepOf(s, b).rest);
    } else if StepOf(s, b).end.ShortValue? {
      ValueMissing(s, b);
    }
  }

  lemma ArenaSizeKept(s: State, b: seq<Byte>)
    requires StepOf(s, b).Go?
    ensures |StepOf(s, b).st.arena.mem| == |s.arena.mem|
  {
  }

  /** The resumption law. */
  lemma {:induction false} Resume(s: State, x: seq<Byte>, y: seq<Byte>)
    requires Settled(s) && |s.arena.mem| == ARENA_SIZE
    ensures match Run(s, x)
            case Accepted(st, rest) => Run(s, x + y) == Accepted(st, rest + y)
            case ShortLength(st, rest) =>
              && Settled(st) && |st.arena.mem| == ARENA_SIZE
              && Run(s, x + y) == Run(st, rest + y)
            case ShortValue(st, lack) =>
              && 0 < lack < SIZE_T && |st.arena.mem| == ARENA_SIZE
              && (lack <= |y| || OffOf(st) == 0 ==> Run(s, x + y) == Run(st, WriteVarint(lack) + y))
              && Trails(Run(st, WriteVarint(lack) + y), Run(s, x + y))
            case end => Run(s, x + y) == end
    decreases |x|, Rank(s)
  {
    StepStable(s, x, y);
    match StepOf(s, x)
    case Go(s', rest) =>
      StepProgress(s, x);
      SettledStep(s, x);
      ArenaSizeKept(s, x);
      Resume(s', rest, y);
    case Stop(end) =>
      if end.ShortValue? {
        FieldResumes(s, x, y);
        SameStepSameRun(s, x + y, end.st, WriteVarint(end.lack) + y);
      }
  }

  lemma SameStepSameRun(s1: State, b1: seq<Byte>, s2: State, b2: seq<Byte>)
    ensures StepOf(s1, b1) == StepOf(s2, b2) ==> Run(s1, b1) == Run(s2, b2)
    ensures StepOf(s1, b1).Stop? && StepOf(s2, b2).Stop? ==>
              Run(s1, b1) == StepOf(s1, b1).end && Run(s2, b2) == StepOf(s2, b2).end
  {
  }
}
