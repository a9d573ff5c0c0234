/**
 What an earlier run left in the arena does not matter: a block is zeroed when it is taken, and nothing is read outside
 the blocks.
 */
module Forgetful {
  import opened Bytes
  import opened Varint
  import opened TxMachine
  import opened Budget
  import opened OnePass

  /** The same state, but for arena bytes that are not handed out. */
  predicate Like(s1: State, s2: State) {
    && s1.(arena := s2.arena) == s2 && s1.arena.used == s2.arena.used
    && Agree(s1.arena.mem, s2.arena.mem, s1.arena.used)
  }

  predicate NextLike(n1: Next, n2: Next) {
    match (n1, n2)
    case (Into(st1), Into(st2)) => Like(st1, st2)
    case _ => n1 == n2
  }

  predicate EndLike(e1: Ending, e2: Ending) {
    match (e1, e2)
    case (Accepted(st1, rest1), Accepted(st2, rest2)) => Like(st1, st2) && rest1 == rest2
    case (ShortLength(st1, rest1), ShortLength(st2, rest2)) => Like(st1, st2) && rest1 == rest2
    case (ShortValue(st1, lack1), ShortValue(st2, lack2)) => Like(st1, st2) && lack1 == lack2
    case _ => e1 == e2
  }

  predicate StepLike(f1: Step, f2: Step) {
    match (f1, f2)
    case (Go(st1, rest1), Go(st2, rest2)) => Like(st1, st2) && rest1 == rest2
    case (Stop(e1), Stop(e2)) => EndLike(e1, e2)
    case _ => false
  }

  lemma SameStyle(s1: State, s2: State)
    requires Like(s1, s2) && s1.call.methodName == At(55) && s1.arena.used >= 95
    ensures StyleOf(s1) == StyleOf(s2)
  {
    var m1, m2, n := s1.arena.mem, s2.arena.mem, s1.arena.used;
    SameSlice(m1, m2, n, 55, 63);
    SameSlice(m1, m2, n, 55, 67);
    SameSlice(m1, m2, n, 55, 64);
    SameSlice(m1, m2, n, 55, 68);
    assert m1[63] == m1[55..64][8] && m2[63] == m2[55..64][8];
    assert m1[67] == m1[55..68][12] && m2[67] == m2[55..68][12];
  }

  lemma SameSlice(m1: seq<Byte>, m2: seq<Byte>, n: nat, i: nat, j: nat)
    requires Agree(m1, m2, n) && i <= j <= n
    ensures m1[i..j] == m2[i..j]
  {
    assert m1[i..j] == m1[..n][i..j] && m2[i..j] == m2[..n][i..j];
  }

  lemma PokedAlike(m1: seq<Byte>, m2: seq<Byte>, at: nat, d: seq<Byte>, n: nat)
    requires Agree(m1, m2, n)
    ensures Agree(Poke(m1, at, d), Poke(m2, at, d), n)
    ensures at <= n <= at + |d| <= |m1| ==> Agree(Poke(m1, at, d), Poke(m2, at, d), at + |d|)
  {
    var p1, p2 := Poke(m1, at, d), Poke(m2, at, d);
    if at + |d| <= |m1| {
      forall i | 0 <= i < |m1| && (i < n || at <= i < at + |d|)
        ensures p1[i] == p2[i]
      {
        assert m1[..n] == m2[..n];
        if i < n {
          assert m1[i] == m1[..n][i] == m2[..n][i] == m2[i];
        }
      }
    }
  }

  lemma MallocLike(s1: State, s2: State, n: nat)
    requires Like(s1, s2) && |s1.arena.mem| == ARENA_SIZE
    ensures match (Malloc(s1.arena, n), Malloc(s2.arena, n))
            case (Room(at1, a1), Room(at2, a2)) =>
              at1 == at2 && a1.used == a2.used && Agree(a1.mem, a2.mem, a1.used)
            case (NoRoom, NoRoom) => true
            case _ => false
  {
    hide Poke;
    PokedAlike(s1.arena.mem, s2.arena.mem, s1.arena.used, Zeros(n), s1.arena.used);
  }

  lemma StoreLike(s1: State, s2: State, at: nat, d: seq<Byte>)
    requires Like(s1, s2)
    ensures Like(Store(s1, at, d), Store(s2, at, d))
  {
    hide Poke;
    PokedAlike(s1.arena.mem, s2.arena.mem, at, d, s1.arena.used);
  }

  lemma TakeCallLike(s1: State, s2: State, d: seq<Byte>)
    requires Like(s1, s2) && Layout(s1) && s1.stack == 4 && Want(s1).Fixed?
    ensures NextLike(TakeCall(s1, d), TakeCall(s2, d))
  {
    hide Agree, Poke, CStringIs, LittleEndian, Malloc;
    if s1.call.stack >= 5 {
      SameStyle(s1, s2);
    }
    match s1.call.stack
    case 0 => MallocLike(s1, s2, 23);
    case 1 =>
      StoreLike(s1, s2, s1.call.contractAddress.Pos(), d);
      MallocLike(Store(s1, s1.call.contractAddress.Pos(), d), Store(s2, s1.call.contractAddress.Pos(), d), 32);
    case 2 => StoreLike(s1, s2, s1.call.value.Pos(), d);
    case 4 => MallocLike(s1, s2, 40);
    case _ =>
      if s1.call.stack >= 8 {
        TakeArgLike(s1, s2, d);
      }
  }

  lemma TakeArgLike(s1: State, s2: State, d: seq<Byte>)
    requires Like(s1, s2) && Layout(s1) && s1.stack == 4 && s1.call.stack >= 8
    ensures NextLike(TakeCall(s1, d), TakeCall(s2, d))
  {
    SameStyle(s1, s2);
    hide Agree, Poke, CStringIs, LittleEndian, Layout;
    if s1.call.inner == 0 {
      var c := s1.call.(oneCount := LittleEndian(d), oneIndex := 0, inner := 1);
      assert StyleOf(s1.(call := c)) == StyleOf(s2.(call := c));
    } else {
      StoreLike(s1, s2, ElementOf(s1.call, StyleOf(s1)).Pos(), d + [0]);
    }
  }

  lemma TakeCoinLike(s1: State, s2: State, d: seq<Byte>)
    requires Like(s1, s2) && Layout(s1) && s1.stack >= 6
    ensures NextLike(TakeCoin(s1, d), TakeCoin(s2, d))
  {
    MallocLike(s1, s2, 40);
    MallocLike(s1, s2, 32);
    hide Agree, Poke, LittleEndian, Malloc, Layout;
    StoreLike(s1, s2, s1.coin.cur.amount.Pos(), d);
  }

  lemma TakeLike(s1: State, s2: State, d: seq<Byte>)
    requires Like(s1, s2) && Layout(s1) && Want(s1).Fixed?
    ensures NextLike(Take(s1, d), Take(s2, d))
  {
    if s1.stack == 4 {
      TakeCallLike(s1, s2, d);
    } else if s1.stack >= 6 {
      TakeCoinLike(s1, s2, d);
    }
  }

  lemma TakeLengthLike(s1: State, s2: State, v: nat)
    requires Like(s1, s2) && Layout(s1) && Want(s1) == Length
    ensures NextLike(TakeLength(s1, v), TakeLength(s2, v))
  {
    if s1.stack == 4 {
      SameStyle(s1, s2);
      MallocLike(s1, s2, (v + 1) % SIZE_T);
    }
  }

  lemma SkippedLike(s1: State, s2: State)
    requires Like(s1, s2)
    ensures Like(Skipped(s1), Skipped(s2))
  {
    hide Agree;
  }

  lemma FetchLike(s1: State, s2: State, at: nat, off: nat, n: nat, p: seq<Byte>)
    requires Like(s1, s2)
    ensures StepLike(FetchPayload(s1, at, off, n, p), FetchPayload(s2, at, off, n, p))
  {
    hide Agree, Poke;
    StoreLike(s1, s2, at + off, p[..Min(n, |p|)]);
  }

  lemma WantLike(s1: State, s2: State)
    requires Like(s1, s2) && Layout(s1)
    ensures Want(s1) == Want(s2)
  {
    if s1.stack == 4 && s1.call.stack >= 5 {
      SameStyle(s1, s2);
    }
  }

  lemma StepsAlike(s1: State, s2: State, b: seq<Byte>)
    requires Like(s1, s2) && Layout(s1)
    ensures StepLike(StepOf(s1, b), StepOf(s2, b))
  {
    hide ReadVarint, Layout, Like, Take, TakeLength, Skipped;
    WantLike(s1, s2);
    var r := ReadVarint(b);
    match Want(s1)
    case Finished =>
    case Fixed(n) =>
      if n <= |b| {
        TakeLike(s1, s2, b[..n]);
      }
    case Length =>
      if r.Read? {
        TakeLengthLike(s1, s2, r.value);
      }
    case Skip =>
      SkippedLike(s1, s2);
    case Fetch(at, off) =>
      OffLike(s1, s2, 0);
      if r.Read? {
        FetchLike(s1, s2, at, off, r.value % SIZE_T, b[r.size..]);
      }
  }

  lemma OffLike(s1: State, s2: State, off: nat)
    requires Like(s1, s2)
    ensures Like(SetOff(s1, off), SetOff(s2, off))
  {
    hide Agree;
  }

  lemma {:induction false} RunsAlike(s1: State, s2: State, b: seq<Byte>)
    requires Like(s1, s2) && Layout(s1)
    ensures EndLike(Run(s1, b), Run(s2, b))
    decreases |b|, Rank(s1)
  {
    hide StepOf, Layout, Like;
    StepsAlike(s1, s2, b);
    WantLike(s1, s2);
    if StepOf(s1, b).Go? {
      StepProgress(s1, b);
      StepProgress(s2, b);
      LayoutStep(s1, b);
      RunsAlike(StepOf(s1, b).st, StepOf(s2, b).st, StepOf(s1, b).rest);
    }
  }

  /**
   Two runs that find whatever in the arena end alike: nothing of an earlier run is in the part that is handed out.
   Before the type is read nothing is handed out at all.
   */
  lemma ArenaForgotten(a1: Arena, a2: Arena, b: seq<Byte>)
    requires a1.Valid() && a2.Valid()
    ensures if |b| < 2 then
              Run(Fresh(a1), b) == ShortLength(Fresh(a1), b) && Run(Fresh(a2), b) == ShortLength(Fresh(a2), b)
            else EndLike(Run(Fresh(a1), b), Run(Fresh(a2), b))
  {
    hide Run, LittleEndian;
    TypeTaken(a1, b);
    TypeTaken(a2, b);
    if |b| >= 2 {
      RunsAlike(Typed(a1, b), Typed(a2, b), b[2..]);
    }
  }

  function Typed(a: Arena, b: seq<Byte>): State
    requires |b| >= 2
  {
    Fresh(a).(stack := 1, typ := LittleEndian(b[..2]), arena := a.(used := 0))
  }

  lemma TypeTaken(a: Arena, b: seq<Byte>)
    requires a.Valid()
    ensures if |b| < 2 then Run(Fresh(a), b) == ShortLength(Fresh(a), b)
            else Run(Fresh(a), b) == Run(Typed(a, b), b[2..]) && Layout(Typed(a, b))
  {
    hide LittleEndian;
    assert StepOf(Fresh(a), b) == if |b| < 2 then Stop(ShortLength(Fresh(a), b)) else Go(Typed(a, b), b[2..]);
  }
}
