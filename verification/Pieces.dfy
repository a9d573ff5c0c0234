/**
 A copied field (an address or a method name) that arrives in any number of pieces.  Only the length of the last
 piece is kept as the place of the next one, so from the third piece on bytes go to the wrong place.
 */
module Pieces {
  import opened Bytes
  import opened Varint
  import opened TxMachine
  import opened Resume
  import opened Chunks
  import opened LoneOutput

  // ---------------------------------------------------------------- where the bytes go

  /** The pieces as the code lays them: the first at `off`, each next one at the length of the one before it. */
  function Laid(mem: seq<Byte>, at: nat, off: nat, pieces: seq<seq<Byte>>): (m: seq<Byte>)
    ensures |m| == |mem|
    decreases |pieces|
  {
    if pieces == [] then mem else Laid(Poke(mem, at + off, pieces[0]), at, |pieces[0]|, pieces[1..])
  }

  /** Every piece ends inside a block of `n` bytes. */
  predicate Inside(off: nat, pieces: seq<seq<Byte>>, n: nat)
    decreases |pieces|
  {
    pieces == [] || (off + |pieces[0]| <= n && Inside(|pieces[0]|, pieces[1..], n))
  }

  lemma {:induction false} InsideConcat(off: nat, pieces: seq<seq<Byte>>, n: nat)
    requires off + |Concat(pieces)| <= n
    ensures Inside(off, pieces, n)
    decreases |pieces|
  {
    if pieces != [] {
      InsideConcat(|pieces[0]|, pieces[1..], n);
    }
  }

  /** What is written to the whole memory is what is written to the block. */
  lemma {:induction false} LaidInBlock(mem: seq<Byte>, at: nat, off: nat, pieces: seq<seq<Byte>>, n: nat)
    requires at + n <= |mem| && Inside(off, pieces, n)
    ensures Laid(mem, at, off, pieces) == Poke(mem, at, Laid(mem[at..at + n], 0, off, pieces))
    decreases |pieces|
  {
    if pieces == [] {
      assert mem[..at] + mem[at..at + n] + mem[at + n..] == mem;
    } else {
      var block := mem[at..at + n];
      var m, k := Poke(mem, at + off, pieces[0]), Poke(block, off, pieces[0]);
      assert m[at..at + n] == k;
      assert m[..at] == mem[..at] && m[at + n..] == mem[at + n..];
      LaidInBlock(m, at, |pieces[0]|, pieces[1..], n);
    }
  }

  /** What a block that held `block` shows of the pieces. */
  function Seen(block: seq<Byte>, pieces: seq<seq<Byte>>): seq<Byte> { Laid(block, 0, 0, pieces) }

  lemma PokeReadBack(mem: seq<Byte>, at: nat, d: seq<Byte>)
    requires at + |d| <= |mem|
    ensures Poke(mem, at, d)[at..at + |d|] == d
  {
  }

  /** The pieces are stored as the whole exactly when the block shows them as the whole. */
  lemma StoredExactly(mem: seq<Byte>, at: nat, pieces: seq<seq<Byte>>)
    requires at + |Concat(pieces)| <= |mem|
    ensures var whole := Concat(pieces);
            && Laid(mem, at, 0, pieces)[at..at + |whole|] == Seen(mem[at..at + |whole|], pieces)
            && (Laid(mem, at, 0, pieces) == Poke(mem, at, whole) <==> Seen(mem[at..at + |whole|], pieces) == whole)
  {
    hide *;
    var whole := Concat(pieces);
    StoredInBlock(mem, at, pieces);
    SeenLength(mem[at..at + |whole|], pieces);
    PokesDiffer(mem, at, Seen(mem[at..at + |whole|], pieces), whole);
  }

  lemma StoredInBlock(mem: seq<Byte>, at: nat, pieces: seq<seq<Byte>>)
    requires at + |Concat(pieces)| <= |mem|
    ensures Laid(mem, at, 0, pieces) == Poke(mem, at, Seen(mem[at..at + |Concat(pieces)|], pieces))
  {
    hide Laid, Poke, Concat;
    InsideConcat(0, pieces, |Concat(pieces)|);
    LaidInBlock(mem, at, 0, pieces, |Concat(pieces)|);
  }

  lemma SeenLength(block: seq<Byte>, pieces: seq<seq<Byte>>)
    ensures |Seen(block, pieces)| == |block|
  {
  }

  lemma PokesDiffer(mem: seq<Byte>, at: nat, d: seq<Byte>, e: seq<Byte>)
    requires |d| == |e| && at + |d| <= |mem|
    ensures Poke(mem, at, d)[at..at + |d|] == d
    ensures Poke(mem, at, d) == Poke(mem, at, e) <==> d == e
  {
    PokeReadBack(mem, at, d);
    PokeReadBack(mem, at, e);
  }

  // ---------------------------------------------------------------- byte by byte

  /** Where piece `j` is laid: the first at `off`, each other one at the length of the one before it. */
  function Start(off: nat, pieces: seq<seq<Byte>>, j: nat): nat
    requires j < |pieces|
  {
    if j == 0 then off else |pieces[j - 1]|
  }

  predicate Covers(off: nat, pieces: seq<seq<Byte>>, j: nat, i: nat)
    requires j < |pieces|
  {
    Start(off, pieces, j) <= i < Start(off, pieces, j) + |pieces[j]|
  }

  /** Piece `j` is the last that is laid over byte `i`. */
  predicate LastOver(off: nat, pieces: seq<seq<Byte>>, j: nat, i: nat)
    requires j < |pieces|
  {
    Covers(off, pieces, j, i) && forall k :: j < k < |pieces| ==> !Covers(off, pieces, k, i)
  }

  /** A byte that was laid is the one of the last piece over it; a byte that none is over is as it was. */
  predicate LaidByte(mem: seq<Byte>, off: nat, pieces: seq<seq<Byte>>, m: seq<Byte>, i: nat)
    requires i < |mem| == |m|
  {
    && (forall j :: 0 <= j < |pieces| && LastOver(off, pieces, j, i) ==> m[i] == pieces[j][i - Start(off, pieces, j)])
    && ((forall j :: 0 <= j < |pieces| ==> !Covers(off, pieces, j, i)) ==> m[i] == mem[i])
  }

  /** Without the first piece the others are numbered one lower, and lie where they lay. */
  lemma CoversStep(off: nat, pieces: seq<seq<Byte>>, i: nat)
    requires pieces != []
    ensures forall k :: 1 <= k < |pieces| ==>
              && Start(off, pieces, k) == Start(|pieces[0]|, pieces[1..], k - 1)
              && Covers(off, pieces, k, i) == Covers(|pieces[0]|, pieces[1..], k - 1, i)
  {
  }

  lemma LastStep(off: nat, pieces: seq<seq<Byte>>, j: nat, i: nat)
    requires j < |pieces| && LastOver(off, pieces, j, i)
    ensures j > 0 ==> LastOver(|pieces[0]|, pieces[1..], j - 1, i)
    ensures j == 0 ==> forall k :: 0 <= k < |pieces[1..]| ==> !Covers(|pieces[0]|, pieces[1..], k, i)
  {
    CoversStep(off, pieces, i);
    hide Covers;
    forall k | 0 <= k < |pieces[1..]| && k > j - 1
      ensures !Covers(|pieces[0]|, pieces[1..], k, i)
    {
      assert !Covers(off, pieces, k + 1, i);
    }
  }

  lemma LaidByteStep(mem: seq<Byte>, off: nat, pieces: seq<seq<Byte>>, m: seq<Byte>, i: nat)
    requires pieces != [] && i < |mem| == |m| && off + |pieces[0]| <= |mem|
    requires LaidByte(Poke(mem, off, pieces[0]), |pieces[0]|, pieces[1..], m, i)
    ensures LaidByte(mem, off, pieces, m, i)
  {
    var p, others := pieces[0], pieces[1..];
    CoversStep(off, pieces, i);
    forall j | 0 <= j < |pieces| && LastOver(off, pieces, j, i)
      ensures m[i] == pieces[j][i - Start(off, pieces, j)]
    {
      LastStep(off, pieces, j, i);
    }
    if forall j :: 0 <= j < |pieces| ==> !Covers(off, pieces, j, i) {
      assert !Covers(off, pieces, 0, i);
      forall k | 0 <= k < |others| ensures !Covers(|p|, others, k, i) {
        assert !Covers(off, pieces, k + 1, i);
      }
    }
  }

  lemma {:induction false} LaidBytes(mem: seq<Byte>, off: nat, pieces: seq<seq<Byte>>, i: nat)
    requires i < |mem| && Inside(off, pieces, |mem|)
    ensures LaidByte(mem, off, pieces, Laid(mem, 0, off, pieces), i)
    decreases |pieces|
  {
    if pieces != [] {
      LaidBytes(Poke(mem, off, pieces[0]), |pieces[0]|, pieces[1..], i);
      LaidByteStep(mem, off, pieces, Laid(mem, 0, off, pieces), i);
    }
  }

  lemma {:induction false} SomeLast(off: nat, pieces: seq<seq<Byte>>, n: nat, i: nat) returns (j: int)
    requires n <= |pieces| && forall k :: n <= k < |pieces| ==> !Covers(off, pieces, k, i)
    ensures -1 <= j < n
    ensures j >= 0 ==> LastOver(off, pieces, j, i)
    ensures j < 0 ==> forall k :: 0 <= k < |pieces| ==> !Covers(off, pieces, k, i)
  {
    if n == 0 {
      j := -1;
    } else if Covers(off, pieces, n - 1, i) {
      j := n - 1;
    } else {
      j := SomeLast(off, pieces, n - 1, i);
    }
  }

  /** The byte at `i` of a zeroed block is that of the last piece laid over it. */
  predicate ShowsByte(pieces: seq<seq<Byte>>, i: nat, b: Byte) {
    && (forall j :: 0 <= j < |pieces| && LastOver(0, pieces, j, i) ==> b == pieces[j][i - Start(0, pieces, j)])
    && ((forall j :: 0 <= j < |pieces| ==> !Covers(0, pieces, j, i)) ==> b == 0)
  }

  /**
   Which bytes come out, without replaying the copies: byte `i` is that of the last piece over it, zero if there is
   none; and the pieces come out as the whole exactly when that is so of every byte of the whole.
   */
  lemma SeenExactly(pieces: seq<seq<Byte>>)
    ensures var whole := Concat(pieces);
            var seen := Seen(Zeros(|whole|), pieces);
            && |seen| == |whole|
            && (forall i :: 0 <= i < |whole| ==> ShowsByte(pieces, i, seen[i]))
            && (seen == whole <==> forall i :: 0 <= i < |whole| ==> ShowsByte(pieces, i, whole[i]))
  {
    var whole := Concat(pieces);
    var seen := Seen(Zeros(|whole|), pieces);
    InsideConcat(0, pieces, |whole|);
    hide Laid, Concat, Covers, LastOver;
    forall i | 0 <= i < |whole|
      ensures ShowsByte(pieces, i, seen[i])
      ensures ShowsByte(pieces, i, whole[i]) ==> whole[i] == seen[i]
    {
      LaidBytes(Zeros(|whole|), 0, pieces, i);
      var j := SomeLast(0, pieces, |pieces|, i);
    }
  }

  lemma PokeAll(mem: seq<Byte>, d: seq<Byte>)
    requires |mem| == |d|
    ensures Poke(mem, 0, d) == d
  {
  }

  /** Two pieces are always right. */
  lemma TwoPieces(block: seq<Byte>, x: seq<Byte>, y: seq<Byte>)
    requires |block| == |x| + |y|
    ensures Seen(block, [x, y]) == x + y
  {
    hide Laid, Poke;
    assert [x, y] == [x] + [y] && [y] == [y] + [];
    LaidFirst(block, 0, x, [y]);
    LaidFirst(Poke(block, 0, x), |x|, y, []);
    LaidNone(Poke(Poke(block, 0, x), |x|, y), |y|);
    PokeTwice(block, 0, x, y);
    PokeAll(block, x + y);
  }

  lemma LaidFirst(mem: seq<Byte>, off: nat, p: seq<Byte>, others: seq<seq<Byte>>)
    ensures Laid(mem, 0, off, [p] + others) == Laid(Poke(mem, off, p), 0, |p|, others)
  {
    assert ([p] + others)[1..] == others;
  }

  lemma LaidNone(mem: seq<Byte>, off: nat)
    ensures Laid(mem, 0, off, []) == mem
  {
  }

  /**
   Three pieces in a zeroed block: the third lies over the second, at its length instead of behind it.  They come out
   right exactly when that shows the same bytes.
   */
  lemma ThreePieces(x: seq<Byte>, y: seq<Byte>, z: seq<Byte>)
    ensures var n := |x| + |y| + |z|;
            && Seen(Zeros(n), [x, y, z]) == Poke(x + y + Zeros(|z|), |y|, z)
            && (Seen(Zeros(n), [x, y, z]) == x + y + z <==>
                  forall i :: 0 <= i < n ==>
                    (x + y + z)[i] == (if |y| <= i < |y| + |z| then z[i - |y|] else (x + y + Zeros(|z|))[i]))
  {
    ThreeLaid(x, y, z);
    hide Laid;
    var n := |x| + |y| + |z|;
    var seen := Poke(x + y + Zeros(|z|), |y|, z);
    assert forall i :: 0 <= i < n ==>
             seen[i] == (if |y| <= i < |y| + |z| then z[i - |y|] else (x + y + Zeros(|z|))[i]);
  }

  lemma ThreeLaid(x: seq<Byte>, y: seq<Byte>, z: seq<Byte>)
    ensures Seen(Zeros(|x| + |y| + |z|), [x, y, z]) == Poke(x + y + Zeros(|z|), |y|, z)
  {
    hide Laid, Poke;
    var block := Zeros(|x| + |y| + |z|);
    assert [x, y, z] == [x] + [y, z] && [y, z] == [y] + [z] && [z] == [z] + [];
    LaidFirst(block, 0, x, [y, z]);
    LaidFirst(Poke(block, 0, x), |x|, y, [z]);
    PokeTwice(block, 0, x, y);
    PokeZeros(x + y, |z|);
    LaidFirst(x + y + Zeros(|z|), |y|, z, []);
    LaidNone(Poke(x + y + Zeros(|z|), |y|, z), |z|);
  }

  lemma PokeZeros(d: seq<Byte>, n: nat)
    ensures Poke(Zeros(|d| + n), 0, d) == d + Zeros(n)
  {
  }

  // ---------------------------------------------------------------- the steps of the parser

  /** The parser's state behind a field that came in `pieces`. */
  function CutState(s: State, pieces: seq<seq<Byte>>): State
    requires pieces != [] && Want(s).Fetch?
    decreases |pieces|
  {
    var s' := Store(s, Want(s).at + Want(s).off, pieces[0]);
    if |pieces| == 1 then Fetched(s')
    else
      StillFetching(s, Want(s).at + Want(s).off, pieces[0], |pieces[0]|);
      CutState(SetOff(s', |pieces[0]|), pieces[1..])
  }

  /** The steps over the pieces, each behind the varint of the bytes still missing, with `rest` behind the last. */
  predicate CutSteps(s: State, pieces: seq<seq<Byte>>, rest: seq<Byte>)
    requires pieces != [] && Want(s).Fetch?
    decreases |pieces|
  {
    var missing := WriteVarint(|Concat(pieces)|);
    var s' := Store(s, Want(s).at + Want(s).off, pieces[0]);
    if |pieces| == 1 then StepOf(s, missing + pieces[0] + rest) == Go(Fetched(s'), rest)
    else
      StillFetching(s, Want(s).at + Want(s).off, pieces[0], |pieces[0]|);
      && StepOf(s, missing + pieces[0]) == Stop(ShortValue(SetOff(s', |pieces[0]|), |Concat(pieces[1..])|))
      && CutSteps(SetOff(s', |pieces[0]|), pieces[1..], rest)
  }

  lemma OnePieceTaken(s: State, n: nat, p: seq<Byte>, rest: seq<Byte>)
    requires Want(s).Fetch? && n < SIZE_T && |p| <= n && (|p| < n ==> rest == [])
    requires Want(s).at + Want(s).off + |p| <= ARENA_SIZE
    ensures var s' := Store(s, Want(s).at + Want(s).off, p);
            StepOf(s, WriteVarint(n) + p + rest) ==
              if |p| < n then Stop(ShortValue(SetOff(s', |p|), n - |p|)) else Go(Fetched(s'), rest)
  {
    hide StepOf, Want, WriteVarint, Store, SetOff, Fetched;
    assert WriteVarint(n) + p + rest == WriteVarint(n) + (p + rest);
    WrittenAnnounces(n, p + rest);
    StepsToFetch(s, WriteVarint(n) + p + rest, n, p + rest);
    SmallModulus(n);
    if |p| < n {
      assert p + rest == p && p[..|p|] == p;
    } else {
      assert (p + rest)[..n] == p && (p + rest)[n..] == rest;
    }
  }

  lemma {:induction false} LastNotEmpty(pieces: seq<seq<Byte>>)
    requires pieces != [] && pieces[|pieces| - 1] != []
    ensures |Concat(pieces)| > 0
  {
    if |pieces| > 1 {
      LastNotEmpty(pieces[1..]);
    }
  }

  /** A state that differs in the bytes of the arena only. */
  function WithMem(s: State, mem: seq<Byte>): State { s.(arena := s.arena.(mem := mem)) }

  /** The parser takes the pieces one after the other, and behind them only the arena depends on the cutting. */
  lemma {:induction false} PiecesTaken(s: State, pieces: seq<seq<Byte>>, rest: seq<Byte>)
    requires pieces != [] && pieces[|pieces| - 1] != [] && Want(s).Fetch? && |Concat(pieces)| < SIZE_T
    requires Want(s).at + Want(s).off + |Concat(pieces)| <= ARENA_SIZE == |s.arena.mem|
    ensures CutSteps(s, pieces, rest)
    ensures CutState(s, pieces) == WithMem(Fetched(s), Laid(s.arena.mem, Want(s).at, Want(s).off, pieces))
    decreases |pieces|
  {
    hide StepOf, Want, Poke, WriteVarint;
    var p, at, off := pieces[0], Want(s).at, Want(s).off;
    var n := |Concat(pieces)|;
    if |pieces| == 1 {
      assert pieces[1..] == [];
      assert Concat(pieces) == p;
      OnePieceTaken(s, n, p, rest);
    } else {
      LastNotEmpty(pieces[1..]);
      OnePieceTaken(s, n, p, []);
      assert WriteVarint(n) + p + [] == WriteVarint(n) + p;
      StillFetching(s, at + off, p, |p|);
      PiecesTaken(SetOff(Store(s, at + off, p), |p|), pieces[1..], rest);
    }
  }

  /**
   A field in any number of pieces, from any state that starts to copy one: the state behind it is the state behind
   the uncut field exactly when the block shows the pieces as the whole.
   */
  lemma MisplacedPieces(s: State, pieces: seq<seq<Byte>>, rest: seq<Byte>)
    requires pieces != [] && pieces[|pieces| - 1] != [] && Want(s).Fetch? && Want(s).off == 0
    requires |Concat(pieces)| < SIZE_T && Want(s).at + |Concat(pieces)| <= ARENA_SIZE == |s.arena.mem|
    ensures var whole, at := Concat(pieces), Want(s).at;
            && CutSteps(s, pieces, rest)
            && StepOf(s, WriteVarint(|whole|) + whole + rest) == Go(Fetched(Store(s, at, whole)), rest)
            && |CutState(s, pieces).arena.mem| == ARENA_SIZE
            && CutState(s, pieces).arena.mem[at..at + |whole|] == Seen(s.arena.mem[at..at + |whole|], pieces)
            && (CutState(s, pieces) == Fetched(Store(s, at, whole)) <==>
                  Seen(s.arena.mem[at..at + |whole|], pieces) == whole)
  {
    hide StepOf, Want, Poke, WriteVarint, Laid;
    var whole, at := Concat(pieces), Want(s).at;
    PiecesTaken(s, pieces, rest);
    OnePieceTaken(s, |whole|, whole, rest);
    StoredExactly(s.arena.mem, at, pieces);
    FetchedKeepsMem(s, at, whole);
  }

  lemma FetchedKeepsMem(s: State, at: nat, d: seq<Byte>)
    ensures Fetched(Store(s, at, d)) == WithMem(Fetched(s), Poke(s.arena.mem, at, d))
  {
  }

  /** Both kinds of block are zeroed when they are taken, so what they show depends on the pieces alone. */
  lemma BlocksAreZeroed(s: State, stack: nat)
    requires s.arena.Valid()
    ensures ArriveTo(s).Into? && s.coin.index < s.coin.count ==>
              ArriveTo(s).st.arena.mem[s.arena.used..s.arena.used + 40] == Zeros(40)
              && ArriveTo(s).st.coin.cur.address == At(s.arena.used)
    ensures ArriveCall(s, 5).Into? ==>
              ArriveCall(s, 5).st.arena.mem[s.arena.used..s.arena.used + 40] == Zeros(40)
              && ArriveCall(s, 5).st.call.methodName == At(s.arena.used)
  {
    if s.arena.used + 40 <= ARENA_SIZE {
      PokeReadBack(s.arena.mem, s.arena.used, Zeros(40));
    }
  }

  // ---------------------------------------------------------------- a whole signing run

  /** The chunks that bring `pieces` one by one, and `tail` with the last. */
  function PieceChunks(pieces: seq<seq<Byte>>, tail: seq<Byte>): (c: seq<seq<Byte>>)
    requires pieces != []
    ensures |c| == |pieces|
  {
    if |pieces| == 1 then [pieces[0] + tail] else [pieces[0]] + PieceChunks(pieces[1..], tail)
  }

  lemma {:induction false} PieceChunksConcat(pieces: seq<seq<Byte>>, tail: seq<Byte>)
    requires pieces != []
    ensures Concat(PieceChunks(pieces, tail)) == Concat(pieces) + tail
  {
    var c := PieceChunks(pieces, tail);
    if |pieces| == 1 {
      assert c[1..] == [] && pieces[1..] == [];
      assert Concat(c) == pieces[0] + tail;
    } else {
      PieceChunksConcat(pieces[1..], tail);
      assert c[1..] == PieceChunks(pieces[1..], tail);
    }
  }

  /** From the session that waits for the bytes of `pieces` to the review. */
  lemma {:induction false} PiecesSigned(h: Session, pieces: seq<seq<Byte>>, tail: seq<Byte>)
    requires pieces != [] && pieces[|pieces| - 1] != [] && Want(h.st).Fetch?
    requires |Concat(pieces)| + |tail| <= 200 && h.raw == WriteVarint(|Concat(pieces)|)
    requires Want(h.st).at + Want(h.st).off + |Concat(pieces)| <= ARENA_SIZE == |h.st.arena.mem|
    requires var e := Run(CutState(h.st, pieces), tail); e.Accepted? && e.rest == []
    ensures var fed := Sign(h, PieceChunks(pieces, tail));
            && fed.reply == Review && fed.session.hashed == h.hashed + Concat(pieces) + tail
            && fed.session.st == Run(CutState(h.st, pieces), tail).st
    decreases |pieces|
  {
    hide Want, Poke, WriteVarint, StepOf;
    var p, c := pieces[0], PieceChunks(pieces, tail);
    PiecesTaken(h.st, pieces, tail);
    VarintShort(|Concat(pieces)|);
    if |pieces| == 1 {
      assert pieces[1..] == [] && Concat(pieces) == p;
      assert h.raw + (p + tail) == h.raw + p + tail;
      GoesOn(h.st, h.raw + p + tail);
      assert h.hashed + (p + tail) == h.hashed + p + tail;
    } else {
      StillFetching(h.st, Want(h.st).at + Want(h.st).off, p, |p|);
      StopsAt(h.st, h.raw + p);
      var st := SetOff(Store(h.st, Want(h.st).at + Want(h.st).off, p), |p|);
      var next := Session(WriteVarint(|Concat(pieces[1..])|), st, h.hashed + p);
      assert Feed(h, p, true) == Fed(next, SwOk);
      PiecesSigned(next, pieces[1..], tail);
      assert c[1..] == PieceChunks(pieces[1..], tail);
      assert h.hashed + p + Concat(pieces[1..]) == h.hashed + Concat(pieces);
    }
  }

  lemma VarintShort(n: nat)
    ensures |WriteVarint(n)| <= 9
  {
  }

  lemma GoesOn(s: State, b: seq<Byte>)
    ensures StepOf(s, b).Go? ==> Run(s, b) == Run(StepOf(s, b).st, StepOf(s, b).rest)
  {
  }

  lemma StopsAt(s: State, b: seq<Byte>)
    ensures StepOf(s, b).Stop? ==> Run(s, b) == StepOf(s, b).end
  {
  }

  /** A lone transfer whose address comes in `pieces`. */
  function AddressChunks(pieces: seq<seq<Byte>>, amount: seq<Byte>): seq<seq<Byte>>
    requires |pieces| >= 2 && |Concat(pieces)| <= 40
  {
    var n := |Concat(pieces)|;
    [Head(0, n + 47) + [n] + pieces[0]] + PieceChunks(pieces[1..], Tail(amount))
  }

  lemma AddressChunksConcat(pieces: seq<seq<Byte>>, amount: seq<Byte>)
    requires |pieces| >= 2 && |Concat(pieces)| <= 40
    ensures Concat(AddressChunks(pieces, amount)) == Lone(Concat(pieces), amount)
  {
    hide Head, Tail;
    var c, n := AddressChunks(pieces, amount), |Concat(pieces)|;
    PieceChunksConcat(pieces[1..], Tail(amount));
    assert c[1..] == PieceChunks(pieces[1..], Tail(amount));
    var h, p, q, t := Head(0, n + 47) + [n], pieces[0], Concat(pieces[1..]), Tail(amount);
    assert h + p + (q + t) == h + (p + q) + t;
  }

  /** The parser behind the address of the lone transfer, cut or not. */
  lemma CutAddress(arena: Arena, pieces: seq<seq<Byte>>)
    requires |arena.mem| == ARENA_SIZE && pieces != [] && pieces[|pieces| - 1] != [] && |Concat(pieces)| <= 40
    ensures var s := AtAddress(arena);
            && Want(s) == Fetch(0, 0) && |s.arena.mem| == ARENA_SIZE
            && CutState(s, pieces) == BehindAddress(Laid(s.arena.mem, 0, 0, pieces))
            && Laid(s.arena.mem, 0, 0, pieces)[..|Concat(pieces)|] == Seen(Zeros(|Concat(pieces)|), pieces)
  {
    hide Poke, Laid;
    var s, n := AtAddress(arena), |Concat(pieces)|;
    PiecesTaken(s, pieces, []);
    StoredExactly(s.arena.mem, 0, pieces);
    PokeReadBack(arena.mem, 0, Zeros(40));
    assert s.arena.mem[0..n] == s.arena.mem[0..40][..n] == Zeros(n);
    assert Laid(s.arena.mem, 0, 0, pieces)[0..n] == Laid(s.arena.mem, 0, 0, pieces)[..n];
  }

  /** The address of the only output under review. */
  function ReviewedAddress(st: State, n: nat): seq<Byte>
    requires |st.coin.outs| == 1 && |st.arena.mem| == ARENA_SIZE && st.coin.outs[0].address.Pos() + n <= ARENA_SIZE
  {
    var at := st.coin.outs[0].address.Pos();
    st.arena.mem[at..at + n]
  }

  predicate OneOutput(st: State) { |st.arena.mem| == ARENA_SIZE && st.coin.outs == [Output(At(0), 1, 1, At(40))] }

  lemma TailReviewed(mem: seq<Byte>, amount: seq<Byte>, n: nat)
    requires |mem| == ARENA_SIZE && |amount| == 32 && n <= 40
    ensures var e := Run(BehindAddress(mem), Tail(amount));
            e.Accepted? && e.rest == [] && OneOutput(e.st) && ReviewedAddress(e.st, n) == mem[..n]
  {
    hide Run, Tail;
    TailTaken(mem, amount);
    var m := Run(BehindAddress(mem), Tail(amount)).st.arena.mem;
    assert m[0..n] == m[..40][..n] && mem[..n] == mem[..40][..n];
  }

  /**
   A signing run in which the address of a transfer comes in any number of pieces always reaches the review, and the
   address under review is what a zeroed block shows of the pieces; in one chunk it is the address.
   */
  lemma MisplacedAddress(arena: Arena, pieces: seq<seq<Byte>>, amount: seq<Byte>)
    requires |arena.mem| == ARENA_SIZE && |amount| == 32
    requires |pieces| >= 2 && pieces[|pieces| - 1] != [] && |Concat(pieces)| <= 40
    ensures var address := Concat(pieces);
            var cut := Sign(Opened(arena), AddressChunks(pieces, amount));
            var whole := Sign(Opened(arena), [Lone(address, amount)]);
            && Concat(AddressChunks(pieces, amount)) == Lone(address, amount)
            && cut.reply == whole.reply == Review && cut.session.hashed == whole.session.hashed == Lone(address, amount)
            && OneOutput(cut.session.st) && OneOutput(whole.session.st)
            && ReviewedAddress(cut.session.st, |address|) == Seen(Zeros(|address|), pieces)
            && ReviewedAddress(whole.session.st, |address|) == address
  {
    hide Run, Sign, Seen, Lone, AddressChunks, ReviewedAddress, OneOutput;
    AddressChunksConcat(pieces, amount);
    CutSigned(arena, pieces, amount);
    WholeSigned(arena, Concat(pieces), amount) by { LastNotEmpty(pieces); }
  }

  lemma CutSigned(arena: Arena, pieces: seq<seq<Byte>>, amount: seq<Byte>)
    requires |arena.mem| == ARENA_SIZE && |amount| == 32
    requires |pieces| >= 2 && pieces[|pieces| - 1] != [] && |Concat(pieces)| <= 40
    ensures var address := Concat(pieces);
            var cut := Sign(Opened(arena), AddressChunks(pieces, amount));
            && cut.reply == Review && cut.session.hashed == Lone(address, amount) && OneOutput(cut.session.st)
            && ReviewedAddress(cut.session.st, |address|) == Seen(Zeros(|address|), pieces)
  {
    hide Run, Head, Tail, Laid, Poke, WriteVarint, StepOf, ReviewedAddress, OneOutput, Want, Sign, Feed, Lone;
    hide AtAddress, CutState, BehindAddress;
    var s, n := AtAddress(arena), |Concat(pieces)|;
    var first := Head(0, n + 47) + [n] + pieces[0];
    var next := Session(WriteVarint(|Concat(pieces[1..])|), SetOff(Store(s, 0, pieces[0]), |pieces[0]|), first);
    FirstPiece(arena, pieces);
    CutAddress(arena, pieces);
    TailReviewed(Laid(s.arena.mem, 0, 0, pieces), amount, n);
    TailLength(amount);
    OtherPieces(s, next, pieces, Tail(amount));
    SignStep(arena, first, next, PieceChunks(pieces[1..], Tail(amount)));
    AddressChunksConcat(pieces, amount);
    PieceChunksConcat(pieces[1..], Tail(amount));
    ConcatStep([], AddressChunks(pieces, amount));
    assert AddressChunks(pieces, amount)[1..] == PieceChunks(pieces[1..], Tail(amount));
    assert first + Concat(pieces[1..]) + Tail(amount) == first + (Concat(pieces[1..]) + Tail(amount));
    assert [] + Concat(AddressChunks(pieces, amount)) == Concat(AddressChunks(pieces, amount));
    assert [] + first == first;
  }

  lemma SignStep(arena: Arena, first: seq<Byte>, next: Session, others: seq<seq<Byte>>)
    requires others != [] && Feed(Opened(arena), first, true) == Fed(next, SwOk)
    ensures Sign(Opened(arena), [first] + others) == Sign(next, others)
  {
    hide Feed;
    assert ([first] + others)[1..] == others;
  }

  /** The first chunk leaves the session waiting for the other pieces. */
  lemma FirstPiece(arena: Arena, pieces: seq<seq<Byte>>)
    requires |arena.mem| == ARENA_SIZE
    requires |pieces| >= 2 && pieces[|pieces| - 1] != [] && |Concat(pieces)| <= 40
    ensures var s, n := AtAddress(arena), |Concat(pieces)|;
            var first := Head(0, n + 47) + [n] + pieces[0];
            var st := SetOff(Store(s, 0, pieces[0]), |pieces[0]|);
            Feed(Opened(arena), first, true) == Fed(Session(WriteVarint(|Concat(pieces[1..])|), st, first), SwOk)
  {
    hide Run, Head, Poke, WriteVarint, StepOf;
    var s, n, p := AtAddress(arena), |Concat(pieces)|, pieces[0];
    var first := Head(0, n + 47) + [n] + p;
    LastNotEmpty(pieces[1..]);
    HeadTaken(arena, 0, n + 47, [n] + p);
    assert first == Head(0, n + 47) + ([n] + p);
    PiecesTaken(s, pieces, []);
    SmallVarint(n);
    StopsAt(s, [n] + p);
    HeadLength(n + 47);
    var st := SetOff(Store(s, 0, p), |p|);
    FirstFed(arena, first, Session(WriteVarint(|Concat(pieces[1..])|), st, first));
  }

  /** The state after the first piece, as the start of the others. */
  lemma OtherPieces(s: State, next: Session, pieces: seq<seq<Byte>>, tail: seq<Byte>)
    requires Want(s) == Fetch(0, 0) && |s.arena.mem| == ARENA_SIZE
    requires |pieces| >= 2 && pieces[|pieces| - 1] != [] && |Concat(pieces)| <= 40 && |tail| <= 50
    requires next.st == SetOff(Store(s, 0, pieces[0]), |pieces[0]|) && next.raw == WriteVarint(|Concat(pieces[1..])|)
    requires var e := Run(CutState(s, pieces), tail); e.Accepted? && e.rest == []
    ensures var fed := Sign(next, PieceChunks(pieces[1..], tail));
            && fed.reply == Review && fed.session.hashed == next.hashed + Concat(pieces[1..]) + tail
            && fed.session.st == Run(CutState(s, pieces), tail).st
  {
    hide Run, Want, Poke, WriteVarint, StepOf, Sign;
    StillFetching(s, 0, pieces[0], |pieces[0]|);
    PiecesSigned(next, pieces[1..], tail);
  }

  lemma SmallVarint(n: nat)
    requires n < 0xFD
    ensures WriteVarint(n) == [n]
  {
  }

  lemma HeadLength(size: nat)
    requires size < 0xFD
    ensures |Head(0, size)| == 11
  {
  }

  lemma TailLength(amount: seq<Byte>)
    ensures |Tail(amount)| == 12 + |amount|
  {
  }

  lemma FirstFed(arena: Arena, chunk: seq<Byte>, next: Session)
    requires |chunk| <= MAX_TRANSACTION_LEN && next.hashed == chunk
    requires Short?(Run(Fresh(arena), chunk)) && Run(Fresh(arena), chunk).st == next.st
    requires Left(Run(Fresh(arena), chunk)) == next.raw
    ensures Feed(Opened(arena), chunk, true) == Fed(next, SwOk)
  {
    hide Run;
    assert [] + chunk == chunk;
  }

  lemma WholeSigned(arena: Arena, address: seq<Byte>, amount: seq<Byte>)
    requires |arena.mem| == ARENA_SIZE && |amount| == 32 && 0 < |address| <= 40
    ensures var whole := Sign(Opened(arena), [Lone(address, amount)]);
            && whole.reply == Review && whole.session.hashed == Lone(address, amount) && OneOutput(whole.session.st)
            && ReviewedAddress(whole.session.st, |address|) == address
  {
    hide Run, Head, Tail, Laid, Poke, WriteVarint, StepOf, ReviewedAddress, OneOutput, Want;
    var s, n := AtAddress(arena), |address|;
    assert Concat([address]) == address by { assert [address][1..] == []; }
    CutAddress(arena, [address]);
    PiecesTaken(s, [address], Tail(amount));
    SmallVarint(n);
    GoesOn(s, [n] + address + Tail(amount));
    HeadTaken(arena, 0, n + 47, [n] + address + Tail(amount));
    assert Lone(address, amount) == Head(0, n + 47) + ([n] + address + Tail(amount));
    OneSeen(address);
    TailReviewed(Laid(s.arena.mem, 0, 0, [address]), amount, n);
    HeadLength(n + 47);
    TailLength(amount);
    assert [] + Lone(address, amount) == Lone(address, amount);
  }

  lemma OneSeen(d: seq<Byte>)
    ensures Seen(Zeros(|d|), [d]) == d
  {
    hide Laid, Poke;
    assert [d] == [d] + [];
    LaidFirst(Zeros(|d|), 0, d, []);
    LaidNone(Poke(Zeros(|d|), 0, d), |d|);
    PokeAll(Zeros(|d|), d);
  }

  /** One byte at a time: 1, 2, 3 is reviewed as 1, 3, 0. */
  lemma MisplacedExample(arena: Arena, amount: seq<Byte>)
    requires |arena.mem| == ARENA_SIZE && |amount| == 32
    ensures var fed := Sign(Opened(arena), AddressChunks([[1], [2], [3]], amount));
            && fed.reply == Review && fed.session.hashed == Lone([1, 2, 3], amount)
            && OneOutput(fed.session.st) && ReviewedAddress(fed.session.st, 3) == [1, 3, 0]
  {
    hide Sign, Lone, AddressChunks, ReviewedAddress;
    var pieces: seq<seq<Byte>> := [[1], [2], [3]];
    assert pieces[1..] == [[2], [3]] && pieces[1..][1..] == [[3]] && pieces[1..][1..][1..] == [];
    assert Concat(pieces) == [1, 2, 3];
    MisplacedAddress(arena, pieces, amount);
    ThreePieces([1], [2], [3]);
    assert [1] + [2] + Zeros(1) == [1, 2, 0];
    assert Poke([1, 2, 0], 1, [3]) == [1, 3, 0];
  }
}
