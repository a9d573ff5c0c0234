/**
 The arena budget (`src/common/buffer.c`, lines 36 to 60): 400 bytes, handed out from the bottom,
 never given back.  Every run, however it is cut, keeps the layout below; with it each output
 owns its own two blocks and no more than five outputs fit, so that the clamp of `to_len`
 at `MAX_COIN_LEN` never drops one.
 */
module Budget {
  import opened Bytes
  import opened Varint
  import opened TxMachine
  import opened Resume
  import opened Chunks

  /** The blocks of the contract call: 23 bytes of address, 32 of value, 40 of method name. */
  predicate CallLayout(s: State) {
    var c, used := s.call, s.arena.used;
    match c.stack
    case 0 => used == 0
    case 1 => used == 23 && c.contractAddress == At(0)
    case _ =>
      && c.contractAddress == At(0)
      && c.value == At(23)
      && (2 <= c.stack <= 4 ==> used == 55)
      && (c.stack >= 5 ==> c.methodName == At(55) && used >= 95)
      && (5 <= c.stack <= 7 ==> used == 95)
      && (c.stack >= 8 && c.inner >= 2 ==>
            var e := ElementOf(c, StyleOf(s));
            !StyleOf(s).Other? && e.At? && e.pos >= 95 && e.pos + (c.elementLen + 1) % SIZE_T == used)
  }

  predicate InEntry(c: Coin) { c.stack >= 3 && c.index < c.count }

  /** What the entry being read has taken. */
  function Taken(c: Coin): nat {
    if !InEntry(c) then 0 else if c.cur.stack < 3 then 40 else 72
  }

  /** Where the blocks of the outputs start. */
  function Base(s: State): int {
    s.arena.used - Taken(s.coin) - 72 * |s.coin.outs|
  }

  predicate OutputsAt(outs: seq<Output>, base: nat) {
    forall k :: 0 <= k < |outs| ==>
      outs[k].address == At(base + 72 * k) && outs[k].amount == At(base + 72 * k + 40)
  }

  predicate CoinLayout(s: State) {
    var c := s.coin;
    && Base(s) >= 0
    && (c.stack < 3 ==> c.outs == [])
    && (c.stack >= 3 ==> c.index == |c.outs| <= c.count)
    && (c.stack >= 3 && !InEntry(c) ==> c.cur == NO_ENTRY)
    && (InEntry(c) ==> c.cur.address == At(Base(s) + 72 * |c.outs|))
    && (InEntry(c) && c.cur.stack >= 3 ==> c.cur.amount == At(Base(s) + 72 * |c.outs| + 40))
    && OutputsAt(c.outs, Base(s))
  }

  predicate Layout(s: State) {
    && s.arena.Valid()
    && (0 < s.stack < 4 ==> s.arena.used == 0)
    && (s.stack < 6 ==> s.coin == NO_COIN)
    && (s.stack == 4 ==> CallLayout(s))
    && (s.stack == 5 ==> if s.typ == CALL_CONTRACT then CallDone(s) else s.arena.used == 0)
    && (s.stack >= 6 ==>
          CoinLayout(s) && if s.typ == CALL_CONTRACT then CallDone(s) && Base(s) >= 95 else Base(s) == 0)
    && (s.stack == 4 ==> s.typ == CALL_CONTRACT)
  }

  predicate CallDone(s: State) {
    && s.call.contractAddress == At(0) && s.call.value == At(23) && s.call.methodName == At(55)
    && s.arena.used >= 95
  }

  /** The method name is read-only once later blocks are being written. */
  lemma StyleKept(s: State, at: nat, d: seq<Byte>)
    requires s.call.methodName == At(55) && at >= 95
    ensures StyleOf(Store(s, at, d)) == StyleOf(s)
  {
    var m := Poke(s.arena.mem, at, d);
    if at + |d| <= |s.arena.mem| {
      assert m[..at] == s.arena.mem[..at];
      assert m[55..63] == m[..at][55..63] && m[55..67] == m[..at][55..67];
      assert s.arena.mem[55..63] == s.arena.mem[..at][55..63] && s.arena.mem[55..67] == s.arena.mem[..at][55..67];
      assert m[63] == m[..at][63] && m[67] == m[..at][67];
    }
  }

  lemma LayoutElementLength(s: State, v: nat)
    requires Layout(s) && s.stack == 4 && s.call.stack >= 8 && s.call.inner == 1 && !StyleOf(s).Other?
    ensures TakeElementLength(s, v).Into? ==> Layout(TakeElementLength(s, v).st)
  {
    StyleKept(s, s.arena.used, Zeros((v + 1) % SIZE_T));
  }

  lemma LayoutTakeCall(s: State, d: seq<Byte>)
    requires Layout(s) && s.stack == 4
    ensures TakeCall(s, d).Into? ==> Layout(TakeCall(s, d).st)
  {
  }

  lemma LayoutCall(s: State, b: seq<Byte>)
    requires Layout(s) && s.stack == 4 && StepOf(s, b).Go?
    ensures Layout(StepOf(s, b).st)
  {
    match WantCall(s)
    case Fixed(n) => LayoutTakeCall(s, b[..n]);
    case Length => LayoutElementLength(s, ReadVarint(b).value);
    case _ =>
  }

  /** Between two outputs. */
  lemma LayoutArriveTo(s: State, base: nat)
    requires s.arena.Valid() && s.stack >= 6 && s.coin.index == |s.coin.outs| <= s.coin.count
    requires s.arena.used == base + 72 * |s.coin.outs| && OutputsAt(s.coin.outs, base)
    requires if s.typ == CALL_CONTRACT then CallDone(s) && base >= 95 else base == 0
    ensures ArriveTo(s).Into? ==> Layout(ArriveTo(s).st)
  {
  }

  lemma LayoutTakeTo(s: State, d: seq<Byte>)
    requires Layout(s) && s.stack >= 6 && InEntry(s.coin) && s.coin.cur.stack > 0
    ensures TakeTo(s, d).Into? ==> Layout(TakeTo(s, d).st)
  {
    var c := s.coin;
    var e := c.cur;
    if e.stack >= 4 {
      LayoutArriveTo(s.(coin := c.(index := c.index + 1,
                                   outs := c.outs + [Output(e.address, e.chainId, e.assetId, e.amount)])),
                     Base(s));
    }
  }

  lemma LayoutCoin(s: State, b: seq<Byte>)
    requires Layout(s) && s.stack >= 6 && StepOf(s, b).Go?
    ensures Layout(StepOf(s, b).st)
  {
    if s.coin.stack >= 3 {
      match WantTo(s.coin.cur)
      case Fixed(n) => LayoutTakeTo(s, b[..n]);
      case _ =>
    }
  }

  /** Every step keeps the layout. */
  lemma LayoutStep(s: State, b: seq<Byte>)
    requires Layout(s) && StepOf(s, b).Go?
    ensures Layout(StepOf(s, b).st)
  {
    if s.stack == 4 {
      LayoutCall(s, b);
    } else if s.stack >= 6 {
      LayoutCoin(s, b);
    }
  }

  /** A split field keeps it too. */
  lemma LayoutStop(s: State, b: seq<Byte>)
    requires Layout(s) && StepOf(s, b).Stop?
    ensures StepOf(s, b).end.Accepted? || Short?(StepOf(s, b).end) ==> Layout(StepOf(s, b).end.st)
  {
  }

  lemma {:induction false} LayoutRun(s: State, b: seq<Byte>)
    requires Layout(s)
    ensures Run(s, b).Accepted? || Short?(Run(s, b)) ==> Layout(Run(s, b).st)
    ensures Run(s, b).Accepted? ==> Want(Run(s, b).st) == Finished
    decreases |b|, Rank(s)
  {
    if StepOf(s, b).Go? {
      StepProgress(s, b);
      LayoutStep(s, b);
      LayoutRun(StepOf(s, b).st, StepOf(s, b).rest);
    } else {
      LayoutStop(s, b);
    }
  }

  lemma {:induction false} LayoutSign(h: Session, chunks: seq<seq<Byte>>)
    requires chunks != [] && Layout(h.st)
    ensures Sign(h, chunks).reply == Review ==>
              Layout(Sign(h, chunks).session.st) && Want(Sign(h, chunks).session.st) == Finished
    decreases |chunks|
  {
    LayoutRun(h.st, h.raw + chunks[0]);
    var fed := Feed(h, chunks[0], |chunks| > 1);
    if fed.reply == SwOk && |chunks| > 1 {
      LayoutSign(fed.session, chunks[1..]);
    }
  }

  /** A block of `n` bytes at `p`. */
  predicate Apart(p: Ptr, n: nat, q: Ptr, m: nat) {
    p.At? && q.At? && (p.pos + n <= q.pos || q.pos + m <= p.pos)
  }

  /**
   At the review, after any cutting of any bytes: all the announced outputs are there, they are at
   most five, and their addresses and amounts lie in the arena without sharing a byte.
   */
  lemma OutputsOwnTheirSlots(arena: Arena, chunks: seq<seq<Byte>>)
    requires chunks != [] && arena.Valid()
    ensures var fed := Sign(Opened(arena), chunks);
            fed.reply == Review ==>
              var outs := fed.session.st.coin.outs;
              && |outs| <= 5
              && |outs| == fed.session.st.coin.count
              && (forall i :: 0 <= i < |outs| ==>
                    outs[i].address.At? && outs[i].amount.At? && outs[i].amount.pos + 32 <= 400
                    && Apart(outs[i].address, 40, outs[i].amount, 32))
              && (forall i, j :: 0 <= i < j < |outs| ==>
                    && Apart(outs[i].address, 40, outs[j].address, 40)
                    && Apart(outs[i].address, 40, outs[j].amount, 32)
                    && Apart(outs[i].amount, 32, outs[j].address, 40)
                    && Apart(outs[i].amount, 32, outs[j].amount, 32))
  {
    LayoutSign(Opened(arena), chunks);
  }
}
