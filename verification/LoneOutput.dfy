/** A transfer (type 2) without inputs and with one output of asset 1-1: what the parser makes of it, field by field. */
module LoneOutput {
  import opened Bytes
  import opened TxMachine
  import opened Grammar

  /** Type, time, no remark, the announced lengths of txData and coinData, no inputs, one output. */
  function Head(dataSize: Byte, coinSize: Byte): seq<Byte> {
    [2, 0] + [0, 0, 0, 0] + [0] + [dataSize] + [coinSize] + [0] + [1]
  }

  /** Asset 1-1, the amount and the lock time. */
  function Tail(amount: seq<Byte>): seq<Byte> {
    [1, 0] + [1, 0] + amount + Zeros(8)
  }

  /** The parser before the address of the output, whose block is the first of the arena. */
  function AtAddress(arena: Arena): State {
    State(6, 2, NO_CALL, Coin(3, 1, 0, NO_ENTRY.(address := At(0)), 0, 0, []), Arena(Poke(arena.mem, 0, Zeros(40)), 40))
  }

  lemma TakesFixed(s: State, d: seq<Byte>, y: seq<Byte>)
    requires Want(s) == Fixed(|d|) && |d| <= ARENA_SIZE && Take(s, d).Into?
    ensures Run(s, d + y) == Run(Take(s, d).st, y)
  {
    assert (d + y)[..|d|] == d && (d + y)[|d|..] == y;
    assert StepOf(s, d + y) == Go(Take(s, d).st, y);
  }

  lemma TakesLength(s: State, v: Byte, y: seq<Byte>)
    requires Want(s) == Length && v < 0xFD && TakeLength(s, v).Into?
    ensures Run(s, [v] + y) == Run(TakeLength(s, v).st, y)
  {
    assert ([v] + y)[1..] == y;
    assert StepOf(s, [v] + y) == Go(TakeLength(s, v).st, y);
  }

  lemma SkipsNothing(s: State, y: seq<Byte>)
    requires Want(s) == Skip
    ensures Run(s, [0] + y) == Run(Skipped(s), y)
  {
    assert ([0] + y)[1..] == y && y[0..] == y;
    assert StepOf(s, [0] + y) == Go(Skipped(s), y);
  }

  lemma OneByte(d: seq<Byte>)
    requires |d| > 0
    ensures LittleEndian([d[0]]) == d[0]
    ensures |d| == 2 ==> LittleEndian(d) == d[0] as int + 256 * (d[1] as int)
  {
    assert [d[0]][1..] == [];
    if |d| == 2 {
      assert d[1..] == [d[1]] && [d[1]][1..] == [];
    }
  }

  lemma HeadTaken(arena: Arena, dataSize: Byte, coinSize: Byte, y: seq<Byte>)
    requires |arena.mem| == ARENA_SIZE && dataSize < 0xFD && coinSize < 0xFD
    ensures Run(Fresh(arena), Head(dataSize, coinSize) + y) == Run(AtAddress(arena), y)
  {
    hide Run, StepOf, Poke, LittleEndian;
    OneByte([2, 0]);
    OneByte([0]);
    OneByte([1]);
    var s0 := Fresh(arena);
    var y6 := [1] + y;
    var y5 := [0] + y6;
    var y4 := [coinSize] + y5;
    var y3 := [dataSize] + y4;
    var y2 := [0] + y3;
    var y1 := [0, 0, 0, 0] + y2;
    assert Head(dataSize, coinSize) + y == [2, 0] + y1;
    TakesFixed(s0, [2, 0], y1);
    var s1 := Take(s0, [2, 0]).st;
    TakesFixed(s1, [0, 0, 0, 0], y2);
    var s2 := Take(s1, [0, 0, 0, 0]).st;
    SkipsNothing(s2, y3);
    var s3 := Skipped(s2);
    TakesLength(s3, dataSize, y4);
    var s4 := TakeLength(s3, dataSize).st;
    TakesLength(s4, coinSize, y5);
    var s5 := TakeLength(s4, coinSize).st;
    TakesFixed(s5, [0], y6);
    var s6 := Take(s5, [0]).st;
    TakesFixed(s6, [1], y);
  }

  /** The parser behind the address, with `mem` in the arena. */
  function BehindAddress(mem: seq<Byte>): State {
    State(6, 2, NO_CALL, Coin(3, 1, 0, NO_ENTRY.(stack := 1, address := At(0)), 0, 0, []), Arena(mem, 40))
  }

  /** The end of the transaction: the sum, the output, and an arena that still holds the address. */
  predicate Completed(st: State, mem: seq<Byte>, amount: seq<Byte>) {
    && st.coin.fromAmount == 0 && st.coin.toAmount == LittleEndian(amount) % AMOUNT_MODULUS
    && st.coin.outs == [Output(At(0), 1, 1, At(40))]
    && |st.arena.mem| == |mem| && |mem| >= 40 && st.arena.mem[..40] == mem[..40]
  }

  lemma TailTaken(mem: seq<Byte>, amount: seq<Byte>)
    requires |mem| == ARENA_SIZE && |amount| == 32
    ensures var e := Run(BehindAddress(mem), Tail(amount));
            e.Accepted? && e.rest == [] && Completed(e.st, mem, amount)
  {
    hide Run, StepOf, LittleEndian, Poke;
    OneByte([1, 0]);
    var s1 := BehindAddress(mem);
    var y3: seq<Byte> := Zeros(8);
    var y2 := amount + y3;
    var y1 := [1, 0] + y2;
    assert Tail(amount) == [1, 0] + y1;
    TakesFixed(s1, [1, 0], y1);
    var s2 := Take(s1, [1, 0]).st;
    TakesFixed(s2, [1, 0], y2);
    var s3 := Take(s2, [1, 0]).st;
    TakesFixed(s3, amount, y3);
    var s4 := Take(s3, amount).st;
    assert y3 + [] == y3;
    TakesFixed(s4, y3, []);
    var s5 := Take(s4, y3).st;
    FinishedRun(s5, []);
    PokesAbove(mem, 40, Zeros(32), amount);
  }

  lemma FinishedRun(s: State, b: seq<Byte>)
    requires Want(s) == Finished
    ensures Run(s, b) == Accepted(s, b)
  {
  }

  lemma PokesAbove(mem: seq<Byte>, at: nat, d: seq<Byte>, e: seq<Byte>)
    requires at + |d| <= |mem| && at + |e| <= |mem|
    ensures Poke(Poke(mem, at, d), at, e)[..at] == mem[..at]
  {
    assert Poke(mem, at, d)[..at] == mem[..at];
  }

  /** The whole transaction, with any announced lengths. */
  function Sized(dataSize: Byte, coinSize: Byte, address: seq<Byte>, amount: seq<Byte>): seq<Byte>
    requires |address| <= 40
  {
    Head(dataSize, coinSize) + [|address|] + address + Tail(amount)
  }

  /** The whole transaction, with true lengths. */
  function Lone(address: seq<Byte>, amount: seq<Byte>): seq<Byte>
    requires |address| <= 40
  {
    Sized(0, |address| + 47, address, amount)
  }

  // ---------------------------------------------------------------- what the grammar reads

  lemma Bitten(d: seq<Byte>, y: seq<Byte>)
    ensures Bite(|d|, d + y) == Got(d, y)
  {
  }

  lemma Counted(d: seq<Byte>, y: seq<Byte>)
    ensures Number(|d|, d + y) == Got(LittleEndian(d), y)
  {
    hide Bite;
    Bitten(d, y);
  }

  lemma Prefixed(v: Byte, y: seq<Byte>)
    requires v < 0xFD
    ensures Prefix([v] + y) == Got(v, y)
  {
    assert ([v] + y)[1..] == y;
  }

  lemma Fielded(d: seq<Byte>, y: seq<Byte>)
    requires |d| < 0xFD
    ensures Field([|d|] + d + y) == Got(d, y)
  {
    hide Prefix, Bite;
    assert [|d|] + d + y == [|d|] + (d + y);
    Prefixed(|d|, d + y);
    Bitten(d, y);
  }

  /** What the grammar reads, whatever lengths are announced. */
  function LoneTransaction(address: seq<Byte>, amount: seq<Byte>): Transaction {
    Transaction(2, Data.Other, [], [Target(address, NULS, amount)])
  }

  lemma TargetParsed(address: seq<Byte>, amount: seq<Byte>)
    requires |address| <= 40 && |amount| == 32
    ensures ParseTarget([|address|] + address + Tail(amount)) == Got(Target(address, NULS, amount), [])
  {
    hide Field, Bite, Number, LittleEndian, Zeros;
    OneByte([1, 0]);
    var z: seq<Byte> := Zeros(8);
    assert Tail(amount) == [1, 0] + ([1, 0] + (amount + z));
    Fielded(address, Tail(amount));
    Counted([1, 0], [1, 0] + (amount + z));
    Counted([1, 0], amount + z);
    Bitten(amount, z);
    assert z + [] == z;
    Bitten(z, []);
  }

  lemma EntriesParsed(address: seq<Byte>, amount: seq<Byte>)
    requires |address| <= 40 && |amount| == 32
    ensures ParseEntries(2, Data.Other, [0] + ([1] + ([|address|] + address + Tail(amount))))
            == Got(LoneTransaction(address, amount), [])
  {
    hide Number, ParseTarget, LittleEndian, Tail;
    var t := [|address|] + address + Tail(amount);
    OneByte([0]);
    OneByte([1]);
    Counted([0], [1] + t);
    Counted([1], t);
    TargetParsed(address, amount);
    OneTargetParsed(t, Target(address, NULS, amount));
  }

  lemma OneTargetParsed(b: seq<Byte>, t: Target)
    requires ParseTarget(b) == Got(t, [])
    ensures ParseTargets(1, b) == Got([t], [])
  {
    hide ParseTarget;
    assert ParseTargets(0, []) == Got([], []);
    assert [t] + [] == [t];
  }

  /** The bytes behind the announced length of the txData, and behind that of the coinData. */
  function CoinBytes(coinSize: Byte, address: seq<Byte>, amount: seq<Byte>): seq<Byte>
    requires |address| <= 40
  {
    [coinSize] + ([0] + ([1] + ([|address|] + address + Tail(amount))))
  }

  lemma SizedHeader(dataSize: Byte, coinSize: Byte, address: seq<Byte>, amount: seq<Byte>)
    requires |address| <= 40 && |amount| == 32 && dataSize < 0xFD
    ensures var b := Sized(dataSize, coinSize, address, amount);
            var f := Number(2, b);
            && f.Got? && f.value == 2 && Bite(4, f.rest).Got? && Field(Bite(4, f.rest).rest).Got?
            && Prefix(Bite(4, f.rest).rest) == Got(0, [dataSize] + CoinBytes(coinSize, address, amount))
            && Field(Bite(4, f.rest).rest).rest == [dataSize] + CoinBytes(coinSize, address, amount)
            && ParseData(2, [dataSize] + CoinBytes(coinSize, address, amount))
               == Got(Data.Other, CoinBytes(coinSize, address, amount))
  {
    hide Number, Bite, Field, LittleEndian, Tail, Prefix;
    OneByte([2, 0]);
    var c := CoinBytes(coinSize, address, amount);
    var y2 := [0] + ([dataSize] + c);
    var y1 := [0, 0, 0, 0] + y2;
    assert Sized(dataSize, coinSize, address, amount) == [2, 0] + y1;
    Counted([2, 0], y1);
    Bitten([0, 0, 0, 0], y2);
    assert [0] + [] + ([dataSize] + c) == y2;
    Prefixed(0, [dataSize] + c);
    Fielded([], [dataSize] + c);
    Prefixed(dataSize, c);
  }

  lemma SizedParsed(dataSize: Byte, coinSize: Byte, address: seq<Byte>, amount: seq<Byte>)
    requires |address| <= 40 && |amount| == 32 && dataSize < 0xFD && coinSize < 0xFD
    ensures Parse(Sized(dataSize, coinSize, address, amount)) == Got(LoneTransaction(address, amount), [])
    ensures ParseCoins(2, Data.Other, CoinBytes(coinSize, address, amount)) == Got(LoneTransaction(address, amount), [])
  {
    hide Number, Bite, Field, ParseData, ParseEntries, Prefix, Sized;
    SizedHeader(dataSize, coinSize, address, amount);
    Prefixed(coinSize, [0] + ([1] + ([|address|] + address + Tail(amount))));
    EntriesParsed(address, amount);
  }
}
