/**
 What the device reviews: the transaction that the plain grammar reads from the same bytes.
 First for one pass, then for every chunked run.
 */
module Meaning {
  import opened Bytes
  import opened Varint
  import opened TxMachine
  import opened Chunks
  import opened Grammar
  import opened OnePass
  import opened CallPass
  import opened Names

  // ---------------------------------------------------------------- coin data

  /** What the coin data do to a state. */
  predicate CoinsDone(s: State, s': State, tx: Transaction) {
    && s'.typ == s.typ && s'.call == s.call
    && s'.coin.fromAmount == SourceSum(tx.sources) % AMOUNT_MODULUS
    && s'.coin.toAmount == TargetSum(tx.targets) % AMOUNT_MODULUS
    && ShowAll(s'.coin.outs, tx.targets, s'.arena.mem)
    && s'.arena.used == s.arena.used + OUTPUT_ROOM * |tx.targets|
    && Agree(s.arena.mem, s'.arena.mem, s.arena.used)
  }

  predicate CoinsOutcome(limit: Limit, s: State, e: Ending, f: Parsed<Transaction>) {
    && (e.Accepted? <==>
          f.Got? && TargetsFit(f.value.targets, s.arena.used) && AddressesWithin(f.value.targets, limit.copied))
    && (e.Accepted? ==> e.rest == f.rest && CoinsDone(s, e.st, f.value))
  }

  /** Of the coin data what a pass keeps. */
  function KeptCoins(limit: Limit, typ: nat, data: Data, b: seq<Byte>): Parsed<Transaction> {
    var f := ParseCoins(typ, data, b);
    if f.Got? then Got(f.value.(targets := KeepTargets(limit, f.value.targets)), f.rest) else Fail
  }

  /** The state between inputs and outputs. */
  function WithSources(s: State, ss: seq<Source>): State {
    s.(stack := 6, coin := NO_COIN.(stack := 2, fromAmount := SourceSum(ss) % AMOUNT_MODULUS))
  }

  lemma CoinsFromSources(limit: Limit, s: State, b: seq<Byte>)
    requires s.stack == 5 && s.coin == NO_COIN
    ensures var f := Prefix(b);
            if f.Fail? || Bite(1, f.rest).Fail? then !Pass(limit, s, b).Accepted?
            else
              var g := Bite(1, f.rest);
              var h := ParseSources(LittleEndian(g.value), g.rest);
              if h.Got? then Pass(limit, s, b) == Pass(limit, WithSources(s, h.value), h.rest)
              else !Pass(limit, s, b).Accepted?
  {
    hide Pass, ParseSources, ReadVarint;
    RunLength(limit, s, b);
    var f := Prefix(b);
    if f.Got? {
      var s1 := TakeLength(s, f.value).st;
      RunFixed(limit, s1, 1, f.rest);
      var g := Bite(1, f.rest);
      if g.Got? {
        var n := LittleEndian(g.value);
        RunSources(limit, s1.(coin := s1.coin.(count := n, index := 0)), n, g.rest);
      }
    }
  }

  lemma CoinsFromTargets(limit: Limit, s: State, ss: seq<Source>, typ: nat, data: Data, b: seq<Byte>)
    requires s.arena.Valid()
    ensures var f := Bite(1, b);
            var g := if f.Got? then KeptTargets(limit, LittleEndian(f.value), f.rest) else Fail;
            CoinsOutcome(limit, s, Pass(limit, WithSources(s, ss), b),
                         if g.Got? then Got(Transaction(typ, data, ss, g.value), g.rest) else Fail)
  {
    hide Pass, KeptTargets, SourceSum, TargetSum, AddressesInside, AddressesWithin, ShowAll;
    var s1 := WithSources(s, ss);
    RunFixed(limit, s1, 1, b);
    var f := Bite(1, b);
    if f.Got? {
      var n := LittleEndian(f.value);
      RunTargets(limit, s1.(coin := s1.coin.(count := n, index := 0)), n, f.rest);
      var e := Pass(limit, s1, b);
      if e.Accepted? {
        assert e.st.coin.outs[0..] == e.st.coin.outs;
      }
    }
  }

  lemma RunCoins(limit: Limit, s: State, typ: nat, data: Data, b: seq<Byte>)
    requires s.stack == 5 && s.coin == NO_COIN && s.arena.Valid()
    ensures CoinsOutcome(limit, s, Pass(limit, s, b), KeptCoins(limit, typ, data, b))
  {
    hide Pass, ParseSources, ParseTargets, CoinsDone, TargetsFit, AddressesWithin, SourceSum, TargetSum;
    hide ReadVarint, WithSources;
    CoinsFromSources(limit, s, b);
    var f := Prefix(b);
    if f.Got? && Bite(1, f.rest).Got? {
      var g := Bite(1, f.rest);
      var h := ParseSources(LittleEndian(g.value), g.rest);
      if h.Got? {
        CoinsFromTargets(limit, s, h.value, typ, data, h.rest);
      }
    }
  }

  // ---------------------------------------------------------------- transaction data

  predicate DataOk(data: Data) { data.Calls? ==> CallOk(data.contract) }

  function DataRoom(data: Data): nat
    requires DataOk(data)
  {
    match data
    case Other => 0
    case Calls(c) => CALL_ROOM + (if StyleOfName(c.name).Other? then 0 else ArgRoom(c.args))
  }

  function AfterData(s: State, data: Data): State
    requires DataOk(data)
  {
    match data
    case Other => s.(stack := 5)
    case Calls(c) => AfterCall(s.(stack := 4), c)
  }

  predicate DataStart(s: State) {
    s.stack == 3 && s.call == NO_CALL && s.coin == NO_COIN && s.arena.Valid() && s.arena.used == 0
  }

  function KeepData(limit: Limit, data: Data): Data {
    match data
    case Other => Data.Other
    case Calls(c) => Calls(KeepContract(limit, c))
  }

  predicate DataWithin(limit: Limit, data: Data)
    requires DataOk(data)
  {
    data.Calls? ==> CallWithin(limit, data.contract)
  }

  lemma RunData(limit: Limit, s: State, b: seq<Byte>)
    requires DataStart(s)
    ensures var f := ParseData(s.typ, b);
            if f.Got? && DataOk(KeepData(limit, f.value)) && DataWithin(limit, KeepData(limit, f.value)) then
              Pass(limit, s, b) == Pass(limit, AfterData(s, KeepData(limit, f.value)), f.rest)
            else !Pass(limit, s, b).Accepted?
  {
    hide Pass, ParseContract, AfterCall, CallOk, ReadVarint;
    if s.typ in {2, 10, 16} {
      RunLength(limit, s, b);
      var f := Prefix(b);
      if f.Got? && s.typ == 16 {
        RunCall(limit, s.(stack := 4), f.rest);
      }
    } else {
      RunSkip(limit, s, b);
    }
  }

  predicate DataShown(st: State, data: Data, mem: seq<Byte>) {
    data.Calls? ==> CallShown(st.call, data.contract, mem)
  }

  lemma ParsedContract(b: seq<Byte>)
    ensures ParseContract(b).Got? ==> |ParseContract(b).value.address| == 23 && |ParseContract(b).value.value| == 32
  {
  }

  lemma DataStored(limit: Limit, s: State, b: seq<Byte>)
    requires DataStart(s) && ParseData(s.typ, b).Got? && DataOk(KeepData(limit, ParseData(s.typ, b).value))
    ensures var data := KeepData(limit, ParseData(s.typ, b).value);
            var s' := AfterData(s, data);
            && s'.stack == 5 && s'.typ == s.typ && s'.coin == NO_COIN && s'.arena.Valid()
            && s'.arena.used == DataRoom(data)
            && DataShown(s', data, Used(s'.arena))
  {
    hide Pass, ParseContract, CallOk, CallShown, ReadVarint;
    if s.typ == 16 {
      var f := Prefix(b);
      var c := ParseContract(f.rest).value;
      ParsedContract(f.rest);
      CallStored(s.(stack := 4), KeepContract(limit, c));
    }
  }

  // ---------------------------------------------------------------- the transaction

  /** The transfers keep exactly one element of each argument, and everything kept fits the arena. */
  predicate Supported(tx: Transaction) { DataOk(tx.data) && TargetsFit(tx.targets, DataRoom(tx.data)) }

  /** The bytes of the arena before the outputs, for a method name and its arguments. */
  function RoomOf(name: seq<Byte>, args: seq<seq<seq<Byte>>>): nat {
    if (Named(name, "transfer") || Named(name, "transferFrom")) && OneEach(args) then 95 + ArgRoom(args) else 95
  }

  /** All outputs have their blocks of 72 bytes behind the first `used` of 400, and no address goes beyond them. */
  predicate Blocks(ts: seq<Target>, used: nat) {
    used + 72 * |ts| <= 400 && forall k :: 0 <= k < |ts| ==> used + 72 * k + |ts[k].address| <= 400
  }

  /**
   What is supported: a call of a method named otherwise whatever its arguments are, one of the two transfers only with
   one element in each, and all that is kept inside the 400 bytes.
   */
  lemma SupportedExactly(tx: Transaction)
    ensures !tx.data.Calls? ==> (Supported(tx) <==> Blocks(tx.targets, 0))
    ensures tx.data.Calls? ==>
              var name, args := tx.data.contract.name, tx.data.contract.args;
              Supported(tx) <==>
                && 55 + |name| <= 400
                && (Named(name, "transfer") || Named(name, "transferFrom") ==> OneEach(args))
                && Blocks(tx.targets, RoomOf(name, args))
  {
    hide StyleOfName, Named;
    if tx.data.Calls? {
      StyleExactly(tx.data.contract.name);
    }
  }

  /** One pass accepts a call of any other method, whatever its arguments, if name and outputs fit. */
  lemma OtherMethods(arena: Arena, b: seq<Byte>)
    requires arena.Valid() && Parse(b).Got? && Parse(b).value.data.Calls?
    requires var name := Parse(b).value.data.contract.name; !Named(name, "transfer") && !Named(name, "transferFrom")
    ensures Run(Fresh(arena), b).Accepted? <==>
              55 + |Parse(b).value.data.contract.name| <= 400 && Blocks(Parse(b).value.targets, 95)
  {
    hide Run, Parse, Named, Supported, Blocks;
    OnePassMeaning(arena, b);
    SupportedExactly(Parse(b).value);
  }

  /** No field that is copied, and no argument that is kept, is over its limit. */
  predicate Within(limit: Limit, tx: Transaction)
    requires Supported(tx)
  {
    DataWithin(limit, tx.data) && AddressesWithin(tx.targets, limit.copied)
  }

  /** The sums of the fee rule. */
  predicate SumsOf(coin: TxMachine.Coin, tx: Transaction) {
    && coin.fromAmount == SourceSum(tx.sources) % AMOUNT_MODULUS
    && coin.toAmount == TargetSum(tx.targets) % AMOUNT_MODULUS
  }

  /** Every field under review is that of `tx`, addresses and method name as far as their blocks go. */
  predicate Reviews(st: State, tx: Transaction) {
    && st.typ == tx.typ
    && SumsOf(st.coin, tx)
    && ShowAll(st.coin.outs, tx.targets, st.arena.mem)
    && DataShown(st, tx.data, st.arena.mem)
  }

  lemma RunHeader(limit: Limit, arena: Arena, b: seq<Byte>)
    requires arena.Valid()
    ensures var f := Bite(2, b);
            if f.Fail? || Bite(4, f.rest).Fail? || Field(Bite(4, f.rest).rest).Fail? then
              !Pass(limit, Fresh(arena), b).Accepted?
            else
              var s := State(3, LittleEndian(f.value), NO_CALL, NO_COIN, Arena(arena.mem, 0));
              Pass(limit, Fresh(arena), b) == Pass(limit, s, Field(Bite(4, f.rest).rest).rest)
  {
    hide Pass, Field;
    var s := Fresh(arena);
    RunFixed(limit, s, 2, b);
    var f := Bite(2, b);
    if f.Got? {
      var s1 := Take(s, f.value).st;
      RunFixed(limit, s1, 4, f.rest);
      var g := Bite(4, f.rest);
      if g.Got? {
        RunSkip(limit, Take(s1, g.value).st, g.rest);
      }
    }
  }

  lemma CallShownKept(call: Call, c: Contract, a: Arena, a': Arena)
    requires a.Valid() && a'.Valid() && a.used <= a'.used && Agree(a.mem, a'.mem, a.used)
    requires CallShown(call, c, Used(a))
    ensures CallShown(call, c, a'.mem)
  {
    UsedInMem(a, a', call.contractAddress, c.address);
    UsedInMem(a, a', call.value, c.value);
    UsedInMem(a, a', call.methodName, InBlock(c.name));
    var style := StyleOfName(c.name);
    if !style.Other? && OneEach(c.args) {
      forall i | 0 <= i < |c.args|
        ensures ArgShown(call, style, i, |c.args|, c.args[i][0], a'.mem)
      {
        assert ArgShown(call, style, 0 + i, 0 + |c.args|, c.args[i][0], Used(a));
        if Unused(style, i + 1, |c.args|, SlotOf(style, i)) {
          UsedInMem(a, a', Slot(call, SlotOf(style, i)), c.args[i][0] + [0]);
        }
      }
    }
  }

  lemma UsedInMem(a: Arena, a': Arena, p: Ptr, d: seq<Byte>)
    requires a.Valid() && a'.Valid() && Agree(a.mem, a'.mem, a.used) && BlockIs(Used(a), p, d)
    ensures BlockIs(a'.mem, p, d)
  {
    UsedBlock(a, p, d);
    BlockKept(a.mem, a'.mem, a.used, p, d);
  }

  /** Of a transaction what a pass keeps. */
  function KeepAllOf(limit: Limit, tx: Transaction): Transaction {
    tx.(data := KeepData(limit, tx.data), targets := KeepTargets(limit, tx.targets))
  }

  lemma KeptWhole(limit: Limit, tx: Transaction)
    requires !limit.blind
    ensures KeepAllOf(limit, tx) == tx
  {
    KeepAll(limit, tx.targets);
  }

  /** The meaning of one pass in which no field is over its limit. */
  lemma PassMeaning(limit: Limit, arena: Arena, b: seq<Byte>)
    requires arena.Valid()
    ensures var e, f := Pass(limit, Fresh(arena), b), Parse(b);
            && (e.Accepted? <==>
                  f.Got? && Supported(KeepAllOf(limit, f.value)) && Within(limit, KeepAllOf(limit, f.value)))
            && (e.Accepted? ==> e.rest == f.rest && Reviews(e.st, KeepAllOf(limit, f.value)))
  {
    hide Pass, Field, ParseData, ParseCoins, AfterData, DataOk, DataRoom, CoinsDone, TargetsFit, DataShown;
    hide SourceSum, TargetSum, AddressesWithin, DataWithin, KeepData, KeepTargets;
    RunHeader(limit, arena, b);
    var f := Bite(2, b);
    if f.Got? && Bite(4, f.rest).Got? && Field(Bite(4, f.rest).rest).Got? {
      var b3 := Field(Bite(4, f.rest).rest).rest;
      var typ := LittleEndian(f.value);
      var s3 := State(3, typ, NO_CALL, NO_COIN, Arena(arena.mem, 0));
      RunData(limit, s3, b3);
      var d := ParseData(typ, b3);
      if d.Got? {
        CoinsParts(typ, d.value, d.rest);
        var kept := KeepData(limit, d.value);
        CoinsData(typ, d.value, kept, d.rest);
        if DataOk(kept) && DataWithin(limit, kept) {
          DataStored(limit, s3, b3);
          var s5 := AfterData(s3, kept);
          RunCoins(limit, s5, typ, kept, d.rest);
          JoinDataCoins(limit, s5, kept, Pass(limit, s5, d.rest), KeptCoins(limit, typ, kept, d.rest));
        }
      }
    }
  }

  lemma CoinsData(typ: nat, data: Data, data': Data, b: seq<Byte>)
    ensures var f, g := ParseCoins(typ, data, b), ParseCoins(typ, data', b);
            g == if f.Got? then Got(f.value.(data := data'), f.rest) else Fail
  {
    hide ParseSources, ParseTargets;
  }

  lemma CoinsParts(typ: nat, data: Data, b: seq<Byte>)
    ensures ParseCoins(typ, data, b).Got? ==>
              ParseCoins(typ, data, b).value.typ == typ && ParseCoins(typ, data, b).value.data == data
  {
    hide ParseSources, ParseTargets;
  }

  lemma JoinDataCoins(limit: Limit, s: State, data: Data, e: Ending, f: Parsed<Transaction>)
    requires s.arena.Valid() && DataOk(data) && s.arena.used == DataRoom(data)
    requires DataWithin(limit, data) && DataShown(s, data, Used(s.arena))
    requires f.Got? ==> f.value.data == data && f.value.typ == s.typ
    requires CoinsOutcome(limit, s, e, f)
    ensures e.Accepted? <==> f.Got? && Supported(f.value) && Within(limit, f.value)
    ensures e.Accepted? ==> e.rest == f.rest && Reviews(e.st, f.value)
  {
    hide DataOk, DataRoom, AddressesInside, AddressesWithin, DataWithin, CallShown, ShowAll;
    if e.Accepted? && data.Calls? {
      CallShownKept(s.call, data.contract, s.arena, e.st.arena);
    }
  }

  lemma Unbounded(tx: Transaction)
    requires Supported(tx)
    ensures Within(UNLIMITED, tx)
  {
    if tx.data.Calls? && !StyleOfName(tx.data.contract.name).Other? {
      RoomBounds(tx.data.contract.args);
    }
  }

  lemma {:induction false} RoomBounds(args: seq<seq<seq<Byte>>>)
    requires OneEach(args)
    ensures ElementsWithin(args, ArgRoom(args))
  {
    if args != [] {
      RoomBounds(args[1..]);
    }
  }

  /**
   One pass over any bytes accepts exactly when the grammar reads a supported transaction from them; it leaves the same
   bytes over, and all it holds is what the transaction says.
   */
  lemma OnePassMeaning(arena: Arena, b: seq<Byte>)
    requires arena.Valid()
    ensures var e, f := Run(Fresh(arena), b), Parse(b);
            && (e.Accepted? <==> f.Got? && Supported(f.value))
            && (e.Accepted? ==> e.rest == f.rest && Reviews(e.st, f.value))
  {
    hide Run, Pass, Parse, Supported, Within, Reviews;
    Unlimited(Fresh(arena), b);
    PassMeaning(UNLIMITED, arena, b);
    if Parse(b).Got? {
      KeptWhole(UNLIMITED, Parse(b).value);
      if Supported(Parse(b).value) {
        Unbounded(Parse(b).value);
      }
    }
  }

  /** Of a supported transaction: its run keeps the limits exactly if its own fields do. */
  lemma LimitsMeaning(limit: Limit, arena: Arena, b: seq<Byte>)
    requires arena.Valid() && Run(Fresh(arena), b).Accepted? && !limit.blind
    ensures Parse(b).Got? && Supported(Parse(b).value)
    ensures Within(limit, Parse(b).value) <==>
              ShortFields(Fresh(arena), b, limit.copied) && NarrowFields(Fresh(arena), b, limit.fixed)
  {
    hide Run, Pass, Parse, Supported, Within, Reviews, ShortFields, NarrowFields;
    OnePassMeaning(arena, b);
    PassMeaning(limit, arena, b);
    KeptWhole(limit, Parse(b).value);
    if Within(limit, Parse(b).value) {
      Limited(limit, Fresh(arena), b);
    }
    if ShortFields(Fresh(arena), b, limit.copied) && NarrowFields(Fresh(arena), b, limit.fixed) {
      WithinLimit(limit, Fresh(arena), b);
    }
  }

  // ---------------------------------------------------------------- a pass that copies nothing

  /** The blocks of the outputs, and those of a contract call, fit the arena; of arguments and names nothing is said. */
  predicate HasBlocks(tx: Transaction) {
    (if tx.data.Calls? then CALL_ROOM else 0) + OUTPUT_ROOM * |tx.targets| <= ARENA_SIZE
  }

  /** What a pass that copies nothing holds: type, sums, assets and amounts. */
  predicate Lists(st: State, tx: Transaction) {
    && st.typ == tx.typ && SumsOf(st.coin, tx)
    && |st.coin.outs| == |tx.targets|
    && forall k :: 0 <= k < |tx.targets| ==>
         && st.coin.outs[k].chainId == tx.targets[k].asset.chainId
         && st.coin.outs[k].assetId == tx.targets[k].asset.assetId
         && BlockIs(st.arena.mem, st.coin.outs[k].amount, tx.targets[k].amount)
  }

  lemma BlindSupport(alias: seq<Byte>, tx: Transaction)
    requires |alias| <= 40
    ensures var kept := KeepAllOf(Blind(alias), tx);
            && (Supported(kept) ==> HasBlocks(tx))
            && (alias == [] && HasBlocks(tx) ==> Supported(kept) && Within(Blind(alias), kept))
  {
    EmptyStyle();
  }

  lemma EmptyStyle()
    ensures StyleOfName([]).Other?
  {
    assert ([] + Zeros(40))[0] == 0;
    assert ([] + Zeros(40))[0..8][0] == 0;
    assert ([] + Zeros(40))[0..12][0] == 0;
  }

  /** It accepts only what the grammar reads and the arena has blocks for, and all of that if no argument is kept. */
  lemma BlindMeaning(alias: seq<Byte>, arena: Arena, b: seq<Byte>)
    requires arena.Valid() && |alias| <= 40
    ensures var e, f := Pass(Blind(alias), Fresh(arena), b), Parse(b);
            && (e.Accepted? ==> f.Got? && HasBlocks(f.value) && e.rest == f.rest && Lists(e.st, f.value))
            && (alias == [] && f.Got? && HasBlocks(f.value) ==> e.Accepted?)
  {
    hide Pass, Parse, Supported, Within, HasBlocks;
    PassMeaning(Blind(alias), arena, b);
    if Parse(b).Got? {
      var tx := Parse(b).value;
      BlindSupport(alias, tx);
      if Pass(Blind(alias), Fresh(arena), b).Accepted? {
        ListsKept(alias, Pass(Blind(alias), Fresh(arena), b).st, tx);
      }
    }
  }

  lemma ListsKept(alias: seq<Byte>, st: State, tx: Transaction)
    requires |alias| <= 40 && Reviews(st, KeepAllOf(Blind(alias), tx))
    ensures Lists(st, tx)
  {
    hide TargetSum, SourceSum, DataShown;
    KeepSum(Blind(alias), tx.targets);
    var kept := KeepTargets(Blind(alias), tx.targets);
    forall k | 0 <= k < |tx.targets|
      ensures Shows(st.coin.outs[k], KeepTarget(Blind(alias), tx.targets[k]), st.arena.mem)
    {
      assert Shows(st.coin.outs[k], kept[k], st.arena.mem);
    }
  }
}
