/** A call of `transfer` (type 16) with one argument of one element and no coin entries, its lengths as documented. */
module LoneCall {
  import opened Bytes
  import opened Varint
  import opened TxMachine
  import opened Grammar
  import opened LoneOutput
  import opened CallPass
  import opened OnePass
  import opened Documented
  import opened Meaning

  /** Method name, description, one argument of one element. */
  function Invocation(e: seq<Byte>): seq<Byte> {
    [8] + TRANSFER + ([0] + ([1] + ([1] + (WriteVarint(|e|) + e))))
  }

  /** Sender, contract, value, gas limit and price before it. */
  function CallBody(e: seq<Byte>): seq<Byte> { Zeros(94) + Invocation(e) }

  function CallCoins(): seq<Byte> { [2] + ([0] + [0]) }

  function CallBytes(e: seq<Byte>): seq<Byte> {
    [16, 0] + ([0, 0, 0, 0] + ([0] + (WriteVarint(|CallBody(e)|) + (CallBody(e) + CallCoins()))))
  }

  function LoneContract(e: seq<Byte>): Contract { Contract(Zeros(23), Zeros(32), TRANSFER, [[e]]) }

  function CallTransaction(e: seq<Byte>): Transaction { Transaction(16, Data.Calls(LoneContract(e)), [], []) }

  lemma WidePrefixed(v: nat, y: seq<Byte>)
    requires v < SIZE_T
    ensures Prefix(WriteVarint(v) + y) == Got(v, y)
  {
    hide ReadVarint, WriteVarint;
    RoundTrip(v, y);
    VarintWidth(v);
    assert (WriteVarint(v) + y)[|WriteVarint(v)|..] == y;
  }

  lemma VarintWidth(v: nat)
    ensures |WriteVarint(v)| == VarintSize(v) <= 9
  {
  }

  lemma WideFielded(d: seq<Byte>, y: seq<Byte>)
    requires |d| < SIZE_T
    ensures Field(WriteVarint(|d|) + d + y) == Got(d, y)
  {
    hide Prefix, Bite, WriteVarint;
    assert WriteVarint(|d|) + d + y == WriteVarint(|d|) + (d + y);
    WidePrefixed(|d|, d + y);
    SmallModulus(|d|);
    Bitten(d, y);
  }

  lemma OneArgParsed(e: seq<Byte>, y: seq<Byte>)
    requires |e| < SIZE_T
    ensures ParseArgs(1, [1] + (WriteVarint(|e|) + e) + y) == Got([[e]], y)
  {
    hide Number, Field, WriteVarint, LittleEndian;
    var f := WriteVarint(|e|) + e + y;
    OneByte([1]);
    assert [1] + (WriteVarint(|e|) + e) + y == [1] + f;
    Counted([1], f);
    WideFielded(e, y);
    OneElement(f);
    assert ParseArg([1] + f) == Got([e], y);
    assert ParseArgs(0, y) == Got([], y) && [[e]] + [] == [[e]];
  }

  lemma InvocationParsed(address: seq<Byte>, value: seq<Byte>, e: seq<Byte>, y: seq<Byte>)
    requires |e| < SIZE_T
    ensures ParseInvocation(address, value, Invocation(e) + y) == Got(Contract(address, value, TRANSFER, [[e]]), y)
  {
    hide Number, Field, WriteVarint, LittleEndian, ParseArgs;
    var a := [1] + (WriteVarint(|e|) + e) + y;
    OneByte([1]);
    assert Invocation(e) + y == [8] + TRANSFER + ([0] + [] + ([1] + a));
    Fielded(TRANSFER, [0] + [] + ([1] + a));
    Fielded([], [1] + a);
    Counted([1], a);
    OneArgParsed(e, y);
  }

  lemma ZerosBefore(d: seq<Byte>, y: seq<Byte>)
    ensures var b := Zeros(94) + d + y; b[23..46] == Zeros(23) && b[46..78] == Zeros(32) && b[94..] == d + y
  {
  }

  lemma BodyParsed(e: seq<Byte>, y: seq<Byte>)
    requires |e| < SIZE_T
    ensures ParseContract(CallBody(e) + y) == Got(LoneContract(e), y)
  {
    hide ParseInvocation, Invocation;
    var b := CallBody(e) + y;
    HeadBites(b);
    ZerosBefore(Invocation(e), y);
    hide CallBody, Zeros;
    InvocationParsed(Zeros(23), Zeros(32), e, y);
  }

  lemma CoinsParsed(data: Data)
    ensures ParseCoins(16, data, CallCoins()) == Got(Transaction(16, data, [], []), [])
    ensures CoinLengthHolds(16, data, CallCoins())
  {
    hide Number, Prefix, LittleEndian;
    OneByte([0]);
    Prefixed(2, [0] + [0]);
    Counted([0], [0]);
    assert [0] + [] == [0];
    Counted([0], []);
    assert ParseSources(0, [0]) == Got([], [0]) && ParseTargets(0, []) == Got([], []);
    assert NarrowSources(0, [0]) && NarrowTargets(0, []);
    FrontAll([0] + [0]);
  }

  lemma NarrowCall(e: seq<Byte>)
    requires |e| < SIZE_T
    ensures NarrowContract(CallBody(e))
  {
    hide Number, Prefix, WriteVarint, LittleEndian, ParseArg, Bite;
    assert CallBody(e)[94..] == Invocation(e);
    var f := WriteVarint(|e|) + e;
    var a := [1] + f;
    OneByte([1]);
    assert Invocation(e) == [8] + TRANSFER + ([0] + [] + ([1] + a));
    assert Invocation(e) == [8] + (TRANSFER + ([0] + [] + ([1] + a)));
    Prefixed(8, TRANSFER + ([0] + [] + ([1] + a)));
    Fielded(TRANSFER, [0] + [] + ([1] + a));
    assert [0] + [] + ([1] + a) == [0] + ([1] + a);
    Prefixed(0, [1] + a);
    Fielded([], [1] + a);
    Counted([1], a);
    Counted([1], f);
    WidePrefixed(|e|, e);
    assert NarrowElements(1, f);
    assert NarrowArgs(1, a);
  }

  lemma BodyLength(e: seq<Byte>)
    requires |e| < 0xFFFF_FF00
    ensures |CallBody(e)| < SIZE_T
  {
    VarintWidth(|e|);
  }

  /** The grammar and the documented format read the call. */
  lemma CallRead(e: seq<Byte>)
    requires |e| < 0xFFFF_FF00
    ensures Parse(CallBytes(e)) == ParseDocumented(CallBytes(e)) == Got(CallTransaction(e), [])
  {
    hide Number, Bite, Field, Prefix, LittleEndian, WriteVarint, CallBody, ParseContract, ParseCoins, CallCoins;
    hide NarrowContract, CoinLengthHolds, Front, ParseDocumented;
    var body, coins := CallBody(e), CallCoins();
    var b3 := WriteVarint(|body|) + (body + coins);
    BodyLength(e);
    TypeCounted([0, 0, 0, 0] + ([0] + b3));
    Bitten([0, 0, 0, 0], [0] + b3);
    assert [0] + [] + b3 == [0] + b3;
    Fielded([], b3);
    Prefixed(0, b3);
    WidePrefixed(|body|, body + coins);
    BodyParsed(e, coins);
    CoinsParsed(Data.Calls(LoneContract(e)));
    NarrowCall(e);
    FrontOf(body, coins);
    DocumentedExactly(CallBytes(e));
  }

  lemma TypeCounted(y: seq<Byte>)
    ensures Number(2, [16, 0] + y) == Got(16, y)
  {
    hide Number, LittleEndian;
    OneByte([16, 0]);
    Counted([16, 0], y);
  }

  /** It is supported as long as the argument and its terminator fit the arena. */
  lemma CallSupported(e: seq<Byte>, limit: Limit)
    requires limit.copied >= 8
    ensures Supported(CallTransaction(e)) <==> |e| <= 304
    ensures |e| <= 304 ==> (Within(limit, CallTransaction(e)) <==> |e| <= limit.fixed)
  {
    TransferStyle();
    var args := LoneContract(e).args;
    assert args[1..] == [];
    assert ArgRoom(args[1..]) == 0;
    assert args[0][0] == e;
  }

  lemma TransferStyle()
    ensures StyleOfName(TRANSFER) == Transfer
  {
    assert (TRANSFER + Zeros(40))[0..8] == TRANSFER;
    assert (TRANSFER + Zeros(40))[8] == 0;
  }
}
