/**
 The resumable transaction parser (`src/transaction/deserialize.c`, `tx_call_contract.c`)
 as an automaton.  A state says which field comes next (`Want`); a step takes that field off
 the front of the buffer and moves on.  The nested `stack_index` fields of the source are the
 `stack` and `inner` fields here; a variable that is dead in the source is 0 here.
 */
module TxMachine {
  import opened Bytes
  import opened Varint

  const ARENA_SIZE := 400
  const MAX_COIN_LEN := 5
  const AMOUNT_MODULUS: nat := 0x1_0000000000000000_0000000000000000_0000000000000000_0000000000000000

  const CALL_CONTRACT := 16

  // ---------------------------------------------------------------- the bump allocator

  datatype Ptr = Null | At(pos: nat) {
    function Pos(): nat { if At? then pos else 0 }
  }

  datatype Arena = Arena(mem: seq<Byte>, used: nat) {
    predicate Valid() { |mem| == ARENA_SIZE && used <= ARENA_SIZE }
  }

  datatype Allocation = NoRoom | Room(at: nat, arena: Arena)

  function Zeros(n: nat): (z: seq<Byte>)
    ensures |z| == n
  {
    seq(n, _ => 0)
  }

  /** Overwrites `mem` from `at` on; the callers have checked that `data` ends inside it. */
  function Poke(mem: seq<Byte>, at: nat, data: seq<Byte>): (m: seq<Byte>)
    ensures |m| == |mem|
  {
    if at + |data| <= |mem| then mem[..at] + data + mem[at + |data|..] else mem
  }

  function Malloc(a: Arena, n: nat): Allocation {
    if a.used + n > ARENA_SIZE then NoRoom
    else Room(a.used, Arena(Poke(a.mem, a.used, Zeros(n)), a.used + n))
  }

  // ---------------------------------------------------------------- the state

  datatype Call = Call(stack: nat, contractAddress: Ptr, value: Ptr, methodName: Ptr, methodOff: nat,
                       argCount: nat, argIndex: nat, inner: nat, oneCount: nat, oneIndex: nat,
                       elementLen: nat, element1: Ptr, element2: Ptr, element3: Ptr)

  /** The coin entry being read; `off` is where the next piece of a split address goes. */
  datatype Entry = Entry(stack: nat, address: Ptr, off: nat, chainId: nat, assetId: nat, amount: Ptr)

  datatype Output = Output(address: Ptr, chainId: nat, assetId: nat, amount: Ptr)

  datatype Coin = Coin(stack: nat, count: nat, index: nat, cur: Entry,
                       fromAmount: nat, toAmount: nat, outs: seq<Output>)

  datatype State = State(stack: nat, typ: nat, call: Call, coin: Coin, arena: Arena)

  const NO_ENTRY := Entry(0, Null, 0, 0, 0, Null)
  const NO_CALL := Call(0, Null, Null, Null, 0, 0, 0, 0, 0, 0, 0, Null, Null, Null)
  const NO_COIN := Coin(0, 0, 0, NO_ENTRY, 0, 0, [])

  /** The zeroed context of a first chunk; the arena is whatever the previous run left. */
  function Fresh(arena: Arena): State {
    State(0, 0, NO_CALL, NO_COIN, arena)
  }

  // ---------------------------------------------------------------- what comes next

  datatype Demand =
    | Fixed(n: nat)               // n bytes
    | Length                      // a varint on its own
    | Skip                        // a varint and as many bytes, not kept
    | Fetch(at: nat, off: nat)    // a varint and as many bytes, copied into the arena
    | Finished

  const TRANSFER: seq<Byte> := [0x74, 0x72, 0x61, 0x6E, 0x73, 0x66, 0x65, 0x72]
  const TRANSFER_FROM: seq<Byte> := TRANSFER + [0x46, 0x72, 0x6F, 0x6D]

  datatype Style = Transfer | TransferFrom | Other

  /** `strcmp(mem + at, name) == 0`. */
  predicate CStringIs(mem: seq<Byte>, at: nat, name: seq<Byte>) {
    && at + |name| < |mem|
    && mem[at..at + |name|] == name
    && mem[at + |name|] == 0
  }

  function StyleOf(s: State): Style {
    if CStringIs(s.arena.mem, s.call.methodName.Pos(), TRANSFER) then Transfer
    else if CStringIs(s.arena.mem, s.call.methodName.Pos(), TRANSFER_FROM) then TransferFrom
    else Other
  }

  function WantCall(s: State): Demand {
    var c := s.call;
    match c.stack
    case 0 => Fixed(23)
    case 1 => Fixed(23)
    case 2 => Fixed(32)
    case 3 => Fixed(8)
    case 4 => Fixed(8)
    case 5 => Fetch(c.methodName.Pos(), c.methodOff)
    case 6 => Skip
    case 7 => Fixed(1)
    case _ =>
      if c.inner == 0 then Fixed(1)
      else if c.inner == 1 then (if StyleOf(s).Other? then Skip else Length)
      else Fixed(c.elementLen % SIZE_T)
  }

  function WantFrom(e: Entry): Demand {
    match e.stack
    case 0 => Skip
    case 1 => Fixed(2)
    case 2 => Fixed(2)
    case 3 => Fixed(32)
    case 4 => Skip
    case _ => Fixed(1)
  }

  function WantTo(e: Entry): Demand {
    match e.stack
    case 0 => Fetch(e.address.Pos(), e.off)
    case 1 => Fixed(2)
    case 2 => Fixed(2)
    case 3 => Fixed(32)
    case _ => Fixed(8)
  }

  function WantCoin(c: Coin): Demand {
    match c.stack
    case 0 => Fixed(1)
    case 1 => WantFrom(c.cur)
    case 2 => Fixed(1)
    case _ => if c.index >= c.count then Finished else WantTo(c.cur)
  }

  function Want(s: State): Demand {
    match s.stack
    case 0 => Fixed(2)
    case 1 => Fixed(4)
    case 2 => Skip
    case 3 => if s.typ in {2, 10, CALL_CONTRACT} then Length else Skip
    case 4 => WantCall(s)
    case 5 => Length
    case _ => WantCoin(s.coin)
  }

  // ---------------------------------------------------------------- moving on

  datatype Next = Into(st: State) | Refuse

  function ArriveCoinLength(s: State): State { s.(stack := 5) }

  /** The head of the loop over the second dimension of the arguments. */
  function ArriveArg(s: State): State {
    var s' := s.(call := s.call.(stack := 8, inner := 0, oneCount := 0, oneIndex := 0, elementLen := 0));
    if s.call.argIndex < s.call.argCount then s' else ArriveCoinLength(s')
  }

  function ArgDone(s: State): State {
    ArriveArg(s.(call := s.call.(argIndex := s.call.argIndex + 1)))
  }

  /** The head of the loop over the first dimension, when its elements are skipped. */
  function ArriveElement(s: State): State {
    if s.call.oneIndex < s.call.oneCount then s else ArgDone(s)
  }

  function SetElement(c: Call, style: Style, p: Ptr): Call {
    var first := if style.TransferFrom? then 1 else 0;
    if c.argIndex == first then c.(element1 := p)
    else if c.argIndex == first + 1 then c.(element2 := p)
    else c.(element3 := p)
  }

  function ElementOf(c: Call, style: Style): Ptr {
    var first := if style.TransferFrom? then 1 else 0;
    if c.argIndex == first then c.element1
    else if c.argIndex == first + 1 then c.element2
    else c.element3
  }

  /** A field of the call data that needs a block of `n` bytes: the block is taken on arrival. */
  function ArriveCall(s: State, stack: nat): Next {
    var n := if stack == 1 then 23 else if stack == 2 then 32 else 40;
    match Malloc(s.arena, n)
    case NoRoom => Refuse
    case Room(at, arena) =>
      var c := s.call.(stack := stack);
      Into(s.(arena := arena,
              call := if stack == 1 then c.(contractAddress := At(at))
                      else if stack == 2 then c.(value := At(at))
                      else c.(methodName := At(at), methodOff := 0)))
  }

  function Store(s: State, at: nat, d: seq<Byte>): State {
    s.(arena := s.arena.(mem := Poke(s.arena.mem, at, d)))
  }

  function TakeCall(s: State, d: seq<Byte>): Next {
    var c := s.call;
    match c.stack
    case 0 => ArriveCall(s, 1)
    case 1 => ArriveCall(Store(s, c.contractAddress.Pos(), d), 2)
    case 2 => Into(Store(s, c.value.Pos(), d).(call := c.(stack := 3)))
    case 3 => Into(s.(call := c.(stack := 4)))
    case 4 => ArriveCall(s, 5)
    case 7 => Into(ArriveArg(s.(call := c.(argCount := LittleEndian(d), argIndex := 0))))
    case _ =>
      if c.inner == 0 then
        var s' := s.(call := c.(oneCount := LittleEndian(d), oneIndex := 0, inner := 1));
        if StyleOf(s).Other? then Into(ArriveElement(s'))
        else if LittleEndian(d) != 1 then Refuse
        else Into(s')
      else
        var at := ElementOf(c, StyleOf(s)).Pos();
        Into(ArgDone(Store(s, at, d + [0])))
  }

  /** The length of a kept argument: its block is taken at once, with room for a final NUL. */
  function TakeElementLength(s: State, v: nat): Next {
    match Malloc(s.arena, (v + 1) % SIZE_T)
    case NoRoom => Refuse
    case Room(at, arena) =>
      Into(s.(arena := arena,
              call := SetElement(s.call.(elementLen := v, inner := 2), StyleOf(s), At(at))))
  }

  function ArriveFrom(s: State): State {
    var c := s.coin;
    if c.index < c.count then s.(coin := c.(stack := 1, cur := NO_ENTRY))
    else s.(coin := c.(stack := 2, count := 0, index := 0, cur := NO_ENTRY))
  }

  function ArriveTo(s: State): Next {
    var c := s.coin;
    if c.index >= c.count then Into(s.(coin := c.(stack := 3, cur := NO_ENTRY)))
    else
      match Malloc(s.arena, 40)
      case NoRoom => Refuse
      case Room(at, arena) =>
        Into(s.(arena := arena, coin := c.(stack := 3, cur := NO_ENTRY.(address := At(at)))))
  }

  function ArriveAmount(s: State): Next {
    match Malloc(s.arena, 32)
    case NoRoom => Refuse
    case Room(at, arena) =>
      Into(s.(arena := arena, coin := s.coin.(cur := s.coin.cur.(stack := 3, amount := At(at)))))
  }

  /** `add256` on the running sum, for entries of asset 1-1 only. */
  function AddAmount(sum: nat, chainId: nat, assetId: nat, d: seq<Byte>): nat {
    if chainId == 1 && assetId == 1 then (LittleEndian(d) + sum) % AMOUNT_MODULUS else sum
  }

  function TakeFrom(s: State, d: seq<Byte>): State {
    var c := s.coin;
    var e := c.cur;
    match e.stack
    case 1 => s.(coin := c.(cur := e.(stack := 2, chainId := LittleEndian(d))))
    case 2 => s.(coin := c.(cur := e.(stack := 3, assetId := LittleEndian(d))))
    case 3 => s.(coin := c.(cur := e.(stack := 4), fromAmount := AddAmount(c.fromAmount, e.chainId, e.assetId, d)))
    case _ => ArriveFrom(s.(coin := c.(index := c.index + 1)))
  }

  function TakeTo(s: State, d: seq<Byte>): Next {
    var c := s.coin;
    var e := c.cur;
    match e.stack
    case 1 => Into(s.(coin := c.(cur := e.(stack := 2, chainId := LittleEndian(d)))))
    case 2 => ArriveAmount(s.(coin := c.(cur := e.(assetId := LittleEndian(d)))))
    case 3 => Into(Store(s, e.amount.Pos(), d).(coin :=
                     c.(cur := e.(stack := 4), toAmount := AddAmount(c.toAmount, e.chainId, e.assetId, d))))
    case _ => ArriveTo(s.(coin := c.(index := c.index + 1,
                                     outs := c.outs + [Output(e.address, e.chainId, e.assetId, e.amount)])))
  }

  function TakeCoin(s: State, d: seq<Byte>): Next {
    var c := s.coin;
    match c.stack
    case 0 => Into(ArriveFrom(s.(coin := c.(count := LittleEndian(d), index := 0))))
    case 1 => Into(TakeFrom(s, d))
    case 2 => ArriveTo(s.(coin := c.(count := LittleEndian(d), index := 0)))
    case _ => TakeTo(s, d)
  }

  /** After the bytes of a `Fixed` field. */
  function Take(s: State, d: seq<Byte>): Next {
    match s.stack
    case 0 => Into(s.(stack := 1, typ := LittleEndian(d), arena := s.arena.(used := 0)))
    case 1 => Into(s.(stack := 2))
    case 4 => TakeCall(s, d)
    case _ => TakeCoin(s, d)
  }

  /** After a `Length` field. */
  function TakeLength(s: State, v: nat): Next {
    match s.stack
    case 3 => Into(if s.typ == CALL_CONTRACT then s.(stack := 4, call := s.call.(stack := 0))
                   else ArriveCoinLength(s))
    case 4 => TakeElementLength(s, v)
    case _ => Into(s.(stack := 6, coin := s.coin.(stack := 0)))
  }

  /** After a skipped field. */
  function Skipped(s: State): State {
    match s.stack
    case 2 => s.(stack := 3)
    case 3 => ArriveCoinLength(s)
    case 4 => if s.call.stack == 6 then s.(call := s.call.(stack := 7))
              else ArriveElement(s.(call := s.call.(oneIndex := s.call.oneIndex + 1)))
    case _ => s.(coin := s.coin.(cur := s.coin.cur.(stack := s.coin.cur.stack + 1)))
  }

  /** Where the next piece of the field being fetched goes. */
  function SetOff(s: State, off: nat): State {
    if s.stack == 4 then s.(call := s.call.(methodOff := off))
    else s.(coin := s.coin.(cur := s.coin.cur.(off := off)))
  }

  /** After the last piece of a fetched field. */
  function Fetched(s: State): State {
    if s.stack == 4 then s.(call := s.call.(methodOff := 0, stack := 6))
    else s.(coin := s.coin.(cur := s.coin.cur.(off := 0, stack := 1)))
  }

  // ---------------------------------------------------------------- running

  datatype Ending =
    | Accepted(st: State, rest: seq<Byte>)     // PARSING_OK
    | Refused                                  // PARSING_ERROR
    | ShortLength(st: State, rest: seq<Byte>)  // PARSING_LENGTH_ERROR
    | ShortValue(st: State, lack: nat)         // PARSING_VALUE_ERROR
    | Stray                                    // a copy that leaves the arena: undefined in the source

  datatype Step = Go(st: State, rest: seq<Byte>) | Stop(end: Ending)

  function Onward(n: Next, rest: seq<Byte>): Step {
    match n
    case Into(st) => Go(st, rest)
    case Refuse => Stop(Refused)
  }

  function Min(a: nat, b: nat): nat { if a < b then a else b }

  function StepFixed(s: State, n: nat, b: seq<Byte>): Step {
    if |b| < n then Stop(ShortLength(s, b))
    else if n > ARENA_SIZE then Stop(Stray)
    else Onward(Take(s, b[..n]), b[n..])
  }

  function StepLength(s: State, b: seq<Byte>): Step {
    match ReadVarint(b)
    case Short => Stop(ShortLength(s, b))
    case Read(v, k) => Onward(TakeLength(s, v), b[k..])
  }

  function SkipPayload(s: State, n: nat, p: seq<Byte>): Step {
    if |p| < n then Stop(ShortValue(s, n - |p|)) else Go(Skipped(s), p[n..])
  }

  function StepSkip(s: State, b: seq<Byte>): Step {
    match ReadVarint(b)
    case Short => Stop(ShortLength(s, b))
    case Read(v, k) => SkipPayload(s, v % SIZE_T, b[k..])
  }

  function FetchPayload(s: State, at: nat, off: nat, n: nat, p: seq<Byte>): Step {
    var piece := p[..Min(n, |p|)];
    if at + off + |piece| > ARENA_SIZE then Stop(Stray)
    else
      var s' := Store(s, at + off, piece);
      if |p| < n then Stop(ShortValue(SetOff(s', |p|), n - |p|)) else Go(Fetched(s'), p[n..])
  }

  function StepFetch(s: State, at: nat, off: nat, b: seq<Byte>): Step {
    match ReadVarint(b)
    case Short => Stop(ShortLength(SetOff(s, 0), b))
    case Read(v, k) => FetchPayload(s, at, off, v % SIZE_T, b[k..])
  }

  function StepOf(s: State, b: seq<Byte>): Step {
    match Want(s)
    case Finished => Stop(Accepted(s, b))
    case Fixed(n) => StepFixed(s, n, b)
    case Length => StepLength(s, b)
    case Skip => StepSkip(s, b)
    case Fetch(at, off) => StepFetch(s, at, off, b)
  }

  /** Only an empty kept argument takes no byte at all, and something is read right after it. */
  lemma StepProgress(s: State, b: seq<Byte>)
    requires StepOf(s, b).Go?
    ensures |StepOf(s, b).rest| <= |b|
    ensures |StepOf(s, b).rest| == |b| ==> Want(s) == Fixed(0) && Want(StepOf(s, b).st) != Fixed(0)
  {
  }

  function Rank(s: State): nat { if Want(s) == Fixed(0) then 1 else 0 }

  /** The parser on the buffer `b`, from the state `s`, until it stops. */
  function Run(s: State, b: seq<Byte>): Ending
    decreases |b|, Rank(s)
  {
    var step := StepOf(s, b);
    match step
    case Stop(end) => end
    case Go(s', rest) =>
      StepProgress(s, b);
      Run(s', rest)
  }
}
