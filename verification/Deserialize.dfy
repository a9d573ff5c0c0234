/**
 `src/transaction/deserialize.c` in its own form: nested fall-through switches over saved
 `stack_index` fields, all state updated in place.  Every method keeps the promise that what is left
 to do equals what was to be done at its start (`ending`), as the automaton `TxMachine.Run` says it;
 so `Deserialize` computes exactly `Run` of the view of its fields.
 */
module Deserialize {
  import opened Bytes
  import opened Radix
  import opened Varint
  import opened TxMachine
  import Names
  import opened Buffer

  datatype Status = Ok | Error | LengthError | ValueError | Wild

  datatype Func = NoFunc | TransferFunc | CrossChainFunc | CallFunc

  /** `transaction_tx_call_contract_t`. */
  datatype CallContract = CallContract(
    methodLen: nat, methodName: Ptr, contractAddress: Ptr, value: Ptr, elementLen: nat,
    element1: Ptr, element2: Ptr, element3: Ptr,
    twoArgsLen: nat, twoArrayIndex: nat, oneArgsLen: nat, oneArrayIndex: nat, stackIndex: nat)

  /** `transaction_coin_from_t`. */
  datatype CoinFrom = CoinFrom(stackIndex: nat, assetsChainId: nat, assetsId: nat)

  /** `transaction_coin_to_t`. */
  datatype CoinTo = CoinTo(stackIndex: nat, addressLen: nat, address: Ptr,
                           assetsChainId: nat, assetsId: nat, amount: Ptr)

  /** `transaction_coin_t`. */
  datatype CoinInfo = CoinInfo(stackIndex: nat, arrayIndex: nat, fromAmount: nat, fromLen: nat, from: seq<CoinFrom>,
                               toAmount: nat, toLen: nat, to: seq<CoinTo>)

  const ZERO_CALL := CallContract(0, Null, Null, Null, 0, Null, Null, Null, 0, 0, 0, 0, 0)
  const ZERO_FROM := CoinFrom(0, 0, 0)
  const ZERO_TO := CoinTo(0, 0, Null, 0, 0, Null)
  const ZERO_COIN :=
    CoinInfo(0, 0, 0, 0, seq(MAX_COIN_LEN + 1, _ => ZERO_FROM), 0, 0, seq(MAX_COIN_LEN + 1, _ => ZERO_TO))

  /** Entries past the fifth share the last slot. */
  function SlotOf(i: nat): (k: nat)
    ensures k == if i < 5 then i else 5
  {
    if i >= MAX_COIN_LEN then MAX_COIN_LEN else i
  }

  function FuncOf(typ: nat): Func {
    if typ == 2 then TransferFunc
    else if typ == 10 then CrossChainFunc
    else if typ == CALL_CONTRACT then CallFunc
    else NoFunc
  }

  // ---------------------------------------------------------------- the rules of the automaton

  function Follow(n: Next, b: seq<Byte>): Ending {
    match n
    case Into(st) => Run(st, b)
    case Refuse => Refused
  }

  lemma FixedRule(s: State, n: nat, b: seq<Byte>)
    requires Want(s) == Fixed(n) && n <= ARENA_SIZE
    ensures |b| < n ==> Run(s, b) == ShortLength(s, b)
    ensures |b| >= n ==> Run(s, b) == Follow(Take(s, b[..n]), b[n..])
  {
  }

  lemma LengthRule(s: State, b: seq<Byte>)
    requires Want(s) == Length
    ensures var r := ReadVarint(b);
            Run(s, b) == if r.Short? then ShortLength(s, b) else Follow(TakeLength(s, r.value), b[r.size..])
  {
  }

  lemma SkipRule(s: State, b: seq<Byte>)
    requires Want(s) == Skip
    ensures var r := ReadVarint(b);
            if r.Short? then Run(s, b) == ShortLength(s, b)
            else
              var p, n := b[r.size..], r.value % SIZE_T;
              Run(s, b) == if |p| < n then ShortValue(s, n - |p|) else Run(Skipped(s), p[n..])
  {
  }

  lemma FetchRule(s: State, b: seq<Byte>)
    requires Want(s).Fetch?
    ensures var r := ReadVarint(b);
            if r.Short? then Run(s, b) == ShortLength(SetOff(s, 0), b)
            else
              var p, n, at := b[r.size..], r.value % SIZE_T, Want(s).at + Want(s).off;
              var s' := Store(s, at, p[..Min(n, |p|)]);
              if at + Min(n, |p|) > ARENA_SIZE then Run(s, b) == Stray
              else if |p| < n then Run(s, b) == ShortValue(SetOff(s', |p|), n - |p|)
              else Run(s, b) == Run(Fetched(s'), p[n..])
  {
  }

  // ---------------------------------------------------------------- single fields

  ghost function Frame(out: array?<Byte>): set<object> {
    if out == null then {} else {out}
  }

  /** `transaction_deserialize_spc_field`. */
  method SpcField(buf: Cursor, len: nat, out: array?<Byte>, at: nat) returns (ret: Status)
    requires buf.Valid() && out != buf.ptr
    modifies buf`offset, Frame(out)
    ensures buf.Valid()
    ensures var b, n := old(buf.Rest()), len % SIZE_T;
            if |b| < n then ret == LengthError && buf.Rest() == b && (out != null ==> out[..] == old(out[..]))
            else if out != null && at + n > out.Length then ret == Wild
            else && ret == Ok && buf.Rest() == b[n..]
                 && (out != null ==> out[..] == Poke(old(out[..]), at, b[..n]))
  {
    var n := len % SIZE_T;
    if out != null {
      if buf.CanRead(n) && at + n > out.Length {
        return Wild;
      }
      var ok := buf.SpcMove(out, at, n);
      return if ok then Ok else LengthError;
    }
    var ok := buf.SeekCur(n);
    return if ok then Ok else LengthError;
  }

  /** `transaction_deserialize_var_field`; what is missing of a split field goes to `buf.lack`. */
  method VarField(buf: Cursor, out: array?<Byte>, at: nat) returns (ret: Status, value: nat)
    requires buf.Valid() && out != buf.ptr
    modifies buf`offset, buf`lack, Frame(out)
    ensures buf.Valid()
    ensures var r := ReadVarint(old(buf.Rest()));
            if r.Short? then
              && ret == LengthError && value == 0 && buf.Rest() == old(buf.Rest())
              && (out != null ==> out[..] == old(out[..]))
            else
              var p, n := old(buf.Rest())[r.size..], r.value % SIZE_T;
              if out != null && at + Min(n, |p|) > out.Length then ret == Wild
              else && (out != null ==> out[..] == Poke(old(out[..]), at, p[..Min(n, |p|)]))
                   && if |p| < n then ret == ValueError && value == |p| && buf.Rest() == [] && buf.lack == n - |p|
                      else ret == Ok && value == r.value && buf.Rest() == p[n..]
  {
    hide Varint.ReadVarint, Poke;
    ret := Ok;
    var ok;
    ok, value := buf.ReadVarint();
    if !ok {
      return LengthError, 0;
    }
    ghost var p := buf.Rest();
    var available := buf.size - buf.offset;
    if out != null {
      if !buf.CanRead(value % SIZE_T) {
        buf.lack := (value - available) % SIZE_T;
        LackOf(value, available);
        value := available;
        ret := ValueError;
        SmallModulus(value);
      }
      if at + value % SIZE_T > out.Length {
        return Wild, value;
      }
      ok := buf.SpcMove(out, at, value % SIZE_T);
    } else {
      ok := buf.SeekCur(value % SIZE_T);
      if !ok {
        buf.lack := (value - available) % SIZE_T;
        LackOf(value, available);
        value := available;
        buf.offset := buf.size;
        ret := ValueError;
      } else {
        assert buf.Rest() == p[value % SIZE_T..];
      }
    }
  }

  /** The missing count, computed in 64 bits and stored in 32. */
  lemma LackOf(value: nat, available: nat)
    requires available < value % SIZE_T
    ensures value >= available && (value - available) % SIZE_T == value % SIZE_T - available
  {
    var q, r := value / SIZE_T, value % SIZE_T;
    DivisionIsUnique(value - available, SIZE_T, q, r - available);
  }

  // ---------------------------------------------------------------- the view of the fields

  function FromAt(c: CoinInfo, k: nat): CoinFrom {
    if k < |c.from| then c.from[k] else ZERO_FROM
  }

  function ToAt(c: CoinInfo, k: nat): CoinTo {
    if k < |c.to| then c.to[k] else ZERO_TO
  }

  /** A field that has not been read yet counts as 0, whatever the variable still holds. */
  function FromEntry(f: CoinFrom): Entry {
    Entry(f.stackIndex, Null, 0, if f.stackIndex > 1 then f.assetsChainId else 0,
          if f.stackIndex > 2 then f.assetsId else 0, Null)
  }

  function ToEntry(t: CoinTo): Entry {
    Entry(t.stackIndex, t.address, if t.stackIndex == 0 then t.addressLen else 0,
          if t.stackIndex > 1 then t.assetsChainId else 0, if t.stackIndex > 2 then t.assetsId else 0, t.amount)
  }

  function ToOutput(t: CoinTo): Output {
    Output(t.address, t.assetsChainId, t.assetsId, t.amount)
  }

  function ViewCoin(c: CoinInfo, i: nat): Coin {
    match c.stackIndex
    case 1 => Coin(1, c.fromLen, i, if i < c.fromLen then FromEntry(FromAt(c, SlotOf(i))) else NO_ENTRY,
                   c.fromAmount, c.toAmount, [])
    case 3 => Coin(3, c.toLen, i, if i < c.toLen then ToEntry(ToAt(c, SlotOf(i))) else NO_ENTRY,
                   c.fromAmount, c.toAmount, seq(i, k requires 0 <= k < i => ToOutput(ToAt(c, SlotOf(k)))))
    case _ => Coin(c.stackIndex, 0, 0, NO_ENTRY, c.fromAmount, c.toAmount, [])
  }

  function ViewCall(c: CallContract, infoStack: nat): Call {
    var inner := c.stackIndex;
    Call(infoStack, c.contractAddress, c.value, c.methodName, if infoStack == 5 then c.methodLen else 0,
         if infoStack >= 8 then c.twoArgsLen else 0, if infoStack >= 8 then c.twoArrayIndex else 0,
         inner, if inner > 0 then c.oneArgsLen else 0, if inner > 0 then c.oneArrayIndex else 0,
         if inner > 1 then c.elementLen else 0, c.element1, c.element2, c.element3)
  }

  // ---------------------------------------------------------------- the fields of an input

  predicate FromReady(s: State, c: CoinInfo, i: nat, k: nat) {
    && s.stack == 6 && s.coin == ViewCoin(c, c.arrayIndex)
    && |c.from| == MAX_COIN_LEN + 1 && c.stackIndex == 1 && c.arrayIndex < c.fromLen
    && i == SlotOf(c.arrayIndex) && c.from[i].stackIndex == k
  }

  /** Slot `i` about to read its field `k`. */
  function FromField(c: CoinInfo, i: nat, k: nat): CoinInfo
    requires i < |c.from|
  {
    c.(from := c.from[i := c.from[i].(stackIndex := k)])
  }

  lemma SameFrom(c: CoinInfo, i: nat)
    requires i < |c.from|
    ensures FromField(c, i, c.from[i].stackIndex) == c
  {
    assert c.from[i := c.from[i].(stackIndex := c.from[i].stackIndex)] == c.from;
  }

  function WithChain(c: CoinInfo, i: nat, v: nat): CoinInfo
    requires i < |c.from|
  {
    c.(from := c.from[i := c.from[i].(assetsChainId := v)])
  }

  function WithAssetId(c: CoinInfo, i: nat, v: nat): CoinInfo
    requires i < |c.from|
  {
    c.(from := c.from[i := c.from[i].(assetsId := v)])
  }

  function Put(s: State, c: CoinInfo): State { s.(coin := ViewCoin(c, c.arrayIndex)) }

  /** The two skipped fields, address and nonce. */
  lemma FromSkipRule(s: State, c: CoinInfo, i: nat, k: nat, b: seq<Byte>)
    requires FromReady(s, c, i, k) && (k == 0 || k == 4)
    ensures var r := ReadVarint(b);
            if r.Short? then Run(s, b) == ShortLength(s, b)
            else
              var p, n := b[r.size..], r.value % SIZE_T;
              Run(s, b) == if |p| < n then ShortValue(s, n - |p|)
                           else Run(Put(s, FromField(c, i, k + 1)), p[n..])
  {
    SkipRule(s, b);
  }

  lemma FromChainRule(s: State, c: CoinInfo, i: nat, b: seq<Byte>, v: nat)
    requires FromReady(s, c, i, 1) && (|b| >= 2 ==> v == LittleEndian(b[..2]))
    ensures Put(s, WithChain(c, i, v)) == s
    ensures Run(s, b) == if |b| < 2 then ShortLength(s, b)
                         else Run(Put(s, FromField(WithChain(c, i, v), i, 2)), b[2..])
  {
    FixedRule(s, 2, b);
  }

  lemma FromAssetRule(s: State, c: CoinInfo, i: nat, b: seq<Byte>, v: nat)
    requires FromReady(s, c, i, 2) && (|b| >= 2 ==> v == LittleEndian(b[..2]))
    ensures Put(s, WithAssetId(c, i, v)) == s
    ensures Run(s, b) == if |b| < 2 then ShortLength(s, b)
                         else Run(Put(s, FromField(WithAssetId(c, i, v), i, 3)), b[2..])
  {
    FixedRule(s, 2, b);
  }

  lemma FromAmountRule(s: State, c: CoinInfo, i: nat, b: seq<Byte>)
    requires FromReady(s, c, i, 3)
    ensures Run(s, b) == if |b| < 32 then ShortLength(s, b) else
              var f := c.from[i];
              var sum := AddAmount(c.fromAmount, f.assetsChainId, f.assetsId, b[..32]);
              Run(Put(s, FromField(c.(fromAmount := sum), i, 4)),
                  b[32..])
  {
    FixedRule(s, 32, b);
  }

  lemma FromLockedRule(s: State, c: CoinInfo, i: nat, b: seq<Byte>)
    requires FromReady(s, c, i, 5)
    ensures Run(s, b) == if |b| < 1 then ShortLength(s, b) else
              Run(ArriveFrom(s.(coin := ViewCoin(FromField(c, i, 0), c.arrayIndex + 1))), b[1..])
  {
    FixedRule(s, 1, b);
  }

  // ---------------------------------------------------------------- the fields of an output

  predicate ToReady(s: State, c: CoinInfo, i: nat, k: nat) {
    && s.stack == 6 && s.coin == ViewCoin(c, c.arrayIndex)
    && |c.to| == MAX_COIN_LEN + 1 && c.stackIndex == 3 && c.arrayIndex < c.toLen && c.arrayIndex <= MAX_COIN_LEN
    && i == c.arrayIndex && c.to[i].stackIndex == k
  }

  function SetTo(c: CoinInfo, i: nat, t: CoinTo): CoinInfo
    requires i < |c.to|
  {
    c.(to := c.to[i := t])
  }

  lemma SetTwice(c: CoinInfo, i: nat, t: CoinTo, u: CoinTo)
    requires i < |c.to|
    ensures SetTo(SetTo(c, i, t), i, u) == SetTo(c, i, u)
  {
    assert c.to[i := t][i := u] == c.to[i := u];
  }

  /** Output slot `i` about to read its field `k`. */
  function ToField(c: CoinInfo, i: nat, k: nat): CoinInfo
    requires i < |c.to|
  {
    SetTo(c, i, c.to[i].(stackIndex := k))
  }

  lemma SameTo(c: CoinInfo, i: nat)
    requires i < |c.to|
    ensures ToField(c, i, c.to[i].stackIndex) == c
  {
    assert c.to[i := c.to[i].(stackIndex := c.to[i].stackIndex)] == c.to;
  }

  /** Changing slot `i`, while it is being read, changes the current entry of the view only. */
  lemma ViewOfTo(c: CoinInfo, i: nat, t: CoinTo)
    requires |c.to| == MAX_COIN_LEN + 1 && c.stackIndex == 3 && i == c.arrayIndex < c.toLen && i <= MAX_COIN_LEN
    ensures ViewCoin(SetTo(c, i, t), i) == ViewCoin(c, i).(cur := ToEntry(t))
    ensures ViewCoin(c, i).stack == 3 && ViewCoin(c, i).count == c.toLen && ViewCoin(c, i).index == i
    ensures ViewCoin(c, i).cur == ToEntry(c.to[i])
    ensures ViewCoin(c, i).toAmount == c.toAmount
  {
    assert ViewCoin(SetTo(c, i, t), i).outs == ViewCoin(c, i).outs;
  }

  lemma ToAddressRule(s: State, c: CoinInfo, i: nat, b: seq<Byte>)
    requires ToReady(s, c, i, 0) && c.to[i].address.At?
    ensures var r, t := ReadVarint(b), c.to[i];
            if r.Short? then Run(s, b) == ShortLength(Put(s, SetTo(c, i, t.(addressLen := 0))), b)
            else
              var p, n, at := b[r.size..], r.value % SIZE_T, t.address.pos + t.addressLen;
              var s' := Store(s, at, p[..Min(n, |p|)]);
              if at + Min(n, |p|) > ARENA_SIZE then Run(s, b) == Stray
              else if |p| < n then Run(s, b) == ShortValue(Put(s', SetTo(c, i, t.(addressLen := |p|))), n - |p|)
              else Run(s, b) == Run(Put(s', ToField(SetTo(c, i, t.(addressLen := r.value)), i, 1)), p[n..])
  {
    hide ViewCoin, Run, ReadVarint, Poke;
    var t := c.to[i];
    ViewOfTo(c, i, t);
    FetchOfTo(s);
    FetchRule(s, b);
    var r := ReadVarint(b);
    ViewOfTo(c, i, t.(addressLen := 0));
    if r.Read? {
      ViewOfTo(c, i, t.(addressLen := |b[r.size..]|));
      ViewOfTo(c, i, t.(addressLen := r.value, stackIndex := 1));
      assert ToField(SetTo(c, i, t.(addressLen := r.value)), i, 1)
          == SetTo(c, i, t.(addressLen := r.value, stackIndex := 1));
    }
  }

  lemma FetchOfTo(s: State)
    requires s.stack == 6 && s.coin.stack == 3 && s.coin.index < s.coin.count && s.coin.cur.stack == 0
    ensures Want(s) == Fetch(s.coin.cur.address.Pos(), s.coin.cur.off)
  {
  }

  /** Arriving at a free slot takes the block of its address. */
  lemma ToArriveRule(s: State, c: CoinInfo, i: nat)
    requires ToReady(s, c, i, 0)
    requires c.to[i] == ZERO_TO.(assetsChainId := c.to[i].assetsChainId, assetsId := c.to[i].assetsId)
    ensures ArriveTo(s) == match Malloc(s.arena, 40)
                           case NoRoom => Refuse
                           case Room(at, arena) =>
                             Into(Put(s.(arena := arena), SetTo(c, i, c.to[i].(address := At(at)))))
  {
    hide ViewCoin, Malloc;
    var m := Malloc(s.arena, 40);
    ViewOfTo(c, i, c.to[i]);
    if m.Room? {
      ViewOfTo(c, i, c.to[i].(address := At(m.at)));
    }
  }

  lemma ToChainRule(s: State, c: CoinInfo, i: nat, b: seq<Byte>, v: nat)
    requires ToReady(s, c, i, 1) && (|b| >= 2 ==> v == LittleEndian(b[..2]))
    ensures var t := c.to[i].(assetsChainId := v);
            && Put(s, SetTo(c, i, t)) == s
            && Run(s, b) == if |b| < 2 then ShortLength(s, b)
                            else Run(Put(s, SetTo(c, i, t.(stackIndex := 2))), b[2..])
  {
    hide ViewCoin, Run, LittleEndian;
    var t := c.to[i].(assetsChainId := v);
    ViewOfTo(c, i, t);
    ViewOfTo(c, i, t.(stackIndex := 2));
    FixedRule(s, 2, b);
  }

  /** After the asset id the block of the amount is taken. */
  lemma ToAssetRule(s: State, c: CoinInfo, i: nat, b: seq<Byte>, v: nat)
    requires ToReady(s, c, i, 2) && (|b| >= 2 ==> v == LittleEndian(b[..2]))
    ensures var t := c.to[i].(assetsId := v);
            && Put(s, SetTo(c, i, t)) == s
            && Run(s, b) == if |b| < 2 then ShortLength(s, b)
                            else Follow(ArriveAmount(Put(s, SetTo(c, i, t.(stackIndex := 3)))), b[2..])
  {
    hide ViewCoin, Run, LittleEndian, Malloc;
    var t := c.to[i].(assetsId := v);
    ViewOfTo(c, i, t);
    ViewOfTo(c, i, t.(stackIndex := 3));
    FixedRule(s, 2, b);
  }

  lemma ToArriveAmountRule(s: State, c: CoinInfo, i: nat)
    requires ToReady(s, c, i, 3)
    ensures ArriveAmount(s) == match Malloc(s.arena, 32)
                               case NoRoom => Refuse
                               case Room(at, arena) =>
                                 Into(Put(s.(arena := arena), SetTo(c, i, c.to[i].(amount := At(at)))))
  {
    hide ViewCoin, Malloc;
    var m := Malloc(s.arena, 32);
    ViewOfTo(c, i, c.to[i]);
    if m.Room? {
      ViewOfTo(c, i, c.to[i].(amount := At(m.at)));
    }
  }

  predicate AmountFits(t: CoinTo) { t.amount.At? ==> t.amount.pos + 32 <= ARENA_SIZE }

  /** What a slot has taken of the arena. */
  function TakenBy(t: CoinTo): nat {
    (if t.address.At? then 40 else 0) + (if t.amount.At? then 32 else 0)
  }

  /** What a slot holds between two calls. */
  predicate SlotWaits(t: CoinTo) {
    && t.stackIndex <= 4
    && (t.address == Null ==> t.stackIndex == 0 && t.addressLen == 0)
    && (t.stackIndex < 3 ==> t.amount == Null)
    && (t.stackIndex >= 3 ==> t.amount.At?)
  }

  lemma ViewOfToSum(c: CoinInfo, i: nat, sum: nat)
    requires c.stackIndex == 3
    ensures ViewCoin(c.(toAmount := sum), i) == ViewCoin(c, i).(toAmount := sum)
  {
  }

  lemma ToAmountRule(s: State, c: CoinInfo, i: nat, b: seq<Byte>)
    requires ToReady(s, c, i, 3) && c.to[i].amount.At?
    ensures var t := c.to[i];
            Run(s, b) == if |b| < 32 then ShortLength(s, b) else
              var s' := Store(s, t.amount.pos, b[..32]);
              var c' := c.(toAmount := AddAmount(c.toAmount, t.assetsChainId, t.assetsId, b[..32]));
              Run(Put(s', SetTo(c', i, t.(stackIndex := 4))), b[32..])
  {
    hide ViewCoin, Run, LittleEndian, Poke;
    var t := c.to[i];
    ViewOfTo(c, i, t);
    FixedRule(s, 32, b);
    if |b| >= 32 {
      var sum := AddAmount(c.toAmount, t.assetsChainId, t.assetsId, b[..32]);
      ViewOfTo(c.(toAmount := sum), i, t.(stackIndex := 4));
      ViewOfToSum(c, i, sum);
    }
  }

  lemma ViewOfNext(c: CoinInfo, i: nat, t: CoinTo)
    requires |c.to| == MAX_COIN_LEN + 1 && c.stackIndex == 3 && i == c.arrayIndex < c.toLen && i <= MAX_COIN_LEN
    ensures ViewCoin(SetTo(c, i, t), i + 1).outs == ViewCoin(c, i).outs + [ToOutput(t)]
    ensures ViewCoin(SetTo(c, i, t), i + 1)
         == ViewCoin(c, i).(index := i + 1, outs := ViewCoin(c, i).outs + [ToOutput(t)],
                            cur := ViewCoin(SetTo(c, i, t), i + 1).cur)
  {
    assert ViewCoin(SetTo(c, i, t), i + 1).outs == ViewCoin(c, i).outs + [ToOutput(t)];
  }

  lemma ToLockRule(s: State, c: CoinInfo, i: nat, b: seq<Byte>)
    requires ToReady(s, c, i, 4)
    ensures var c' := SetTo(c, i, c.to[i].(stackIndex := 0, addressLen := 0));
            Run(s, b) == if |b| < 8 then ShortLength(s, b)
                         else Follow(ArriveTo(s.(coin := ViewCoin(c', i + 1))), b[8..])
  {
    hide ViewCoin, Run, Malloc;
    var t := c.to[i];
    ViewOfTo(c, i, t);
    ViewOfNext(c, i, t.(stackIndex := 0, addressLen := 0));
    FixedRule(s, 8, b);
  }

  // ---------------------------------------------------------------- the two loops

  lemma CountRule(s: State, c: CoinInfo, k: nat, b: seq<Byte>)
    requires s.stack == 6 && s.coin == ViewCoin(c, c.arrayIndex) && c.stackIndex == k && (k == 0 || k == 2)
    ensures Run(s, b) == if |b| < 1 then ShortLength(s, b) else
              var s' := s.(coin := s.coin.(count := LittleEndian(b[..1]), index := 0));
              if k == 0 then Run(ArriveFrom(s'), b[1..]) else Follow(ArriveTo(s'), b[1..])
  {
    FixedRule(s, 1, b);
  }

  /** A count is dead until its loop is entered. */
  lemma ViewOfCount(c: CoinInfo, n: nat)
    ensures c.stackIndex == 0 ==> ViewCoin(c.(fromLen := n), c.arrayIndex) == ViewCoin(c, c.arrayIndex)
    ensures c.stackIndex == 2 ==> ViewCoin(c.(toLen := n), c.arrayIndex) == ViewCoin(c, c.arrayIndex)
  {
  }

  lemma OneByte(d: seq<Byte>)
    requires |d| == 1
    ensures LittleEndian(d) == d[0]
  {
    assert LittleEndian(d[1..]) == 0;
  }

  /** Before an input whose slot is idle nothing is left to arrange. */
  lemma FromLoopHead(s: State, c: CoinInfo)
    requires s.coin == ViewCoin(c, c.arrayIndex) && c.stackIndex == 1
    requires c.arrayIndex < c.fromLen ==> FromAt(c, SlotOf(c.arrayIndex)).stackIndex == 0
    ensures c.arrayIndex < c.fromLen ==> ArriveFrom(s) == s
  {
  }

  lemma FromLoopEnd(s: State, c: CoinInfo, c': CoinInfo)
    requires s.coin == ViewCoin(c, c.arrayIndex) && c.stackIndex == 1 && c.arrayIndex >= c.fromLen
    requires c' == c.(stackIndex := 2, fromLen := c'.fromLen)
    ensures ArriveFrom(s) == Put(s, c')
  {
  }

  lemma IndexFree(c: CoinInfo, i: nat, j: nat)
    ensures ViewCoin(c.(arrayIndex := j), i) == ViewCoin(c, i)
  {
  }

  /** After the count of the inputs, before the first. */
  lemma FromLoopStart(s: State, c: CoinInfo, n: nat)
    requires s.coin == ViewCoin(c, c.arrayIndex) && c.stackIndex == 0
    ensures ArriveFrom(s.(coin := s.coin.(count := n, index := 0)))
         == ArriveFrom(Put(s, c.(stackIndex := 1, fromLen := n, arrayIndex := 0)))
  {
  }

  /** After the count of the outputs, before the first. */
  lemma ToLoopStart(s: State, c: CoinInfo, n: nat)
    requires s.coin == ViewCoin(c, c.arrayIndex) && c.stackIndex == 2
    ensures ArriveTo(s.(coin := s.coin.(count := n, index := 0)))
         == ArriveTo(Put(s, c.(stackIndex := 3, toLen := n, arrayIndex := 0)))
  {
  }

  lemma ToLoopEnd(s: State, c: CoinInfo, b: seq<Byte>)
    requires s.stack == 6 && s.coin == ViewCoin(c, c.arrayIndex) && c.stackIndex == 3 && c.arrayIndex >= c.toLen
    ensures ArriveTo(s) == Into(s) && Run(s, b) == Accepted(s, b)
  {
  }

  // ---------------------------------------------------------------- the fields of a contract call

  predicate CallReady(s: State, c: CallContract, k: nat) {
    s.stack == 4 && s.call == ViewCall(c, k)
  }

  /** The plain fields: sender (0), gas limit (3), gas price (4). */
  lemma CallFixedRule(s: State, c: CallContract, k: nat, b: seq<Byte>)
    requires CallReady(s, c, k) && (k == 0 || k == 3 || k == 4)
    ensures var n := if k == 0 then 23 else 8;
            Run(s, b) == if |b| < n then ShortLength(s, b)
                         else if k == 3 then Run(s.(call := s.call.(stack := 4)), b[n..])
                         else Follow(ArriveCall(s, k + 1), b[n..])
  {
    FixedRule(s, if k == 0 then 23 else 8, b);
  }

  /** The stored fields: contract address (1) and value (2). */
  lemma CallStoreRule(s: State, c: CallContract, k: nat, b: seq<Byte>)
    requires CallReady(s, c, k) && (k == 1 || k == 2)
    ensures var n, at := if k == 1 then 23 else 32, if k == 1 then c.contractAddress.Pos() else c.value.Pos();
            Run(s, b) == if |b| < n then ShortLength(s, b)
                         else if k == 1 then Follow(ArriveCall(Store(s, at, b[..n]), 2), b[n..])
                         else Run(Store(s, at, b[..n]).(call := s.call.(stack := 3)), b[n..])
  {
    FixedRule(s, if k == 1 then 23 else 32, b);
  }

  lemma CallNameRule(s: State, c: CallContract, b: seq<Byte>)
    requires CallReady(s, c, 5) && c.methodName.At?
    ensures var r := ReadVarint(b);
            if r.Short? then Run(s, b) == ShortLength(s.(call := ViewCall(c.(methodLen := 0), 5)), b)
            else
              var p, n, at := b[r.size..], r.value % SIZE_T, c.methodName.pos + c.methodLen;
              var s' := Store(s, at, p[..Min(n, |p|)]);
              if at + Min(n, |p|) > ARENA_SIZE then Run(s, b) == Stray
              else if |p| < n then Run(s, b) == ShortValue(s'.(call := ViewCall(c.(methodLen := |p|), 5)), n - |p|)
              else Run(s, b) == Run(s'.(call := s.call.(methodOff := 0, stack := 6)), p[n..])
  {
    hide Run, ReadVarint, Poke;
    FetchRule(s, b);
  }

  lemma CallDescriptionRule(s: State, c: CallContract, b: seq<Byte>)
    requires CallReady(s, c, 6)
    ensures var r := ReadVarint(b);
            if r.Short? then Run(s, b) == ShortLength(s, b)
            else
              var p, n := b[r.size..], r.value % SIZE_T;
              Run(s, b) == if |p| < n then ShortValue(s, n - |p|)
                           else Run(s.(call := s.call.(stack := 7)), p[n..])
  {
    hide Run, ReadVarint;
    SkipRule(s, b);
  }

  lemma CallCountRule(s: State, c: CallContract, b: seq<Byte>)
    requires CallReady(s, c, 7)
    ensures Run(s, b) == if |b| < 1 then ShortLength(s, b)
                         else
                           Run(ArriveArg(s.(call := s.call.(argCount := LittleEndian(b[..1]), argIndex := 0))), b[1..])
  {
    hide ArriveArg;
    FixedRule(s, 1, b);
  }

  predicate Fits(p: Ptr, n: nat) { p.At? ==> p.pos + n <= ARENA_SIZE }

  /** Which blocks are taken once label `k` has been reached. */
  predicate CallBlocks(c: CallContract, k: nat) {
    && (c.contractAddress.At? <==> k >= 1) && (c.value.At? <==> k >= 2) && (c.methodName.At? <==> k >= 5)
    && Fits(c.contractAddress, 23) && Fits(c.value, 32)
    && (k < 5 ==> c.methodLen == 0)
    && (k < 8 ==> c.stackIndex == 0)
  }

  // ---------------------------------------------------------------- the arguments of a contract call

  predicate ArgReady(s: State, c: CallContract, k: nat) {
    CallReady(s, c, 8) && c.stackIndex == k && c.twoArrayIndex < c.twoArgsLen
  }

  lemma ArgCountRule(s: State, c: CallContract, b: seq<Byte>)
    requires ArgReady(s, c, 0)
    ensures Run(s, b) == if |b| < 1 then ShortLength(s, b) else
              var s' := s.(call := s.call.(oneCount := LittleEndian(b[..1]), oneIndex := 0, inner := 1));
              if StyleOf(s).Other? then Run(ArriveElement(s'), b[1..])
              else if LittleEndian(b[..1]) != 1 then Refused
              else Run(s', b[1..])
  {
    hide LittleEndian, CStringIs;
    FixedRule(s, 1, b);
  }

  lemma ArgLengthRule(s: State, c: CallContract, b: seq<Byte>)
    requires ArgReady(s, c, 1) && !StyleOf(s).Other?
    ensures var r := ReadVarint(b);
            Run(s, b) == if r.Short? then ShortLength(s, b) else Follow(TakeElementLength(s, r.value), b[r.size..])
  {
    hide ReadVarint, CStringIs, TakeElementLength;
    LengthRule(s, b);
  }

  lemma ArgValueRule(s: State, c: CallContract, b: seq<Byte>)
    requires ArgReady(s, c, 2) && !StyleOf(s).Other?
    ensures var n, at := c.elementLen % SIZE_T, ElementOf(s.call, StyleOf(s)).Pos();
            Run(s, b) == if |b| < n then ShortLength(s, b)
                         else if n > ARENA_SIZE then Stray
                         else Run(ArgDone(Store(s, at, b[..n] + [0])), b[n..])
  {
    hide CStringIs, ArgDone;
    var n := c.elementLen % SIZE_T;
    assert Want(s) == Fixed(n);
    if n <= ARENA_SIZE {
      FixedRule(s, n, b);
    }
  }

  lemma ElementRule(s: State, c: CallContract, b: seq<Byte>)
    requires ArgReady(s, c, 1) && StyleOf(s).Other?
    ensures var r := ReadVarint(b);
            if r.Short? then Run(s, b) == ShortLength(s, b)
            else
              var p, n := b[r.size..], r.value % SIZE_T;
              Run(s, b) == if |p| < n then ShortValue(s, n - |p|)
                           else Run(ArriveElement(s.(call := s.call.(oneIndex := s.call.oneIndex + 1))), p[n..])
  {
    hide ReadVarint, CStringIs, ArriveElement;
    SkipRule(s, b);
  }

  /** The method name is out of reach of what is written above its block. */
  lemma NameKept(mem: seq<Byte>, at: nat, n: nat, name: nat)
    requires name + 40 <= at
    ensures CStringIs(Poke(mem, at, Zeros(n)), name, TRANSFER) == CStringIs(mem, name, TRANSFER)
    ensures CStringIs(Poke(mem, at, Zeros(n)), name, TRANSFER_FROM) == CStringIs(mem, name, TRANSFER_FROM)
  {
    var m := Poke(mem, at, Zeros(n));
    if at + n <= |mem| {
      assert m[..at] == mem[..at];
      assert m[name..name + 8] == m[..at][name..name + 8] && mem[name..name + 8] == mem[..at][name..name + 8];
      assert m[name..name + 12] == m[..at][name..name + 12] && mem[name..name + 12] == mem[..at][name..name + 12];
      assert m[name + 8] == m[..at][name + 8] && m[name + 12] == m[..at][name + 12];
    }
  }

  /** A block with room for the NUL, or (2^32 - 1) no block at all. */
  lemma BlockOfElement(v: nat)
    ensures (v + 1) % SIZE_T == if v % SIZE_T + 1 == SIZE_T then 0 else v % SIZE_T + 1
  {
  }

  lemma PokedNul(was: seq<Byte>, now: seq<Byte>, at: nat, d: seq<Byte>)
    requires at + |d| + 1 <= |was| && |now| == |was| && now == Poke(was, at, d)[at + |d| := 0]
    ensures now == Poke(was, at, d + [0])
  {
  }

  /** `transaction_t`. */
  class Transaction {
    const heap: Heap
    var stackIndex: nat
    var typ: nat
    var func: Func
    var infoStack: nat
    var call: CallContract
    var coin: CoinInfo

    /** The zeroed context of a first chunk. */
    constructor (heap: Heap)
      requires heap.Valid()
      ensures Waits() && this.heap == heap && View() == Fresh(heap.Arena())
    {
      this.heap := heap;
      stackIndex, typ, func, infoStack := 0, 0, NoFunc, 0;
      call, coin := ZERO_CALL, ZERO_COIN;
    }

    /** `explicit_bzero`. */
    method Clear()
      requires heap.Valid()
      modifies this
      ensures Waits() && View() == Fresh(heap.Arena())
    {
      stackIndex, typ, func, infoStack := 0, 0, NoFunc, 0;
      call, coin := ZERO_CALL, ZERO_COIN;
    }

    /** The view with the coin loop at entry `i`. */
    ghost function ViewAt(i: nat): State
      reads this, heap, heap.buff
    {
      State(stackIndex, typ, ViewCall(call, infoStack), ViewCoin(coin, i), heap.Arena())
    }

    ghost function View(): State
      reads this, heap, heap.buff
    {
      ViewAt(coin.arrayIndex)
    }

    ghost predicate Valid()
      reads this, heap
    {
      && heap.Valid()
      && |coin.from| == |coin.to| == MAX_COIN_LEN + 1
    }

    /** How a parser that stopped with `ret` is seen from outside. */
    ghost predicate Ends(ending: Ending, ret: Status, buf: Cursor)
      reads this, heap, heap.buff, buf, buf.ptr
      requires buf.Valid()
    {
      match ret
      case Ok => true
      case Error => ending == Refused
      case LengthError => ending == ShortLength(View(), buf.Rest())
      case ValueError => ending == ShortValue(View(), buf.lack)
      case Wild => ending == Stray
    }

    ghost predicate InFrom(i: nat)
      reads this, heap
    {
      && Valid() && stackIndex == 6 && coin.stackIndex == 1 && coin.arrayIndex < coin.fromLen
      && i == SlotOf(coin.arrayIndex)
    }

    /** Only slot `i` of the inputs and their sum have changed. */
    twostate predicate FromOnly(i: nat)
      reads this
    {
      && coin == old(coin).(from := coin.from, fromAmount := coin.fromAmount)
      && |coin.from| == old(|coin.from|)
      && forall k :: 0 <= k < |coin.from| && k != i ==> coin.from[k] == old(coin.from[k])
    }

    /**
     The switch of slot `i`, entered at label `entry`, has reached label `k`: what is left is to go on
     from field `k`, or from `entry` when that label is further down.
     */
    ghost predicate FromStage(buf: Cursor, i: nat, entry: nat, k: nat, ending: Ending)
      reads this, heap, heap.buff, buf, buf.ptr
    {
      && buf.Valid() && InFrom(i) && entry <= 5
      && if entry <= k then ending == Run(Put(View(), FromField(coin, i, k)), buf.Rest())
         else coin.from[i].stackIndex == entry && ending == Run(View(), buf.Rest())
    }

    ghost predicate FromStopped(buf: Cursor, i: nat, ret: Status, ending: Ending)
      reads this, heap, heap.buff, buf, buf.ptr
    {
      buf.Valid() && InFrom(i) && coin.from[i].stackIndex <= 5 && Ends(ending, ret, buf)
    }

    /** A skipped field: the address (label 0) or the nonce (label 4). */
    method FromSkipped(buf: Cursor, i: nat, entry: nat, k: nat, ghost ending: Ending) returns (ret: Status)
      requires (k == 0 || k == 4) && FromStage(buf, i, entry, k, ending)
      modifies this`coin, buf`offset, buf`lack
      ensures FromOnly(i)
      ensures if ret == Ok then FromStage(buf, i, entry, k + 1, ending) else FromStopped(buf, i, ret, ending)
    {
      hide Run, ViewCoin, ViewCall, Varint.ReadVarint;
      if entry > k {
        SameFrom(coin, i);
        return Ok;
      }
      coin := FromField(coin, i, k);
      FromSkipRule(View(), coin, i, k, buf.Rest());
      var len;
      ret, len := VarField(buf, null, 0);
    }

    method FromChain(buf: Cursor, i: nat, entry: nat, ghost ending: Ending) returns (ret: Status)
      requires FromStage(buf, i, entry, 1, ending)
      modifies this`coin, buf`offset
      ensures FromOnly(i)
      ensures if ret == Ok then FromStage(buf, i, entry, 2, ending) else FromStopped(buf, i, ret, ending)
    {
      hide Run, ViewCoin, ViewCall, LittleEndian;
      if entry > 1 {
        SameFrom(coin, i);
        return Ok;
      }
      coin := FromField(coin, i, 1);
      ghost var s, c, b := View(), coin, buf.Rest();
      var ok, value := buf.ReadU16();
      coin := WithChain(coin, i, value);
      FromChainRule(s, c, i, b, value);
      ret := if ok then Ok else LengthError;
    }

    method FromAsset(buf: Cursor, i: nat, entry: nat, ghost ending: Ending) returns (ret: Status)
      requires FromStage(buf, i, entry, 2, ending)
      modifies this`coin, buf`offset
      ensures FromOnly(i)
      ensures if ret == Ok then FromStage(buf, i, entry, 3, ending) else FromStopped(buf, i, ret, ending)
    {
      hide Run, ViewCoin, ViewCall, LittleEndian;
      if entry > 2 {
        SameFrom(coin, i);
        return Ok;
      }
      coin := FromField(coin, i, 2);
      ghost var s, c, b := View(), coin, buf.Rest();
      var ok, value := buf.ReadU16();
      coin := WithAssetId(coin, i, value);
      FromAssetRule(s, c, i, b, value);
      ret := if ok then Ok else LengthError;
    }

    method FromAmount(buf: Cursor, i: nat, entry: nat, ghost ending: Ending) returns (ret: Status)
      requires FromStage(buf, i, entry, 3, ending)
      modifies this`coin, buf`offset
      ensures FromOnly(i)
      ensures if ret == Ok then FromStage(buf, i, entry, 4, ending) else FromStopped(buf, i, ret, ending)
    {
      hide Run, ViewCoin, ViewCall, LittleEndian, Poke, AddAmount;
      if entry > 3 {
        SameFrom(coin, i);
        return Ok;
      }
      var strBuff := new Byte[32];
      coin := FromField(coin, i, 3);
      ghost var b := buf.Rest();
      FromAmountRule(View(), coin, i, b);
      ghost var was := strBuff[..];
      ret := SpcField(buf, 32, strBuff, 0);
      if ret != Ok { return; }
      PokeAll(was, b[..32]);
      AddFrom(i, strBuff[..]);
    }

    /** Lines 218 to 227: amounts of asset 1-1 are summed up. */
    method AddFrom(i: nat, d: seq<Byte>)
      requires InFrom(i)
      modifies this`coin
      ensures coin == old(coin).(fromAmount := AddAmount(old(coin).fromAmount, old(coin).from[i].assetsChainId,
                                                     old(coin).from[i].assetsId, d))
    {
      if coin.from[i].assetsChainId == 1 && coin.from[i].assetsId == 1 {
        coin := coin.(fromAmount := (LittleEndian(d) + coin.fromAmount) % AMOUNT_MODULUS);
      }
    }

    method FromLocked(buf: Cursor, i: nat, entry: nat, ghost ending: Ending) returns (ret: Status)
      requires FromStage(buf, i, entry, 5, ending)
      modifies this`coin, buf`offset
      ensures FromOnly(i)
      ensures if ret == Ok then FromDone(buf, i, ending) else FromStopped(buf, i, ret, ending)
    {
      hide Run, ViewCoin, ViewCall, ArriveFrom, Poke, AddAmount, LittleEndian;
      var strBuff := new Byte[32];
      coin := FromField(coin, i, 5);
      ghost var s, b := View(), buf.Rest();
      assert ending == Run(s, b);
      FromLockedRule(s, coin, i, b);
      ret := SpcField(buf, 1, strBuff, 0);
      assert ret != Wild && View() == s;
      if ret != Ok {
        assert Ends(ShortLength(s, b), ret, buf);
        return;
      }
      coin := FromField(coin, i, 0);
      assert s.(coin := ViewCoin(coin, coin.arrayIndex + 1)) == ViewAt(coin.arrayIndex + 1);
    }

    /** The entry is read and its slot is free again; the loop counter is still to be advanced. */
    ghost predicate FromDone(buf: Cursor, i: nat, ending: Ending)
      reads this, heap, heap.buff, buf, buf.ptr
    {
      && buf.Valid() && InFrom(i) && coin.from[i].stackIndex == 0
      && ending == Run(ArriveFrom(ViewAt(coin.arrayIndex + 1)), buf.Rest())
    }

    /** `transaction_deserialize_coin_from` on slot `i`. */
    method CoinFrom(buf: Cursor, i: nat, ghost ending: Ending) returns (ret: Status)
      requires InFrom(i) && coin.from[i].stackIndex <= 5
      requires buf.Valid() && ending == Run(View(), buf.Rest())
      modifies this`coin, buf`offset, buf`lack
      ensures FromOnly(i)
      ensures if ret == Ok then FromDone(buf, i, ending) else FromStopped(buf, i, ret, ending)
    {
      hide Run, ViewCoin, ViewCall;
      var entry := coin.from[i].stackIndex;
      SameFrom(coin, i);
      ret := FromSkipped(buf, i, entry, 0, ending);
      if ret != Ok { return; }
      hide *;
      ret := FromChain(buf, i, entry, ending);
      if ret != Ok { return; }
      ret := FromAsset(buf, i, entry, ending);
      if ret != Ok { return; }
      ret := FromAmount(buf, i, entry, ending);
      if ret != Ok { return; }
      ret := FromSkipped(buf, i, entry, 4, ending);
      if ret != Ok { return; }
      ret := FromLocked(buf, i, entry, ending);
    }

    // -------------------------------------------------------------- one output

    ghost predicate InTo(i: nat)
      reads this, heap
    {
      && Valid() && stackIndex == 6 && coin.stackIndex == 3 && coin.arrayIndex < coin.toLen
      && i == coin.arrayIndex <= MAX_COIN_LEN
      && AmountFits(coin.to[i])
      && heap.offset >= 72 * i + TakenBy(coin.to[i])
    }

    /** Only output slot `i` and the sum of the outputs have changed. */
    twostate predicate ToOnly(i: nat)
      reads this
    {
      && coin == old(coin).(to := coin.to, toAmount := coin.toAmount)
      && |coin.to| == old(|coin.to|)
      && forall k :: 0 <= k < |coin.to| && k != i ==> coin.to[k] == old(coin.to[k])
    }

    /** Before the first label: a free slot has yet to take the block of its address. */
    ghost predicate ToHead(buf: Cursor, i: nat, ending: Ending)
      reads this, heap, heap.buff, buf, buf.ptr
    {
      && buf.Valid() && InTo(i) && SlotWaits(coin.to[i])
      && ending == if coin.to[i].address == Null then Follow(ArriveTo(View()), buf.Rest())
                   else Run(View(), buf.Rest())
    }

    /** The switch of slot `i`, entered at label `entry`, has reached label `k` (1, 2 or 4). */
    ghost predicate ToStage(buf: Cursor, i: nat, entry: nat, k: nat, ending: Ending)
      reads this, heap, heap.buff, buf, buf.ptr
    {
      && buf.Valid() && InTo(i) && entry <= 4
      && (k <= 2 && entry <= 2 ==> coin.to[i].amount == Null)
      && (k == 4 ==> coin.to[i].amount.At?)
      && coin.to[i].address.At?
      && if entry <= k then ending == Run(Put(View(), ToField(coin, i, k)), buf.Rest())
         else SlotWaits(coin.to[i]) && coin.to[i].stackIndex == entry && ending == Run(View(), buf.Rest())
    }

    /** Label 3: the block of the amount may still have to be taken. */
    ghost predicate ToAmountStage(buf: Cursor, i: nat, entry: nat, ending: Ending)
      reads this, heap, heap.buff, buf, buf.ptr
    {
      && buf.Valid() && InTo(i) && entry <= 4 && coin.to[i].address.At?
      && if entry <= 2 then
           coin.to[i].amount == Null
           && ending == Follow(ArriveAmount(Put(View(), ToField(coin, i, 3))), buf.Rest())
         else SlotWaits(coin.to[i]) && coin.to[i].stackIndex == entry && ending == Run(View(), buf.Rest())
    }

    ghost predicate ToStopped(buf: Cursor, i: nat, ret: Status, ending: Ending)
      reads this, heap, heap.buff, buf, buf.ptr
    {
      && buf.Valid() && Ends(ending, ret, buf)
      && (ret == LengthError || ret == ValueError ==> InTo(i) && SlotWaits(coin.to[i]) && coin.to[i].address.At?)
    }

    /** The block for the address of a free slot. */
    method TakeAddress(buf: Cursor, i: nat, ghost ending: Ending) returns (ret: Status)
      requires ToHead(buf, i, ending) && coin.to[i].stackIndex == 0 && buf.ptr != heap.buff
      modifies this`coin, heap`offset, heap.buff
      ensures Valid() && ToOnly(i) && buf.Valid()
      ensures ret == Ok || (ret == Error && ending == Refused)
      ensures ret == Ok ==> InTo(i) && SlotWaits(coin.to[i]) && coin.to[i].address.At? && coin.to[i].stackIndex == 0
                            && ending == Run(View(), buf.Rest())
    {
      hide Run, ViewCoin, ViewCall, ArriveTo;
      if coin.to[i].address == Null {
        ToArriveRule(View(), coin, i);
        var p := heap.Alloc(40);
        coin := SetTo(coin, i, coin.to[i].(address := p));
        if p == Null {
          return Error;
        }
      }
      return Ok;
    }

    method ReadAddress(buf: Cursor, i: nat, ghost ending: Ending) returns (ret: Status)
      requires InTo(i) && SlotWaits(coin.to[i]) && coin.to[i].address.At? && coin.to[i].stackIndex == 0
      requires buf.Valid() && ending == Run(View(), buf.Rest()) && buf.ptr != heap.buff
      modifies this`coin, heap.buff, buf`offset, buf`lack
      ensures Valid() && ToOnly(i)
      ensures if ret == Ok then ToStage(buf, i, 0, 1, ending) else ToStopped(buf, i, ret, ending)
    {
      hide Run, ViewCoin, ViewCall, Varint.ReadVarint, Poke;
      ToAddressRule(View(), coin, i, buf.Rest());
      var len;
      ret, len := VarField(buf, heap.buff, coin.to[i].address.pos + coin.to[i].addressLen);
      coin := SetTo(coin, i, coin.to[i].(addressLen := len));
    }

    method ToAddress(buf: Cursor, i: nat, entry: nat, ghost ending: Ending) returns (ret: Status)
      requires ToHead(buf, i, ending) && entry == coin.to[i].stackIndex && buf.ptr != heap.buff
      modifies this`coin, heap`offset, heap.buff, buf`offset, buf`lack
      ensures Valid() && ToOnly(i)
      ensures if ret == Ok then ToStage(buf, i, entry, 1, ending) else ToStopped(buf, i, ret, ending)
    {
      hide Run, ViewCoin, ViewCall, ArriveTo;
      SameTo(coin, i);
      if entry > 0 {
        return Ok;
      }
      coin := ToField(coin, i, 0);
      ret := TakeAddress(buf, i, ending);
      if ret != Ok { return; }
      ret := ReadAddress(buf, i, ending);
    }

    method ToChain(buf: Cursor, i: nat, entry: nat, ghost ending: Ending) returns (ret: Status)
      requires ToStage(buf, i, entry, 1, ending)
      modifies this`coin, buf`offset
      ensures Valid() && ToOnly(i)
      ensures if ret == Ok then ToStage(buf, i, entry, 2, ending) else ToStopped(buf, i, ret, ending)
    {
      hide Run, ViewCoin, ViewCall, LittleEndian;
      if entry > 1 {
        SameTo(coin, i);
        return Ok;
      }
      coin := ToField(coin, i, 1);
      ghost var s, c, b := View(), coin, buf.Rest();
      var ok, value := buf.ReadU16();
      coin := SetTo(coin, i, coin.to[i].(assetsChainId := value));
      ToChainRule(s, c, i, b, value);
      SetTwice(c, i, coin.to[i], coin.to[i].(stackIndex := 2));
      ret := if ok then Ok else LengthError;
    }

    method ToAsset(buf: Cursor, i: nat, entry: nat, ghost ending: Ending) returns (ret: Status)
      requires ToStage(buf, i, entry, 2, ending)
      modifies this`coin, buf`offset
      ensures Valid() && ToOnly(i)
      ensures if ret == Ok then ToAmountStage(buf, i, entry, ending) else ToStopped(buf, i, ret, ending)
    {
      hide Run, ViewCoin, ViewCall, LittleEndian, ArriveAmount;
      if entry > 2 {
        SameTo(coin, i);
        return Ok;
      }
      coin := ToField(coin, i, 2);
      ghost var s, c, b := View(), coin, buf.Rest();
      var ok, value := buf.ReadU16();
      coin := SetTo(coin, i, coin.to[i].(assetsId := value));
      ToAssetRule(s, c, i, b, value);
      SetTwice(c, i, coin.to[i], coin.to[i].(stackIndex := 3));
      ret := if ok then Ok else LengthError;
    }

    /** The block for the amount. */
    method TakeAmount(buf: Cursor, i: nat, entry: nat, ghost ending: Ending) returns (ret: Status)
      requires ToAmountStage(buf, i, entry, ending) && entry <= 3 && buf.ptr != heap.buff
      modifies this`coin, heap`offset, heap.buff
      ensures Valid() && ToOnly(i) && buf.Valid()
      ensures ret == Ok || (ret == Error && ending == Refused)
      ensures ret == Ok ==> InTo(i) && SlotWaits(coin.to[i]) && coin.to[i].address.At? && coin.to[i].stackIndex == 3
                            && ending == Run(View(), buf.Rest())
    {
      hide Run, ViewCoin, ViewCall, ArriveAmount;
      SameTo(coin, i);
      coin := ToField(coin, i, 3);
      if coin.to[i].amount == Null {
        ToArriveAmountRule(View(), coin, i);
        var p := heap.Alloc(32);
        coin := SetTo(coin, i, coin.to[i].(amount := p));
        if p == Null {
          return Error;
        }
      }
      return Ok;
    }

    method ReadAmount(buf: Cursor, i: nat, entry: nat, ghost ending: Ending) returns (ret: Status)
      requires InTo(i) && SlotWaits(coin.to[i]) && coin.to[i].address.At? && coin.to[i].stackIndex == 3
      requires buf.Valid() && ending == Run(View(), buf.Rest()) && buf.ptr != heap.buff && entry <= 3
      modifies this`coin, heap.buff, buf`offset
      ensures Valid() && ToOnly(i)
      ensures if ret == Ok then ToStage(buf, i, entry, 4, ending) else ToStopped(buf, i, ret, ending)
    {
      hide Run, ViewCoin, ViewCall, LittleEndian, Poke, AddAmount;
      ghost var s, c, b := View(), coin, buf.Rest();
      ToAmountRule(s, c, i, b);
      var at := coin.to[i].amount.pos;
      ghost var was := heap.buff[..];
      ret := SpcField(buf, 32, heap.buff, at);
      if ret != Ok { return; }
      PokedBack(was, at, b[..32]);
      AddTo(i, heap.buff[at..at + 32]);
    }

    /** Lines 302 to 311: amounts of asset 1-1 are summed up. */
    method AddTo(i: nat, d: seq<Byte>)
      requires InTo(i)
      modifies this`coin
      ensures coin == old(coin).(toAmount := AddAmount(old(coin).toAmount, old(coin).to[i].assetsChainId,
                                                   old(coin).to[i].assetsId, d))
    {
      if coin.to[i].assetsChainId == 1 && coin.to[i].assetsId == 1 {
        coin := coin.(toAmount := (LittleEndian(d) + coin.toAmount) % AMOUNT_MODULUS);
      }
    }

    method ToAmount(buf: Cursor, i: nat, entry: nat, ghost ending: Ending) returns (ret: Status)
      requires ToAmountStage(buf, i, entry, ending) && buf.ptr != heap.buff
      modifies this`coin, heap`offset, heap.buff, buf`offset
      ensures Valid() && ToOnly(i)
      ensures if ret == Ok then ToStage(buf, i, entry, 4, ending) else ToStopped(buf, i, ret, ending)
    {
      hide Run, ViewCoin, ViewCall, ArriveAmount;
      if entry > 3 {
        SameTo(coin, i);
        return Ok;
      }
      ret := TakeAmount(buf, i, entry, ending);
      if ret != Ok { return; }
      ret := ReadAmount(buf, i, entry, ending);
    }

    /** The entry is read and its slot is idle again; the loop counter is still to be advanced. */
    ghost predicate ToDone(buf: Cursor, i: nat, ending: Ending)
      reads this, heap, heap.buff, buf, buf.ptr
    {
      && buf.Valid() && InTo(i)
      && coin.to[i].stackIndex == 0 && coin.to[i].addressLen == 0
      && coin.to[i].address.At? && coin.to[i].amount.At?
      && ending == Follow(ArriveTo(ViewAt(i + 1)), buf.Rest())
    }

    method ToLockTime(buf: Cursor, i: nat, entry: nat, ghost ending: Ending) returns (ret: Status)
      requires ToStage(buf, i, entry, 4, ending)
      modifies this`coin, buf`offset
      ensures Valid() && ToOnly(i)
      ensures if ret == Ok then ToDone(buf, i, ending) else ToStopped(buf, i, ret, ending)
    {
      hide Run, ViewCoin, ViewCall, ArriveTo, Poke;
      var strBuff := new Byte[32];
      coin := ToField(coin, i, 4);
      ToLockRule(View(), coin, i, buf.Rest());
      ret := SpcField(buf, 8, strBuff, 0);
      if ret == Ok {
        coin := SetTo(coin, i, coin.to[i].(stackIndex := 0, addressLen := 0));
      }
    }

    /** `transaction_deserialize_coin_to` on slot `i`. */
    method CoinTo(buf: Cursor, i: nat, ghost ending: Ending) returns (ret: Status)
      requires ToHead(buf, i, ending) && buf.ptr != heap.buff
      modifies this`coin, heap`offset, heap.buff, buf`offset, buf`lack
      ensures Valid() && ToOnly(i)
      ensures if ret == Ok then ToDone(buf, i, ending) else ToStopped(buf, i, ret, ending)
    {
      var entry := coin.to[i].stackIndex;
      hide *;
      ret := ToAddress(buf, i, entry, ending);
      if ret != Ok { return; }
      ret := ToChain(buf, i, entry, ending);
      if ret != Ok { return; }
      ret := ToAsset(buf, i, entry, ending);
      if ret != Ok { return; }
      ret := ToAmount(buf, i, entry, ending);
      if ret != Ok { return; }
      ret := ToLockTime(buf, i, entry, ending);
    }

    // -------------------------------------------------------------- all inputs, all outputs

    /** Between two calls: one slot at most is in use. */
    ghost predicate FromsIdle(busy: nat)
      reads this
    {
      && |coin.from| == MAX_COIN_LEN + 1
      && forall k :: 0 <= k <= MAX_COIN_LEN ==> coin.from[k].stackIndex <= (if k == busy then 5 else 0)
    }

    ghost predicate TosIdle()
      reads this, heap
    {
      && |coin.to| == MAX_COIN_LEN + 1
      && (coin.stackIndex < 3 ==> forall k :: 0 <= k <= MAX_COIN_LEN ==> coin.to[k] == ZERO_TO)
      && (coin.stackIndex >= 3 ==>
            && (forall k :: 0 <= k < coin.arrayIndex && k <= MAX_COIN_LEN ==>
                  coin.to[k].stackIndex == 0 && coin.to[k].addressLen == 0)
            && (forall k :: coin.arrayIndex < k <= MAX_COIN_LEN ==> coin.to[k] == ZERO_TO))
    }

    /** The loop over the inputs, at its head. */
    ghost predicate AtFromLoop(buf: Cursor, ending: Ending)
      reads this, heap, heap.buff, buf, buf.ptr
    {
      && buf.Valid() && Valid() && stackIndex == 6 && coin.stackIndex == 1 && TosIdle()
      && FromsIdle(SlotOf(coin.arrayIndex)) && coin.arrayIndex <= coin.fromLen
      && (coin.arrayIndex == coin.fromLen ==> coin.from[SlotOf(coin.arrayIndex)].stackIndex == 0)
      && ending == Run(if coin.arrayIndex < coin.fromLen then View() else ArriveFrom(View()), buf.Rest())
    }

    /** Stopped somewhere in the coin data, ready to go on. */
    ghost predicate CoinWaits()
      reads this, heap
    {
      && Valid() && stackIndex == 6 && coin.stackIndex <= 3 && TosIdle()
      && FromsIdle(if coin.stackIndex == 1 then SlotOf(coin.arrayIndex) else MAX_COIN_LEN + 1)
      && (coin.stackIndex == 1 ==> coin.arrayIndex < coin.fromLen)
      && (coin.stackIndex == 3 ==>
            && coin.arrayIndex < coin.toLen && InTo(coin.arrayIndex)
            && SlotWaits(coin.to[coin.arrayIndex]) && coin.to[coin.arrayIndex].address.At?)
    }

    ghost predicate CoinStopped(buf: Cursor, ret: Status, ending: Ending)
      reads this, heap, heap.buff, buf, buf.ptr
    {
      buf.Valid() && Valid() && Ends(ending, ret, buf) && (ret == LengthError || ret == ValueError ==> CoinWaits())
    }

    method FromLoop(buf: Cursor, ghost ending: Ending) returns (ret: Status)
      requires AtFromLoop(buf, ending)
      modifies this`coin, buf`offset, buf`lack
      ensures ret != Ok ==> CoinStopped(buf, ret, ending)
      ensures ret == Ok ==> AtFromLoop(buf, ending) && coin.arrayIndex == coin.fromLen
    {
      hide Run, ViewCoin, ViewCall;
      while coin.arrayIndex < coin.fromLen
        invariant AtFromLoop(buf, ending)
        invariant coin == old(coin).(arrayIndex := coin.arrayIndex, from := coin.from, fromAmount := coin.fromAmount)
        decreases coin.fromLen - coin.arrayIndex
      {
        var i := SlotOf(coin.arrayIndex);
        ret := CoinFrom(buf, i, ending);
        if ret != Ok {
          return;
        }
        IndexFree(coin, coin.arrayIndex + 1, coin.arrayIndex + 1);
        coin := coin.(arrayIndex := coin.arrayIndex + 1);
        FromLoopHead(View(), coin);
      }
      return Ok;
    }

    /** The loop over the outputs, at its head. */
    ghost predicate AtToLoop(buf: Cursor, ending: Ending)
      reads this, heap, heap.buff, buf, buf.ptr
    {
      && buf.Valid() && Valid() && stackIndex == 6 && coin.stackIndex == 3 && TosIdle() && FromsIdle(MAX_COIN_LEN + 1)
      && coin.arrayIndex <= coin.toLen
      && if coin.arrayIndex < coin.toLen then
           coin.arrayIndex <= MAX_COIN_LEN && ToHead(buf, coin.arrayIndex, ending)
         else heap.offset >= 72 * coin.arrayIndex && ending == Follow(ArriveTo(View()), buf.Rest())
    }

    method ToLoop(buf: Cursor, ghost ending: Ending) returns (ret: Status)
      requires AtToLoop(buf, ending) && buf.ptr != heap.buff
      modifies this`coin, heap`offset, heap.buff, buf`offset, buf`lack
      ensures ret != Ok ==> CoinStopped(buf, ret, ending)
      ensures ret == Ok ==> AtToLoop(buf, ending) && coin.arrayIndex == coin.toLen
    {
      hide Run, ViewCoin, ViewCall, ArriveTo;
      while coin.arrayIndex < coin.toLen
        invariant AtToLoop(buf, ending)
        invariant coin == old(coin).(arrayIndex := coin.arrayIndex, to := coin.to, toAmount := coin.toAmount)
        decreases coin.toLen - coin.arrayIndex
      {
        var i := coin.arrayIndex;
        ret := CoinTo(buf, i, ending);
        if ret != Ok {
          return;
        }
        IndexFree(coin, i + 1, i + 1);
        coin := coin.(arrayIndex := i + 1);
      }
      return Ok;
    }

    /** Label 0: the count of the inputs. */
    method CountFrom(buf: Cursor, ghost ending: Ending) returns (ret: Status)
      requires CoinWaits() && coin.stackIndex == 0 && buf.Valid() && ending == Run(View(), buf.Rest())
      modifies this`coin, buf`offset
      ensures ret != Ok ==> CoinStopped(buf, ret, ending)
      ensures ret == Ok ==> AtFromLoop(buf, ending)
    {
      hide Run, ViewCoin, ViewCall, ArriveFrom, LittleEndian;
      ghost var s, c, b := View(), coin, buf.Rest();
      CountRule(s, c, 0, b);
      var ok, n := buf.ReadU8();
      coin := coin.(fromLen := n);
      ViewOfCount(c, n);
      if !ok {
        return LengthError;
      }
      OneByte(b[..1]);
      FromLoopStart(s, c, n);
      coin := coin.(stackIndex := 1, arrayIndex := 0);
      FromLoopHead(View(), coin);
      return Ok;
    }

    /** Label 2: the count of the outputs. */
    method CountTo(buf: Cursor, ghost ending: Ending) returns (ret: Status)
      requires CoinWaits() && coin.stackIndex == 2 && buf.Valid() && ending == Run(View(), buf.Rest())
      modifies this`coin, buf`offset
      ensures ret != Ok ==> CoinStopped(buf, ret, ending)
      ensures ret == Ok ==> AtToLoop(buf, ending)
    {
      hide Run, ViewCoin, ViewCall, ArriveTo, LittleEndian;
      ghost var s, c, b := View(), coin, buf.Rest();
      CountRule(s, c, 2, b);
      var ok, n := buf.ReadU8();
      coin := coin.(toLen := n);
      ViewOfCount(c, n);
      if !ok {
        return LengthError;
      }
      OneByte(b[..1]);
      ToLoopStart(s, c, n);
      coin := coin.(stackIndex := 3, arrayIndex := 0);
      return Ok;
    }

    /** `transaction_deserialize_coin`. */
    method Coin(buf: Cursor, ghost ending: Ending) returns (ret: Status)
      requires CoinWaits() && buf.Valid() && ending == Run(View(), buf.Rest()) && buf.ptr != heap.buff
      modifies this`coin, heap`offset, heap.buff, buf`offset, buf`lack
      ensures ret != Ok ==> CoinStopped(buf, ret, ending)
      ensures ret == Ok ==> buf.Valid() && Valid() && ending == Accepted(View(), buf.Rest())
      ensures ret == Ok ==> coin.toLen <= 5 && |coin.from| == |coin.to| == 6
    {
      hide Run, ViewCoin, ViewCall, ArriveFrom, ArriveTo;
      var entry := coin.stackIndex;
      if entry <= 0 {
        ret := CountFrom(buf, ending);
        if ret != Ok { return; }
      }
      if entry <= 1 {
        ret := FromLoop(buf, ending);
        if ret != Ok { return; }
        ghost var s, c := View(), coin;
        if coin.fromLen > MAX_COIN_LEN {
          coin := coin.(fromLen := MAX_COIN_LEN);
        }
        coin := coin.(stackIndex := 2);
        FromLoopEnd(s, c, coin);
      }
      if entry <= 2 {
        ret := CountTo(buf, ending);
        if ret != Ok { return; }
      }
      ret := ToLoop(buf, ending);
      if ret != Ok { return; }
      ToLoopEnd(View(), coin, buf.Rest());
      // The source clamps `to_len` here; the arena budget has already made the clamp dead code.
      assert coin.toLen <= MAX_COIN_LEN;
    }

    // -------------------------------------------------------------- a contract call

    ghost predicate InCall(buf: Cursor)
      reads this, heap, buf
    {
      && buf.Valid() && Valid() && stackIndex == 4 && func == CallFunc && coin == ZERO_COIN && infoStack <= 8
      && (call.methodName.At? ==> call.methodName.pos + 40 <= heap.offset)
    }

    /** Stopped somewhere in a contract call, ready to go on. */
    ghost predicate CallWaits()
      reads this, heap, heap.buff
    {
      && Valid() && stackIndex == 4 && func == CallFunc && coin == ZERO_COIN && infoStack <= 8
      && (call.methodName.At? ==> call.methodName.pos + 40 <= heap.offset)
      && CallBlocks(call, infoStack)
      && (infoStack == 8 ==> call.twoArrayIndex < call.twoArgsLen && ArgWaits())
    }

    ghost function Style(): TxMachine.Style
      reads this, heap, heap.buff
    {
      StyleOf(View())
    }

    /** Inside an argument. */
    ghost predicate ArgWaits()
      reads this, heap, heap.buff
    {
      && call.stackIndex <= 2
      && (call.stackIndex == 1 && Style().Other? ==> call.oneArrayIndex < call.oneArgsLen)
      && (call.stackIndex == 1 && !Style().Other? ==> call.oneArgsLen == 1 && call.oneArrayIndex == 0)
      && (call.stackIndex == 2 ==> !Style().Other? && ElementFits())
    }

    /** The block of the element being read. */
    ghost predicate ElementFits()
      reads this, heap, heap.buff
    {
      var p := ElementOf(View().call, Style());
      p.At? && p.pos + (call.elementLen + 1) % SIZE_T <= ARENA_SIZE
    }

    ghost predicate CallStopped(buf: Cursor, ret: Status, ending: Ending)
      reads this, heap, heap.buff, buf, buf.ptr
    {
      buf.Valid() && Valid() && Ends(ending, ret, buf) && (ret == LengthError || ret == ValueError ==> CallWaits())
    }

    /** The switch, entered at label `entry`, has reached label `k`, whose block is still to be taken. */
    ghost predicate CallArrives(buf: Cursor, entry: nat, k: nat, ending: Ending)
      reads this, heap, heap.buff, buf, buf.ptr
    {
      && InCall(buf)
      && if entry < k then
           infoStack == k - 1 && CallBlocks(call, k - 1) && ending == Follow(ArriveCall(View(), k), buf.Rest())
         else infoStack == entry && CallWaits() && ending == Run(View(), buf.Rest())
    }

    /** The switch, entered at label `entry`, has reached label `k`. */
    ghost predicate CallStage(buf: Cursor, entry: nat, k: nat, ending: Ending)
      reads this, heap, heap.buff, buf, buf.ptr
    {
      && InCall(buf)
      && if entry <= k then CallBlocks(call, k) && ending == Run(View().(call := ViewCall(call, k)), buf.Rest())
         else infoStack == entry && CallWaits() && ending == Run(View(), buf.Rest())
    }

    /** Labels 0, 3 and 4: bytes that are not kept. */
    method CallSkipped(buf: Cursor, entry: nat, k: nat, ghost ending: Ending) returns (ret: Status)
      requires (k == 0 || k == 3 || k == 4) && CallStage(buf, entry, k, ending)
      modifies this`infoStack, buf`offset
      ensures ret != Ok ==> CallStopped(buf, ret, ending)
      ensures ret == Ok ==> if k == 3 then CallStage(buf, entry, 4, ending) else CallArrives(buf, entry, k + 1, ending)
    {
      hide Run, ArriveCall;
      if entry > k { return Ok; }
      infoStack := k;
      CallFixedRule(View(), call, k, buf.Rest());
      ret := SpcField(buf, if k == 0 then 23 else 8, null, 0);
    }

    /** At label `k` (1, 2 or 5), its block taken. */
    ghost predicate CallAt(buf: Cursor, k: nat, ending: Ending)
      reads this, heap, heap.buff, buf, buf.ptr
    {
      InCall(buf) && infoStack == k && CallBlocks(call, k) && ending == Run(View(), buf.Rest())
    }

    /** The block of label `k`. */
    method TakeCallBlock(buf: Cursor, entry: nat, k: nat, ghost ending: Ending) returns (ret: Status)
      requires (k == 1 || k == 2 || k == 5) && entry <= k && CallArrives(buf, entry, k, ending) && buf.ptr != heap.buff
      modifies this`infoStack, this`call, heap`offset, heap.buff
      ensures InCall(buf) && (ret == Ok || (ret == Error && ending == Refused))
      ensures ret == Ok ==> CallAt(buf, k, ending)
    {
      hide Run;
      infoStack := k;
      if k == 1 {
        if call.contractAddress == Null {
          var p := heap.Alloc(23);
          call := call.(contractAddress := p);
        }
        return if call.contractAddress == Null then Error else Ok;
      } else if k == 2 {
        if call.value == Null {
          var p := heap.Alloc(32);
          call := call.(value := p);
        }
        return if call.value == Null then Error else Ok;
      } else {
        if call.methodName == Null {
          var p := heap.Alloc(40);
          call := call.(methodName := p);
        }
        return if call.methodName == Null then Error else Ok;
      }
    }

    /** Label 1. */
    method CallAddress(buf: Cursor, entry: nat, ghost ending: Ending) returns (ret: Status)
      requires CallArrives(buf, entry, 1, ending) && buf.ptr != heap.buff
      modifies this`infoStack, this`call, heap`offset, heap.buff, buf`offset
      ensures ret != Ok ==> CallStopped(buf, ret, ending)
      ensures ret == Ok ==> CallArrives(buf, entry, 2, ending)
    {
      hide Run, ArriveCall, Poke;
      if entry > 1 { return Ok; }
      ret := TakeCallBlock(buf, entry, 1, ending);
      if ret != Ok { return; }
      ghost var s, b := View(), buf.Rest();
      CallStoreRule(s, call, 1, b);
      ret := SpcField(buf, 23, heap.buff, call.contractAddress.pos);
      assert ret != Wild;
      if ret != Ok {
        assert View() == s;
        return;
      }
      assert View() == Store(s, call.contractAddress.pos, b[..23]);
    }

    /** Label 2. */
    method CallValue(buf: Cursor, entry: nat, ghost ending: Ending) returns (ret: Status)
      requires CallArrives(buf, entry, 2, ending) && buf.ptr != heap.buff
      modifies this`infoStack, this`call, heap`offset, heap.buff, buf`offset
      ensures ret != Ok ==> CallStopped(buf, ret, ending)
      ensures ret == Ok ==> CallStage(buf, entry, 3, ending)
    {
      hide Run, ArriveCall, Poke;
      if entry > 2 { return Ok; }
      ret := TakeCallBlock(buf, entry, 2, ending);
      if ret != Ok { return; }
      ghost var s, b := View(), buf.Rest();
      CallStoreRule(s, call, 2, b);
      ret := SpcField(buf, 32, heap.buff, call.value.pos);
      assert ret != Wild;
      if ret != Ok {
        assert View() == s;
        return;
      }
      assert View() == Store(s, call.value.pos, b[..32]);
    }

    /** Label 5. */
    method CallName(buf: Cursor, entry: nat, ghost ending: Ending) returns (ret: Status)
      requires CallArrives(buf, entry, 5, ending) && buf.ptr != heap.buff
      modifies this`infoStack, this`call, heap`offset, heap.buff, buf`offset, buf`lack
      ensures ret != Ok ==> CallStopped(buf, ret, ending)
      ensures ret == Ok ==> CallStage(buf, entry, 6, ending)
    {
      hide Run, ArriveCall, Poke, Varint.ReadVarint;
      if entry > 5 { return Ok; }
      ret := TakeCallBlock(buf, entry, 5, ending);
      if ret != Ok { return; }
      CallNameRule(View(), call, buf.Rest());
      var len;
      ret, len := VarField(buf, heap.buff, call.methodName.pos + call.methodLen);
      call := call.(methodLen := len);
    }

    /** Label 6. */
    method CallDescription(buf: Cursor, entry: nat, ghost ending: Ending) returns (ret: Status)
      requires CallStage(buf, entry, 6, ending)
      modifies this`infoStack, buf`offset, buf`lack
      ensures ret != Ok ==> CallStopped(buf, ret, ending)
      ensures ret == Ok ==> CallStage(buf, entry, 7, ending)
    {
      hide Run, Varint.ReadVarint;
      if entry > 6 { return Ok; }
      infoStack := 6;
      CallDescriptionRule(View(), call, buf.Rest());
      var len;
      ret, len := VarField(buf, null, 0);
    }

    /** The loop over the arguments, at its head, between two arguments or (resumed) inside one. */
    ghost predicate AtArgLoop(buf: Cursor, ending: Ending)
      reads this, heap, heap.buff, buf, buf.ptr
    {
      && InCall(buf) && infoStack == 8 && CallBlocks(call, 8)
      && call.twoArrayIndex <= call.twoArgsLen
      && (if call.twoArrayIndex < call.twoArgsLen then ArgWaits() else call.stackIndex == 0)
      && ending == Run(if call.twoArrayIndex < call.twoArgsLen then View() else ArriveArg(View()), buf.Rest())
    }

    /** Label 7. */
    method CallCount(buf: Cursor, entry: nat, ghost ending: Ending) returns (ret: Status)
      requires CallStage(buf, entry, 7, ending)
      modifies this`infoStack, this`call, buf`offset
      ensures ret != Ok ==> CallStopped(buf, ret, ending)
      ensures ret == Ok ==> AtArgLoop(buf, ending)
    {
      hide Run, LittleEndian;
      if entry > 7 { return Ok; }
      infoStack := 7;
      ghost var b := buf.Rest();
      CallCountRule(View(), call, b);
      var ok, n := buf.ReadU8();
      call := call.(twoArgsLen := n);
      if !ok {
        return LengthError;
      }
      OneByte(b[..1]);
      call := call.(twoArrayIndex := 0);
      infoStack := 8;
      return Ok;
    }

    /** An argument is read; its index is still to be advanced. */
    ghost predicate ArgRead(buf: Cursor, ending: Ending)
      reads this, heap, heap.buff, buf, buf.ptr
    {
      && InCall(buf) && infoStack == 8 && CallBlocks(call, 8) && call.twoArrayIndex < call.twoArgsLen
      && ending == Run(ArgDone(View()), buf.Rest())
    }

    /** The switch of an argument that is kept, entered at label `entry`, has reached label `k`. */
    ghost predicate ArgStage(buf: Cursor, style: TxMachine.Style, entry: nat, k: nat, ending: Ending)
      reads this, heap, heap.buff, buf, buf.ptr
    {
      && InCall(buf) && infoStack == 8 && CallBlocks(call, 8) && call.twoArrayIndex < call.twoArgsLen
      && style == Style() && !style.Other? && entry <= 2
      && if entry <= k then
           call.stackIndex == k && ending == Run(View(), buf.Rest())
           && (k == 1 ==> call.oneArgsLen == 1 && call.oneArrayIndex == 0) && (k == 2 ==> ElementFits())
         else call.stackIndex == entry && ArgWaits() && ending == Run(View(), buf.Rest())
    }

    twostate predicate SameArg()
      reads this
    {
      call.twoArrayIndex == old(call.twoArrayIndex) && call.twoArgsLen == old(call.twoArgsLen)
    }

    method KeptCount(buf: Cursor, style: TxMachine.Style, entry: nat, ghost ending: Ending) returns (ret: Status)
      requires ArgStage(buf, style, entry, 0, ending)
      modifies this`call, buf`offset
      ensures SameArg()
      ensures ret != Ok ==> CallStopped(buf, ret, ending)
      ensures ret == Ok ==> ArgStage(buf, style, entry, 1, ending)
    {
      hide Run, LittleEndian, CStringIs;
      if entry > 0 { return Ok; }
      ghost var b := buf.Rest();
      ArgCountRule(View(), call, b);
      var ok, n := buf.ReadU8();
      call := call.(oneArgsLen := n);
      if !ok {
        return LengthError;
      }
      OneByte(b[..1]);
      call := call.(oneArrayIndex := 0);
      if call.oneArgsLen != 1 {
        return Error;
      }
      call := call.(stackIndex := 1);
      return Ok;
    }

    function WithElement(c: CallContract, style: TxMachine.Style, p: Ptr): CallContract {
      var first := if style.TransferFrom? then 1 else 0;
      if c.twoArrayIndex == first then c.(element1 := p)
      else if c.twoArrayIndex == first + 1 then c.(element2 := p)
      else c.(element3 := p)
    }

    function ElementPtr(c: CallContract, style: TxMachine.Style): Ptr {
      var first := if style.TransferFrom? then 1 else 0;
      if c.twoArrayIndex == first then c.element1
      else if c.twoArrayIndex == first + 1 then c.element2
      else c.element3
    }

    method KeptLength(buf: Cursor, style: TxMachine.Style, entry: nat, ghost ending: Ending) returns (ret: Status)
      requires ArgStage(buf, style, entry, 1, ending) && buf.ptr != heap.buff
      modifies this`call, heap`offset, heap.buff, buf`offset
      ensures SameArg()
      ensures ret != Ok ==> CallStopped(buf, ret, ending)
      ensures ret == Ok ==> ArgStage(buf, style, entry, 2, ending)
    {
      hide Run, CStringIs, Varint.ReadVarint, Poke, ViewCoin;
      if entry > 1 { return Ok; }
      ghost var s := View();
      ArgLengthRule(s, call, buf.Rest());
      var ok, v := buf.ReadVarint();
      call := call.(elementLen := v);
      if !ok {
        return LengthError;
      }
      assert View() == s;
      ret := ElementBlock(buf, style, v, entry, ending);
    }

    /** Lines 50 to 56: the block of the element. */
    method ElementBlock(buf: Cursor, style: TxMachine.Style, v: nat, entry: nat, ghost ending: Ending)
      returns (ret: Status)
      requires InCall(buf) && infoStack == 8 && CallBlocks(call, 8) && call.twoArrayIndex < call.twoArgsLen
      requires style == Style() && !style.Other? && entry <= 1 && buf.ptr != heap.buff
      requires call.stackIndex == 1 && call.oneArgsLen == 1 && call.oneArrayIndex == 0 && call.elementLen == v
      requires ending == Follow(TakeElementLength(View(), v), buf.Rest())
      modifies this`call, heap`offset, heap.buff
      ensures SameArg()
      ensures ret != Ok ==> CallStopped(buf, ret, ending)
      ensures ret == Ok ==> ArgStage(buf, style, entry, 2, ending)
    {
      hide Run, CStringIs, Poke, ViewCoin;
      NameKept(heap.buff[..], heap.offset, (v + 1) % SIZE_T, call.methodName.pos);
      var p := heap.Alloc((v + 1) % SIZE_T);
      call := WithElement(call, style, p);
      if p == Null {
        return Error;
      }
      call := call.(stackIndex := 2);
      return Ok;
    }

    method KeptValue(buf: Cursor, style: TxMachine.Style, entry: nat, ghost ending: Ending) returns (ret: Status)
      requires ArgStage(buf, style, entry, 2, ending) && buf.ptr != heap.buff
      modifies this`call, heap.buff, buf`offset
      ensures SameArg()
      ensures ret != Ok ==> CallStopped(buf, ret, ending)
      ensures ret == Ok ==> ArgRead(buf, ending)
    {
      hide Run, CStringIs, Poke;
      ghost var s, b, was := View(), buf.Rest(), heap.buff[..];
      ArgValueRule(s, call, b);
      BlockOfElement(call.elementLen);
      var at, n := ElementPtr(call, style).pos, call.elementLen % SIZE_T;
      ret := SpcField(buf, call.elementLen, heap.buff, at);
      if ret != Ok { return; }
      heap.buff[at + n] := 0;
      PokedNul(was, heap.buff[..], at, b[..n]);
    }

    /** `dimensional_transfer_deserialize` and `dimensional_transferFrom_deserialize`. */
    method Kept(buf: Cursor, style: TxMachine.Style, ghost ending: Ending) returns (ret: Status)
      requires InCall(buf) && infoStack == 8 && CallBlocks(call, 8) && call.twoArrayIndex < call.twoArgsLen
      requires ArgWaits() && style == Style() && !style.Other? && ending == Run(View(), buf.Rest())
      requires buf.ptr != heap.buff
      modifies this`call, heap`offset, heap.buff, buf`offset
      ensures SameArg()
      ensures ret != Ok ==> CallStopped(buf, ret, ending)
      ensures ret == Ok ==> ArgRead(buf, ending)
    {
      hide Run, StyleOf;
      var entry := call.stackIndex;
      ret := KeptCount(buf, style, entry, ending);
      if ret != Ok { return; }
      ret := KeptLength(buf, style, entry, ending);
      if ret != Ok { return; }
      ret := KeptValue(buf, style, entry, ending);
    }

    /** The loop over the elements of an argument that is not kept. */
    ghost predicate AtElementLoop(buf: Cursor, ending: Ending)
      reads this, heap, heap.buff, buf, buf.ptr
    {
      && InCall(buf) && infoStack == 8 && CallBlocks(call, 8) && call.twoArrayIndex < call.twoArgsLen
      && Style().Other? && call.stackIndex == 1 && ending == Run(ArriveElement(View()), buf.Rest())
    }

    method SkippedCount(buf: Cursor, ghost ending: Ending) returns (ret: Status)
      requires InCall(buf) && infoStack == 8 && CallBlocks(call, 8) && call.twoArrayIndex < call.twoArgsLen
      requires call.stackIndex == 0 && Style().Other? && ending == Run(View(), buf.Rest())
      modifies this`call, buf`offset
      ensures SameArg()
      ensures ret != Ok ==> CallStopped(buf, ret, ending)
      ensures ret == Ok ==> AtElementLoop(buf, ending)
    {
      hide Run, LittleEndian, CStringIs, ArriveElement;
      ghost var b := buf.Rest();
      ArgCountRule(View(), call, b);
      var ok, n := buf.ReadU8();
      call := call.(oneArgsLen := n);
      if !ok {
        return LengthError;
      }
      OneByte(b[..1]);
      call := call.(oneArrayIndex := 0);
      call := call.(stackIndex := 1);
      return Ok;
    }

    /** One element. */
    method SkippedElement(buf: Cursor, ghost ending: Ending) returns (ret: Status)
      requires AtElementLoop(buf, ending) && call.oneArrayIndex < call.oneArgsLen
      modifies this`call, buf`offset, buf`lack
      ensures call == old(call) || call == old(call).(oneArrayIndex := old(call.oneArrayIndex) + 1)
      ensures ret != Ok ==> CallStopped(buf, ret, ending)
      ensures ret == Ok ==> AtElementLoop(buf, ending) && call.oneArrayIndex == old(call.oneArrayIndex) + 1
    {
      hide Run, CStringIs, Varint.ReadVarint, ArgDone;
      ElementRule(View(), call, buf.Rest());
      var len;
      ret, len := VarField(buf, null, 0);
      if ret != Ok { return; }
      call := call.(oneArrayIndex := call.oneArrayIndex + 1);
    }

    /** `dimensional_deserialize`. */
    method Dimensional(buf: Cursor, ghost ending: Ending) returns (ret: Status)
      requires InCall(buf) && infoStack == 8 && CallBlocks(call, 8) && call.twoArrayIndex < call.twoArgsLen
      requires ArgWaits() && Style().Other? && ending == Run(View(), buf.Rest())
      modifies this`call, buf`offset, buf`lack
      ensures SameArg()
      ensures ret != Ok ==> CallStopped(buf, ret, ending)
      ensures ret == Ok ==> ArgRead(buf, ending)
    {
      hide Run, StyleOf, ArgDone;
      if call.stackIndex <= 0 {
        ret := SkippedCount(buf, ending);
        if ret != Ok { return; }
      }
      while call.oneArrayIndex < call.oneArgsLen
        invariant AtElementLoop(buf, ending) && SameArg()
        decreases call.oneArgsLen - call.oneArrayIndex
      {
        ret := SkippedElement(buf, ending);
        if ret != Ok { return; }
      }
      return Ok;
    }

    /** One argument, as the method name asks for. */
    method Argument(buf: Cursor, ghost ending: Ending) returns (ret: Status)
      requires InCall(buf) && infoStack == 8 && CallBlocks(call, 8) && call.twoArrayIndex < call.twoArgsLen
      requires ArgWaits() && ending == Run(View(), buf.Rest()) && buf.ptr != heap.buff
      modifies this`call, heap`offset, heap.buff, buf`offset, buf`lack
      ensures SameArg()
      ensures ret != Ok ==> CallStopped(buf, ret, ending)
      ensures ret == Ok ==> ArgRead(buf, ending)
    {
      hide Run, StyleOf, ArgDone, Names.Named;
      Names.Literals();
      Names.StyleOfMemory(View());
      var equal := Names.StrEqual(heap.buff, call.methodName.pos, "transfer");
      if equal {
        ret := Kept(buf, TxMachine.Style.Transfer, ending);
        return;
      }
      equal := Names.StrEqual(heap.buff, call.methodName.pos, "transferFrom");
      if equal {
        ret := Kept(buf, TxMachine.Style.TransferFrom, ending);
        return;
      }
      ret := Dimensional(buf, ending);
    }

    /** Label 8. */
    method ArgLoop(buf: Cursor, ghost ending: Ending) returns (ret: Status)
      requires AtArgLoop(buf, ending) && buf.ptr != heap.buff
      modifies this`call, heap`offset, heap.buff, buf`offset, buf`lack
      ensures ret != Ok ==> CallStopped(buf, ret, ending)
      ensures ret == Ok ==> AtArgLoop(buf, ending) && call.twoArrayIndex == call.twoArgsLen
    {
      hide Run, StyleOf;
      while call.twoArrayIndex < call.twoArgsLen
        invariant AtArgLoop(buf, ending)
        decreases call.twoArgsLen - call.twoArrayIndex
      {
        ret := Argument(buf, ending);
        if ret != Ok { return; }
        call := call.(twoArrayIndex := call.twoArrayIndex + 1);
        call := call.(stackIndex := 0);
      }
      return Ok;
    }

    /** `transaction_call_contract_deserialize`. */
    method CallContractData(buf: Cursor, ghost ending: Ending) returns (ret: Status)
      requires CallWaits() && buf.Valid() && ending == Run(View(), buf.Rest()) && buf.ptr != heap.buff
      modifies this`infoStack, this`call, heap`offset, heap.buff, buf`offset, buf`lack
      ensures ret != Ok ==> CallStopped(buf, ret, ending)
      ensures ret == Ok ==> AtArgLoop(buf, ending) && call.twoArrayIndex == call.twoArgsLen
    {
      hide Run;
      var entry := infoStack;
      if entry < 8 {
        ret := CallSkipped(buf, entry, 0, ending);
        if ret != Ok { return; }
        ret := CallAddress(buf, entry, ending);
        if ret != Ok { return; }
        ret := CallValue(buf, entry, ending);
        if ret != Ok { return; }
        ret := CallSkipped(buf, entry, 3, ending);
        if ret != Ok { return; }
        ret := CallSkipped(buf, entry, 4, ending);
        if ret != Ok { return; }
        ret := CallName(buf, entry, ending);
        if ret != Ok { return; }
        ret := CallDescription(buf, entry, ending);
        if ret != Ok { return; }
        ret := CallCount(buf, entry, ending);
        if ret != Ok { return; }
      }
      ret := ArgLoop(buf, ending);
    }

    // -------------------------------------------------------------- the transaction

    /** Ready for the first or the next chunk. */
    ghost predicate Waits()
      reads this, heap, heap.buff
    {
      && Valid() && stackIndex <= 6
      && (stackIndex > 0 ==> func == FuncOf(typ))
      && (stackIndex == 4 ==> CallWaits())
      && (stackIndex == 6 ==> CoinWaits())
      && (stackIndex < 4 ==> call == ZERO_CALL && infoStack == 0)
      && (stackIndex < 6 ==> coin == ZERO_COIN)
    }

    ghost predicate Stopped(buf: Cursor, ret: Status, ending: Ending)
      reads this, heap, heap.buff, buf, buf.ptr
    {
      buf.Valid() && Valid() && Ends(ending, ret, buf) && (ret == LengthError || ret == ValueError ==> Waits())
    }

    /** The outermost switch, entered at label `entry`, has reached label `k`. */
    ghost predicate Stage(buf: Cursor, entry: nat, k: nat, ending: Ending)
      reads this, heap, heap.buff, buf, buf.ptr
    {
      && buf.Valid() && Valid() && coin == ZERO_COIN
      && if entry < k || (entry == k && k != 4) then
           && (k > 0 ==> func == FuncOf(typ)) && (k < 4 ==> call == ZERO_CALL && infoStack == 0)
           && (k == 4 && func == CallFunc ==> CallBlocks(call, 0) && infoStack == 0)
           && ending == Run(View().(stack := if k == 4 && func != CallFunc then 5 else k), buf.Rest())
         else stackIndex == entry && Waits() && ending == Run(View(), buf.Rest())
    }

    method ReadType(buf: Cursor, entry: nat, ghost ending: Ending) returns (ret: Status)
      requires Stage(buf, entry, 0, ending)
      modifies this`stackIndex, this`typ, this`func, heap`offset, buf`offset
      ensures ret != Ok ==> Stopped(buf, ret, ending)
      ensures ret == Ok ==> Stage(buf, entry, 1, ending)
    {
      hide Run, LittleEndian;
      if entry > 0 { return Ok; }
      stackIndex := 0;
      FixedRule(View(), 2, buf.Rest());
      var ok, v := buf.ReadU16();
      if !ok {
        return LengthError;
      }
      typ := v;
      func := FuncOf(v);
      heap.Init();
      return Ok;
    }

    method ReadTimestamp(buf: Cursor, entry: nat, ghost ending: Ending) returns (ret: Status)
      requires Stage(buf, entry, 1, ending)
      modifies this`stackIndex, buf`offset
      ensures ret != Ok ==> Stopped(buf, ret, ending)
      ensures ret == Ok ==> Stage(buf, entry, 2, ending)
    {
      hide Run, LittleEndian;
      if entry > 1 { return Ok; }
      stackIndex := 1;
      FixedRule(View(), 4, buf.Rest());
      var ok, v := buf.ReadU32();
      ret := if ok then Ok else LengthError;
    }

    method ReadRemark(buf: Cursor, entry: nat, ghost ending: Ending) returns (ret: Status)
      requires Stage(buf, entry, 2, ending)
      modifies this`stackIndex, buf`offset, buf`lack
      ensures ret != Ok ==> Stopped(buf, ret, ending)
      ensures ret == Ok ==> Stage(buf, entry, 3, ending)
    {
      hide Run, Varint.ReadVarint;
      if entry > 2 { return Ok; }
      stackIndex := 2;
      SkipRule(View(), buf.Rest());
      var len;
      ret, len := VarField(buf, null, 0);
    }

    method ReadDataLength(buf: Cursor, entry: nat, ghost ending: Ending) returns (ret: Status)
      requires Stage(buf, entry, 3, ending)
      modifies this`stackIndex, this`infoStack, buf`offset, buf`lack
      ensures ret != Ok ==> Stopped(buf, ret, ending)
      ensures ret == Ok ==> Stage(buf, entry, 4, ending)
    {
      hide Run, Varint.ReadVarint;
      if entry > 3 { return Ok; }
      stackIndex := 3;
      if func == NoFunc {
        SkipRule(View(), buf.Rest());
        var len;
        ret, len := VarField(buf, null, 0);
      } else {
        LengthRule(View(), buf.Rest());
        var ok, v := buf.ReadVarint();
        if !ok {
          return LengthError;
        }
        infoStack := 0;
        ret := Ok;
      }
    }

    /** The transfers' own functions read nothing. */
    method ReadData(buf: Cursor, entry: nat, ghost ending: Ending) returns (ret: Status)
      requires Stage(buf, entry, 4, ending) && buf.ptr != heap.buff
      modifies this`stackIndex, this`infoStack, this`call, heap`offset, heap.buff, buf`offset, buf`lack
      ensures ret != Ok ==> Stopped(buf, ret, ending)
      ensures ret == Ok ==> Stage(buf, entry, 5, ending)
    {
      hide Run;
      if entry > 4 { return Ok; }
      stackIndex := 4;
      if func == CallFunc {
        ret := CallContractData(buf, ending);
      } else {
        ret := Ok;
      }
    }

    method ReadCoinLength(buf: Cursor, entry: nat, ghost ending: Ending) returns (ret: Status)
      requires Stage(buf, entry, 5, ending)
      modifies this`stackIndex, this`coin, buf`offset
      ensures ret != Ok ==> Stopped(buf, ret, ending)
      ensures ret == Ok ==> Stage(buf, entry, 6, ending)
    {
      hide Run, Varint.ReadVarint;
      if entry > 5 { return Ok; }
      stackIndex := 5;
      LengthRule(View(), buf.Rest());
      var ok, v := buf.ReadVarint();
      if !ok {
        return LengthError;
      }
      coin := coin.(stackIndex := 0);
      return Ok;
    }

    /** The labels before the coin data. */
    method ReadHead(buf: Cursor, entry: nat, ghost ending: Ending) returns (ret: Status)
      requires Waits() && entry == stackIndex < 6 && buf.Valid() && buf.ptr != heap.buff
      requires ending == Run(View(), buf.Rest())
      modifies this, heap`offset, heap.buff, buf`offset, buf`lack
      ensures ret != Ok ==> Stopped(buf, ret, ending)
      ensures ret == Ok ==> Stage(buf, entry, 6, ending)
    {
      hide Run;
      assert Stage(buf, entry, 0, ending);
      hide *;
      ret := ReadType(buf, entry, ending);
      if ret != Ok { return; }
      ret := ReadTimestamp(buf, entry, ending);
      if ret != Ok { return; }
      ret := ReadRemark(buf, entry, ending);
      if ret != Ok { return; }
      ret := ReadDataLength(buf, entry, ending);
      if ret != Ok { return; }
      ret := ReadData(buf, entry, ending);
      if ret != Ok { return; }
      ret := ReadCoinLength(buf, entry, ending);
    }

    /**
     `transaction_deserialize`: the status and the new state are those of the automaton, run from the old
     state on the unread bytes.
     */
    method Deserialize(buf: Cursor) returns (ret: Status)
      requires Waits() && buf.Valid() && buf.ptr != heap.buff
      modifies this, heap`offset, heap.buff, buf`offset, buf`lack
      ensures buf.Valid() && Valid()
      ensures old(Run(View(), buf.Rest())) ==
              match ret
              case Ok => Accepted(View(), buf.Rest())
              case Error => Refused
              case LengthError => ShortLength(View(), buf.Rest())
              case ValueError => ShortValue(View(), buf.lack)
              case Wild => Stray
      ensures ret == LengthError || ret == ValueError ==> Waits()
      ensures ret == Ok ==> coin.toLen <= 5 && |coin.from| == |coin.to| == 6
    {
      hide Run;
      ghost var ending := Run(View(), buf.Rest());
      if stackIndex < 6 {
        ret := ReadHead(buf, stackIndex, ending);
        if ret != Ok { return; }
        stackIndex := 6;
      }
      ret := Coin(buf, ending);
    }
  }

  lemma PokedBack(was: seq<Byte>, at: nat, d: seq<Byte>)
    requires at + |d| <= |was|
    ensures Poke(was, at, d)[at..at + |d|] == d
  {
  }

  lemma PokeAll(was: seq<Byte>, d: seq<Byte>)
    requires |d| == |was|
    ensures Poke(was, 0, d) == d
  {
  }
}
