/**
 The contract-call data (`src/transaction/tx_call_contract.c`) in one pass: which argument lists get
 through, and what the contract fields then point at.
 */
module CallPass {
  import opened Bytes
  import opened TxMachine
  import opened Grammar
  import opened Budget
  import opened OnePass
  import opened Names

  /** What `strcmp` makes of a method name in its zeroed block. */
  function StyleOfName(name: seq<Byte>): Style {
    if CStringIs(name + Zeros(40), 0, TRANSFER) then Transfer
    else if CStringIs(name + Zeros(40), 0, TRANSFER_FROM) then TransferFrom
    else Style.Other
  }

  /** The two transfers are told from every other method, by the characters before the first NUL. */
  lemma StyleExactly(name: seq<Byte>)
    ensures StyleOfName(name).Transfer? <==> Named(name, "transfer")
    ensures StyleOfName(name).TransferFrom? <==> Named(name, "transferFrom")
    ensures StyleOfName(name).Other? <==> !Named(name, "transfer") && !Named(name, "transferFrom")
  {
    hide CStringIs;
    var mem := name + Zeros(40);
    assert mem[0..] == mem;
    Literals();
    Padded(name, 40);
    CStringIsNamed(mem, 0, TRANSFER, "transfer");
    CStringIsNamed(mem, 0, TRANSFER_FROM, "transferFrom");
    NotBoth(mem);
  }

  predicate OneEach(args: seq<seq<seq<Byte>>>) {
    forall arg :: arg in args ==> |arg| == 1
  }

  /** The blocks of the kept arguments, each with its final NUL. */
  function ArgRoom(args: seq<seq<seq<Byte>>>): nat
    requires OneEach(args)
  {
    if args == [] then 0 else |args[0][0]| + 1 + ArgRoom(args[1..])
  }

  predicate ElementsWithin(args: seq<seq<seq<Byte>>>, m: nat)
    requires OneEach(args)
  {
    forall i :: 0 <= i < |args| ==> |args[i][0]| <= m
  }

  // ---------------------------------------------------------------- arguments that are not kept

  predicate InArgs(s: State) {
    s.stack == 4 && s.call.stack == 8 && s.call.argIndex < s.call.argCount
  }

  lemma {:induction false} RunElements(limit: Limit, s: State, n: nat, b: seq<Byte>)
    requires InArgs(s) && s.call.inner == 1 && StyleOf(s).Other? && n == s.call.oneCount - s.call.oneIndex
    ensures var f := ParseElements(n, b);
            if f.Got? then Pass(limit, ArriveElement(s), b) == Pass(limit, ArgDone(s), f.rest)
            else !Pass(limit, ArriveElement(s), b).Accepted?
    decreases n
  {
    hide Pass, Field, CStringIs, ArgDone;
    if n > 0 {
      var s' := s.(call := s.call.(oneIndex := s.call.oneIndex + 1));
      ElementSkipped(s);
      RunSkip(limit, s, b);
      if Field(b).Got? {
        RunElements(limit, s', n - 1, Field(b).rest);
        assert ArgDone(s') == ArgDone(s) by { DoneAnyway(s); }
      }
    }
  }

  lemma ElementSkipped(s: State)
    requires InArgs(s) && s.call.inner == 1 && StyleOf(s).Other?
    ensures Want(s) == Skip
    ensures Skipped(s) == ArriveElement(s.(call := s.call.(oneIndex := s.call.oneIndex + 1)))
  {
  }

  lemma DoneAnyway(s: State)
    ensures ArgDone(s.(call := s.call.(oneIndex := s.call.oneIndex + 1))) == ArgDone(s)
  {
  }

  lemma OneSkippedArg(limit: Limit, s: State, b: seq<Byte>)
    requires InArgs(s) && StyleOf(s).Other?
    ensures var f := ParseArg(b);
            if f.Got? then Pass(limit, ArriveArg(s), b) == Pass(limit, ArgDone(s), f.rest)
            else !Pass(limit, ArriveArg(s), b).Accepted?
  {
    hide Pass, ParseElements;
    var s0 := ArriveArg(s);
    RunFixed(limit, s0, 1, b);
    var f := Bite(1, b);
    if f.Got? {
      var n := LittleEndian(f.value);
      var s1 := s0.(call := s0.call.(oneCount := n, oneIndex := 0, inner := 1));
      RunElements(limit, s1, n, f.rest);
    }
  }

  lemma {:induction false} RunSkippedArgs(limit: Limit, s: State, n: nat, b: seq<Byte>)
    requires s.stack == 4 && s.call.stack == 8 && StyleOf(s).Other? && n == s.call.argCount - s.call.argIndex
    ensures var f := ParseArgs(n, b);
            var done := ArriveArg(s.(call := s.call.(argIndex := s.call.argCount)));
            if f.Got? then Pass(limit, ArriveArg(s), b) == Pass(limit, done, f.rest)
            else !Pass(limit, ArriveArg(s), b).Accepted?
    decreases n
  {
    hide Pass, ParseArg;
    if n > 0 {
      OneSkippedArg(limit, s, b);
      var f := ParseArg(b);
      if f.Got? {
        RunSkippedArgs(limit, s.(call := s.call.(argIndex := s.call.argIndex + 1)), n - 1, f.rest);
      }
    }
  }

  // ---------------------------------------------------------------- arguments that are kept

  predicate CallStarted(s: State) {
    InArgs(s) && KeepsArgs(s)
  }

  predicate KeepsArgs(s: State) {
    && s.stack == 4 && s.call.stack == 8
    && !StyleOf(s).Other?
    && s.call.methodName == At(55) && s.arena.used >= 95 && s.arena.Valid()
  }

  /** The state when the argument `e` has been stored, just before the next one is looked for. */
  function AfterArg(s: State, e: seq<Byte>): State {
    var p := s.arena.used;
    s.(arena := Arena(Poke(Poke(s.arena.mem, p, Zeros(|e| + 1)), p, e + [0]), p + |e| + 1),
       call := SetElement(s.call, StyleOf(s), At(p)).(argIndex := s.call.argIndex + 1))
  }

  lemma BlockSize(v: nat)
    ensures v % SIZE_T + 1 < SIZE_T ==> (v + 1) % SIZE_T == v % SIZE_T + 1
    ensures v % SIZE_T + 1 == SIZE_T ==> (v + 1) % SIZE_T == 0
  {
  }

  lemma AfterArgStyle(s: State, e: seq<Byte>)
    requires KeepsArgs(s) && s.arena.used + |e| + 1 <= ARENA_SIZE
    ensures KeepsArgs(AfterArg(s, e)) && StyleOf(AfterArg(s, e)) == StyleOf(s)
  {
    var p := s.arena.used;
    StyleKept(s, p, Zeros(|e| + 1));
    StyleKept(Store(s, p, Zeros(|e| + 1)), p, e + [0]);
    var s2 := Store(Store(s, p, Zeros(|e| + 1)), p, e + [0]);
    assert AfterArg(s, e).arena.mem == s2.arena.mem;
  }

  /** The bytes of a kept argument, its block taken. */
  lemma ArgValue(limit: Limit, s: State, v: nat, b: seq<Byte>)
    requires CallStarted(s) && s.arena.used + v % SIZE_T + 1 <= ARENA_SIZE
    ensures var s1 := ArriveArg(s).(call := ArriveArg(s).call.(oneCount := 1, inner := 1));
            var f := Bite(v % SIZE_T, b);
            if f.Got? && v % SIZE_T <= limit.fixed then
              PassNext(limit, TakeElementLength(s1, v), b) == Pass(limit, ArriveArg(AfterArg(s, f.value)), f.rest)
            else !PassNext(limit, TakeElementLength(s1, v), b).Accepted?
  {
    hide Pass, AfterArg, StyleOf, ArriveArg, TakeElementLength, Take;
    var n := v % SIZE_T;
    var s1 := ArriveArg(s).(call := ArriveArg(s).call.(oneCount := 1, inner := 1));
    ValueBlock(s, v);
    if n <= limit.fixed {
      RunFixed(limit, TakeElementLength(s1, v).st, n, b);
      var f := Bite(n, b);
      if f.Got? {
        ValueTaken(s, v, f.value);
      }
    } else {
      StopsTooLong(limit, TakeElementLength(s1, v).st, b);
    }
  }

  lemma StopsTooLong(limit: Limit, s: State, b: seq<Byte>)
    requires Want(s).Fixed? && Want(s).n > limit.fixed
    ensures Pass(limit, s, b) == Stray
  {
  }

  lemma ValueBlock(s: State, v: nat)
    requires CallStarted(s) && s.arena.used + v % SIZE_T + 1 <= ARENA_SIZE
    ensures var s1 := ArriveArg(s).(call := ArriveArg(s).call.(oneCount := 1, inner := 1));
            var n, p := v % SIZE_T, s.arena.used;
            var arena := Arena(Poke(s.arena.mem, p, Zeros(n + 1)), p + n + 1);
            && TakeElementLength(s1, v) == Into(s1.(arena := arena,
                 call := SetElement(s1.call.(elementLen := v, inner := 2), StyleOf(s), At(p))))
            && StyleOf(TakeElementLength(s1, v).st) == StyleOf(s)
            && Want(TakeElementLength(s1, v).st) == Fixed(n)
  {
    hide Poke;
    var s1 := ArriveArg(s).(call := ArriveArg(s).call.(oneCount := 1, inner := 1));
    BlockSize(v);
    StyleKept(s1, s.arena.used, Zeros(v % SIZE_T + 1));
    assert StyleOf(TakeElementLength(s1, v).st) == StyleOf(Store(s1, s.arena.used, Zeros(v % SIZE_T + 1)));
  }

  lemma ValueTaken(s: State, v: nat, e: seq<Byte>)
    requires CallStarted(s) && s.arena.used + v % SIZE_T + 1 <= ARENA_SIZE && |e| == v % SIZE_T
    ensures var s1 := ArriveArg(s).(call := ArriveArg(s).call.(oneCount := 1, inner := 1));
            Take(TakeElementLength(s1, v).st, e) == Into(ArriveArg(AfterArg(s, e)))
  {
    hide Poke;
    ValueBlock(s, v);
    hide StyleOf;
  }

  lemma HugeArg(limit: Limit, s: State, v: nat, b: seq<Byte>)
    requires CallStarted(s) && s.arena.used + v % SIZE_T + 1 > ARENA_SIZE
    ensures var s1 := ArriveArg(s).(call := ArriveArg(s).call.(oneCount := 1, inner := 1));
            !PassNext(limit, TakeElementLength(s1, v), b).Accepted?
  {
    BlockSize(v);
    if v % SIZE_T + 1 == SIZE_T {
      var s1 := ArriveArg(s).(call := ArriveArg(s).call.(oneCount := 1, inner := 1));
      StyleKept(s1, s.arena.used, Zeros(0));
      var s2 := TakeElementLength(s1, v).st;
      assert StyleOf(s2) == StyleOf(Store(s1, s.arena.used, Zeros(0)));
      assert Want(s2) == Fixed(v % SIZE_T);
    }
  }

  lemma OneKeptArg(limit: Limit, s: State, b: seq<Byte>)
    requires CallStarted(s)
    ensures var f := ParseArg(b);
            if f.Got? && |f.value| == 1 && s.arena.used + |f.value[0]| + 1 <= ARENA_SIZE && |f.value[0]| <= limit.fixed
            then Pass(limit, ArriveArg(s), b) == Pass(limit, ArriveArg(AfterArg(s, f.value[0])), f.rest)
            else !Pass(limit, ArriveArg(s), b).Accepted?
  {
    hide Pass, AfterArg, TakeElementLength;
    var s0 := ArriveArg(s);
    RunFixed(limit, s0, 1, b);
    var f := Bite(1, b);
    if f.Got? {
      var n := LittleEndian(f.value);
      if n == 1 {
        var s1 := s0.(call := s0.call.(oneCount := 1, inner := 1));
        RunLength(limit, s1, f.rest);
        var g := Prefix(f.rest);
        if g.Got? {
          if s.arena.used + g.value % SIZE_T + 1 <= ARENA_SIZE {
            ArgValue(limit, s, g.value, g.rest);
          } else {
            HugeArg(limit, s, g.value, g.rest);
          }
        }
        OneElement(f.rest);
      } else {
        ElementCount(n, f.rest);
      }
    }
  }

  lemma OneElement(b: seq<Byte>)
    ensures ParseElements(1, b) == if Field(b).Got? then Got([Field(b).value], Field(b).rest) else Fail
  {
    if Field(b).Got? {
      assert ParseElements(0, Field(b).rest) == Got([], Field(b).rest);
      assert [Field(b).value] + [] == [Field(b).value];
    }
  }

  lemma {:induction false} ElementCount(n: nat, b: seq<Byte>)
    ensures ParseElements(n, b).Got? ==> |ParseElements(n, b).value| == n
  {
    hide Field;
    if n > 0 && Field(b).Got? {
      ElementCount(n - 1, Field(b).rest);
    }
  }

  /** The state after the arguments `args`. */
  function AfterArgs(s: State, args: seq<seq<seq<Byte>>>): State
    requires OneEach(args)
    decreases |args|
  {
    if args == [] then s else AfterArgs(AfterArg(s, args[0][0]), args[1..])
  }

  lemma OneEachSplit(arg: seq<seq<Byte>>, args: seq<seq<seq<Byte>>>)
    ensures OneEach([arg] + args) <==> |arg| == 1 && OneEach(args)
  {
    if OneEach([arg] + args) {
      assert arg in [arg] + args;
      assert forall a :: a in args ==> a in [arg] + args;
    }
  }

  lemma ElementsSplit(e: seq<Byte>, args: seq<seq<seq<Byte>>>, m: nat)
    requires OneEach(args) && OneEach([[e]] + args)
    ensures ElementsWithin([[e]] + args, m) <==> |e| <= m && ElementsWithin(args, m)
  {
    var all := [[e]] + args;
    assert all[0][0] == e;
    assert forall k :: 1 <= k < |all| ==> all[k] == args[k - 1];
    forall k | 0 <= k < |args|
      ensures ElementsWithin(all, m) ==> |args[k][0]| <= m
    {
      assert all[k + 1] == args[k];
    }
  }

  lemma {:induction false} RunKeptArgs(limit: Limit, s: State, n: nat, b: seq<Byte>)
    requires KeepsArgs(s) && n == s.call.argCount - s.call.argIndex
    ensures var f := ParseArgs(n, b);
            if f.Got? && OneEach(f.value) && s.arena.used + ArgRoom(f.value) <= ARENA_SIZE
               && ElementsWithin(f.value, limit.fixed)
            then Pass(limit, ArriveArg(s), b) == Pass(limit, ArriveArg(AfterArgs(s, f.value)), f.rest)
            else !Pass(limit, ArriveArg(s), b).Accepted?
    decreases n
  {
    hide Pass, ParseArg, AfterArg;
    if n > 0 {
      OneKeptArg(limit, s, b);
      var f := ParseArg(b);
      if f.Got? {
        var g := ParseArgs(n - 1, f.rest);
        if g.Got? {
          OneEachSplit(f.value, g.value);
          if OneEach([f.value] + g.value) {
            ElementsSplit(f.value[0], g.value, limit.fixed);
            assert f.value == [f.value[0]];
          }
          assert ([f.value] + g.value)[1..] == g.value;
        }
        if |f.value| == 1 && s.arena.used + |f.value[0]| + 1 <= ARENA_SIZE && |f.value[0]| <= limit.fixed {
          AfterArgStyle(s, f.value[0]);
          AfterArgCount(s, f.value[0]);
          RunKeptArgs(limit, AfterArg(s, f.value[0]), n - 1, f.rest);
        }
      }
    }
  }

  lemma AfterArgCount(s: State, e: seq<Byte>)
    ensures AfterArg(s, e).call.argCount == s.call.argCount
    ensures AfterArg(s, e).call.argIndex == s.call.argIndex + 1
    ensures AfterArg(s, e).arena.used == s.arena.used + |e| + 1
  {
  }

  // ---------------------------------------------------------------- the whole call

  const CALL_ROOM := 95

  /** Just behind the length of the transaction data. */
  predicate CallStart(s: State) {
    s.stack == 4 && s.call == NO_CALL && s.arena.Valid() && s.arena.used == 0
  }

  /** The contract address and value are stored, the block of the method name is taken. */
  function WithHead(s: State, address: seq<Byte>, value: seq<Byte>): State {
    var m := Poke(Poke(s.arena.mem, 0, Zeros(23)), 0, address);
    var m' := Poke(Poke(m, 23, Zeros(32)), 23, value);
    s.(arena := Arena(Poke(m', 55, Zeros(40)), CALL_ROOM),
       call := NO_CALL.(stack := 5, contractAddress := At(0), value := At(23), methodName := At(55)))
  }

  lemma RunHead1(limit: Limit, s: State, b: seq<Byte>)
    requires CallStart(s)
    ensures var f := Bite(23, b);
            if !f.Got? || Bite(23, f.rest).Fail? then !Pass(limit, s, b).Accepted?
            else var g := Bite(23, f.rest);
                 var m := Poke(Poke(s.arena.mem, 0, Zeros(23)), 0, g.value);
                 Pass(limit, s, b) == Pass(limit, s.(arena := Arena(Poke(m, 23, Zeros(32)), 55),
                                     call := NO_CALL.(stack := 2, contractAddress := At(0), value := At(23))), g.rest)
  {
    hide Pass;
    RunFixed(limit, s, 23, b);
    var f := Bite(23, b);
    if f.Got? {
      RunFixed(limit, Take(s, f.value).st, 23, f.rest);
    }
  }

  lemma RunHead2(limit: Limit, s: State, b: seq<Byte>)
    requires s.stack == 4 && s.call == NO_CALL.(stack := 2, contractAddress := At(0), value := At(23))
    requires s.arena.Valid() && s.arena.used == 55
    ensures var f := Bite(32, b);
            if !f.Got? || Bite(8, f.rest).Fail? || Bite(8, Bite(8, f.rest).rest).Fail? then !Pass(limit, s, b).Accepted?
            else
              var m := Poke(Poke(s.arena.mem, 23, f.value), 55, Zeros(40));
              Pass(limit, s, b) == Pass(limit, s.(arena := Arena(m, CALL_ROOM),
                                                  call := s.call.(stack := 5, methodName := At(55))),
                                        Bite(8, Bite(8, f.rest).rest).rest)
  {
    hide Pass;
    RunFixed(limit, s, 32, b);
    var f := Bite(32, b);
    if f.Got? {
      var s1 := Take(s, f.value).st;
      RunFixed(limit, s1, 8, f.rest);
      var g := Bite(8, f.rest);
      if g.Got? {
        RunFixed(limit, Take(s1, g.value).st, 8, g.rest);
      }
    }
  }

  /** The method name is stored and `n` arguments are announced. */
  function WithName(s: State, name: seq<Byte>, n: nat): State {
    s.(arena := s.arena.(mem := Poke(s.arena.mem, 55, name)), call := s.call.(stack := 8, argCount := n))
  }

  lemma NameStyle(s: State, name: seq<Byte>, n: nat)
    requires s.arena.Valid() && 55 + |name| <= ARENA_SIZE && s.call.methodName == At(55)
    requires s.arena.mem[55..95] == Zeros(40)
    ensures StyleOf(WithName(s, name, n)) == StyleOfName(name)
  {
    var m, p := Poke(s.arena.mem, 55, name), name + Zeros(40);
    forall i | 0 <= i < 13
      ensures m[55 + i] == p[i]
    {
      if i >= |name| {
        assert m[55 + i] == s.arena.mem[55 + i] == s.arena.mem[55..95][i];
      }
    }
    assert m[55..55 + |TRANSFER|] == p[0..0 + |TRANSFER|];
    assert m[55..55 + |TRANSFER_FROM|] == p[0..0 + |TRANSFER_FROM|];
  }

  lemma RunName(limit: Limit, s: State, b: seq<Byte>)
    requires s.stack == 4 && s.call.stack == 5 && s.call.methodOff == 0 && s.call.argIndex == 0
    requires s.call.methodName == At(55)
    ensures var f := Field(b);
            if !f.Got? || 55 + |KeepName(limit, f.value)| > ARENA_SIZE || |KeepName(limit, f.value)| > limit.copied
               || Field(f.rest).Fail? || Bite(1, Field(f.rest).rest).Fail?
            then !Pass(limit, s, b).Accepted?
            else var g := Bite(1, Field(f.rest).rest);
                 var s' := WithName(s, KeepName(limit, f.value), LittleEndian(g.value));
                 Pass(limit, s, b) == Pass(limit, ArriveArg(s'), g.rest)
  {
    hide Pass, Field;
    RunFetch(limit, s, b);
    var f := Field(b);
    if f.Got? && 55 + |KeepName(limit, f.value)| <= ARENA_SIZE && |KeepName(limit, f.value)| <= limit.copied {
      var s1 := Fetched(Store(s, 55, KeepName(limit, f.value)));
      RunSkip(limit, s1, f.rest);
      if Field(f.rest).Got? {
        RunFixed(limit, Skipped(s1), 1, Field(f.rest).rest);
      }
    }
  }

  predicate CallOk(c: Contract) {
    && 55 + |c.name| <= ARENA_SIZE
    && (StyleOfName(c.name).Other? || (OneEach(c.args) && CALL_ROOM + ArgRoom(c.args) <= ARENA_SIZE))
  }

  /** No longer than the limit: the method name, and the arguments if they are kept. */
  predicate CallWithin(limit: Limit, c: Contract)
    requires CallOk(c)
  {
    |c.name| <= limit.copied && (StyleOfName(c.name).Other? || ElementsWithin(c.args, limit.fixed))
  }

  /** The state when the call `c` has been read. */
  function AfterCall(s: State, c: Contract): State
    requires CallOk(c)
  {
    var s' := WithName(WithHead(s, c.address, c.value), c.name, |c.args|);
    if StyleOfName(c.name).Other? then ArriveArg(s'.(call := s'.call.(argIndex := s'.call.argCount)))
    else ArriveArg(AfterArgs(s', c.args))
  }

  lemma {:induction false} ArgsCounted(n: nat, b: seq<Byte>)
    ensures ParseArgs(n, b).Got? ==> |ParseArgs(n, b).value| == n
  {
    hide ParseArg;
    if n > 0 && ParseArg(b).Got? {
      ArgsCounted(n - 1, ParseArg(b).rest);
    }
  }

  lemma RunInvocation(limit: Limit, s: State, c: Contract, n: nat, b: seq<Byte>)
    requires s.stack == 4
    requires s.call == NO_CALL.(stack := 5, contractAddress := At(0), value := At(23), methodName := At(55))
    requires s.arena.Valid() && s.arena.used == CALL_ROOM && s.arena.mem[55..95] == Zeros(40)
    requires 55 + |c.name| <= ARENA_SIZE
    ensures var f := ParseArgs(n, b);
            var e := Pass(limit, ArriveArg(WithName(s, c.name, n)), b);
            var s' := WithName(s, c.name, n);
            if !f.Got? then !e.Accepted?
            else if StyleOfName(c.name).Other? then
              e == Pass(limit, ArriveArg(s'.(call := s'.call.(argIndex := n))), f.rest)
            else if OneEach(f.value) && CALL_ROOM + ArgRoom(f.value) <= ARENA_SIZE
                    && ElementsWithin(f.value, limit.fixed) then
              e == Pass(limit, ArriveArg(AfterArgs(s', f.value)), f.rest)
            else !e.Accepted?
  {
    hide Pass, ParseArgs, StyleOf, StyleOfName;
    NameStyle(s, c.name, n);
    var s' := WithName(s, c.name, n);
    if StyleOfName(c.name).Other? {
      RunSkippedArgs(limit, s', n, b);
    } else {
      RunKeptArgs(limit, s', n, b);
    }
  }

  lemma HeadZeros(s: State, address: seq<Byte>, value: seq<Byte>)
    requires s.arena.Valid()
    ensures WithHead(s, address, value).arena.Valid()
    ensures WithHead(s, address, value).arena.mem[55..95] == Zeros(40)
  {
  }

  function KeepContract(limit: Limit, c: Contract): Contract { c.(name := KeepName(limit, c.name)) }

  lemma RunCall(limit: Limit, s: State, b: seq<Byte>)
    requires CallStart(s)
    ensures var f := ParseContract(b);
            if f.Got? && CallOk(KeepContract(limit, f.value)) && CallWithin(limit, KeepContract(limit, f.value)) then
              Pass(limit, s, b) == Pass(limit, AfterCall(s, KeepContract(limit, f.value)), f.rest)
            else !Pass(limit, s, b).Accepted?
  {
    hide Pass, Field, ParseArgs, ArriveArg, StyleOfName, AfterArgs;
    RunHead1(limit, s, b);
    if Bite(23, b).Got? && Bite(23, Bite(23, b).rest).Got? {
      var g := Bite(23, Bite(23, b).rest);
      var m := Poke(Poke(s.arena.mem, 0, Zeros(23)), 0, g.value);
      var s1 := s.(arena := Arena(Poke(m, 23, Zeros(32)), 55),
                   call := NO_CALL.(stack := 2, contractAddress := At(0), value := At(23)));
      RunHead2(limit, s1, g.rest);
      var h := Bite(32, g.rest);
      if h.Got? && Bite(8, h.rest).Got? && Bite(8, Bite(8, h.rest).rest).Got? {
        var s2, b2 := WithHead(s, g.value, h.value), Bite(8, Bite(8, h.rest).rest).rest;
        HeadZeros(s, g.value, h.value);
        RunName(limit, s2, b2);
        var k := Field(b2);
        if k.Got? && 55 + |KeepName(limit, k.value)| <= ARENA_SIZE && |KeepName(limit, k.value)| <= limit.copied
           && Field(k.rest).Got? && Bite(1, Field(k.rest).rest).Got? {
          var l := Bite(1, Field(k.rest).rest);
          var n := LittleEndian(l.value);
          ArgsCounted(n, l.rest);
          RunInvocation(limit, s2, Contract(g.value, h.value, KeepName(limit, k.value), []), n, l.rest);
        }
      }
    }
  }

  // ---------------------------------------------------------------- what the contract fields then show

  /** Which of the three element pointers the argument at `i` goes to. */
  function SlotOf(style: Style, i: nat): nat {
    var first := if style.TransferFrom? then 1 else 0;
    if i == first then 1 else if i == first + 1 then 2 else 3
  }

  function Slot(c: Call, j: nat): Ptr {
    if j == 1 then c.element1 else if j == 2 then c.element2 else c.element3
  }

  /** No argument from `i` on goes to slot `j`. */
  predicate Unused(style: Style, i: nat, n: nat, j: nat) {
    forall k :: i <= k < n ==> SlotOf(style, k) != j
  }

  /** The argument at `i`, of `n`, is in its slot with its NUL, unless a later one took the slot over. */
  predicate ArgShown(c: Call, style: Style, i: nat, n: nat, e: seq<Byte>, mem: seq<Byte>) {
    Unused(style, i + 1, n, SlotOf(style, i)) ==> BlockIs(mem, Slot(c, SlotOf(style, i)), e + [0])
  }

  predicate ArgsShown(c: Call, style: Style, from: nat, args: seq<seq<seq<Byte>>>, mem: seq<Byte>)
    requires OneEach(args)
  {
    forall i :: 0 <= i < |args| ==> ArgShown(c, style, from + i, from + |args|, args[i][0], mem)
  }

  /** What `AfterArgs` leaves alone. */
  predicate ArgsKeep(s: State, s': State, style: Style, n: nat) {
    && Agree(s.arena.mem, s'.arena.mem, s.arena.used)
    && s'.call.argIndex == s.call.argIndex + n && s'.call.argCount == s.call.argCount
    && s'.call.contractAddress == s.call.contractAddress && s'.call.value == s.call.value
    && s'.call.methodName == s.call.methodName
    && s'.stack == s.stack && s'.typ == s.typ && s'.coin == s.coin && s'.call.stack == s.call.stack
    && (forall j :: 1 <= j <= 3 && Unused(style, s.call.argIndex, s.call.argIndex + n, j) ==>
          Slot(s'.call, j) == Slot(s.call, j))
  }

  lemma ArgStored(s: State, e: seq<Byte>)
    requires KeepsArgs(s) && s.arena.used + |e| + 1 <= ARENA_SIZE
    ensures var s' := AfterArg(s, e);
            && ArgsKeep(s, s', StyleOf(s), 1)
            && Slot(s'.call, SlotOf(StyleOf(s), s.call.argIndex)) == At(s.arena.used)
            && BlockIs(Used(s'.arena), At(s.arena.used), e + [0])
  {
    hide CStringIs;
    var p := s.arena.used;
    var m := Poke(s.arena.mem, p, Zeros(|e| + 1));
    AgreePoke(s.arena.mem, p, Zeros(|e| + 1), p);
    AgreePoke(m, p, e + [0], p);
    AgreeTrans(s.arena.mem, m, AfterArg(s, e).arena.mem, p, p);
    PokedBlock(m, p, e + [0]);
    UsedBlock(AfterArg(s, e).arena, At(p), e + [0]);
    var style, i := StyleOf(s), s.call.argIndex;
    forall j | 1 <= j <= 3 && Unused(style, i, i + 1, j)
      ensures Slot(AfterArg(s, e).call, j) == Slot(s.call, j)
    {
      assert SlotOf(style, i) != j;
    }
  }

  lemma KeepTrans(s: State, m: State, s': State, style: Style, n: nat)
    requires ArgsKeep(s, m, style, 1) && ArgsKeep(m, s', style, n) && s.arena.used <= m.arena.used
    ensures ArgsKeep(s, s', style, n + 1)
  {
    AgreeTrans(s.arena.mem, m.arena.mem, s'.arena.mem, s.arena.used, m.arena.used);
    forall j | 1 <= j <= 3 && Unused(style, s.call.argIndex, s.call.argIndex + (n + 1), j)
      ensures Slot(s'.call, j) == Slot(s.call, j)
    {
      assert Unused(style, s.call.argIndex, s.call.argIndex + 1, j);
      assert Unused(style, m.call.argIndex, m.call.argIndex + n, j);
    }
  }

  lemma FirstShown(s: State, m: State, s': State, style: Style, e: seq<Byte>, n: nat)
    requires m.call.argIndex == s.call.argIndex + 1 && m.arena.used == s.arena.used + |e| + 1
    requires Slot(m.call, SlotOf(style, s.call.argIndex)) == At(s.arena.used)
    requires BlockIs(Used(m.arena), At(s.arena.used), e + [0])
    requires m.arena.Valid() && s'.arena.Valid() && m.arena.used <= s'.arena.used && ArgsKeep(m, s', style, n)
    ensures ArgShown(s'.call, style, s.call.argIndex, s.call.argIndex + 1 + n, e, Used(s'.arena))
  {
    UsedBlockKept(m.arena, s'.arena, At(s.arena.used), e + [0]);
    SlotRange(style, s.call.argIndex);
  }

  lemma ShownJoin(s: State, m: State, s': State, style: Style, e: seq<Byte>, args: seq<seq<seq<Byte>>>)
    requires OneEach(args) && OneEach([[e]] + args)
    requires m.call.argIndex == s.call.argIndex + 1 && m.arena.used == s.arena.used + |e| + 1
    requires Slot(m.call, SlotOf(style, s.call.argIndex)) == At(s.arena.used)
    requires BlockIs(Used(m.arena), At(s.arena.used), e + [0])
    requires m.arena.Valid() && s'.arena.Valid() && m.arena.used <= s'.arena.used
    requires ArgsKeep(m, s', style, |args|) && ArgsShown(s'.call, style, m.call.argIndex, args, Used(s'.arena))
    ensures ArgsShown(s'.call, style, s.call.argIndex, [[e]] + args, Used(s'.arena))
  {
    FirstShown(s, m, s', style, e, |args|);
    hide ArgsShown, ArgShown, ArgsKeep, BlockIs, Used, Slot, SlotOf;
    ArgsShownCons(s'.call, style, s.call.argIndex, e, args, Used(s'.arena));
  }

  lemma ArgsShownCons(c: Call, style: Style, from: nat, e: seq<Byte>, args: seq<seq<seq<Byte>>>, mem: seq<Byte>)
    requires OneEach(args) && OneEach([[e]] + args)
    requires ArgShown(c, style, from, from + 1 + |args|, e, mem) && ArgsShown(c, style, from + 1, args, mem)
    ensures ArgsShown(c, style, from, [[e]] + args, mem)
  {
    hide ArgShown;
    var all := [[e]] + args;
    forall i | 0 <= i < |all|
      ensures ArgShown(c, style, from + i, from + |all|, all[i][0], mem)
    {
      if i > 0 {
        assert all[i] == args[i - 1];
        assert ArgShown(c, style, from + 1 + (i - 1), from + 1 + |args|, args[i - 1][0], mem);
      }
    }
  }

  lemma SlotRange(style: Style, i: nat)
    ensures 1 <= SlotOf(style, i) <= 3
  {
  }

  lemma {:induction false} ArgsStored(s: State, args: seq<seq<seq<Byte>>>)
    requires KeepsArgs(s) && OneEach(args) && s.arena.used + ArgRoom(args) <= ARENA_SIZE
    ensures var s' := AfterArgs(s, args);
            && ArgsKeep(s, s', StyleOf(s), |args|)
            && ArgsShown(s'.call, StyleOf(s), s.call.argIndex, args, Used(s'.arena))
            && s'.arena.used == s.arena.used + ArgRoom(args)
            && s'.arena.Valid()
    decreases |args|
  {
    if args != [] {
      hide AfterArg, StyleOf, ArgsKeep, ArgsShown;
      var e := args[0][0];
      assert args[0] == [e];
      assert args == [[e]] + args[1..];
      OneEachSplit([e], args[1..]);
      ArgStored(s, e);
      AfterArgStyle(s, e);
      AfterArgCount(s, e);
      var m := AfterArg(s, e);
      ArgsStored(m, args[1..]);
      var s' := AfterArgs(s, args);
      KeepTrans(s, m, s', StyleOf(s), |args| - 1);
      ShownJoin(s, m, s', StyleOf(s), e, args[1..]);
    }
  }

  /** The contract fields against the call that was read. */
  predicate CallShown(call: Call, c: Contract, mem: seq<Byte>) {
    && BlockIs(mem, call.contractAddress, c.address)
    && BlockIs(mem, call.value, c.value)
    && BlockIs(mem, call.methodName, InBlock(c.name))
    && (!StyleOfName(c.name).Other? && OneEach(c.args) ==> ArgsShown(call, StyleOfName(c.name), 0, c.args, mem))
    && (StyleOfName(c.name).Other? ==> NoElements(call))
  }

  /** `p` points at the bytes of `e` and a NUL. */
  predicate Holds(mem: seq<Byte>, p: Ptr, e: seq<Byte>) { BlockIs(mem, p, e + [0]) }

  /**
   The three element fields of a transfer: the first two arguments, and the last of any others.  Those of a
   transferFrom: the second, the third, and the last of the others.
   */
  lemma ElementsShown(call: Call, c: Contract, mem: seq<Byte>)
    requires CallShown(call, c, mem) && OneEach(c.args)
    ensures var n := |c.args|;
            Named(c.name, "transfer") ==>
              && (n >= 1 ==> Holds(mem, call.element1, c.args[0][0]))
              && (n >= 2 ==> Holds(mem, call.element2, c.args[1][0]))
              && (n >= 3 ==> Holds(mem, call.element3, c.args[n - 1][0]))
    ensures var n := |c.args|;
            Named(c.name, "transferFrom") ==>
              && (n >= 2 ==> Holds(mem, call.element1, c.args[1][0]))
              && (n >= 3 ==> Holds(mem, call.element2, c.args[2][0]))
              && (1 <= n <= 3 ==> Holds(mem, call.element3, c.args[0][0]))
              && (n >= 4 ==> Holds(mem, call.element3, c.args[n - 1][0]))
    ensures !Named(c.name, "transfer") && !Named(c.name, "transferFrom") ==> NoElements(call)
  {
    hide BlockIs, Named, StyleOfName, ArgShown;
    StyleExactly(c.name);
    var style, n := StyleOfName(c.name), |c.args|;
    if !style.Other? {
      hide CallShown;
      LastOfAll(call, style, c.args, mem);
    }
  }

  lemma LastOfAll(call: Call, style: Style, args: seq<seq<seq<Byte>>>, mem: seq<Byte>)
    requires OneEach(args) && ArgsShown(call, style, 0, args, mem)
    ensures forall i :: 0 <= i < |args| && Unused(style, i + 1, |args|, SlotOf(style, i)) ==>
              BlockIs(mem, Slot(call, SlotOf(style, i)), args[i][0] + [0])
  {
    hide BlockIs, Slot, SlotOf, Unused;
    forall i | 0 <= i < |args| && Unused(style, i + 1, |args|, SlotOf(style, i))
      ensures BlockIs(mem, Slot(call, SlotOf(style, i)), args[i][0] + [0])
    {
      assert ArgShown(call, style, 0 + i, 0 + |args|, args[i][0], mem);
    }
  }

  /** No argument is kept. */
  predicate NoElements(call: Call) { call.element1 == Null && call.element2 == Null && call.element3 == Null }

  lemma HeadShown(s: State, c: Contract)
    requires s.arena.Valid() && |c.address| == 23 && |c.value| == 32 && 55 + |c.name| <= ARENA_SIZE
    ensures var a := WithName(WithHead(s, c.address, c.value), c.name, |c.args|).arena;
            && a.Valid()
            && BlockIs(Used(a), At(0), c.address) && BlockIs(Used(a), At(23), c.value)
            && BlockIs(Used(a), At(55), InBlock(c.name))
  {
    var m1 := Poke(s.arena.mem, 0, Zeros(23));
    var m2 := Poke(m1, 0, c.address);
    var m3 := Poke(m2, 23, Zeros(32));
    var m4 := Poke(m3, 23, c.value);
    var m5 := Poke(m4, 55, Zeros(40));
    var m6 := Poke(m5, 55, c.name);
    PokedBlock(m1, 0, c.address);
    AgreePoke(m2, 23, Zeros(32), 23);
    AgreePoke(m3, 23, c.value, 23);
    AgreePoke(m4, 55, Zeros(40), 55);
    AgreePoke(m5, 55, c.name, 55);
    AgreeTrans(m4, m5, m6, 55, 55);
    AgreeTrans(m2, m3, m4, 23, 23);
    AgreeTrans(m2, m4, m6, 23, 55);
    BlockKept(m2, m6, 23, At(0), c.address);
    PokedBlock(m3, 23, c.value);
    BlockKept(m4, m6, 55, At(23), c.value);
    PokedBlock(m5, 55, c.name);
    UsedBlock(Arena(m6, CALL_ROOM), At(0), c.address);
    UsedBlock(Arena(m6, CALL_ROOM), At(23), c.value);
    assert m6[55..55 + |InBlock(c.name)|] == InBlock(c.name);
    UsedBlock(Arena(m6, CALL_ROOM), At(55), InBlock(c.name));
  }

  lemma CallStored(s: State, c: Contract)
    requires CallStart(s) && CallOk(c) && |c.address| == 23 && |c.value| == 32
    ensures var s' := AfterCall(s, c);
            && s'.stack == 5 && s'.typ == s.typ && s'.coin == s.coin && s'.arena.Valid()
            && s'.arena.used == CALL_ROOM + (if StyleOfName(c.name).Other? then 0 else ArgRoom(c.args))
            && CallShown(s'.call, c, Used(s'.arena))
  {
    hide StyleOf, StyleOfName, ArgsShown, WithHead;
    var h := WithHead(s, c.address, c.value);
    HeadZeros(s, c.address, c.value);
    HeadPointers(s, c.address, c.value);
    NameStyle(h, c.name, |c.args|);
    var w := WithName(h, c.name, |c.args|);
    HeadShown(s, c);
    if !StyleOfName(c.name).Other? {
      ArgsStored(w, c.args);
      var s' := AfterArgs(w, c.args);
      UsedBlockKept(w.arena, s'.arena, At(0), c.address);
      UsedBlockKept(w.arena, s'.arena, At(23), c.value);
      UsedBlockKept(w.arena, s'.arena, At(55), InBlock(c.name));
      SlotsKept(s', c);
    }
  }

  lemma HeadPointers(s: State, address: seq<Byte>, value: seq<Byte>)
    ensures var h := WithHead(s, address, value);
            h.arena.used == CALL_ROOM && h.stack == s.stack && h.typ == s.typ && h.coin == s.coin
            && h.call == NO_CALL.(stack := 5, contractAddress := At(0), value := At(23), methodName := At(55))
  {
  }

  lemma SlotsKept(s: State, c: Contract)
    requires OneEach(c.args) && ArgsShown(s.call, StyleOfName(c.name), 0, c.args, Used(s.arena))
    ensures ArgsShown(ArriveArg(s).call, StyleOfName(c.name), 0, c.args, Used(ArriveArg(s).arena))
  {
    assert forall j :: Slot(ArriveArg(s).call, j) == Slot(s.call, j);
  }
}
