/**
 One pass of the device's parser over a whole byte string against the plain grammar: what it accepts,
 and what its fields and its arena then hold.
 */
module OnePass {
  import opened Bytes
  import opened Varint
  import opened TxMachine
  import opened Chunks
  import opened Grammar

  /**
   The longest copied field and the longest field of a known length that a pass reads.  A blind pass skips what the
   parser copies; in place of a method name it stores `alias`.
   */
  datatype Limits = Limits(copied: nat, fixed: nat, blind: bool := false, alias: seq<Byte> := [])

  type Limit = l: Limits | l.fixed >= 32 && |l.alias| <= 40 && (l.blind ==> l.copied >= 40) witness Limits(0, 32)

  const UNLIMITED: Limit := Limits(SIZE_T, SIZE_T)

  function Blind(alias: seq<Byte>): Limit
    requires |alias| <= 40
  {
    Limits(SIZE_T, SIZE_T, true, alias)
  }

  /** The state behind a field that a blind pass skips. */
  function Skim(limit: Limit, s: State): State {
    Fetched(if s.stack == 4 then Store(s, s.call.methodName.Pos(), limit.alias) else s)
  }

  function BlindPayload(limit: Limit, s: State, n: nat, p: seq<Byte>): Step {
    if |p| < n then Stop(ShortValue(s, n - |p|)) else Go(Skim(limit, s), p[n..])
  }

  function StepBlind(limit: Limit, s: State, b: seq<Byte>): Step {
    match ReadVarint(b)
    case Short => Stop(ShortLength(s, b))
    case Read(v, k) => BlindPayload(limit, s, v % SIZE_T, b[k..])
  }

  predicate TooLong(limit: Limit, s: State, b: seq<Byte>) {
    || (!limit.blind && Want(s).Fetch? && ReadVarint(b).Read? && ReadVarint(b).value % SIZE_T > limit.copied)
    || (Want(s).Fixed? && Want(s).n > limit.fixed)
  }

  function PassStep(limit: Limit, s: State, b: seq<Byte>): Step {
    if TooLong(limit, s, b) then Stop(Stray)
    else if limit.blind && Want(s).Fetch? then StepBlind(limit, s, b)
    else StepOf(s, b)
  }

  lemma PassProgress(limit: Limit, s: State, b: seq<Byte>)
    requires PassStep(limit, s, b).Go?
    ensures |PassStep(limit, s, b).rest| <= |b|
    ensures |PassStep(limit, s, b).rest| == |b| ==> Want(s) == Fixed(0) && Want(PassStep(limit, s, b).st) != Fixed(0)
  {
    if !(limit.blind && Want(s).Fetch?) {
      StepProgress(s, b);
    }
  }

  /** `Run`, stopping at a field over its limit. */
  function Pass(limit: Limit, s: State, b: seq<Byte>): Ending
    decreases |b|, Rank(s)
  {
    match PassStep(limit, s, b)
    case Stop(end) => end
    case Go(s', rest) =>
      PassProgress(limit, s, b);
      Pass(limit, s', rest)
  }

  function PassNext(limit: Limit, n: Next, b: seq<Byte>): Ending {
    match n
    case Into(st) => Pass(limit, st, b)
    case Refuse => Refused
  }

  lemma {:induction false} Unlimited(s: State, b: seq<Byte>)
    ensures Pass(UNLIMITED, s, b) == Run(s, b)
    decreases |b|, Rank(s)
  {
    if StepOf(s, b).Go? {
      StepProgress(s, b);
      Unlimited(StepOf(s, b).st, StepOf(s, b).rest);
    }
  }

  lemma {:induction false} Limited(limit: Limit, s: State, b: seq<Byte>)
    requires Pass(limit, s, b).Accepted? && !limit.blind
    ensures Run(s, b) == Pass(limit, s, b) && ShortFields(s, b, limit.copied) && NarrowFields(s, b, limit.fixed)
    decreases |b|, Rank(s)
  {
    if StepOf(s, b).Go? {
      StepProgress(s, b);
      Limited(limit, StepOf(s, b).st, StepOf(s, b).rest);
    }
  }

  /** A run that meets the limits is such a pass. */
  lemma {:induction false} WithinLimit(limit: Limit, s: State, b: seq<Byte>)
    requires Run(s, b).Accepted? && ShortFields(s, b, limit.copied) && NarrowFields(s, b, limit.fixed) && !limit.blind
    ensures Pass(limit, s, b) == Run(s, b)
    decreases |b|, Rank(s)
  {
    if StepOf(s, b).Go? {
      StepProgress(s, b);
      WithinLimit(limit, StepOf(s, b).st, StepOf(s, b).rest);
    }
  }

  // ---------------------------------------------------------------- what is kept of what is read

  /** What a pass stores of an address. */
  function Keep(limit: Limit, d: seq<Byte>): seq<Byte> { if limit.blind then [] else d }

  /** What it stores of a method name. */
  function KeepName(limit: Limit, d: seq<Byte>): seq<Byte> { if limit.blind then limit.alias else d }

  function KeepTarget(limit: Limit, t: Target): Target { t.(address := Keep(limit, t.address)) }

  function KeepTargets(limit: Limit, ts: seq<Target>): (kept: seq<Target>)
    ensures |kept| == |ts| && forall k :: 0 <= k < |ts| ==> kept[k] == KeepTarget(limit, ts[k])
  {
    if ts == [] then [] else [KeepTarget(limit, ts[0])] + KeepTargets(limit, ts[1..])
  }

  lemma {:induction false} KeepSum(limit: Limit, ts: seq<Target>)
    ensures TargetSum(KeepTargets(limit, ts)) == TargetSum(ts)
  {
    if ts != [] {
      KeepSum(limit, ts[1..]);
      assert KeepTargets(limit, ts)[1..] == KeepTargets(limit, ts[1..]);
    }
  }

  lemma KeepAll(limit: Limit, ts: seq<Target>)
    requires !limit.blind
    ensures KeepTargets(limit, ts) == ts
  {
  }

  function KeptTargets(limit: Limit, n: nat, b: seq<Byte>): Parsed<seq<Target>> {
    var f := ParseTargets(n, b);
    if f.Got? then Got(KeepTargets(limit, f.value), f.rest) else Fail
  }

  // ---------------------------------------------------------------- one field

  lemma RunFixed(limit: Limit, s: State, n: nat, b: seq<Byte>)
    requires Want(s) == Fixed(n) && n <= ARENA_SIZE && n <= limit.fixed
    ensures var f := Bite(n, b);
            if f.Got? then Pass(limit, s, b) == PassNext(limit, Take(s, f.value), f.rest)
            else !Pass(limit, s, b).Accepted?
  {
  }

  lemma RunLength(limit: Limit, s: State, b: seq<Byte>)
    requires Want(s) == Length
    ensures var f := Prefix(b);
            if f.Got? then Pass(limit, s, b) == PassNext(limit, TakeLength(s, f.value), f.rest)
            else !Pass(limit, s, b).Accepted?
  {
  }

  lemma RunSkip(limit: Limit, s: State, b: seq<Byte>)
    requires Want(s) == Skip
    ensures var f := Field(b);
            if f.Got? then Pass(limit, s, b) == Pass(limit, Skipped(s), f.rest) else !Pass(limit, s, b).Accepted?
  {
  }

  lemma RunFetch(limit: Limit, s: State, b: seq<Byte>)
    requires Want(s).Fetch? && Want(s).off == 0 && Want(s).at + 40 <= ARENA_SIZE
    ensures var f := Field(b);
            if !f.Got? then !Pass(limit, s, b).Accepted?
            else
              var d := if s.stack == 4 then KeepName(limit, f.value) else Keep(limit, f.value);
              if Want(s).at + |d| > ARENA_SIZE || |d| > limit.copied then Pass(limit, s, b) == Stray
              else Pass(limit, s, b) == Pass(limit, Fetched(Store(s, Want(s).at, d)), f.rest)
  {
    StoresNothing(s, Want(s).at);
  }

  lemma StoresNothing(s: State, at: nat)
    ensures Store(s, at, []) == s
  {
    if at <= |s.arena.mem| {
      assert s.arena.mem[..at] + [] + s.arena.mem[at..] == s.arena.mem;
    }
  }

  // ---------------------------------------------------------------- blocks of the arena

  predicate BlockIs(mem: seq<Byte>, p: Ptr, d: seq<Byte>) {
    p.At? && p.pos + |d| <= |mem| && mem[p.pos..p.pos + |d|] == d
  }

  /** `m` is `mem` as far as `n`. */
  predicate Agree(mem: seq<Byte>, m: seq<Byte>, n: nat) {
    |mem| == |m| && n <= |mem| && mem[..n] == m[..n]
  }

  lemma AgreePoke(mem: seq<Byte>, at: nat, d: seq<Byte>, n: nat)
    requires n <= at && n <= |mem|
    ensures Agree(mem, Poke(mem, at, d), n)
  {
  }

  lemma AgreeTrans(a: seq<Byte>, b: seq<Byte>, c: seq<Byte>, n: nat, m: nat)
    requires Agree(a, b, n) && Agree(b, c, m) && n <= m
    ensures Agree(a, c, n)
  {
    assert a[..n] == b[..m][..n] == c[..m][..n];
  }

  lemma BlockKept(mem: seq<Byte>, m: seq<Byte>, n: nat, p: Ptr, d: seq<Byte>)
    requires Agree(mem, m, n) && BlockIs(mem, p, d) && p.pos + |d| <= n
    ensures BlockIs(m, p, d)
  {
    assert m[p.pos..p.pos + |d|] == m[..n][p.pos..p.pos + |d|];
    assert mem[p.pos..p.pos + |d|] == mem[..n][p.pos..p.pos + |d|];
  }

  /** The part of the arena that is handed out. */
  function Used(a: Arena): seq<Byte> {
    if a.used <= |a.mem| then a.mem[..a.used] else a.mem
  }

  lemma UsedBlock(a: Arena, p: Ptr, d: seq<Byte>)
    requires a.Valid()
    ensures BlockIs(Used(a), p, d) <==> BlockIs(a.mem, p, d) && p.pos + |d| <= a.used
  {
    if p.At? && p.pos + |d| <= a.used {
      assert a.mem[..a.used][p.pos..p.pos + |d|] == a.mem[p.pos..p.pos + |d|];
    }
  }

  lemma UsedBlockKept(a: Arena, a': Arena, p: Ptr, d: seq<Byte>)
    requires a.Valid() && a'.Valid() && a.used <= a'.used && Agree(a.mem, a'.mem, a.used) && BlockIs(Used(a), p, d)
    ensures BlockIs(Used(a'), p, d)
  {
    UsedBlock(a, p, d);
    BlockKept(a.mem, a'.mem, a.used, p, d);
    UsedBlock(a', p, d);
  }

  lemma PokedBlock(mem: seq<Byte>, at: nat, d: seq<Byte>)
    requires at + |d| <= |mem|
    ensures BlockIs(Poke(mem, at, d), At(at), d)
  {
  }

  // ---------------------------------------------------------------- the outputs

  const OUTPUT_ROOM := 72

  predicate BetweenOutputs(s: State) { s.stack == 6 && s.coin.index <= s.coin.count && s.arena.Valid() }

  predicate InOutput(s: State, stack: nat) {
    s.stack == 6 && s.coin.stack == 3 && s.coin.index < s.coin.count && s.coin.cur.stack == stack
  }

  function WithAddress(s: State, address: seq<Byte>): State {
    var p := s.arena.used;
    s.(arena := Arena(Poke(Poke(s.arena.mem, p, Zeros(40)), p, address), p + 40),
       coin := s.coin.(stack := 3, cur := NO_ENTRY.(stack := 1, address := At(p))))
  }

  function WithAsset(s: State, asset: Asset): State {
    var q := s.arena.used;
    s.(arena := Arena(Poke(s.arena.mem, q, Zeros(32)), q + 32),
       coin := s.coin.(cur := s.coin.cur.(stack := 3, chainId := asset.chainId, assetId := asset.assetId,
                                          amount := At(q))))
  }

  function WithAmount(s: State, amount: seq<Byte>): State {
    var c := s.coin;
    var e := c.cur;
    s.(arena := s.arena.(mem := Poke(s.arena.mem, e.amount.Pos(), amount)),
       coin := c.(cur := e.(stack := 4), toAmount := AddAmount(c.toAmount, e.chainId, e.assetId, amount),
              index := c.index + 1,
                  outs := c.outs + [Output(e.address, e.chainId, e.assetId, e.amount)]))
  }

  /** The state when the output `t` has been read, just before the next one is looked for. */
  function AfterTarget(s: State, t: Target): State {
    WithAmount(WithAsset(WithAddress(s, t.address), t.asset), t.amount)
  }

  lemma TargetAddress(limit: Limit, s: State, b: seq<Byte>)
    requires BetweenOutputs(s) && s.coin.index < s.coin.count
    ensures var e, f := PassNext(limit, ArriveTo(s), b), Field(b);
            if f.Got? && s.arena.used + 40 <= ARENA_SIZE && s.arena.used + |Keep(limit, f.value)| <= ARENA_SIZE
               && |Keep(limit, f.value)| <= limit.copied
            then e == Pass(limit, WithAddress(s, Keep(limit, f.value)), f.rest)
            else !e.Accepted?
  {
    hide Pass, Field;
    if ArriveTo(s).Into? {
      RunFetch(limit, ArriveTo(s).st, b);
    }
  }

  lemma TargetAsset(limit: Limit, s: State, b: seq<Byte>)
    requires InOutput(s, 1)
    ensures var e, f := Pass(limit, s, b), ParseAsset(b);
            if f.Got? && s.arena.used + 32 <= ARENA_SIZE
            then e == Pass(limit, WithAsset(s, f.value), f.rest)
            else !e.Accepted?
  {
    hide Pass;
    RunFixed(limit, s, 2, b);
    var f := Bite(2, b);
    if f.Got? {
      RunFixed(limit, Take(s, f.value).st, 2, f.rest);
    }
  }

  lemma TargetAmount(limit: Limit, s: State, b: seq<Byte>)
    requires InOutput(s, 3)
    ensures var e, f := Pass(limit, s, b), Bite(32, b);
            if f.Got? && Bite(8, f.rest).Got?
            then e == PassNext(limit, ArriveTo(WithAmount(s, f.value)), Bite(8, f.rest).rest)
            else !e.Accepted?
  {
    hide Pass, LittleEndian, ReadVarint, Poke;
    RunFixed(limit, s, 32, b);
    var f := Bite(32, b);
    if f.Got? {
      RunFixed(limit, Take(s, f.value).st, 8, f.rest);
    }
  }

  predicate HasRoom(limit: Limit, s: State, t: Target) {
    && s.arena.used + OUTPUT_ROOM <= ARENA_SIZE
    && s.arena.used + |t.address| <= ARENA_SIZE
    && |t.address| <= limit.copied
  }

  lemma OneTarget(limit: Limit, s: State, b: seq<Byte>)
    requires BetweenOutputs(s) && s.coin.index < s.coin.count
    ensures var e, f := PassNext(limit, ArriveTo(s), b), ParseTarget(b);
            if f.Got? && HasRoom(limit, s, KeepTarget(limit, f.value))
            then e == PassNext(limit, ArriveTo(AfterTarget(s, KeepTarget(limit, f.value))), f.rest)
            else !e.Accepted?
  {
    hide Pass, Field, ParseAsset, ArriveTo;
    TargetAddress(limit, s, b);
    var f := Field(b);
    if f.Got? {
      var s1 := WithAddress(s, Keep(limit, f.value));
      TargetAsset(limit, s1, f.rest);
      var g := ParseAsset(f.rest);
      if g.Got? {
        TargetAmount(limit, WithAsset(s1, g.value), g.rest);
      }
    }
  }

  // ---- what the outputs then show

  /** What a block of 40 bytes takes of a field. */
  function InBlock(d: seq<Byte>): seq<Byte> { if |d| <= 40 then d else d[..40] }

  predicate Shows(o: Output, t: Target, mem: seq<Byte>) {
    && o.chainId == t.asset.chainId && o.assetId == t.asset.assetId
    && BlockIs(mem, o.address, InBlock(t.address))
    && BlockIs(mem, o.amount, t.amount)
  }

  predicate ShowAll(outs: seq<Output>, ts: seq<Target>, mem: seq<Byte>) {
    && |outs| == |ts|
    && forall k :: 0 <= k < |ts| ==> Shows(outs[k], ts[k], mem)
  }

  predicate AddressesWithin(ts: seq<Target>, limit: nat) {
    forall k :: 0 <= k < |ts| ==> |ts[k].address| <= limit
  }

  /** No address reaches beyond the arena, the first one being copied to `used`. */
  predicate AddressesInside(ts: seq<Target>, used: nat) {
    forall k :: 0 <= k < |ts| ==> used + OUTPUT_ROOM * k + |ts[k].address| <= ARENA_SIZE
  }

  /** The outputs fit the arena, of which `used` bytes are taken. */
  predicate TargetsFit(ts: seq<Target>, used: nat) {
    used + OUTPUT_ROOM * |ts| <= ARENA_SIZE && AddressesInside(ts, used)
  }

  lemma TargetShown(s: State, t: Target)
    requires s.arena.used + OUTPUT_ROOM <= ARENA_SIZE && s.arena.Valid()
    requires s.arena.used + |t.address| <= ARENA_SIZE && |t.amount| == 32
    ensures var s' := AfterTarget(s, t);
            && s'.arena.Valid() && s'.arena.used == s.arena.used + OUTPUT_ROOM
            && Agree(s.arena.mem, s'.arena.mem, s.arena.used)
            && Shows(s'.coin.outs[|s.coin.outs|], t, s'.arena.mem)
            && s'.coin.outs[|s.coin.outs|].address == At(s.arena.used)
            && s'.coin.outs[|s.coin.outs|].amount == At(s.arena.used + 40)
  {
    var p, q := s.arena.used, s.arena.used + 40;
    var m1 := Poke(s.arena.mem, p, Zeros(40));
    var m2 := Poke(m1, p, t.address);
    var m3 := Poke(m2, q, Zeros(32));
    var m4 := Poke(m3, q, t.amount);
    AgreePoke(s.arena.mem, p, Zeros(40), p);
    AgreePoke(m1, p, t.address, p);
    AgreePoke(m2, q, Zeros(32), q);
    AgreePoke(m3, q, t.amount, q);
    AgreeTrans(s.arena.mem, m1, m2, p, p);
    AgreeTrans(m2, m3, m4, q, q);
    AgreeTrans(s.arena.mem, m2, m4, p, q);
    PokedBlock(m1, p, t.address);
    assert m2[p..p + |InBlock(t.address)|] == InBlock(t.address);
    BlockKept(m2, m4, q, At(p), InBlock(t.address));
    PokedBlock(m3, q, t.amount);
  }

  lemma ParsedTarget(b: seq<Byte>)
    ensures ParseTarget(b).Got? ==> |ParseTarget(b).value.amount| == 32
  {
  }

  /** What the outputs `ts` do to a state. */
  predicate TargetsDone(s: State, s': State, ts: seq<Target>) {
    var c, c' := s.coin, s'.coin;
    && s'.typ == s.typ && s'.call == s.call
    && c'.fromAmount == c.fromAmount
    && c'.toAmount == (c.toAmount + TargetSum(ts)) % AMOUNT_MODULUS
    && |c'.outs| == |c.outs| + |ts| && c'.outs[..|c.outs|] == c.outs
    && ShowAll(c'.outs[|c.outs|..], ts, s'.arena.mem)
    && s'.arena.used == s.arena.used + OUTPUT_ROOM * |ts|
    && Agree(s.arena.mem, s'.arena.mem, s.arena.used)
  }

  lemma SumsWrap(sum: nat, a: nat, rest: nat)
    ensures ((a + sum) % AMOUNT_MODULUS + rest) % AMOUNT_MODULUS == (sum + (a + rest)) % AMOUNT_MODULUS
  {
  }

  lemma TargetAmountAdded(s: State, t: Target)
    requires s.coin.toAmount < AMOUNT_MODULUS
    ensures AfterTarget(s, t).coin.toAmount == (Nuls(t.asset, t.amount) + s.coin.toAmount) % AMOUNT_MODULUS
  {
  }

  lemma AfterTargetFacts(s: State, t: Target)
    requires BetweenOutputs(s) && s.coin.index < s.coin.count && s.arena.used + OUTPUT_ROOM <= ARENA_SIZE
    requires s.coin.toAmount < AMOUNT_MODULUS
    ensures var s' := AfterTarget(s, t);
            && BetweenOutputs(s') && s'.coin.count == s.coin.count && s'.coin.index == s.coin.index + 1
            && s'.coin.fromAmount == s.coin.fromAmount
            && s'.coin.toAmount < AMOUNT_MODULUS && s'.arena.used == s.arena.used + OUTPUT_ROOM
  {
  }

  lemma TargetsJoin(s: State, t: Target, s': State, ts: seq<Target>)
    requires s.arena.used + OUTPUT_ROOM <= ARENA_SIZE && s.arena.Valid() && s.coin.toAmount < AMOUNT_MODULUS
    requires s.arena.used + |t.address| <= ARENA_SIZE && |t.amount| == 32
    requires TargetsDone(AfterTarget(s, t), s', ts)
    ensures TargetsDone(s, s', [t] + ts)
  {
    hide AfterTarget, TargetSum, Shows, ShowAll, Agree;
    var m := AfterTarget(s, t);
    var n := |s.coin.outs|;
    TargetShown(s, t);
    TargetSumStep(s, t, ts);
    AfterTargetFrame(s, t);
    var o := m.coin.outs[n];
    AgreeTrans(s.arena.mem, m.arena.mem, s'.arena.mem, s.arena.used, m.arena.used);
    assert s'.coin.outs[..n + 1][n] == o;
    ShowsKept(o, t, m.arena.mem, s'.arena.mem, m.arena.used);
    assert s'.coin.outs[n..] == [o] + s'.coin.outs[n + 1..];
    ShowCons(o, t, s'.coin.outs[n + 1..], ts, s'.arena.mem);
    assert s'.coin.outs[..n] == s'.coin.outs[..n + 1][..n] == m.coin.outs[..n] == s.coin.outs;
  }

  lemma ShowsKept(o: Output, t: Target, mem: seq<Byte>, mem': seq<Byte>, used: nat)
    requires Shows(o, t, mem) && Agree(mem, mem', used)
    requires o.address.pos + |InBlock(t.address)| <= used && o.amount.pos + |t.amount| <= used
    ensures Shows(o, t, mem')
  {
    BlockKept(mem, mem', used, o.address, InBlock(t.address));
    BlockKept(mem, mem', used, o.amount, t.amount);
  }

  lemma ShowCons(o: Output, t: Target, outs: seq<Output>, ts: seq<Target>, mem: seq<Byte>)
    requires Shows(o, t, mem) && ShowAll(outs, ts, mem)
    ensures ShowAll([o] + outs, [t] + ts, mem)
  {
    hide Shows;
  }

  lemma AfterTargetFrame(s: State, t: Target)
    ensures var s' := AfterTarget(s, t);
            && s'.typ == s.typ && s'.call == s.call && s'.coin.fromAmount == s.coin.fromAmount
            && |s'.coin.outs| == |s.coin.outs| + 1 && s'.coin.outs[..|s.coin.outs|] == s.coin.outs
            && s'.arena.used == s.arena.used + OUTPUT_ROOM
  {
  }

  /** What the parser makes of `n` outputs to come. */
  predicate TargetsOutcome(limit: Limit, s: State, e: Ending, f: Parsed<seq<Target>>) {
    && (e.Accepted? <==> f.Got? && TargetsFit(f.value, s.arena.used) && AddressesWithin(f.value, limit.copied))
    && (e.Accepted? ==> e.rest == f.rest && TargetsDone(s, e.st, f.value))
  }

  lemma OutcomeStep(limit: Limit, s: State, t: Target, e: Ending, g: Parsed<seq<Target>>)
    requires BetweenOutputs(s) && HasRoom(limit, s, t) && s.coin.toAmount < AMOUNT_MODULUS
    requires |t.amount| == 32
    requires TargetsOutcome(limit, AfterTarget(s, t), e, g)
    ensures TargetsOutcome(limit, s, e, if g.Got? then Got([t] + g.value, g.rest) else Fail)
  {
    hide AfterTarget, TargetsDone, TargetSum, AddressesInside, AddressesWithin;
    AfterTargetFrame(s, t);
    if g.Got? {
      AddressesSplit(t, g.value, s.arena.used, limit.copied);
      if e.Accepted? {
        TargetsJoin(s, t, e.st, g.value);
      }
    }
  }

  lemma {:induction false} RunTargets(limit: Limit, s: State, n: nat, b: seq<Byte>)
    requires BetweenOutputs(s) && n == s.coin.count - s.coin.index && s.coin.toAmount < AMOUNT_MODULUS
    ensures TargetsOutcome(limit, s, PassNext(limit, ArriveTo(s), b), KeptTargets(limit, n, b))
    decreases n
  {
    hide *;
    if n == 0 {
      NoTargets(limit, s, b);
    } else {
      OneTarget(limit, s, b);
      ParsedTarget(b);
      TargetsUnfold(limit, n, b);
      BetweenValid(s);
      var f := ParseTarget(b);
      if f.Got? && HasRoom(limit, s, KeepTarget(limit, f.value)) {
        var t := KeepTarget(limit, f.value);
        SameAmount(limit, f.value);
        RoomForTarget(limit, s, t);
        AfterTargetFacts(s, t);
        RunTargets(limit, AfterTarget(s, t), n - 1, f.rest);
        OutcomeStep(limit, s, t, PassNext(limit, ArriveTo(s), b), KeptTargets(limit, n - 1, f.rest));
      } else {
        NoRoom(limit, s, n, b, PassNext(limit, ArriveTo(s), b));
      }
    }
  }

  lemma RoomForTarget(limit: Limit, s: State, t: Target)
    requires HasRoom(limit, s, t)
    ensures s.arena.used + OUTPUT_ROOM <= ARENA_SIZE
  {
  }

  lemma BetweenValid(s: State)
    requires BetweenOutputs(s)
    ensures s.coin.index <= s.coin.count
  {
  }

  lemma SameAmount(limit: Limit, t: Target)
    ensures KeepTarget(limit, t).amount == t.amount
  {
  }

  lemma TargetsUnfold(limit: Limit, n: nat, b: seq<Byte>)
    requires n > 0
    ensures var f := ParseTarget(b);
            if f.Got? then
              var g := KeptTargets(limit, n - 1, f.rest);
              KeptTargets(limit, n, b)
              == if g.Got? then Got([KeepTarget(limit, f.value)] + g.value, g.rest) else Fail
            else KeptTargets(limit, n, b) == Fail
  {
    var f := ParseTarget(b);
    if f.Got? {
      var g := ParseTargets(n - 1, f.rest);
      if g.Got? {
        assert ([f.value] + g.value)[1..] == g.value;
      }
    }
  }

  /** An output that does not fit is not accepted, whatever follows. */
  lemma NoRoom(limit: Limit, s: State, n: nat, b: seq<Byte>, e: Ending)
    requires n > 0 && !e.Accepted?
    requires !(ParseTarget(b).Got? && HasRoom(limit, s, KeepTarget(limit, ParseTarget(b).value)))
    ensures TargetsOutcome(limit, s, e, KeptTargets(limit, n, b))
  {
    hide ParseTarget, KeptTargets, KeepTarget;
    TargetsUnfold(limit, n, b);
    var f := KeptTargets(limit, n, b);
    if f.Got? {
      assert f.value[0] == KeepTarget(limit, ParseTarget(b).value);
    }
  }

  lemma NoTargets(limit: Limit, s: State, b: seq<Byte>)
    requires BetweenOutputs(s) && s.coin.index == s.coin.count && s.coin.toAmount < AMOUNT_MODULUS
    ensures TargetsOutcome(limit, s, PassNext(limit, ArriveTo(s), b), KeptTargets(limit, 0, b))
  {
    assert ArriveTo(s).st.coin.outs[|s.coin.outs|..] == [];
  }

  lemma TargetSumStep(s: State, t: Target, ts: seq<Target>)
    requires s.coin.toAmount < AMOUNT_MODULUS
    ensures (AfterTarget(s, t).coin.toAmount + TargetSum(ts)) % AMOUNT_MODULUS
         == (s.coin.toAmount + TargetSum([t] + ts)) % AMOUNT_MODULUS
  {
    TargetAmountAdded(s, t);
    SumsWrap(s.coin.toAmount, Nuls(t.asset, t.amount), TargetSum(ts));
    assert ([t] + ts)[1..] == ts;
  }

  lemma AddressesSplit(t: Target, ts: seq<Target>, used: nat, limit: nat)
    ensures AddressesWithin([t] + ts, limit) <==> |t.address| <= limit && AddressesWithin(ts, limit)
    ensures AddressesInside([t] + ts, used) <==>
              used + |t.address| <= ARENA_SIZE && AddressesInside(ts, used + OUTPUT_ROOM)
  {
    var all := [t] + ts;
    assert all[0] == t;
    assert forall k :: 1 <= k < |all| ==> all[k] == ts[k - 1];
    forall k | 0 <= k < |ts|
      ensures AddressesWithin(all, limit) ==> |ts[k].address| <= limit
      ensures AddressesInside(all, used) ==> used + OUTPUT_ROOM + OUTPUT_ROOM * k + |ts[k].address| <= ARENA_SIZE
    {
      assert all[k + 1] == ts[k];
    }
  }

  // ---------------------------------------------------------------- the inputs

  predicate BetweenSources(s: State) { s.stack == 6 && s.coin.index <= s.coin.count }

  predicate InSource(s: State, stack: nat) { s.stack == 6 && s.coin.stack == 1 && s.coin.cur.stack == stack }

  /** The state when the input `t` has been read, just before the next one is looked for. */
  function AfterSource(s: State, t: Source): State {
    var c := s.coin;
    var e := NO_ENTRY.(stack := 5, chainId := t.asset.chainId, assetId := t.asset.assetId);
    s.(coin := c.(stack := 1, cur := e, index := c.index + 1,
                  fromAmount := AddAmount(c.fromAmount, e.chainId, e.assetId, t.amount)))
  }

  function SourceEntry(stack: nat, asset: Asset): Entry {
    NO_ENTRY.(stack := stack, chainId := asset.chainId, assetId := asset.assetId)
  }

  lemma SourceAsset(limit: Limit, s: State, b: seq<Byte>)
    requires InSource(s, 1) && s.coin.cur == NO_ENTRY.(stack := 1)
    ensures var f := ParseAsset(b);
            if f.Got? then Pass(limit, s, b) == Pass(limit, s.(coin := s.coin.(cur := SourceEntry(3, f.value))), f.rest)
            else !Pass(limit, s, b).Accepted?
  {
    hide Pass;
    RunFixed(limit, s, 2, b);
    var f := Bite(2, b);
    if f.Got? {
      RunFixed(limit, Take(s, f.value).st, 2, f.rest);
    }
  }

  lemma SourceRest(limit: Limit, s: State, b: seq<Byte>)
    requires InSource(s, 3)
    ensures var f := Bite(32, b);
            var c, e := s.coin, s.coin.cur;
            if f.Got? && Field(f.rest).Got? && Bite(1, Field(f.rest).rest).Got?
            then Pass(limit, s, b) == Pass(limit, ArriveFrom(s.(coin :=
                   c.(cur := e.(stack := 5), index := c.index + 1,
                      fromAmount := AddAmount(c.fromAmount, e.chainId, e.assetId, f.value)))),
                 Bite(1, Field(f.rest).rest).rest)
            else !Pass(limit, s, b).Accepted?
  {
    hide Pass, Field;
    RunFixed(limit, s, 32, b);
    var f := Bite(32, b);
    if f.Got? {
      var s1 := Take(s, f.value).st;
      RunSkip(limit, s1, f.rest);
      if Field(f.rest).Got? {
        RunFixed(limit, Skipped(s1), 1, Field(f.rest).rest);
      }
    }
  }

  lemma OneSource(limit: Limit, s: State, b: seq<Byte>)
    requires BetweenSources(s) && s.coin.index < s.coin.count
    ensures var f := ParseSource(b);
            if f.Got? then Pass(limit, ArriveFrom(s), b) == Pass(limit, ArriveFrom(AfterSource(s, f.value)), f.rest)
            else !Pass(limit, ArriveFrom(s), b).Accepted?
  {
    hide Pass, Field, ParseAsset;
    var s0 := ArriveFrom(s);
    RunSkip(limit, s0, b);
    var f := Field(b);
    if f.Got? {
      var s1 := Skipped(s0);
      SourceAsset(limit, s1, f.rest);
      var g := ParseAsset(f.rest);
      if g.Got? {
        SourceRest(limit, s1.(coin := s1.coin.(cur := SourceEntry(3, g.value))), g.rest);
      }
    }
  }

  lemma {:induction false} RunSources(limit: Limit, s: State, n: nat, b: seq<Byte>)
    requires BetweenSources(s) && n == s.coin.count - s.coin.index && s.coin.fromAmount < AMOUNT_MODULUS
    ensures var e, f := Pass(limit, ArriveFrom(s), b), ParseSources(n, b);
            if f.Got?
            then e == Pass(limit, s.(coin := s.coin.(stack := 2, count := 0, index := 0, cur := NO_ENTRY,
                             fromAmount := (s.coin.fromAmount + SourceSum(f.value)) % AMOUNT_MODULUS)), f.rest)
            else !e.Accepted?
    decreases n
  {
    hide Pass, ParseSource;
    if n > 0 {
      OneSource(limit, s, b);
      var f := ParseSource(b);
      if f.Got? {
        var s1 := AfterSource(s, f.value);
        RunSources(limit, s1, n - 1, f.rest);
        var g := ParseSources(n - 1, f.rest);
        if g.Got? {
          assert ([f.value] + g.value)[1..] == g.value;
          SumsWrap(s.coin.fromAmount, Nuls(f.value.asset, f.value.amount), SourceSum(g.value));
        }
      }
    }
  }
}
