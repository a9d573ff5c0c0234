/**
 The documented format (`doc/TRANSACTION.md`), in which txData and coinData take exactly their announced lengths.  The
 source reads both lengths and then goes on field by field; here is when that makes no difference.
 */
module Documented {
  import opened Bytes
  import opened Varint
  import opened Grammar
  import opened LoneOutput

  /** A length and exactly as many bytes. */
  function ExactField(b: seq<Byte>): (f: Parsed<seq<Byte>>)
    ensures f.Got? ==> |f.rest| <= |b|
  {
    var (v, b1) :- Prefix(b);
    Bite(v, b1)
  }

  function ExactTarget(b: seq<Byte>): (f: Parsed<Target>)
    ensures f.Got? ==> |f.rest| <= |b|
  {
    var (address, b1) :- ExactField(b);
    var (asset, b2) :- ParseAsset(b1);
    var (amount, b3) :- Bite(32, b2);
    var (lockTime, b4) :- Bite(8, b3);
    Got(Target(address, asset, amount), b4)
  }

  function ExactSource(b: seq<Byte>): (f: Parsed<Source>)
    ensures f.Got? ==> |f.rest| <= |b|
  {
    var (address, b1) :- ExactField(b);
    var (asset, b2) :- ParseAsset(b1);
    var (amount, b3) :- Bite(32, b2);
    var (nonce, b4) :- ExactField(b3);
    var (locked, b5) :- Bite(1, b4);
    Got(Source(address, asset, amount), b5)
  }

  function ExactSources(n: nat, b: seq<Byte>): (f: Parsed<seq<Source>>)
    ensures f.Got? ==> |f.rest| <= |b|
  {
    if n == 0 then Got([], b) else
    var (s, b1) :- ExactSource(b);
    var (ss, b2) :- ExactSources(n - 1, b1);
    Got([s] + ss, b2)
  }

  function ExactTargets(n: nat, b: seq<Byte>): (f: Parsed<seq<Target>>)
    ensures f.Got? ==> |f.rest| <= |b|
  {
    if n == 0 then Got([], b) else
    var (t, b1) :- ExactTarget(b);
    var (ts, b2) :- ExactTargets(n - 1, b1);
    Got([t] + ts, b2)
  }

  function ExactElements(n: nat, b: seq<Byte>): (f: Parsed<seq<seq<Byte>>>)
    ensures f.Got? ==> |f.rest| <= |b|
  {
    if n == 0 then Got([], b) else
    var (e, b1) :- ExactField(b);
    var (es, b2) :- ExactElements(n - 1, b1);
    Got([e] + es, b2)
  }

  function ExactArg(b: seq<Byte>): (f: Parsed<seq<seq<Byte>>>)
    ensures f.Got? ==> |f.rest| <= |b|
  {
    var (n, b1) :- Number(1, b);
    ExactElements(n, b1)
  }

  function ExactArgs(n: nat, b: seq<Byte>): (f: Parsed<seq<seq<seq<Byte>>>>)
    ensures f.Got? ==> |f.rest| <= |b|
  {
    if n == 0 then Got([], b) else
    var (arg, b1) :- ExactArg(b);
    var (args, b2) :- ExactArgs(n - 1, b1);
    Got([arg] + args, b2)
  }

  function ExactInvocation(address: seq<Byte>, value: seq<Byte>, b: seq<Byte>): Parsed<Contract> {
    var (name, b1) :- ExactField(b);
    var (description, b2) :- ExactField(b1);
    var (n, b3) :- Number(1, b2);
    var (args, b4) :- ExactArgs(n, b3);
    Got(Contract(address, value, name, args), b4)
  }

  function ExactContract(b: seq<Byte>): Parsed<Contract> {
    var (sender, b1) :- Bite(23, b);
    var (address, b2) :- Bite(23, b1);
    var (value, b3) :- Bite(32, b2);
    var (gasLimit, b4) :- Bite(8, b3);
    var (gasPrice, b5) :- Bite(8, b4);
    ExactInvocation(address, value, b5)
  }

  function ExactEntries(typ: nat, data: Data, b: seq<Byte>): Parsed<Transaction> {
    var (n, b2) :- Number(1, b);
    var (sources, b3) :- ExactSources(n, b2);
    var (m, b4) :- Number(1, b3);
    var (targets, b5) :- ExactTargets(m, b4);
    Got(Transaction(typ, data, sources, targets), b5)
  }

  /** All of `d` as the txData of a type: a contract call's data, nothing for a transfer, anything for the others. */
  function DataIn(typ: nat, d: seq<Byte>): Parsed<Data> {
    if typ == 16 then
      var (c, left) :- ExactContract(d);
      if left == [] then Got(Calls(c), []) else Fail
    else if (typ == 2 || typ == 10) && d != [] then Fail
    else Got(Other, [])
  }

  /** All of `d` as coinData. */
  function CoinsIn(typ: nat, data: Data, d: seq<Byte>): Parsed<Transaction> {
    var (tx, left) :- ExactEntries(typ, data, d);
    if left == [] then Got(tx, []) else Fail
  }

  function ParseDocumentedData(typ: nat, b: seq<Byte>): Parsed<Data> {
    var (d, b1) :- ExactField(b);
    var (data, left) :- DataIn(typ, d);
    Got(data, b1)
  }

  function ParseDocumentedCoins(typ: nat, data: Data, b: seq<Byte>): Parsed<Transaction> {
    var (d, b1) :- ExactField(b);
    var (tx, left) :- CoinsIn(typ, data, d);
    Got(tx, b1)
  }

  function ParseDocumented(b: seq<Byte>): Parsed<Transaction> {
    var (typ, b1) :- Number(2, b);
    var (time, b2) :- Bite(4, b1);
    var (remark, b3) :- ExactField(b2);
    var (data, b4) :- ParseDocumentedData(typ, b3);
    ParseDocumentedCoins(typ, data, b4)
  }

  // ---------------------------------------------------------------- lengths that 32 bits hold

  /** The length announced at the head of `b`. */
  predicate NarrowField(b: seq<Byte>) { Prefix(b).Got? ==> Prefix(b).value < SIZE_T }

  /** Those of the address and the nonce. */
  predicate NarrowSource(b: seq<Byte>) {
    && NarrowField(b)
    && (Field(b).Got? && ParseAsset(Field(b).rest).Got? && Bite(32, ParseAsset(Field(b).rest).rest).Got? ==>
          NarrowField(Bite(32, ParseAsset(Field(b).rest).rest).rest))
  }

  predicate NarrowSources(n: nat, b: seq<Byte>) {
    n > 0 ==> NarrowSource(b) && (ParseSource(b).Got? ==> NarrowSources(n - 1, ParseSource(b).rest))
  }

  predicate NarrowTargets(n: nat, b: seq<Byte>) {
    n > 0 ==> NarrowField(b) && (ParseTarget(b).Got? ==> NarrowTargets(n - 1, ParseTarget(b).rest))
  }

  predicate NarrowElements(n: nat, b: seq<Byte>) {
    n > 0 ==> NarrowField(b) && (Field(b).Got? ==> NarrowElements(n - 1, Field(b).rest))
  }

  predicate NarrowArg(b: seq<Byte>) { Number(1, b).Got? ==> NarrowElements(Number(1, b).value, Number(1, b).rest) }

  predicate NarrowArgs(n: nat, b: seq<Byte>) {
    n > 0 ==> NarrowArg(b) && (ParseArg(b).Got? ==> NarrowArgs(n - 1, ParseArg(b).rest))
  }

  /** Those of method name and description, and of all elements of the arguments. */
  predicate NarrowInvocation(b: seq<Byte>) {
    && NarrowField(b)
    && (Field(b).Got? ==>
          var b1 := Field(b).rest;
          && NarrowField(b1)
          && (Field(b1).Got? && Number(1, Field(b1).rest).Got? ==>
                NarrowArgs(Number(1, Field(b1).rest).value, Number(1, Field(b1).rest).rest)))
  }

  /** What comes before the method name has 94 bytes. */
  predicate NarrowContract(b: seq<Byte>) { |b| >= 94 ==> NarrowInvocation(b[94..]) }

  predicate NarrowEntries(b: seq<Byte>) {
    var f := Number(1, b);
    f.Got? ==>
      && NarrowSources(f.value, f.rest)
      && (ParseSources(f.value, f.rest).Got? ==>
            var g := Number(1, ParseSources(f.value, f.rest).rest);
            g.Got? ==> NarrowTargets(g.value, g.rest))
  }

  // ---------------------------------------------------------------- the condition

  /** The varint at the head of `b` is the number of bytes between it and `rest`. */
  predicate Measures(b: seq<Byte>, rest: seq<Byte>) {
    Prefix(b).Got? && Prefix(b).value + |rest| == |Prefix(b).rest|
  }

  /** Of the txData: their length is what the source reads behind it, and the lengths among that fit 32 bits. */
  predicate DataLengthHolds(typ: nat, b: seq<Byte>) {
    ParseData(typ, b).Got? ==>
      var rest := ParseData(typ, b).rest;
      Measures(b, rest) && (typ == 16 ==> NarrowContract(Front(Prefix(b).rest, rest)))
  }

  /** Of the coinData. */
  predicate CoinLengthHolds(typ: nat, data: Data, b: seq<Byte>) {
    ParseCoins(typ, data, b).Got? ==>
      var rest := ParseCoins(typ, data, b).rest;
      Measures(b, rest) && NarrowEntries(Front(Prefix(b).rest, rest))
  }

  /**
   The lengths of txData and coinData are the numbers of bytes that the source reads behind them, and every other
   announced length is below 2^32.
   */
  predicate LengthsHold(b: seq<Byte>) {
    var f := Number(2, b);
    f.Got? && Bite(4, f.rest).Got? && Field(Bite(4, f.rest).rest).Got? ==>
      var b3 := Field(Bite(4, f.rest).rest).rest;
      var d := ParseData(f.value, b3);
      && NarrowField(Bite(4, f.rest).rest)
      && DataLengthHolds(f.value, b3)
      && (d.Got? ==> CoinLengthHolds(f.value, d.value, d.rest))
  }

  // ---------------------------------------------------------------- parsers read from the front

  /** `r` is what is left at the end of `b`. */
  predicate Ends(b: seq<Byte>, r: seq<Byte>) { |r| <= |b| && b[|b| - |r|..] == r }

  /** What was read when `r` is left. */
  function Front(b: seq<Byte>, r: seq<Byte>): seq<Byte> { if |r| <= |b| then b[..|b| - |r|] else [] }

  /** A parser that got `f` from `b` gets the same from what it read, whatever follows; `g` is what it gets there. */
  predicate Local<T(==)>(b: seq<Byte>, f: Parsed<T>, y: seq<Byte>, g: Parsed<T>) {
    f.Got? ==> Ends(b, f.rest) && g == Got(f.value, y)
  }

  lemma EndsJoin(b: seq<Byte>, r1: seq<Byte>, r2: seq<Byte>, y: seq<Byte>)
    requires Ends(b, r1) && Ends(r1, r2)
    ensures Ends(b, r2) && Front(b, r2) + y == Front(b, r1) + (Front(r1, r2) + y)
  {
    assert b == b[..|b| - |r1|] + r1;
  }

  lemma BiteLocal(n: nat, b: seq<Byte>, y: seq<Byte>)
    ensures var f := Bite(n, b);
            f.Got? ==> Local(b, f, y, Bite(n, Front(b, f.rest) + y))
  {
  }

  lemma PrefixLocal(b: seq<Byte>, y: seq<Byte>)
    ensures var f := Prefix(b);
            f.Got? ==> Local(b, f, y, Prefix(Front(b, f.rest) + y))
  {
    hide ReadVarint;
    if ReadVarint(b).Read? {
      var k := ReadVarint(b).size;
      ReadFromFront(b, k);
      Stable(b[..k], y);
      assert (b[..k] + y)[k..] == y;
    }
  }

  lemma ReadFromFront(b: seq<Byte>, k: nat)
    requires ReadVarint(b).Read? && k == ReadVarint(b).size
    ensures ReadVarint(b[..k]) == ReadVarint(b)
  {
    assert b[..k][1..k] == b[1..k];
  }

  lemma FieldLocal(b: seq<Byte>, y: seq<Byte>)
    ensures var f := Field(b);
            f.Got? ==> Local(b, f, y, Field(Front(b, f.rest) + y))
  {
    hide Prefix, Bite, Front, Ends;
    var p := Prefix(b);
    if p.Got? {
      var f := Bite(p.value % SIZE_T, p.rest);
      if f.Got? {
        BiteLocal(p.value % SIZE_T, p.rest, y);
        PrefixLocal(b, Front(p.rest, f.rest) + y);
        EndsJoin(b, p.rest, f.rest, y);
      }
    }
  }

  lemma NumberLocal(n: nat, b: seq<Byte>, y: seq<Byte>)
    ensures var f := Number(n, b);
            f.Got? ==> Local(b, f, y, Number(n, Front(b, f.rest) + y))
  {
    hide Bite;
    BiteLocal(n, b, y);
  }

  lemma AssetLocal(b: seq<Byte>, y: seq<Byte>)
    ensures var f := ParseAsset(b);
            f.Got? ==> Local(b, f, y, ParseAsset(Front(b, f.rest) + y))
  {
    hide Number, Front, Ends;
    var p := Number(2, b);
    if p.Got? && Number(2, p.rest).Got? {
      var f := Number(2, p.rest);
      NumberLocal(2, p.rest, y);
      NumberLocal(2, b, Front(p.rest, f.rest) + y);
      EndsJoin(b, p.rest, f.rest, y);
    }
  }

  lemma TargetLocal(b: seq<Byte>, y: seq<Byte>)
    ensures var f := ParseTarget(b);
            f.Got? ==> Local(b, f, y, ParseTarget(Front(b, f.rest) + y))
  {
    hide Field, ParseAsset, Bite, Front, Ends;
    var f1 := Field(b);
    if f1.Got? {
      var r1 := f1.rest;
      var f2 := ParseAsset(r1);
      if f2.Got? {
        var r2 := f2.rest;
        var f3 := Bite(32, r2);
        if f3.Got? {
          var r3 := f3.rest;
          var f4 := Bite(8, r3);
          if f4.Got? {
            var r4 := f4.rest;
            var y3 := Front(r3, r4) + y;
            var y2 := Front(r2, r3) + y3;
            var y1 := Front(r1, r2) + y2;
            FieldLocal(b, y1);
            AssetLocal(r1, y2);
            BiteLocal(32, r2, y3);
            BiteLocal(8, r3, y);
            EndsJoin(b, r1, r2, y2);
            EndsJoin(b, r2, r3, y3);
            EndsJoin(b, r3, r4, y);
          }
        }
      }
    }
  }

  lemma SourceLocal(b: seq<Byte>, y: seq<Byte>)
    ensures var f := ParseSource(b);
            f.Got? ==> Local(b, f, y, ParseSource(Front(b, f.rest) + y))
  {
    hide Field, ParseAsset, Bite, Front, Ends;
    var f1 := Field(b);
    if f1.Got? {
      var r1 := f1.rest;
      var f2 := ParseAsset(r1);
      if f2.Got? {
        var r2 := f2.rest;
        var f3 := Bite(32, r2);
        if f3.Got? {
          var r3 := f3.rest;
          var f4 := Field(r3);
          if f4.Got? {
            var r4 := f4.rest;
            var f5 := Bite(1, r4);
            if f5.Got? {
              var r5 := f5.rest;
              var y4 := Front(r4, r5) + y;
              var y3 := Front(r3, r4) + y4;
              var y2 := Front(r2, r3) + y3;
              var y1 := Front(r1, r2) + y2;
              FieldLocal(b, y1);
              AssetLocal(r1, y2);
              BiteLocal(32, r2, y3);
              FieldLocal(r3, y4);
              BiteLocal(1, r4, y);
              EndsJoin(b, r1, r2, y2);
              EndsJoin(b, r2, r3, y3);
              EndsJoin(b, r3, r4, y4);
              EndsJoin(b, r4, r5, y);
            }
          }
        }
      }
    }
  }

  lemma NothingFront(b: seq<Byte>, y: seq<Byte>)
    ensures Ends(b, b) && Front(b, b) + y == y
  {
  }

  lemma {:induction false} SourcesLocal(n: nat, b: seq<Byte>, y: seq<Byte>)
    ensures var f := ParseSources(n, b);
            f.Got? ==> Local(b, f, y, ParseSources(n, Front(b, f.rest) + y))
  {
    hide ParseSource, Front, Ends;
    if n == 0 {
      NothingFront(b, y);
    } else {
      var f1 := ParseSource(b);
      if f1.Got? {
        var r1 := f1.rest;
        var f2 := ParseSources(n - 1, r1);
        if f2.Got? {
          SourcesLocal(n - 1, r1, y);
          SourceLocal(b, Front(r1, f2.rest) + y);
          EndsJoin(b, r1, f2.rest, y);
        }
      }
    }
  }

  lemma {:induction false} TargetsLocal(n: nat, b: seq<Byte>, y: seq<Byte>)
    ensures var f := ParseTargets(n, b);
            f.Got? ==> Local(b, f, y, ParseTargets(n, Front(b, f.rest) + y))
  {
    hide ParseTarget, Front, Ends;
    if n == 0 {
      NothingFront(b, y);
    } else {
      var f1 := ParseTarget(b);
      if f1.Got? {
        var r1 := f1.rest;
        var f2 := ParseTargets(n - 1, r1);
        if f2.Got? {
          TargetsLocal(n - 1, r1, y);
          TargetLocal(b, Front(r1, f2.rest) + y);
          EndsJoin(b, r1, f2.rest, y);
        }
      }
    }
  }

  lemma {:induction false} ElementsLocal(n: nat, b: seq<Byte>, y: seq<Byte>)
    ensures var f := ParseElements(n, b);
            f.Got? ==> Local(b, f, y, ParseElements(n, Front(b, f.rest) + y))
  {
    hide Field, Front, Ends;
    if n == 0 {
      NothingFront(b, y);
    } else {
      var f1 := Field(b);
      if f1.Got? {
        var r1 := f1.rest;
        var f2 := ParseElements(n - 1, r1);
        if f2.Got? {
          ElementsLocal(n - 1, r1, y);
          FieldLocal(b, Front(r1, f2.rest) + y);
          EndsJoin(b, r1, f2.rest, y);
        }
      }
    }
  }

  lemma ArgLocal(b: seq<Byte>, y: seq<Byte>)
    ensures var f := ParseArg(b);
            f.Got? ==> Local(b, f, y, ParseArg(Front(b, f.rest) + y))
  {
    hide Number, ParseElements, Front, Ends;
    var f1 := Number(1, b);
    if f1.Got? {
      var r1 := f1.rest;
      var f2 := ParseElements(f1.value, r1);
      if f2.Got? {
        var r2 := f2.rest;
        var y1 := Front(r1, r2) + y;
        NumberLocal(1, b, y1);
        ElementsLocal(f1.value, r1, y);
        EndsJoin(b, r1, r2, y);
      }
    }
  }

  lemma {:induction false} ArgsLocal(n: nat, b: seq<Byte>, y: seq<Byte>)
    ensures var f := ParseArgs(n, b);
            f.Got? ==> Local(b, f, y, ParseArgs(n, Front(b, f.rest) + y))
  {
    hide ParseArg, Front, Ends;
    if n == 0 {
      NothingFront(b, y);
    } else {
      var f1 := ParseArg(b);
      if f1.Got? {
        var r1 := f1.rest;
        var f2 := ParseArgs(n - 1, r1);
        if f2.Got? {
          ArgsLocal(n - 1, r1, y);
          ArgLocal(b, Front(r1, f2.rest) + y);
          EndsJoin(b, r1, f2.rest, y);
        }
      }
    }
  }

  lemma InvocationLocal(address: seq<Byte>, value: seq<Byte>, b: seq<Byte>, y: seq<Byte>)
    ensures var f := ParseInvocation(address, value, b);
            f.Got? ==> Local(b, f, y, ParseInvocation(address, value, Front(b, f.rest) + y))
  {
    hide Field, Number, ParseArgs, Front, Ends;
    var f1 := Field(b);
    if f1.Got? {
      var r1 := f1.rest;
      var f2 := Field(r1);
      if f2.Got? {
        var r2 := f2.rest;
        var f3 := Number(1, r2);
        if f3.Got? {
          var r3 := f3.rest;
          var f4 := ParseArgs(f3.value, r3);
          if f4.Got? {
            var r4 := f4.rest;
            var y3 := Front(r3, r4) + y;
            var y2 := Front(r2, r3) + y3;
            var y1 := Front(r1, r2) + y2;
            FieldLocal(b, y1);
            FieldLocal(r1, y2);
            NumberLocal(1, r2, y3);
            ArgsLocal(f3.value, r3, y);
            EndsJoin(b, r1, r2, y2);
            EndsJoin(b, r2, r3, y3);
            EndsJoin(b, r3, r4, y);
          }
        }
      }
    }
  }

  lemma ContractLocal(b: seq<Byte>, y: seq<Byte>)
    ensures var f := ParseContract(b);
            f.Got? ==> Local(b, f, y, ParseContract(Front(b, f.rest) + y))
  {
    hide Bite, ParseInvocation, Front, Ends;
    var f1 := Bite(23, b);
    if f1.Got? {
      var r1 := f1.rest;
      var f2 := Bite(23, r1);
      if f2.Got? {
        var r2 := f2.rest;
        var f3 := Bite(32, r2);
        if f3.Got? {
          var r3 := f3.rest;
          var f4 := Bite(8, r3);
          if f4.Got? {
            var r4 := f4.rest;
            var f5 := Bite(8, r4);
            if f5.Got? {
              var r5 := f5.rest;
              var f6 := ParseInvocation(f2.value, f3.value, r5);
              if f6.Got? {
                var r6 := f6.rest;
                var y5 := Front(r5, r6) + y;
                var y4 := Front(r4, r5) + y5;
                var y3 := Front(r3, r4) + y4;
                var y2 := Front(r2, r3) + y3;
                var y1 := Front(r1, r2) + y2;
                BiteLocal(23, b, y1);
                BiteLocal(23, r1, y2);
                BiteLocal(32, r2, y3);
                BiteLocal(8, r3, y4);
                BiteLocal(8, r4, y5);
                InvocationLocal(f2.value, f3.value, r5, y);
                EndsJoin(b, r1, r2, y2);
                EndsJoin(b, r2, r3, y3);
                EndsJoin(b, r3, r4, y4);
                EndsJoin(b, r4, r5, y5);
                EndsJoin(b, r5, r6, y);
              }
            }
          }
        }
      }
    }
  }

  lemma EntriesLocal(typ: nat, data: Data, b: seq<Byte>, y: seq<Byte>)
    ensures var f := ParseEntries(typ, data, b);
            f.Got? ==> Local(b, f, y, ParseEntries(typ, data, Front(b, f.rest) + y))
  {
    hide Number, ParseSources, ParseTargets, Front, Ends;
    var f1 := Number(1, b);
    if f1.Got? {
      var r1 := f1.rest;
      var f2 := ParseSources(f1.value, r1);
      if f2.Got? {
        var r2 := f2.rest;
        var f3 := Number(1, r2);
        if f3.Got? {
          var r3 := f3.rest;
          var f4 := ParseTargets(f3.value, r3);
          if f4.Got? {
            var r4 := f4.rest;
            var y3 := Front(r3, r4) + y;
            var y2 := Front(r2, r3) + y3;
            var y1 := Front(r1, r2) + y2;
            NumberLocal(1, b, y1);
            SourcesLocal(f1.value, r1, y2);
            NumberLocal(1, r2, y3);
            TargetsLocal(f3.value, r3, y);
            EndsJoin(b, r1, r2, y2);
            EndsJoin(b, r2, r3, y3);
            EndsJoin(b, r3, r4, y);
          }
        }
      }
    }
  }

  // ---------------------------------------------------------------- exact lengths and 32-bit lengths

  lemma FieldExact(b: seq<Byte>)
    ensures NarrowField(b) ==> ExactField(b) == Field(b)
    ensures |b| < SIZE_T && ExactField(b).Got? ==> NarrowField(b)
  {
    hide Prefix;
    if Prefix(b).Got? && Prefix(b).value < SIZE_T {
      SmallModulus(Prefix(b).value);
    }
  }

  lemma SourceExact(b: seq<Byte>)
    ensures NarrowSource(b) ==> ExactSource(b) == ParseSource(b)
    ensures |b| < SIZE_T && ExactSource(b).Got? ==> NarrowSource(b)
  {
    hide Field, ExactField, NarrowField, ParseAsset, Bite;
    FieldExact(b);
    var f := Field(b);
    if f.Got? && ParseAsset(f.rest).Got? && Bite(32, ParseAsset(f.rest).rest).Got? {
      FieldExact(Bite(32, ParseAsset(f.rest).rest).rest);
    }
  }

  lemma {:induction false} SourcesExact(n: nat, b: seq<Byte>)
    ensures NarrowSources(n, b) ==> ExactSources(n, b) == ParseSources(n, b)
    ensures |b| < SIZE_T && ExactSources(n, b).Got? ==> NarrowSources(n, b)
  {
    hide ParseSource, ExactSource, NarrowSource;
    if n > 0 {
      SourceExact(b);
      if ParseSource(b).Got? {
        SourcesExact(n - 1, ParseSource(b).rest);
      }
    }
  }

  lemma {:induction false} TargetsExact(n: nat, b: seq<Byte>)
    ensures NarrowTargets(n, b) ==> ExactTargets(n, b) == ParseTargets(n, b)
    ensures |b| < SIZE_T && ExactTargets(n, b).Got? ==> NarrowTargets(n, b)
  {
    hide Field, ExactField, NarrowField, ParseAsset, Bite;
    if n > 0 {
      FieldExact(b);
      if ParseTarget(b).Got? {
        TargetsExact(n - 1, ParseTarget(b).rest);
      }
    }
  }

  lemma {:induction false} ElementsExact(n: nat, b: seq<Byte>)
    ensures NarrowElements(n, b) ==> ExactElements(n, b) == ParseElements(n, b)
    ensures |b| < SIZE_T && ExactElements(n, b).Got? ==> NarrowElements(n, b)
  {
    hide Field, ExactField, NarrowField;
    if n > 0 {
      FieldExact(b);
      if Field(b).Got? {
        ElementsExact(n - 1, Field(b).rest);
      }
    }
  }

  lemma {:induction false} ArgsExact(n: nat, b: seq<Byte>)
    ensures NarrowArgs(n, b) ==> ExactArgs(n, b) == ParseArgs(n, b)
    ensures |b| < SIZE_T && ExactArgs(n, b).Got? ==> NarrowArgs(n, b)
  {
    hide Number, ParseElements, ExactElements, NarrowElements;
    if n > 0 {
      if Number(1, b).Got? {
        ElementsExact(Number(1, b).value, Number(1, b).rest);
      }
      if ParseArg(b).Got? {
        ArgsExact(n - 1, ParseArg(b).rest);
      }
    }
  }

  lemma InvocationExact(address: seq<Byte>, value: seq<Byte>, b: seq<Byte>)
    ensures NarrowInvocation(b) ==> ExactInvocation(address, value, b) == ParseInvocation(address, value, b)
    ensures |b| < SIZE_T && ExactInvocation(address, value, b).Got? ==> NarrowInvocation(b)
  {
    hide Field, ExactField, NarrowField, Number, ParseArgs, ExactArgs, NarrowArgs;
    FieldExact(b);
    if Field(b).Got? {
      var b1 := Field(b).rest;
      FieldExact(b1);
      if Field(b1).Got? && Number(1, Field(b1).rest).Got? {
        ArgsExact(Number(1, Field(b1).rest).value, Number(1, Field(b1).rest).rest);
      }
    }
  }

  lemma ContractExact(b: seq<Byte>)
    ensures NarrowContract(b) ==> ExactContract(b) == ParseContract(b)
    ensures |b| < SIZE_T && ExactContract(b).Got? ==> NarrowContract(b)
  {
    hide ParseInvocation, ExactInvocation, NarrowInvocation;
    if |b| >= 94 {
      InvocationExact(b[23..46], b[46..78], b[94..]);
      HeadBites(b);
    }
  }

  lemma HeadBites(b: seq<Byte>)
    requires |b| >= 94
    ensures ParseContract(b) == ParseInvocation(b[23..46], b[46..78], b[94..])
    ensures ExactContract(b) == ExactInvocation(b[23..46], b[46..78], b[94..])
  {
    hide ParseInvocation, ExactInvocation;
    assert b[23..][..23] == b[23..46] && b[23..][23..] == b[46..];
    assert b[46..][..32] == b[46..78] && b[46..][32..] == b[78..];
    assert b[78..][8..] == b[86..] && b[86..][8..] == b[94..];
  }

  lemma EntriesExact(typ: nat, data: Data, b: seq<Byte>)
    ensures NarrowEntries(b) ==> ExactEntries(typ, data, b) == ParseEntries(typ, data, b)
    ensures |b| < SIZE_T && ExactEntries(typ, data, b).Got? ==> NarrowEntries(b)
  {
    hide Number, ParseSources, ParseTargets, ExactSources, ExactTargets, NarrowSources, NarrowTargets;
    var f := Number(1, b);
    if f.Got? {
      SourcesExact(f.value, f.rest);
      var g := ParseSources(f.value, f.rest);
      if g.Got? && Number(1, g.rest).Got? {
        TargetsExact(Number(1, g.rest).value, Number(1, g.rest).rest);
      }
    }
  }

  // ---------------------------------------------------------------- when the two formats agree

  lemma FieldSplits(b: seq<Byte>, rest: seq<Byte>)
    requires Prefix(b).Got? && Ends(Prefix(b).rest, rest) && Measures(b, rest)
    ensures ExactField(b) == Got(Front(Prefix(b).rest, rest), rest)
  {
  }

  lemma FieldMeasures(b: seq<Byte>)
    ensures ExactField(b).Got? ==>
              && Prefix(b).Got? && Measures(b, ExactField(b).rest)
              && Prefix(b).rest == ExactField(b).value + ExactField(b).rest
  {
  }

  lemma FrontAll(d: seq<Byte>)
    ensures Front(d, []) == d && Ends(d, []) && d + [] == d
  {
  }

  /** `f` is what the documented format reads, `g` what the source reads, of at most 2^32 bytes or of any number. */
  predicate AgreesIf<T(==)>(f: Parsed<T>, g: Parsed<T>, condition: bool, countable: bool) {
    if g.Got? && condition then f == g else countable ==> f == Fail
  }

  lemma DataAgrees(typ: nat, b: seq<Byte>)
    ensures AgreesIf(ParseDocumentedData(typ, b), ParseData(typ, b), DataLengthHolds(typ, b), |b| < SIZE_T)
  {
    if typ == 16 {
      CallAgrees(b);
    } else {
      OpaqueAgrees(typ, b);
    }
  }

  lemma CallAgrees(b: seq<Byte>)
    ensures AgreesIf(ParseDocumentedData(16, b), ParseData(16, b), DataLengthHolds(16, b), |b| < SIZE_T)
  {
    hide ParseContract, ExactContract, NarrowContract, Front, Ends, Prefix;
    FieldMeasures(b);
    var f := ExactField(b);
    if f.Got? && DataIn(16, f.value).Got? {
      ContractExact(f.value);
      ContractLocal(f.value, f.rest);
      FrontAll(f.value);
      FrontOf(f.value, f.rest);
    }
    var g := ParseData(16, b);
    if g.Got? && DataLengthHolds(16, b) {
      ContractLocal(Prefix(b).rest, []);
      FieldSplits(b, g.rest);
      FrontAll(Front(Prefix(b).rest, g.rest));
      ContractExact(Front(Prefix(b).rest, g.rest));
    }
  }

  lemma OpaqueAgrees(typ: nat, b: seq<Byte>)
    requires typ != 16
    ensures AgreesIf(ParseDocumentedData(typ, b), ParseData(typ, b), DataLengthHolds(typ, b), |b| < SIZE_T)
  {
    FieldMeasures(b);
    FieldExact(b);
  }

  lemma CoinsAgree(typ: nat, data: Data, b: seq<Byte>)
    ensures AgreesIf(ParseDocumentedCoins(typ, data, b), ParseCoins(typ, data, b), CoinLengthHolds(typ, data, b),
                     |b| < SIZE_T)
  {
    hide ParseEntries, ExactEntries, NarrowEntries, Front, Ends, Prefix;
    FieldMeasures(b);
    var f := ExactField(b);
    if f.Got? && CoinsIn(typ, data, f.value).Got? {
      EntriesExact(typ, data, f.value);
      EntriesLocal(typ, data, f.value, f.rest);
      FrontAll(f.value);
      FrontOf(f.value, f.rest);
    }
    var g := ParseCoins(typ, data, b);
    if g.Got? && CoinLengthHolds(typ, data, b) {
      EntriesLocal(typ, data, Prefix(b).rest, []);
      FieldSplits(b, g.rest);
      FrontAll(Front(Prefix(b).rest, g.rest));
      EntriesExact(typ, data, Front(Prefix(b).rest, g.rest));
    }
  }

  lemma FrontOf(d: seq<Byte>, rest: seq<Byte>)
    ensures Front(d + rest, rest) == d
  {
  }

  /**
   What the documented format reads.  Where the announced lengths hold it is what the source reads, for byte strings of
   any length; where they do not, and 32 bits can count the bytes, the documented format reads nothing.
   */
  lemma DocumentedExactly(b: seq<Byte>)
    ensures Parse(b).Got? && LengthsHold(b) ==> ParseDocumented(b) == Parse(b)
    ensures |b| < SIZE_T ==> ParseDocumented(b) == if Parse(b).Got? && LengthsHold(b) then Parse(b) else Fail
  {
    hide ParseData, ParseCoins, ParseDocumentedData, ParseDocumentedCoins, Field, ExactField, NarrowField, Bite;
    hide DataLengthHolds, CoinLengthHolds;
    var f := Number(2, b);
    if f.Got? && Bite(4, f.rest).Got? {
      var b2 := Bite(4, f.rest).rest;
      FieldExact(b2);
      if Field(b2).Got? {
        DataAgrees(f.value, Field(b2).rest);
        var d := ParseData(f.value, Field(b2).rest);
        FieldShortens(b2);
        DataShortens(f.value, Field(b2).rest);
        if d.Got? {
          CoinsAgree(f.value, d.value, d.rest);
        }
      }
    }
  }

  lemma FieldShortens(b: seq<Byte>)
    ensures Field(b).Got? ==> |Field(b).rest| <= |b|
  {
  }

  lemma DataShortens(typ: nat, b: seq<Byte>)
    ensures ParseData(typ, b).Got? ==> |ParseData(typ, b).rest| <= |b|
  {
    hide ParseContract, Front;
    FieldShortens(b);
    if typ == 16 && Prefix(b).Got? {
      ContractLocal(Prefix(b).rest, []);
    }
  }

  // ---------------------------------------------------------------- lengths of 64 bits

  /** A field is read as documented exactly when its length fits the 32 bits of the device. */
  lemma FieldIsExact(b: seq<Byte>)
    requires |b| < SIZE_T
    ensures ExactField(b) == Field(b) <==> Prefix(b).Fail? || Field(b).Fail? || Prefix(b).value < SIZE_T
  {
    hide Prefix;
    if Prefix(b).Got? && Prefix(b).value < SIZE_T {
      SmallModulus(Prefix(b).value);
    }
  }

  /** The length 2^32. */
  const WIDE: seq<Byte> := [0xFF, 0, 0, 0, 0, 1, 0, 0, 0]

  /** A field announced with 2^32 bytes is read as an empty one. */
  lemma WideField(rest: seq<Byte>)
    ensures Prefix(WIDE + rest) == Got(SIZE_T, rest) && Field(WIDE + rest) == Got([], rest)
  {
    hide LittleEndian;
    var b := WIDE + rest;
    assert b[1..9] == [0, 0, 0, 0, 1, 0, 0, 0];
    WideLength(b[1..9]);
    assert b[9..] == rest;
  }

  /** The lone transfer with a remark announced that long. */
  function WideRemark(address: seq<Byte>, amount: seq<Byte>): seq<Byte>
    requires |address| <= 40
  {
    [2, 0] + ([0, 0, 0, 0] + (WIDE + ([0] + CoinBytes(|address| + 47, address, amount))))
  }

  lemma WideRemarkRead(address: seq<Byte>, amount: seq<Byte>)
    requires |address| <= 40 && |amount| == 32
    ensures Parse(WideRemark(address, amount)) == Got(LoneTransaction(address, amount), [])
    ensures ParseDocumented(WideRemark(address, amount)) == Fail
    ensures |WideRemark(address, amount)| <= 269
  {
    hide Number, Bite, Field, ParseData, ParseCoins, Prefix, LittleEndian, Tail, ParseDocumented, CoinBytes;
    var c := CoinBytes(|address| + 47, address, amount);
    OneByte([2, 0]);
    Counted([2, 0], [0, 0, 0, 0] + (WIDE + ([0] + c)));
    Bitten([0, 0, 0, 0], WIDE + ([0] + c));
    WideField([0] + c);
    SizedHeader(0, |address| + 47, address, amount);
    SizedParsed(0, |address| + 47, address, amount);
    WideRemarkLength(address, amount);
    DocumentedExactly(WideRemark(address, amount));
  }

  lemma WideRemarkLength(address: seq<Byte>, amount: seq<Byte>)
    requires |address| <= 40 && |amount| == 32
    ensures |WideRemark(address, amount)| <= 269
  {
  }

  lemma WideLength(d: seq<Byte>)
    requires d == [0, 0, 0, 0, 1, 0, 0, 0]
    ensures LittleEndian(d) == SIZE_T
  {
    hide LittleEndian, Pow256;
    assert d == [0, 0, 0, 0] + [1, 0, 0, 0];
    LittleEndianConcat([0, 0, 0, 0], [1, 0, 0, 0]);
    Varint.Widths();
    FourBytes(0);
    FourBytes(1);
  }

  lemma FourBytes(v: Byte)
    ensures LittleEndian([v, 0, 0, 0]) == v
  {
    assert [v, 0, 0, 0][1..] == [0, 0, 0] && [0, 0, 0][1..] == [0, 0] && [0, 0][1..] == [0] && [0][1..] == [];
  }

  // ---------------------------------------------------------------- when they differ

  /** A transfer with wrong announced lengths is read by the source, but not by the documented format. */
  lemma WrongLengths(dataSize: Byte, coinSize: Byte, address: seq<Byte>, amount: seq<Byte>)
    requires |address| <= 40 && |amount| == 32 && dataSize < 0xFD && coinSize < 0xFD
    ensures var b := Sized(dataSize, coinSize, address, amount);
            && Parse(b) == Got(LoneTransaction(address, amount), [])
            && (LengthsHold(b) <==> dataSize == 0 && coinSize == |address| + 47)
            && (ParseDocumented(b).Got? <==> dataSize == 0 && coinSize == |address| + 47)
  {
    hide Sized, Parse, ParseDocumented, Number, Bite, Field, ParseData, ParseCoins, Prefix, LittleEndian, Tail;
    var b, c := Sized(dataSize, coinSize, address, amount), CoinBytes(coinSize, address, amount);
    SizedHeader(dataSize, coinSize, address, amount);
    SizedParsed(dataSize, coinSize, address, amount);
    SizedLength(dataSize, coinSize, address, amount);
    Prefixed(dataSize, c);
    var entries := [0] + ([1] + ([|address|] + address + Tail(amount)));
    Prefixed(coinSize, entries);
    assert |entries| == |address| + 47;
    EntriesParsed(address, amount);
    LoneNarrow(address, amount);
    FrontAll(entries);
    DocumentedExactly(b);
  }

  lemma LoneNarrow(address: seq<Byte>, amount: seq<Byte>)
    requires |address| <= 40 && |amount| == 32
    ensures NarrowEntries([0] + ([1] + ([|address|] + address + Tail(amount))))
  {
    hide Number, Prefix, LittleEndian, Tail;
    var t := [|address|] + address + Tail(amount);
    OneByte([0]);
    OneByte([1]);
    Counted([0], [1] + t);
    Counted([1], t);
    assert t == [|address|] + (address + Tail(amount));
    Prefixed(|address|, address + Tail(amount));
    hide ParseTarget;
    assert NarrowTargets(0, []);
    TargetParsed(address, amount);
    assert NarrowTargets(1, t);
    assert ParseSources(0, [1] + t) == Got([], [1] + t) && NarrowSources(0, [1] + t);
  }

  lemma SizedLength(dataSize: Byte, coinSize: Byte, address: seq<Byte>, amount: seq<Byte>)
    requires |address| <= 40 && |amount| == 32
    ensures |Sized(dataSize, coinSize, address, amount)| < SIZE_T && |Tail(amount)| == 44
  {
  }
}
