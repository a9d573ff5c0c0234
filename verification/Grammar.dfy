/**
 The transaction format as the source reads it, as a plain recursive parser over a whole byte string: no resumption, no
 arena, nothing overwritten.  This is the reference the device's parser is measured against; `Documented` says when it
 agrees with the format of `doc/TRANSACTION.md`.
 */
module Grammar {
  import opened Bytes
  import opened Varint

  datatype Parsed<+T> = Fail | Got(value: T, rest: seq<Byte>) {
    predicate IsFailure() { Fail? }

    function PropagateFailure<U>(): Parsed<U>
      requires Fail?
    {
      Fail
    }

    function Extract(): (T, seq<Byte>)
      requires Got?
    {
      (value, rest)
    }
  }

  datatype Asset = Asset(chainId: nat, assetId: nat)
  datatype Source = Source(address: seq<Byte>, asset: Asset, amount: seq<Byte>)
  datatype Target = Target(address: seq<Byte>, asset: Asset, amount: seq<Byte>)
  datatype Contract = Contract(address: seq<Byte>, value: seq<Byte>, name: seq<Byte>, args: seq<seq<seq<Byte>>>)
  datatype Data = Other | Calls(contract: Contract)
  datatype Transaction = Transaction(typ: nat, data: Data, sources: seq<Source>, targets: seq<Target>)

  function Bite(n: nat, b: seq<Byte>): (f: Parsed<seq<Byte>>)
    ensures f.Got? ==> |f.rest| <= |b|
  {
    if |b| < n then Fail else Got(b[..n], b[n..])
  }

  /** A length of its own. */
  function Prefix(b: seq<Byte>): (f: Parsed<nat>)
    ensures f.Got? ==> |f.rest| <= |b|
  {
    match ReadVarint(b)
    case Short => Fail
    case Read(v, k) => Got(v, b[k..])
  }

  /** A length and as many bytes. */
  function Field(b: seq<Byte>): Parsed<seq<Byte>> {
    var (v, b1) :- Prefix(b);
    Bite(v % SIZE_T, b1)
  }

  function Number(n: nat, b: seq<Byte>): (f: Parsed<nat>)
    ensures f.Got? ==> |f.rest| <= |b|
  {
    var (d, b1) :- Bite(n, b);
    Got(LittleEndian(d), b1)
  }

  function ParseAsset(b: seq<Byte>): (f: Parsed<Asset>)
    ensures f.Got? ==> |f.rest| <= |b|
  {
    var (chainId, b1) :- Number(2, b);
    var (assetId, b2) :- Number(2, b1);
    Got(Asset(chainId, assetId), b2)
  }

  function ParseTarget(b: seq<Byte>): Parsed<Target> {
    var (address, b1) :- Field(b);
    var (asset, b2) :- ParseAsset(b1);
    var (amount, b3) :- Bite(32, b2);
    var (lockTime, b4) :- Bite(8, b3);
    Got(Target(address, asset, amount), b4)
  }

  function ParseSource(b: seq<Byte>): Parsed<Source> {
    var (address, b1) :- Field(b);
    var (asset, b2) :- ParseAsset(b1);
    var (amount, b3) :- Bite(32, b2);
    var (nonce, b4) :- Field(b3);
    var (locked, b5) :- Bite(1, b4);
    Got(Source(address, asset, amount), b5)
  }

  function ParseSources(n: nat, b: seq<Byte>): Parsed<seq<Source>> {
    if n == 0 then Got([], b) else
    var (s, b1) :- ParseSource(b);
    var (ss, b2) :- ParseSources(n - 1, b1);
    Got([s] + ss, b2)
  }

  function ParseTargets(n: nat, b: seq<Byte>): Parsed<seq<Target>> {
    if n == 0 then Got([], b) else
    var (t, b1) :- ParseTarget(b);
    var (ts, b2) :- ParseTargets(n - 1, b1);
    Got([t] + ts, b2)
  }

  function ParseElements(n: nat, b: seq<Byte>): Parsed<seq<seq<Byte>>> {
    if n == 0 then Got([], b) else
    var (e, b1) :- Field(b);
    var (es, b2) :- ParseElements(n - 1, b1);
    Got([e] + es, b2)
  }

  /** One argument: a count and as many elements. */
  function ParseArg(b: seq<Byte>): Parsed<seq<seq<Byte>>> {
    var (n, b1) :- Number(1, b);
    ParseElements(n, b1)
  }

  function ParseArgs(n: nat, b: seq<Byte>): Parsed<seq<seq<seq<Byte>>>> {
    if n == 0 then Got([], b) else
    var (arg, b1) :- ParseArg(b);
    var (args, b2) :- ParseArgs(n - 1, b1);
    Got([arg] + args, b2)
  }

  function ParseInvocation(address: seq<Byte>, value: seq<Byte>, b: seq<Byte>): Parsed<Contract> {
    var (name, b1) :- Field(b);
    var (description, b2) :- Field(b1);
    var (n, b3) :- Number(1, b2);
    var (args, b4) :- ParseArgs(n, b3);
    Got(Contract(address, value, name, args), b4)
  }

  function ParseContract(b: seq<Byte>): Parsed<Contract> {
    var (sender, b1) :- Bite(23, b);
    var (address, b2) :- Bite(23, b1);
    var (value, b3) :- Bite(32, b2);
    var (gasLimit, b4) :- Bite(8, b3);
    var (gasPrice, b5) :- Bite(8, b4);
    ParseInvocation(address, value, b5)
  }

  /**
   The transaction data.  A contract call is read field by field whatever its announced length; for the
   two transfer types the length alone is read, as the source does.
   */
  function ParseData(typ: nat, b: seq<Byte>): Parsed<Data> {
    if typ == 16 then
      var (n, b1) :- Prefix(b);
      var (c, b2) :- ParseContract(b1);
      Got(Calls(c), b2)
    else if typ == 2 || typ == 10 then
      var (n, b1) :- Prefix(b);
      Got(Other, b1)
    else
      var (d, b1) :- Field(b);
      Got(Other, b1)
  }

  /** The inputs and outputs themselves. */
  function ParseEntries(typ: nat, data: Data, b: seq<Byte>): Parsed<Transaction> {
    var (n, b2) :- Number(1, b);
    var (sources, b3) :- ParseSources(n, b2);
    var (m, b4) :- Number(1, b3);
    var (targets, b5) :- ParseTargets(m, b4);
    Got(Transaction(typ, data, sources, targets), b5)
  }

  /** The coin data.  Their announced length is read and, as in the source, not looked at again. */
  function ParseCoins(typ: nat, data: Data, b: seq<Byte>): Parsed<Transaction> {
    var (size, b1) :- Prefix(b);
    ParseEntries(typ, data, b1)
  }

  function Parse(b: seq<Byte>): Parsed<Transaction> {
    var (typ, b1) :- Number(2, b);
    var (time, b2) :- Bite(4, b1);
    var (remark, b3) :- Field(b2);
    var (data, b4) :- ParseData(typ, b3);
    ParseCoins(typ, data, b4)
  }

  // ---------------------------------------------------------------- what a transaction says

  const NULS := Asset(1, 1)

  function Nuls(asset: Asset, amount: seq<Byte>): nat {
    if asset == NULS then LittleEndian(amount) else 0
  }

  /** The fee rule: only amounts of asset 1-1 count. */
  function SourceSum(ss: seq<Source>): nat {
    if ss == [] then 0 else Nuls(ss[0].asset, ss[0].amount) + SourceSum(ss[1..])
  }

  function TargetSum(ts: seq<Target>): nat {
    if ts == [] then 0 else Nuls(ts[0].asset, ts[0].amount) + TargetSum(ts[1..])
  }
}
