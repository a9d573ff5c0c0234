/**
 The serialisation of `doc/TRANSACTION.md`, written out field by field, and the proof that it is read back: by the
 documented format, by the source, and on the device under any clean cutting.
 */
module Wire {
  import opened Bytes
  import opened Varint
  import opened Grammar
  import opened Documented
  import LoneOutput
  import TxMachine
  import Chunks
  import Meaning
  import Buffering
  import Device

  /** Inputs, outputs and a contract call with all of their fields. */
  datatype Input = Input(source: Source, nonce: seq<Byte>, locked: Byte)
  datatype Output = Output(target: Target, lockTime: seq<Byte>)
  datatype Invocation =
    Invocation(sender: seq<Byte>, contract: Contract, gasLimit: seq<Byte>, gasPrice: seq<Byte>, description: seq<Byte>)
  datatype TxData = Plain(bytes: seq<Byte>) | Call(invocation: Invocation)
  datatype Message =
    Message(typ: nat, time: seq<Byte>, remark: seq<Byte>, data: TxData, inputs: seq<Input>, outputs: seq<Output>)

  // ---------------------------------------------------------------- writing

  /** A field with its length, and what follows. */
  function Sized(d: seq<Byte>, y: seq<Byte>): seq<Byte> { WriteVarint(|d|) + (d + y) }

  /** Each lowest byte first. */
  function PutAsset(a: Asset, y: seq<Byte>): seq<Byte>
    requires NarrowAsset(a)
  {
    [a.chainId % 0x100, a.chainId / 0x100] + ([a.assetId % 0x100, a.assetId / 0x100] + y)
  }

  function PutInput(i: Input, y: seq<Byte>): seq<Byte>
    requires NarrowAsset(i.source.asset)
  {
    Sized(i.source.address, PutAsset(i.source.asset, i.source.amount + Sized(i.nonce, [i.locked] + y)))
  }

  function PutOutput(o: Output, y: seq<Byte>): seq<Byte>
    requires NarrowAsset(o.target.asset)
  {
    Sized(o.target.address, PutAsset(o.target.asset, o.target.amount + (o.lockTime + y)))
  }

  function PutInputs(s: seq<Input>, y: seq<Byte>): seq<Byte>
    requires InputsOk(s)
  {
    if s == [] then y else PutInput(s[0], PutInputs(s[1..], y))
  }

  function PutOutputs(s: seq<Output>, y: seq<Byte>): seq<Byte>
    requires OutputsOk(s)
  {
    if s == [] then y else PutOutput(s[0], PutOutputs(s[1..], y))
  }

  function PutElements(s: seq<seq<Byte>>, y: seq<Byte>): seq<Byte> {
    if s == [] then y else Sized(s[0], PutElements(s[1..], y))
  }

  function PutArgs(s: seq<seq<seq<Byte>>>, y: seq<Byte>): seq<Byte>
    requires ArgsOk(s)
  {
    if s == [] then y else [|s[0]|] + PutElements(s[0], PutArgs(s[1..], y))
  }

  function PutCall(c: Invocation): seq<Byte>
    requires CallOk(c)
  {
    c.sender + (c.contract.address + (c.contract.value + (c.gasLimit + (c.gasPrice +
      Sized(c.contract.name, Sized(c.description, [|c.contract.args|] + PutArgs(c.contract.args, [])))))))
  }

  function PutData(data: TxData): seq<Byte>
    requires data.Call? ==> CallOk(data.invocation)
  {
    if data.Plain? then data.bytes else PutCall(data.invocation)
  }

  function PutCoins(m: Message): seq<Byte>
    requires MessageOk(m)
  {
    [|m.inputs|] + PutInputs(m.inputs, [|m.outputs|] + PutOutputs(m.outputs, []))
  }

  function Written(m: Message): seq<Byte>
    requires MessageOk(m)
  {
    [m.typ % 0x100, m.typ / 0x100] + (m.time + Sized(m.remark, Sized(PutData(m.data), Sized(PutCoins(m), []))))
  }

  // ---------------------------------------------------------------- what can be written

  predicate Fits(d: seq<Byte>) { |d| < 0x1_0000_0000_0000_0000 }

  predicate NarrowAsset(a: Asset) { a.chainId < 0x1_0000 && a.assetId < 0x1_0000 }

  predicate InputOk(i: Input) {
    Fits(i.source.address) && NarrowAsset(i.source.asset) && |i.source.amount| == 32 && Fits(i.nonce)
  }

  predicate OutputOk(o: Output) {
    Fits(o.target.address) && NarrowAsset(o.target.asset) && |o.target.amount| == 32 && |o.lockTime| == 8
  }

  predicate InputsOk(s: seq<Input>) { forall i :: 0 <= i < |s| ==> InputOk(s[i]) }
  predicate OutputsOk(s: seq<Output>) { forall i :: 0 <= i < |s| ==> OutputOk(s[i]) }
  predicate ElementsOk(s: seq<seq<Byte>>) { forall i :: 0 <= i < |s| ==> Fits(s[i]) }
  predicate ArgsOk(s: seq<seq<seq<Byte>>>) { forall i :: 0 <= i < |s| ==> |s[i]| < 0x100 && ElementsOk(s[i]) }

  predicate CallOk(c: Invocation) {
    && |c.sender| == |c.contract.address| == 23 && |c.contract.value| == 32 && |c.gasLimit| == |c.gasPrice| == 8
    && Fits(c.contract.name) && Fits(c.description) && |c.contract.args| < 0x100 && ArgsOk(c.contract.args)
  }

  /** Type 16 has call data, types 2 and 10 have none, and nothing is longer than its length can say. */
  predicate MessageOk(m: Message) {
    && m.typ < 0x1_0000 && |m.time| == 4 && Fits(m.remark)
    && (m.typ == 16 <==> m.data.Call?)
    && (if m.data.Call? then CallOk(m.data.invocation) else m.typ in {2, 10} ==> m.data.bytes == [])
    && |m.inputs| < 0x100 && |m.outputs| < 0x100 && InputsOk(m.inputs) && OutputsOk(m.outputs)
  }

  /** What is read of a message. */
  function Sources(s: seq<Input>): seq<Source> { seq(|s|, i requires 0 <= i < |s| => s[i].source) }
  function Targets(s: seq<Output>): seq<Target> { seq(|s|, i requires 0 <= i < |s| => s[i].target) }

  function Content(m: Message): Transaction {
    Transaction(m.typ, if m.data.Call? then Calls(m.data.invocation.contract) else Data.Other,
                Sources(m.inputs), Targets(m.outputs))
  }

  // ---------------------------------------------------------------- reading it back

  lemma SizedRead(d: seq<Byte>, y: seq<Byte>)
    requires Fits(d)
    ensures ExactField(Sized(d, y)) == Got(d, y)
  {
    hide ReadVarint, WriteVarint, Bite;
    RoundTrip(|d|, d + y);
    assert |WriteVarint(|d|)| == VarintSize(|d|);
    assert Sized(d, y)[|WriteVarint(|d|)|..] == d + y;
    LoneOutput.Bitten(d, y);
  }

  lemma PairRead(v: nat, y: seq<Byte>)
    requires v < 0x1_0000
    ensures Number(2, [v % 0x100, v / 0x100] + y) == Got(v, y)
  {
    hide Number, LittleEndian;
    LoneOutput.Counted([v % 0x100, v / 0x100], y);
    TwoBytes([v % 0x100, v / 0x100]);
  }

  lemma CountRead(n: Byte, y: seq<Byte>)
    ensures Number(1, [n] + y) == Got(n, y)
  {
    hide Number, LittleEndian;
    LoneOutput.Counted([n], y);
    LoneOutput.OneByte([n]);
  }

  lemma AssetRead(a: Asset, y: seq<Byte>)
    requires NarrowAsset(a)
    ensures ParseAsset(PutAsset(a, y)) == Got(a, y)
  {
    hide Number;
    PairRead(a.chainId, [a.assetId % 0x100, a.assetId / 0x100] + y);
    PairRead(a.assetId, y);
  }

  lemma InputRead(i: Input, y: seq<Byte>)
    requires InputOk(i)
    ensures ExactSource(PutInput(i, y)) == Got(i.source, y)
  {
    hide Sized, ExactField, Bite, ParseAsset, PutAsset;
    var y1 := Sized(i.nonce, [i.locked] + y);
    SizedRead(i.source.address, PutAsset(i.source.asset, i.source.amount + y1));
    AssetRead(i.source.asset, i.source.amount + y1);
    LoneOutput.Bitten(i.source.amount, y1);
    SizedRead(i.nonce, [i.locked] + y);
    LoneOutput.Bitten([i.locked], y);
  }

  lemma OutputRead(o: Output, y: seq<Byte>)
    requires OutputOk(o)
    ensures ExactTarget(PutOutput(o, y)) == Got(o.target, y)
  {
    hide Sized, ExactField, Bite, ParseAsset, PutAsset;
    SizedRead(o.target.address, PutAsset(o.target.asset, o.target.amount + (o.lockTime + y)));
    AssetRead(o.target.asset, o.target.amount + (o.lockTime + y));
    LoneOutput.Bitten(o.target.amount, o.lockTime + y);
    LoneOutput.Bitten(o.lockTime, y);
  }

  lemma {:induction false} InputsRead(s: seq<Input>, y: seq<Byte>)
    requires InputsOk(s)
    ensures ExactSources(|s|, PutInputs(s, y)) == Got(Sources(s), y)
  {
    hide ExactSource, PutInput;
    if s != [] {
      InputRead(s[0], PutInputs(s[1..], y));
      InputsRead(s[1..], y);
      assert Sources(s) == [s[0].source] + Sources(s[1..]);
    } else {
      assert Sources(s) == [];
    }
  }

  lemma {:induction false} OutputsRead(s: seq<Output>, y: seq<Byte>)
    requires OutputsOk(s)
    ensures ExactTargets(|s|, PutOutputs(s, y)) == Got(Targets(s), y)
  {
    hide ExactTarget, PutOutput;
    if s != [] {
      OutputRead(s[0], PutOutputs(s[1..], y));
      OutputsRead(s[1..], y);
      assert Targets(s) == [s[0].target] + Targets(s[1..]);
    } else {
      assert Targets(s) == [];
    }
  }

  lemma {:induction false} ElementsRead(s: seq<seq<Byte>>, y: seq<Byte>)
    requires ElementsOk(s)
    ensures ExactElements(|s|, PutElements(s, y)) == Got(s, y)
  {
    hide ExactField, Sized;
    if s != [] {
      SizedRead(s[0], PutElements(s[1..], y));
      ElementsRead(s[1..], y);
      assert s == [s[0]] + s[1..];
    }
  }

  lemma {:induction false} ArgsRead(s: seq<seq<seq<Byte>>>, y: seq<Byte>)
    requires ArgsOk(s)
    ensures ExactArgs(|s|, PutArgs(s, y)) == Got(s, y)
  {
    hide Number, ExactElements, PutElements;
    if s != [] {
      CountRead(|s[0]|, PutElements(s[0], PutArgs(s[1..], y)));
      ElementsRead(s[0], PutArgs(s[1..], y));
      ArgsRead(s[1..], y);
      assert s == [s[0]] + s[1..];
    }
  }

  lemma InvocationRead(c: Invocation)
    requires CallOk(c)
    ensures var b := Sized(c.contract.name, Sized(c.description, [|c.contract.args|] + PutArgs(c.contract.args, [])));
            ExactInvocation(c.contract.address, c.contract.value, b) == Got(c.contract, [])
  {
    hide Sized, ExactField, Number, ExactArgs, PutArgs;
    var y := [|c.contract.args|] + PutArgs(c.contract.args, []);
    SizedRead(c.contract.name, Sized(c.description, y));
    SizedRead(c.description, y);
    CountRead(|c.contract.args|, PutArgs(c.contract.args, []));
    ArgsRead(c.contract.args, []);
  }

  lemma CallRead(c: Invocation)
    requires CallOk(c)
    ensures ExactContract(PutCall(c)) == Got(c.contract, [])
  {
    hide Sized, Bite, ExactInvocation, PutArgs;
    InvocationRead(c);
    var y5 := Sized(c.contract.name, Sized(c.description, [|c.contract.args|] + PutArgs(c.contract.args, [])));
    LoneOutput.Bitten(c.gasPrice, y5);
    LoneOutput.Bitten(c.gasLimit, c.gasPrice + y5);
    LoneOutput.Bitten(c.contract.value, c.gasLimit + (c.gasPrice + y5));
    LoneOutput.Bitten(c.contract.address, c.contract.value + (c.gasLimit + (c.gasPrice + y5)));
    LoneOutput.Bitten(c.sender, c.contract.address + (c.contract.value + (c.gasLimit + (c.gasPrice + y5))));
  }

  lemma CoinsRead(m: Message, data: Data)
    requires MessageOk(m)
    ensures ExactEntries(m.typ, data, PutCoins(m)) == Got(Content(m).(data := data), [])
  {
    hide Number, ExactSources, ExactTargets, PutInputs, PutOutputs, PutData;
    var y := [|m.outputs|] + PutOutputs(m.outputs, []);
    CountRead(|m.inputs|, PutInputs(m.inputs, y));
    InputsRead(m.inputs, y);
    CountRead(|m.outputs|, PutOutputs(m.outputs, []));
    OutputsRead(m.outputs, []);
  }

  lemma DataRead(m: Message)
    requires MessageOk(m)
    ensures DataIn(m.typ, PutData(m.data)) == Got(Content(m).data, [])
  {
    hide ExactContract, PutCall;
    if m.data.Call? {
      CallRead(m.data.invocation);
    }
  }

  lemma MessageRead(m: Message)
    requires MessageOk(m) && Fits(Written(m))
    ensures ParseDocumented(Written(m)) == Got(Content(m), [])
  {
    hide Sized, Number, Bite, ExactField, PutData, PutCoins, ExactEntries, DataIn, Content;
    var d, c := PutData(m.data), PutCoins(m);
    PartsFit(m);
    var y3, y2 := Sized(c, []), Sized(d, Sized(c, []));
    PairRead(m.typ, m.time + Sized(m.remark, y2));
    LoneOutput.Bitten(m.time, Sized(m.remark, y2));
    SizedRead(m.remark, y2);
    SizedRead(d, y3);
    DataRead(m);
    SizedRead(c, []);
    CoinsRead(m, Content(m).data);
    assert Content(m).(data := Content(m).data) == Content(m);
  }

  lemma PartsFit(m: Message)
    requires MessageOk(m) && Fits(Written(m))
    ensures Fits(PutData(m.data)) && Fits(PutCoins(m))
  {
    hide PutData, PutCoins, WriteVarint;
  }

  /** What is written as documented is read back, by the documented format and by the source. */
  lemma WrittenIsRead(m: Message)
    requires MessageOk(m) && |Written(m)| < 0x1_0000_0000
    ensures ParseDocumented(Written(m)) == Parse(Written(m)) == Got(Content(m), [])
  {
    hide Written, Parse, ParseDocumented, LengthsHold;
    MessageRead(m);
    DocumentedExactly(Written(m));
  }

  /**
   And the device reviews it: in chunks cut cleanly it reviews a message exactly when its content is supported and the
   chunks fit, and every field under review is the one that was written.
   */
  lemma WrittenIsReviewed(arena: TxMachine.Arena, m: Message, chunks: seq<seq<Byte>>)
    requires arena.Valid() && chunks != [] && MessageOk(m) && |Written(m)| < 0x1_0000_0000
    requires Chunks.Concat(chunks) == Written(m) && Chunks.CleanRun(Chunks.Opened(arena), chunks)
    ensures var fed := Chunks.Sign(Chunks.Opened(arena), chunks);
            && (Device.Reviewed(fed, chunks) <==> Meaning.Supported(Content(m)) && Buffering.ChunksFit(chunks))
            && (Device.Reviewed(fed, chunks) ==> Meaning.Reviews(fed.session.st, Content(m)))
  {
    hide Written, Parse, ParseDocumented, Meaning.Supported, Meaning.Reviews, Chunks.Sign, Chunks.CleanRun;
    hide Chunks.Concat, Buffering.ChunksFit, Content, Device.AsDocumented, MessageOk;
    WrittenIsRead(m);
    Device.ReviewedExactly(arena, chunks);
    if Device.Reviewed(Chunks.Sign(Chunks.Opened(arena), chunks), chunks) {
      Device.ReviewIsFaithful(arena, chunks);
    }
  }
}
