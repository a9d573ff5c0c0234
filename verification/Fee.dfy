/** Amounts on screen (`src/ui/bagl_display.c`) and the fee, from the summed amounts to its decimal text. */
module Fee {
  import opened Bytes
  import opened Radix
  import opened Halves
  import opened Uint256
  import Uint128
  import opened Numerals
  import opened Format
  import opened Grammar
  import TxMachine
  import Documented
  import LoneOutput
  import Chunks
  import Meaning
  import Device
  import Buffering
  import Wire

  /** `strlen`. */
  method StrLen(s: array<char>, ghost text: string) returns (n: nat)
    requires Holds(s, 0, text) && (forall i :: 0 <= i < |text| ==> text[i] != '\0')
    ensures n == |text|
  {
    n := 0;
    assert forall i :: 0 <= i < |text| ==> s[i] == s[0..|text|][i];
    while s[n] != '\0'
      invariant 0 <= n <= |text|
      decreases |text| - n
    {
      n := n + 1;
    }
  }

  /** The text of an amount. */
  function AmountText(amount: nat, decimals: nat): string { Decimals(Numeral(amount, 10), decimals) }

  /** The room that is asked for, and how far is written. */
  function AmountRoom(amount: nat, decimals: nat): nat { RoomNeeded(Numeral(amount, 10), decimals) }
  function AmountExtent(amount: nat, decimals: nat): nat { Extent(Numeral(amount, 10), decimals) }

  /**
   `__conv_mount_2`.  `out` is the memory from `text` on, which does not end where `text` does: the source announces 80
   characters behind `at`.  The answers of the conversions are not looked at.
   */
  method ConvMount2(number: U256, out: array<char>, at: nat, decimals: nat)
    requires number.Valid() && at + 80 <= out.Length
    modifies out
    ensures AmountRoom(number.V(), decimals) <= 80 ==>
              && Holds(out, at, AmountText(number.V(), decimals))
              && out[at + AmountExtent(number.V(), decimals) - 1] == '\0'
              && Only(old(out[..]), out, at, at + AmountExtent(number.V(), decimals))
    ensures AmountRoom(number.V(), decimals) > 80 ==> out[..] == old(out[..])
  {
    hide U256.V, Numeral, Decimals;
    ghost var n := number.V();
    var temp := new char[80];
    DecimalDigits();
    NumeralLength(n, 10, 78);
    var ok := Tostring256(number, 10, temp, 0, 80);
    NumeralDenotes(n, 10);
    NoTerminator(Numeral(n, 10));
    var length := StrLen(temp, Numeral(n, 10));
    assert temp[..length] == Numeral(n, 10);
    ok := FormatDecimals(temp, length, out, at, 80, decimals);
  }

  /** For up to 77 decimals neither conversion can fail. */
  lemma AmountIsShown(amount: nat, decimals: nat)
    requires amount < M256 && decimals <= 77
    ensures AmountRoom(amount, decimals) <= 80
  {
    hide Numeral;
    DecimalDigits();
    NumeralLength(amount, 10, 78);
  }

  lemma NoTerminator(s: string)
    requires Digits(s, 10)
    ensures forall i :: 0 <= i < |s| ==> s[i] != '\0'
  {
    forall i | 0 <= i < |s| ensures s[i] != '\0' {
      assert DigitValue(s[i]) < 10;
    }
  }

  /** `__conv_mount_1`: the same for an amount as it stands in the transaction. */
  method ConvMount1(amount: seq<Byte>, out: array<char>, at: nat, decimals: nat)
    requires |amount| == 32 && at + 80 <= out.Length
    modifies out
    ensures AmountRoom(LittleEndian(amount), decimals) <= 80 ==>
              && Holds(out, at, AmountText(LittleEndian(amount), decimals))
              && out[at + AmountExtent(LittleEndian(amount), decimals) - 1] == '\0'
              && Only(old(out[..]), out, at, at + AmountExtent(LittleEndian(amount), decimals))
    ensures AmountRoom(LittleEndian(amount), decimals) > 80 ==> out[..] == old(out[..])
  {
    hide AmountRoom, AmountText, AmountExtent;
    var number := new U256();
    Read256LE(amount, number);
    assert amount[..32] == amount;
    ConvMount2(number, out, at, decimals);
  }

  /** An amount on screen denotes the amount. */
  lemma AmountTextDenotes(amount: nat, decimals: nat)
    ensures Scaled(AmountText(amount, decimals), decimals) == amount
    ensures WellFormed(AmountText(amount, decimals), decimals)
  {
    NumeralDenotes(amount, 10);
    DecimalsDenote(Numeral(amount, 10), decimals);
  }

  /** Two amounts on screen that look the same are the same. */
  lemma AmountTextIsInjective(a: nat, b: nat, decimals: nat)
    requires AmountText(a, decimals) == AmountText(b, decimals)
    ensures a == b
  {
    AmountTextDenotes(a, decimals);
    AmountTextDenotes(b, decimals);
  }

  /** One addition of the parser, lines 218 to 227 and 302 to 311 of `deserialize.c`, on the numbers themselves. */
  method AddAmount(amount: seq<Byte>, sum: U256)
    requires |amount| == 32 && sum.Valid()
    modifies sum.upper, sum.lower
    ensures sum.V() == (LittleEndian(amount) + old(sum.V())) % TxMachine.AMOUNT_MODULUS
  {
    var temp1 := new U256();
    var temp2 := new U256();
    Read256LE(amount, temp1);
    assert amount[..32] == amount;
    Add256(temp1, sum, temp2);
    Copy256(sum, temp2);
  }

  /** What `sub256` makes of the two sums. */
  function FeeAmount(coin: TxMachine.Coin): nat { (coin.fromAmount - coin.toAmount) % TxMachine.AMOUNT_MODULUS }

  /** The text of the fee screen. */
  function FeeText(coin: TxMachine.Coin): string { "NULS " + AmountText(FeeAmount(coin), 8) }

  /** How far the fee screen writes, and whether that is inside `text`. */
  function FeeExtent(coin: TxMachine.Coin): nat { 5 + AmountExtent(FeeAmount(coin), 8) }
  predicate WithinText(coin: TxMachine.Coin) { FeeExtent(coin) <= 80 }

  /**
   `__dsp_st_free_init`, for any two sums.  `text` is the memory from `text` on.  The fee text is there, and everything
   from its start to a last terminator is written, inside `text` or not.
   */
  method ShowFee(fromAmount: U256, toAmount: U256, text: array<char>, ghost coin: TxMachine.Coin)
    requires fromAmount.Valid() && toAmount.Valid() && text.Length >= 85
    requires fromAmount.V() == coin.fromAmount && toAmount.V() == coin.toAmount
    modifies text
    ensures Holds(text, 0, FeeText(coin)) && FeeExtent(coin) <= text.Length
    ensures FeeScreen(FeeText(coin), (coin.fromAmount - coin.toAmount) % TxMachine.AMOUNT_MODULUS)
    ensures Only(old(text[..]), text, 0, FeeExtent(coin)) && text[FeeExtent(coin) - 1] == '\0'
    ensures WithinText(coin) ==> text[80..] == old(text[80..])
  {
    hide U256.V, Decimals, Numeral, LongRoom, Laid, FeeScreen;
    var difference := new U256();
    Sub256(fromAmount, toAmount, difference);
    ghost var fee := FeeAmount(coin);
    FeeScreenIs(coin);
    PutLabel(text);
    AmountIsShown(fee, 8);
    ConvMount2(difference, text, 5, 8);
    Labelled(text, AmountText(fee, 8));
  }

  /** The fee screen for a fee of `n`, in units of 100,000,000. */
  ghost predicate FeeScreen(t: string, n: nat) {
    var whole := "NULS " + Numeral(n / 100_000_000, 10);
    if n % 100_000_000 == 0 then t == whole
    else |whole| + 1 < |t| && t[..|whole| + 1] == whole + "." && Remaining(t[|whole| + 1..], n % 100_000_000, 8)
  }

  lemma FeeScreenIs(coin: TxMachine.Coin)
    ensures FeeScreen(FeeText(coin), FeeAmount(coin))
  {
    hide Decimals, Numeral, Remaining;
    var t, n := AmountText(FeeAmount(coin), 8), FeeAmount(coin);
    TextOfNumber(n, 8);
    EightPlaces();
    var whole := Numeral(n / 100_000_000, 10);
    if n % 100_000_000 != 0 {
      assert ("NULS " + t)[..|"NULS " + whole| + 1] == "NULS " + t[..|whole| + 1];
      assert ("NULS " + t)[|"NULS " + whole| + 1..] == t[|whole| + 1..];
    }
  }

  lemma EightPlaces()
    ensures Pow(10, 8) == 100_000_000
  {
    assert Pow(10, 4) == 10_000;
    hide Pow;
    PowAdd(10, 4, 4);
  }

  /** A fee of 100,000 is shown as a thousandth. */
  lemma FeeScreenExample(coin: TxMachine.Coin)
    requires FeeAmount(coin) == 100_000
    ensures FeeText(coin) == "NULS 0.001"
  {
    hide Decimals;
    HundredThousand();
    Thousandth();
  }

  /** The fee screen stays inside `text` exactly for fees below 10^73 of the smallest unit. */
  lemma TextFits(coin: TxMachine.Coin)
    ensures WithinText(coin) <==> FeeAmount(coin) < Pow(10, 73)
  {
    hide Numeral, Pow;
    NumeralFits(FeeAmount(coin), 10, 73);
    EightDecimals(Numeral(FeeAmount(coin), 10));
  }

  lemma EightDecimals(s: string)
    requires s != ""
    ensures 5 + Extent(s, 8) <= 80 <==> |s| <= 73
    ensures Extent(s, 8) == RoomNeeded(s, 8)
  {
  }

  /** `strcpy(text, "NULS ")`, but for the terminator that is overwritten next. */
  method PutLabel(text: array<char>)
    requires text.Length >= 5
    modifies text
    ensures text[0..5] == "NULS " && Only(old(text[..]), text, 0, 5)
  {
    text[0], text[1], text[2], text[3], text[4] := 'N', 'U', 'L', 'S', ' ';
  }

  lemma Labelled(text: array<char>, amount: string)
    requires text.Length >= 5 && text[0..5] == "NULS " && Holds(text, 5, amount)
    ensures Holds(text, 0, "NULS " + amount)
  {
    assert text[0..5 + |amount|] == text[0..5] + text[5..5 + |amount|];
  }

  /** The amount the fee screen shows, in the smallest unit. */
  function FeeShown(coin: TxMachine.Coin): nat {
    Scaled(FeeText(coin)[5..], 8)
  }

  /**
   The screen shows the difference modulo 2^256, which is what the inputs exceed the outputs by exactly when they exceed
   them, by less than 2^256: the single sums may well wrap around.  The screen stays inside `text` exactly when the
   difference modulo 2^256 is below 10^73, and does both exactly for differences from 0 to below 10^73.
   */
  lemma FeeIsExact(coin: TxMachine.Coin, tx: Transaction)
    requires Meaning.SumsOf(coin, tx)
    ensures var fee := SourceSum(tx.sources) - TargetSum(tx.targets);
            && FeeScreen(FeeText(coin), fee % TxMachine.AMOUNT_MODULUS)
            && (FeeShown(coin) == fee <==> 0 <= fee < TxMachine.AMOUNT_MODULUS)
            && (WithinText(coin) <==> fee % TxMachine.AMOUNT_MODULUS < Pow(10, 73))
            && (FeeShown(coin) == fee && WithinText(coin) <==> 0 <= fee < Pow(10, 73))
  {
    hide FeeShown, WithinText, SourceSum, TargetSum, Pow, FeeScreen, FeeText;
    var m := TxMachine.AMOUNT_MODULUS;
    var fee: int := SourceSum(tx.sources) - TargetSum(tx.targets);
    FeeShownIs(coin);
    FeeScreenIs(coin);
    ExactDifference(SourceSum(tx.sources), TargetSum(tx.targets), m);
    DifferenceOfRemainders(SourceSum(tx.sources), TargetSum(tx.targets), m);
    TextFits(coin);
    LimitBelowModulus();
    if 0 <= fee < m {
      DivisionIsUnique(fee, m, 0, fee);
    }
  }

  lemma LimitBelowModulus()
    ensures Pow(10, 73) < M256
  {
    assert Pow(10, 1) == 10 && Pow(10, 2) == 100 && Pow(10, 3) == 1000;
    hide Pow;
    PowAdd(10, 3, 3);
    PowAdd(10, 6, 6);
    assert Pow(10, 12) == 1_000_000_000_000;
    PowAdd(10, 12, 12);
    assert Pow(10, 24) == 1_000_000_000_000_000_000_000_000;
    PowAdd(10, 24, 24);
    PowAdd(10, 48, 24);
    PowAdd(10, 72, 1);
  }

  lemma FeeShownIs(coin: TxMachine.Coin)
    ensures FeeShown(coin) == FeeAmount(coin)
  {
    hide Scaled, AmountText;
    AmountTextDenotes(FeeAmount(coin), 8);
    assert FeeText(coin)[5..] == AmountText(FeeAmount(coin), 8);
  }

  lemma ExactDifference(s: nat, t: nat, m: nat)
    requires m > 0
    ensures (s % m - t % m) % m == s - t <==> 0 <= s - t < m
  {
    DifferenceOfRemainders(s, t, m);
    if 0 <= s - t < m {
      DivisionIsUnique(s - t, m, 0, s - t);
    }
  }

  lemma DifferenceOfRemainders(s: nat, t: nat, m: nat)
    requires m > 0
    ensures (s % m - t % m) % m == (s - t) % m
  {
    var k := s / m - t / m;
    Rejoined(s, m);
    Rejoined(t, m);
    assert s - t == (s % m - t % m) + k * m;
    DivisionPlus(s % m - t % m, m, k);
  }

  /** The fee screen of a review against the transaction that was hashed. */
  ghost predicate FeeOf(session: Chunks.Session) {
    var coin, f := session.st.coin, Parse(session.hashed);
    && f.Got? && f.rest == [] && Device.AsDocumented(session.hashed)
    && var fee := SourceSum(f.value.sources) - TargetSum(f.value.targets);
       && FeeScreen(FeeText(coin), fee % TxMachine.AMOUNT_MODULUS)
       && (FeeShown(coin) == fee <==> 0 <= fee < TxMachine.AMOUNT_MODULUS)
       && (WithinText(coin) <==> fee % TxMachine.AMOUNT_MODULUS < Pow(10, 73))
       && (FeeShown(coin) == fee && WithinText(coin) <==> 0 <= fee < Pow(10, 73))
  }

  /**
   From the chunks to the screen, for every type and cutting: the fee shown belongs to the transaction that was hashed,
   read as the source reads it, which is as documented if the announced lengths hold.
   */
  lemma FeeOfReview(arena: TxMachine.Arena, chunks: seq<seq<Byte>>)
    requires chunks != [] && arena.Valid()
    requires Chunks.Sign(Chunks.Opened(arena), chunks).reply == Chunks.Review
    ensures FeeOf(Chunks.Sign(Chunks.Opened(arena), chunks).session)
  {
    hide Parse, Chunks.Sign, FeeShown, WithinText, SourceSum, TargetSum, Meaning.SumsOf, Pow, Meaning.HasBlocks;
    hide Device.AsDocumented, FeeScreen;
    Device.ReviewLists(arena, chunks);
    var session := Chunks.Sign(Chunks.Opened(arena), chunks).session;
    FeeIsExact(session.st.coin, Parse(session.hashed).value);
  }

  /**
   A transfer without inputs is reviewed, too.  Its difference is negative, the amount shown is what 2^256 exceeds the
   output by, and the screen stays inside `text` only if that is below 10^73.
   */
  lemma WrappedFee(arena: TxMachine.Arena, address: seq<Byte>, amount: seq<Byte>)
    requires arena.Valid() && |address| <= 40 && |amount| == 32 && LittleEndian(amount) > 0
    ensures var fed := Chunks.Sign(Chunks.Opened(arena), [LoneOutput.Lone(address, amount)]);
            && Device.Reviewed(fed, [LoneOutput.Lone(address, amount)])
            && FeeShown(fed.session.st.coin) == TxMachine.AMOUNT_MODULUS - LittleEndian(amount)
            && (WithinText(fed.session.st.coin) <==> TxMachine.AMOUNT_MODULUS - LittleEndian(amount) < Pow(10, 73))
  {
    hide Chunks.Sign, FeeShown, WithinText, Pow, LoneOutput.Sized, Meaning.Reviews, LittleEndian, FeeAmount;
    hide LoneOutput.LoneTransaction, SourceSum, TargetSum, Device.Reviewed, Parse, Documented.ParseDocumented;
    var tx := LoneOutput.LoneTransaction(address, amount);
    Device.WrongLengthsReviewed(arena, 0, |address| + 47, address, amount);
    var st := Chunks.Sign(Chunks.Opened(arena), [LoneOutput.Lone(address, amount)]).session.st;
    SumsReviewed(st, tx);
    LoneSums(address, amount);
    FeeShownIs(st.coin);
    TextFits(st.coin);
    WrappedAmount(st.coin, LittleEndian(amount));
  }

  lemma SumsReviewed(st: TxMachine.State, tx: Transaction)
    requires Meaning.Reviews(st, tx)
    ensures st.coin.fromAmount == SourceSum(tx.sources) % TxMachine.AMOUNT_MODULUS
    ensures st.coin.toAmount == TargetSum(tx.targets) % TxMachine.AMOUNT_MODULUS
  {
  }

  lemma WrappedAmount(coin: TxMachine.Coin, t: nat)
    requires coin.fromAmount == 0 && coin.toAmount == t % TxMachine.AMOUNT_MODULUS && 0 < t < TxMachine.AMOUNT_MODULUS
    ensures FeeAmount(coin) == TxMachine.AMOUNT_MODULUS - t
  {
    var m := TxMachine.AMOUNT_MODULUS;
    var v: int := t;
    DivisionIsUnique(v, m, 0, v);
    DivisionIsUnique(-v, m, -1, m - v);
  }

  lemma LoneSums(address: seq<Byte>, amount: seq<Byte>)
    requires |amount| == 32
    ensures var tx := LoneOutput.LoneTransaction(address, amount);
            SourceSum(tx.sources) == 0 && TargetSum(tx.targets) == LittleEndian(amount) < TxMachine.AMOUNT_MODULUS
  {
    hide LittleEndian, Pow256;
    ThirtyTwoBytes(amount);
    var t := LoneOutput.LoneTransaction(address, amount).targets;
    assert t[1..] == [];
    assert TargetSum(t[1..]) == 0;
  }

  lemma Squared()
    ensures Uint128.M128 * Uint128.M128 == TxMachine.AMOUNT_MODULUS
  {
  }

  lemma ThirtyTwoBytes(amount: seq<Byte>)
    requires |amount| == 32
    ensures LittleEndian(amount) < TxMachine.AMOUNT_MODULUS
  {
    hide Pow, LittleEndian;
    PowersOf16();
    PowAdd(256, 16, 16);
    hide *;
    Squared();
  }

  /** One unit too much in the outputs, and the text no longer fits. */
  lemma WrappedFeeExample(arena: TxMachine.Arena, address: seq<Byte>)
    requires arena.Valid() && |address| <= 40
    ensures var amount := [1] + TxMachine.Zeros(31);
            var fed := Chunks.Sign(Chunks.Opened(arena), [LoneOutput.Lone(address, amount)]);
            fed.reply == Chunks.Review && !WithinText(fed.session.st.coin)
  {
    hide Chunks.Sign, FeeShown, WithinText, Pow, LoneOutput.Sized;
    var amount: seq<Byte> := [1] + TxMachine.Zeros(31);
    OneUnit();
    WrappedFee(arena, address, amount);
    LimitBelowModulus();
  }

  lemma OneUnit()
    ensures LittleEndian([1] + TxMachine.Zeros(31)) == 1
  {
    assert ([1] + TxMachine.Zeros(31))[1..] == TxMachine.Zeros(31);
    ZeroBytes(31);
  }

  lemma {:induction false} ZeroBytes(n: nat)
    ensures LittleEndian(TxMachine.Zeros(n)) == 0
  {
    if n > 0 {
      assert TxMachine.Zeros(n)[1..] == TxMachine.Zeros(n - 1);
      ZeroBytes(n - 1);
    }
  }

  // ---------------------------------------------------------------- the transfer of doc/TRANSACTION.md, line 81

  const SENDER: seq<Byte> :=
    [0x01, 0x00, 0x01, 0xB2, 0xA7, 0x4C, 0x73, 0xB3, 0xD6, 0x3C, 0xEA, 0xE3] +
    [0x61, 0xF0, 0x5E, 0x00, 0x35, 0x51, 0x15, 0xD0, 0x25, 0x5D, 0x3F]
  const RECEIVER: seq<Byte> :=
    [0x01, 0x00, 0x01, 0xAC, 0xA5, 0x53, 0x21, 0x5D, 0x60, 0x6C, 0x66, 0x3C] +
    [0xAC, 0x99, 0xE8, 0x50, 0x3A, 0xBE, 0x19, 0xF7, 0x62, 0x89, 0xEB]

  function Amount(low: seq<Byte>): (amount: seq<Byte>)
    requires |low| == 4
    ensures |amount| == 32
  {
    low + TxMachine.Zeros(28)
  }

  function Demonstration(): Wire.Message {
    Wire.Message(2, [0xD0, 0xF9, 0xFE, 0x63], [], Wire.Plain([]),
                 [Wire.Input(Source(SENDER, Asset(1, 1), Amount([0x00, 0x5D, 0x88, 0x06])), TxMachine.Zeros(8), 0)],
                 [Wire.Output(Target(RECEIVER, Asset(1, 1), Amount([0x60, 0xD6, 0x86, 0x06])), TxMachine.Zeros(8))])
  }

  lemma AmountIs(low: seq<Byte>)
    requires |low| == 4
    ensures LittleEndian(Amount(low)) == LittleEndian(low)
  {
    hide LittleEndian, Pow256;
    LittleEndianConcat(low, TxMachine.Zeros(28));
    ZeroBytes(28);
    TimesZero(Pow256(|low|));
  }

  lemma TimesZero(p: nat)
    ensures p * 0 == 0
  {
  }

  lemma DemonstrationOk()
    ensures Wire.MessageOk(Demonstration()) && |Wire.Written(Demonstration())| == 149
    ensures |Wire.PutCoins(Demonstration())| == 140
  {
    var m := Demonstration();
    assert Wire.MessageOk(m);
    var i, o := m.inputs[0], m.outputs[0];
    assert m.inputs[1..] == [] && m.outputs[1..] == [];
    var last := Wire.PutOutputs(m.outputs, []);
    assert last == Wire.PutOutput(o, []);
    OutputLength(o);
    var y := [1] + last;
    assert Wire.PutInputs(m.inputs, y) == Wire.PutInput(i, y);
    InputLength(i, y);
    var coins := Wire.PutCoins(m);
    assert coins == [1] + Wire.PutInput(i, y);
    hide Wire.PutCoins;
    SizedLength(coins, []);
    SizedLength([], Wire.Sized(coins, []));
    SizedLength([], Wire.Sized([], Wire.Sized(coins, [])));
  }

  lemma SizedLength(d: seq<Byte>, y: seq<Byte>)
    requires |d| < 0xFD
    ensures |Wire.Sized(d, y)| == 1 + |d| + |y|
  {
  }

  lemma OutputLength(o: Wire.Output)
    requires Wire.OutputOk(o) && |o.target.address| == 23
    ensures |Wire.PutOutput(o, [])| == 68
  {
    hide Wire.Sized;
    SizedLength(o.target.address, Wire.PutAsset(o.target.asset, o.target.amount + (o.lockTime + [])));
  }

  lemma InputLength(i: Wire.Input, y: seq<Byte>)
    requires Wire.InputOk(i) && |i.source.address| == 23 && |i.nonce| == 8
    ensures |Wire.PutInput(i, y)| == 70 + |y|
  {
    hide Wire.Sized;
    var z := Wire.Sized(i.nonce, [i.locked] + y);
    SizedLength(i.nonce, [i.locked] + y);
    SizedLength(i.source.address, Wire.PutAsset(i.source.asset, i.source.amount + z));
  }

  lemma DemonstrationSums()
    ensures var tx := Wire.Content(Demonstration());
            SourceSum(tx.sources) == 109_600_000 && TargetSum(tx.targets) == 109_500_000
  {
    hide LittleEndian, Amount;
    AmountIs([0x00, 0x5D, 0x88, 0x06]);
    FourBytes([0x00, 0x5D, 0x88, 0x06]);
    AmountIs([0x60, 0xD6, 0x86, 0x06]);
    FourBytes([0x60, 0xD6, 0x86, 0x06]);
    var tx := Wire.Content(Demonstration());
    assert tx.sources[1..] == [] && tx.targets[1..] == [];
    assert SourceSum(tx.sources[1..]) == 0 && TargetSum(tx.targets[1..]) == 0;
  }

  /** In one chunk it is reviewed as it is, with a fee of a thousandth. */
  lemma DemonstrationReviewed(arena: TxMachine.Arena)
    requires arena.Valid()
    ensures var chunks := [Wire.Written(Demonstration())];
            var fed := Chunks.Sign(Chunks.Opened(arena), chunks);
            && Device.Reviewed(fed, chunks) && Meaning.Reviews(fed.session.st, Wire.Content(Demonstration()))
            && FeeText(fed.session.st.coin) == "NULS 0.001"
  {
    hide Chunks.Sign, Meaning.Reviews, SourceSum, TargetSum, FeeText, Meaning.Supported, Device.Reviewed;
    var m, b := Demonstration(), Wire.Written(Demonstration());
    DemonstrationOk();
    DemonstrationSupported();
    hide Wire.Written, Demonstration, Wire.MessageOk, Wire.Content;
    OneChunk(b);
    Wire.WrittenIsReviewed(arena, m, [b]);
    var st := Chunks.Sign(Chunks.Opened(arena), [b]).session.st;
    SumsReviewed(st, Wire.Content(m));
    DemonstrationSums();
    FeeIsExact(st.coin, Wire.Content(m));
    FeeShownIs(st.coin);
    FeeScreenExample(st.coin);
  }

  lemma DemonstrationSupported()
    ensures Meaning.Supported(Wire.Content(Demonstration()))
  {
    Meaning.SupportedExactly(Wire.Content(Demonstration()));
  }

  lemma OneChunk(b: seq<Byte>)
    requires |b| <= 300
    ensures Chunks.Concat([b]) == b && Buffering.ChunksFit([b])
  {
    assert [b][1..] == [];
    assert b + [] == b;
  }
}
