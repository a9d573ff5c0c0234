# What the NULS signing app computes

A Dafny model of the parts of the app that decide what is signed and what is shown: the resumable transaction parser and
the chunk loop that feeds it, the 128- and 256-bit arithmetic behind the amounts, the decimal text of an amount and of the
fee, Base58 and the address text, and the framing of signed messages.

`dafny verify dfyconfig.toml` checks the whole project.

## How it is built

**The parser.** `TxMachine.Run` is the parser as an automaton: what the next field demands (`Want`), what its bytes do
(`Take...`), and how a run over some bytes ends: accepted, refused, short of bytes (`PARSING_LENGTH_ERROR`) or short of
the rest of a field whose length is known (`PARSING_VALUE_ERROR`). `Deserialize.Transaction` is the code itself: a class
with the saved `stack_index` fields, the fall-through switches and the loops, all updated in place over the 400-byte
arena of `Buffer.Heap`. Each switch label is one method; each promises that what is left to do equals what was to be done
(`ending`), so that `Deserialize` computes exactly `Run`. `SignTx.Context` is the handler around it, proved against one
step of the chunk loop, `Chunks.Feed`.

**What it means.** `Grammar.Parse` is an independent reference: the transaction format as the code reads it, as a plain
recursive parser over a whole byte string, with no arena and nothing resumed. `Documented.ParseDocumented` is the format
of `doc/TRANSACTION.md`, in which every field, txData and coinData included, takes exactly its announced length. The main
theorems are
- `Resume.Resume`: cutting the input anywhere and resuming on the kept bytes, or on the re-encoded count of missing
  bytes, goes on as if the input had never been cut;
- `Chunks.ChunkingInvariance`, `Chunks.ReviewIsOnePass` and `Chunks.InteriorChunks`: over every cutting with interior
  chunks not shorter than a split address, the device reviews exactly what one pass over the whole accepts and the
  300-byte buffer holds, in the same state, arena included;
- `AnyCut.AnyCutting`: for every type but contract calls acceptance, sums, outputs and lengths survive any cutting, even
  one byte at a time, as long as one pass stays inside the arena (`Safety.StrayHidden`: not without that);
- `Pieces.MisplacedPieces`, `Pieces.SeenExactly` and `Pieces.MisplacedAddress`: the bytes of a copied field in any number
  of pieces, whatever their lengths, are stored right exactly when, byte for byte, the last piece laid over each says so;
  a run that brings an address in pieces reaches the review with what the block shows;
- `Budget.OutputsOwnTheirSlots`: all announced outputs, at most five, in disjoint parts of the arena;
- `Forgetful.ArenaForgotten`: nothing an earlier run left in the arena is in what a later one hands out;
- `Safety.StraysExactly`, `Device.UndefinedExactly`: a pass leaves the arena exactly when one of its copied fields ends
  behind byte 400, and a run of any cutting exactly when the pass over the bytes it shows does;
- `Meaning.OnePassMeaning`: one pass accepts exactly the supported transactions of the grammar and holds their fields;
- `Device.ShownExactly`: a run of any type and cutting is one pass over the bytes it shows, in which every copied field
  that came in pieces stands as its block shows it: all chunks are reviewed exactly when those bytes are a supported
  transaction and the chunks fit the buffer, and `Device.HashedExactly` says when that is the transaction hashed;
- `Device.ReviewLists`: whatever the type and the cutting, type, sums, assets and amounts under review are those of the
  hashed bytes; only addresses, method name and arguments can be others;
- `Device.ReviewIsFaithful`, `Device.ReviewedExactly`: after a clean run everything under review is what `Grammar.Parse`
  reads from exactly the hashed bytes;
- `Device.PlainIsReached`: a supported transaction that is no contract call is reviewed in any chunks of at most 269
  bytes;
- `Device.CleanlyReviewableExactly`: a transaction can be cut cleanly so that it is reviewed exactly when it is supported
  and no argument it keeps is longer than the buffer;
- `Device.ReviewableExactly`, `Device.SentBytewise`: without that care, one byte at a time, everything is reviewed that
  the grammar reads and whose outputs have blocks, a call without its arguments;
- `Documented.DocumentedExactly`: the documented format reads the same transaction from the same bytes if and only if
  txData and coinData take the announced numbers of bytes and every other announced length is below 2^32;
- `Wire.WrittenIsRead`, `Wire.WrittenIsReviewed`: any message serialised as documented is read back field by field, and
  reviewed with exactly those fields if it is supported; `Meaning.SupportedExactly` says in literal names and sizes when;
- `CallPass.StyleExactly`, `Names.StrEqual`: the two transfers are told from all other methods by the characters before
  the first NUL of the name;
- `Fee.FeeOfReview`: for every type and cutting, the amount on the fee screen is inputs minus outputs of the hashed
  transaction exactly when that difference is at least 0 and below 2^256, and it is written inside `text` as well exactly
  when it is below 10^73; `Fee.FeeScreen` says character by character what is shown, with the eight decimals of NULS.

**Numbers.** `Uint128` and `Uint256` are the source's numbers as objects that may be operand and target at once.
Every operation is proved to be the integer operation modulo 2^128 or 2^256; division (`Divmod256`) also in the
aliased form `tostring256` uses. `Numerals` and `Format` turn them into text, and the text is proved to read back as
the number and to be the only such text. With up to 77 decimals no 256-bit amount is refused; how far the text then
reaches is stated with it, because the display code announces more room than its buffer has.

**Base58.** `Base58` holds the specification (a change of base that keeps leading zeros), both tables, the round trips and
the size estimates, all of which rest on 256^30 <= 58^41; `Base58Code` is the code, with its early-exit carry loop.
Alphabet and algorithms are those of draft-msporny-base58-02, sections 2 to 4. `Address` adds the checksum byte and the
fixed length of 32 characters.

**Messages.** `SignNs` is the second handler: signing is reached exactly when as many bytes have been hashed as the four
bytes of the first chunk say (`SignNs.MessageSigned`), and the hashed frame determines the message.

**Bytes.** What all of this rests on is stated once more in plain terms: place values
(`Bytes.FourBytes`, `Bytes.PlaceOf`, `Radix.DigitAt`, `Numerals.DigitOfNumber`), bits (`Powers.OrBits`,
`Address.XorIsParity`), characters (`Base58.AlphabetRuns`, `Numerals.DigitCodes`) and the bytes of a varint.

Hashes are abstract: a handler holds the sequence of the bytes it has fed to the hash. `size_t` has 32 bits, as on the
device, and every truncation of a 64-bit length to it is written out.

## Where code and documentation differ

- `doc/TRANSACTION.md` describes txData and coinData as a length and as many bytes. The code reads the length of the
  coinData always, and that of the txData for types 2, 10 and 16, and ignores it: the transfers have no txData of their
  own, and a contract call and the coin data are read field by field whatever length was announced. `Grammar` follows the
  code; `Documented.DocumentedExactly` is the exact condition under which the two formats agree, and
  `Device.WrongLengthsReviewed` a family of inputs that are reviewed although they do not.
- Lengths are varints of up to 64 bits, of which the device uses 32: a field announced with 2^32 bytes is read as an empty
  one (`Documented.FieldIsExact`, `Documented.WideField`). `Device.WideRemarkReviewed` is a transaction that is reviewed
  with such a length.
- A chunk has to fit 300 bytes behind what is kept (`src/handler/sign_tx.c:70-73`), and of a kept argument all that is
  there is kept. Under a clean cutting an argument of 301 to 304 bytes, for which the arena has room, so never gets
  through (`Device.OversizedCall`).
- A method name in three pieces or more may be stored, and so told apart, as another one. Its arguments are then skipped
  instead of kept, so that calls with longer arguments, and calls that are not supported, reach the review, too, with all
  their bytes hashed and no argument shown (`Device.OversizedCall`, `Device.SentBytewise`).
- The fee screen writes its label and then announces 80 characters behind it, while `text` has 80 in all
  (`src/ui/bagl_display.c:74`, `440`). From 10^73 of the smallest unit on the text goes on behind `text`
  (`Fee.TextFits`); every transaction whose outputs exceed its inputs a little is such a one (`Fee.WrappedFee`).
- An address or method name longer than its 40-byte block is copied all the same
  (`src/transaction/tx_call_contract.c:222`, `src/transaction/deserialize.c:272`). `Safety.StraysExactly` says when that
  leaves the arena, `Safety.StrayExample` is a run that does.
- The clamp of `to_len` to five (`src/transaction/deserialize.c:396-399`) is proved never to take effect: a sixth output
  does not fit the arena and is refused before.
- `shiftr128` by exactly 64 onto the number itself gives 0 instead of the upper half (`src/common/uint128.c:74-76`);
  `Uint128.Shiftr128` says so. No caller shifts that way.
- An address or method name in three pieces or more is put together wrongly, because the offset kept between chunks is
  the length of the last piece only (`src/transaction/deserialize.c:272`, `src/transaction/tx_call_contract.c:222`).
  `Pieces.ThreePieces`, `Pieces.MisplacedPieces` and `Pieces.SeenExactly` are the exact conditions,
  `Pieces.MisplacedExample` a signing run in which the address 1, 2, 3 is reviewed as 1, 3, 0, and `Device.ShownExactly`
  what any run then reviews.

## Model

| member | source | states |
|---|---|---|
| Bytes.PlaceOf | src/common/read.c:43-64 | byte k of a little-endian number is its digit at 256^k |
| Bytes.FourBytes | src/common/read.c:25-53 | four bytes spelled out, with the lowest first and with the highest first |
| Varint.RoundTrip | src/common/varint.c:25-101 | reading back what was written gives the value and its size, for every 64-bit value and whatever bytes follow |
| Varint.ReadBytes | src/common/varint.c:41-75 | what a varint says byte by byte: below 0xFD the byte itself, else two, four or eight bytes, each with its place value, or too few of them |
| Varint.WrittenBytes | src/common/varint.c:25-101 | which of one, three, five or nine bytes a value takes, and every one of them |
| Varint.Stable | src/common/varint.c:41-75 | a varint that is completely there reads the same when more bytes arrive |
| Varint.VarintRead | src/common/varint.c:41-75 | -1 exactly when bytes are missing, else value and length of the varint at the head |
| Varint.VarintWrite | src/common/varint.c:77-101 | prefix byte and little-endian value at the offset, nothing else touched |
| Buffer.Cursor.SeekCur | src/common/buffer.c:77-86 | advances exactly when as many bytes are unread, also where the 32-bit sum overflows |
| Buffer.Cursor.ReadU8 | src/common/buffer.c:112-123 | next byte, or 0 and no movement |
| Buffer.Cursor.ReadU16 | src/common/buffer.c:125-138 | low + 256 * high of the next two bytes, or 0 and no movement |
| Buffer.Cursor.ReadU32 | src/common/buffer.c:140-153 | the next four bytes, each with its place value, the lowest first, or 0 and no movement |
| Buffer.Cursor.ReadU32BE | src/common/buffer.c:140-153 | the next four bytes, each with its place value, the highest first, or 0 and no movement |
| Buffer.Cursor.ReadVarint | src/common/buffer.c:170-182 | the varint at the cursor and the bytes behind it, or 0 and no movement |
| Buffer.Cursor.SpcMove | src/common/buffer.c:219-230 | copies and consumes the bytes, or refuses and changes nothing |
| Buffer.Heap.Init | src/common/buffer.c:36-44 | the arena is handed out from its start again, its bytes unchanged |
| Buffer.Heap.Alloc | src/common/buffer.c:46-60 | the next zeroed block, or none when the arena is used up |
| Deserialize.SpcField | src/transaction/deserialize.c:60-104 | a field of known length is copied or skipped, or nothing is consumed when bytes are missing |
| Deserialize.VarField | src/transaction/deserialize.c:107-164 | a field with its own length: copied or skipped; when cut, what is there is taken and the number of missing bytes kept |
| Deserialize.Transaction.FromSkipped | src/transaction/deserialize.c:188-193 | the address and nonce labels of an input skip their field or stop where the automaton stops |
| Deserialize.Transaction.FromChain | src/transaction/deserialize.c:195-201 | the chain id label of an input keeps what is left to do |
| Deserialize.Transaction.FromAsset | src/transaction/deserialize.c:204-210 | the asset id label of an input keeps what is left to do |
| Deserialize.Transaction.FromAmount | src/transaction/deserialize.c:212-227 | the amount label of an input reads 32 bytes and adds them for asset 1-1, as the automaton does |
| Deserialize.Transaction.FromLocked | src/transaction/deserialize.c:234-243 | the last label of an input frees its slot for the next one |
| Deserialize.Transaction.CoinFrom | src/transaction/deserialize.c:179-247 | one input, entered at any label: either it is read and what is left is the next input, or it stops as the automaton does; no other slot changes |
| Deserialize.Transaction.ToAddress | src/transaction/deserialize.c:264-274 | the address label of an output takes its block once and reads the address, or the piece that is there, behind the last piece |
| Deserialize.Transaction.ToChain | src/transaction/deserialize.c:276-282 | the chain id label of an output keeps what is left to do |
| Deserialize.Transaction.ToAsset | src/transaction/deserialize.c:284-290 | the asset id label of an output keeps what is left to do |
| Deserialize.Transaction.ToAmount | src/transaction/deserialize.c:292-311 | the amount label of an output takes its block once, reads 32 bytes into it and adds them for asset 1-1 |
| Deserialize.Transaction.ToLockTime | src/transaction/deserialize.c:313-323 | the last label of an output ends it and clears the address length |
| Deserialize.Transaction.CoinTo | src/transaction/deserialize.c:258-325 | one output, entered at any label: read, refused for lack of room, or stopped as the automaton does; no other slot changes |
| Deserialize.Transaction.FromLoop | src/transaction/deserialize.c:353-369 | the loop over the inputs, those past the fifth sharing one slot, runs as the automaton does |
| Deserialize.Transaction.ToLoop | src/transaction/deserialize.c:380-399 | the loop over the outputs runs as the automaton does, and the clamp after it never changes the count |
| Deserialize.Transaction.CountFrom | src/transaction/deserialize.c:343-351 | the number of inputs opens their loop |
| Deserialize.Transaction.CountTo | src/transaction/deserialize.c:371-378 | the number of outputs opens their loop |
| Deserialize.Transaction.Coin | src/transaction/deserialize.c:336-407 | the coin data from any saved label: accepted, refused or stopped exactly as the automaton |
| Deserialize.Transaction.CallSkipped | src/transaction/tx_call_contract.c:181-186 | sender, gas limit and gas price are skipped, or the parser stops at them |
| Deserialize.Transaction.CallAddress | src/transaction/tx_call_contract.c:187-195 | contract address: its block is taken once, 23 bytes are read into it |
| Deserialize.Transaction.CallValue | src/transaction/tx_call_contract.c:196-204 | value: its block is taken once, 32 bytes are read into it |
| Deserialize.Transaction.CallName | src/transaction/tx_call_contract.c:215-224 | method name: its block is taken once, a cut name goes on behind its last piece |
| Deserialize.Transaction.CallDescription | src/transaction/tx_call_contract.c:226-230 | method description: skipped, or the parser stops at it |
| Deserialize.Transaction.CallCount | src/transaction/tx_call_contract.c:231-238 | the number of arguments opens their loop |
| Deserialize.Transaction.KeptCount | src/transaction/tx_call_contract.c:35-46 | an argument that is kept must have exactly one element; anything else is refused |
| Deserialize.Transaction.KeptLength | src/transaction/tx_call_contract.c:47-56 | the element's length takes a block with room for a terminator, or is refused |
| Deserialize.Transaction.KeptValue | src/transaction/tx_call_contract.c:57-62 | the element and its terminator are written to its block |
| Deserialize.Transaction.Kept | src/transaction/tx_call_contract.c:17-127 | one argument of `transfer` or `transferFrom`, from any saved label, as the automaton reads it |
| Deserialize.Transaction.Dimensional | src/transaction/tx_call_contract.c:130-158 | one argument of any other method, from any saved label: its elements are skipped |
| Deserialize.Transaction.Argument | src/transaction/tx_call_contract.c:244-255 | one argument is kept, or skipped, as two `strcmp` with the literal names say |
| Deserialize.Transaction.ArgLoop | src/transaction/tx_call_contract.c:239-261 | the loop over the arguments, told apart by the method name with `strcmp`, runs as the automaton does |
| Deserialize.Transaction.CallContractData | src/transaction/tx_call_contract.c:174-269 | the contract data from any saved label: read, refused or stopped exactly as the automaton |
| Deserialize.Transaction.ReadType | src/transaction/deserialize.c:460-472 | the type chooses the reader of the txData and gives the arena back |
| Deserialize.Transaction.ReadDataLength | src/transaction/deserialize.c:491-506 | txData of an unknown type is skipped as one field; for a known type only its length is read |
| Deserialize.Transaction.ReadData | src/transaction/deserialize.c:508-515 | the txData of a contract call is read, that of a transfer is empty |
| Deserialize.Transaction.ReadCoinLength | src/transaction/deserialize.c:516-523 | the length of the coin data is read and the coin machine starts afresh |
| Deserialize.Transaction.Deserialize | src/transaction/deserialize.c:452-536 | status, unread bytes, missing bytes and the whole new state are those of `TxMachine.Run` from the old state on the unread bytes |
| Resume.StepStable | src/transaction/deserialize.c:107-164 | more input changes no step that did not run out of input |
| Resume.FieldResumes | src/transaction/deserialize.c:107-164 | after a field was cut, the varint of the missing bytes followed by them leads to the state the uncut field leads to |
| Resume.LackBound | src/transaction/deserialize.c:119-145 | a cut field misses at least one byte and fewer than 2^32 |
| Resume.Resume | src/handler/sign_tx.c:105-113 | cutting the input anywhere and resuming on what was kept ends as one run over the whole, for every state between two fields |
| Chunks.ChunkingInvariance | src/handler/sign_tx.c:70-126 | over every clean cutting the device reviews all of the chunks exactly when one pass over them accepts without rest and every chunk fits the buffer, and then in the same state |
| Chunks.ReviewIsOnePass | src/handler/sign_tx.c:105-136 | after a clean run whatever is reviewed, also while more chunks are announced, is one pass over exactly the hashed bytes |
| Chunks.AcceptedIsPrefixFree | src/handler/sign_tx.c:114-119 | an accepted whole followed by more bytes is accepted at the same place with those bytes left over |
| Chunks.HashedIsPrefix | src/handler/sign_tx.c:76-77 | at the review the hashed bytes are the concatenation of the chunks taken so far, for any chunks, and those chunks alone lead to the same review |
| Chunks.HalfCopied | src/transaction/deserialize.c:119-130 | if no field of the whole is longer than a limit, a field left half copied misses no more than the limit leaves |
| Chunks.InteriorChunks | src/transaction/deserialize.c:272 | interior chunks as long as the longest address less one make every cutting clean |
| Budget.LayoutStep | src/transaction/deserialize.c:267-297 | every step keeps the arena's layout: blocks one after the other, two for each output |
| Budget.LayoutRun | src/transaction/deserialize.c:267-297 | every run keeps the arena's layout |
| Budget.LayoutSign | src/handler/sign_tx.c:70-123 | every chunked run keeps the arena's layout |
| Budget.OutputsOwnTheirSlots | src/common/buffer.c:36-60 | at every review there are as many outputs as announced, at most five, and their addresses and amounts share no byte of the arena |
| AnyCut.BlurStep | src/transaction/deserialize.c:264-274 | two states that differ in arena bytes and in a copy offset that is not ahead take every step alike as long as the first stays inside the arena |
| AnyCut.AnyCutting | src/handler/sign_tx.c:70-126 | for types other than 16 and any cutting, if one pass stays inside the arena: no answer is undefined, the whole is reviewed exactly when that pass accepts and the chunks fit the buffer, and any review has the sums, outputs and lengths of one pass over the hashed bytes |
| Pieces.StoredExactly | src/transaction/deserialize.c:272 | pieces of any number and lengths, each laid at the length of the one before: memory is as after one copy exactly when the block shows them as the whole |
| Pieces.SeenExactly | src/transaction/deserialize.c:272 | byte for byte: a zeroed block shows at byte i that of the last piece laid over it, else 0, and the pieces as the whole exactly when that holds of every byte of the whole |
| Pieces.TwoPieces | src/transaction/deserialize.c:272 | two pieces always come out right |
| Pieces.ThreePieces | src/transaction/deserialize.c:272 | the third piece lies over the second at its length; right exactly when byte for byte that shows the same |
| Pieces.PiecesTaken | src/transaction/deserialize.c:107-164 | the parser takes the pieces one after the other behind the varints of the missing bytes, and behind them only the arena's bytes depend on the cutting |
| Pieces.MisplacedPieces | src/transaction/deserialize.c:264-274 | for addresses and method names, from any state that starts to copy one: the state behind the pieces is the state behind the uncut field exactly when the block shows the pieces as the whole |
| Pieces.BlocksAreZeroed | src/common/buffer.c:46-60 | the blocks of addresses and method names are zero when taken, so what they show depends on the pieces alone |
| Pieces.MisplacedAddress | src/handler/sign_tx.c:70-126 | a run that brings the address of a transfer in any pieces is reviewed with what a zeroed block shows of them; in one chunk the same bytes are reviewed with the address |
| Pieces.MisplacedExample | src/handler/sign_tx.c:70-126 | one byte at a time the address 1, 2, 3 is reviewed as 1, 3, 0 |
| Safety.StraysExactly | src/transaction/deserialize.c:130 | one pass over any bytes leaves the arena if and only if one of its copies ends behind byte 400, and then only the last one does |
| Safety.CopyPositions | src/transaction/deserialize.c:267 | in a transaction that is no contract call the address of output k is copied to byte 72 k |
| Safety.NeverStrays | src/transaction/deserialize.c:107-164 | when every copied field is announced to fit its block no pass leaves the arena |
| Safety.NeverUndefined | src/handler/sign_tx.c:70-126 | under any cutting and for every type no answer is undefined while each field, when the run comes to it, is announced to fit its block |
| Safety.PlainlyDefined | src/handler/sign_tx.c:70-126 | for types other than 16 and any cutting it is enough that one pass over the whole makes no bad copy |
| Safety.CleanlyDefined | src/handler/sign_tx.c:70-126 | for every type and clean cuttings it is enough that one pass over the whole makes no bad copy |
| Safety.StrayExample | src/transaction/deserialize.c:272 | an address announced with 450 bytes in two chunks leaves the arena |
| Safety.StrayHidden | src/transaction/deserialize.c:272 | the condition on one pass is needed: 450 bytes of address in three chunks are reviewed, though one pass over the same bytes leaves the arena |
| Forgetful.StepsAlike | src/common/buffer.c:46-60 | two states that differ only in arena bytes not handed out take every step alike |
| Forgetful.ArenaForgotten | src/common/buffer.c:36-60 | whatever earlier runs left in the arena, two runs over the same bytes end alike, up to arena bytes not handed out |
| OnePass.Unlimited | src/transaction/deserialize.c:107-164 | the pass without limits is the parser's own run |
| OnePass.Limited | src/transaction/deserialize.c:107-164 | an accepted pass under limits is the run, and the run keeps the limits |
| OnePass.WithinLimit | src/transaction/deserialize.c:107-164 | an accepted run that keeps the limits is the pass under them |
| OnePass.OneTarget | src/transaction/deserialize.c:258-325 | one output of the grammar is what the parser reads, provided there is room for its blocks |
| OnePass.RunTargets | src/transaction/deserialize.c:380-399 | the outputs: accepted if and only if the grammar reads them and blocks and addresses lie in the arena; then sum, slots and stored bytes are theirs |
| OnePass.OneSource | src/transaction/deserialize.c:179-247 | one input of the grammar is what the parser reads |
| OnePass.RunSources | src/transaction/deserialize.c:353-369 | the inputs: read exactly as the grammar reads them, all of them summed, the ones past the fifth included |
| Names.NamedExactly | src/transaction/tx_call_contract.c:244-249 | what comes before the first NUL is a given text if and only if its characters are there with a NUL behind them |
| Names.StrEqual | src/transaction/tx_call_contract.c:244-249 | `strcmp` over the arena: equal if and only if what comes before the first NUL is the text |
| Names.StyleOfMemory | src/transaction/tx_call_contract.c:244-255 | in any state the method is a transfer, or a transferFrom, if and only if the name in the arena up to its first NUL is that literal |
| CallPass.StyleExactly | src/transaction/tx_call_contract.c:244-255 | a name, of any length, is a transfer if and only if its bytes before the first NUL are "transfer", a transferFrom iff they are "transferFrom", and another method in every other case |
| CallPass.RunSkippedArgs | src/transaction/tx_call_contract.c:130-158 | arguments of other methods are read as the grammar reads them and nothing is stored |
| CallPass.RunKeptArgs | src/transaction/tx_call_contract.c:17-127 | arguments of the two transfer methods: accepted exactly when each has one element and all fit the arena |
| CallPass.RunCall | src/transaction/tx_call_contract.c:174-269 | contract data: the run goes on after them exactly when the grammar reads them and they fit |
| CallPass.ArgsStored | src/transaction/tx_call_contract.c:17-127 | each element ends up, with its terminator, in the slot its index and the method name call for; from the third on the last one wins |
| CallPass.CallStored | src/transaction/tx_call_contract.c:187-224 | address, value, name and arguments in the arena are those of the contract call |
| CallPass.ElementsShown | src/transaction/tx_call_contract.c:17-127 | which argument stands in which element field: for "transfer" the first, the second and the last of the others, for "transferFrom" the second, the third and the last of the others, none for any other method |
| Meaning.RunCoins | src/transaction/deserialize.c:336-407 | coin data: accepted if and only if the grammar reads them and they fit the arena, with the sums of the fee rule |
| Meaning.OnePassMeaning | src/transaction/deserialize.c:452-536 | one pass accepts if and only if the source's grammar reads a supported transaction; then every field is in place, addresses and method name as far as their blocks go |
| Meaning.SupportedExactly | src/transaction/tx_call_contract.c:17-269 | supported, in literal names and sizes: an ordinary call whatever its arguments, "transfer" and "transferFrom" only with one element in each argument, the name inside 400 bytes, the kept arguments and 72 bytes for each output, too |
| Meaning.OtherMethods | src/transaction/tx_call_contract.c:239-261 | a call whose name is neither "transfer" nor "transferFrom" is accepted if and only if its name and its outputs fit, whatever its arguments |
| Meaning.LimitsMeaning | src/transaction/deserialize.c:452-536 | the run of a supported transaction keeps limits on copied and on fixed fields exactly if its addresses, name and kept arguments do |
| Meaning.BlindMeaning | src/transaction/deserialize.c:452-536 | a pass that skips what the parser copies, and stores a given name instead of a method name, accepts only what the grammar reads and there are blocks for, and lists its type, sums, assets and amounts; with an empty name it accepts all of that |
| Shown.OverlayMem | src/transaction/deserialize.c:264-274 | laying a piece over a field in its zeroed block leaves in memory what the field so shown leaves |
| Shown.OverlaysLaid | src/transaction/deserialize.c:272 | up to 40 bytes the field shown is what the zeroed block shows of the pieces, each laid at the length of the one before |
| Shown.ViewInField | src/handler/sign_tx.c:105-113 | the next chunk of a cut field: the run goes on as one pass over the bytes shown |
| Shown.ShownFrom | src/handler/sign_tx.c:70-136 | any cutting, any type: the run is one pass over the bytes shown, and answered with a review, with undefined behaviour or with a wrong length exactly when that pass is accepted, leaves the arena, or a chunk does not fit |
| Shown.SameViews | src/common/buffer.c:36-60 | the bytes shown depend on the chunks alone, not on what was in the arena |
| Shown.CleanShows | src/handler/sign_tx.c:70-126 | under a clean cutting the bytes shown are the bytes sent |
| Skimming.BlindResume | src/transaction/deserialize.c:107-164 | a pass that copies nothing resumes exactly after any cut |
| Skimming.Lockstep | src/transaction/deserialize.c:452-536 | it ends as the parser does on the same bytes, arena bytes apart, if it stores a name of the same style |
| Skimming.Twins | src/handler/sign_tx.c:70-126 | over the bytes shown it ends as over the bytes sent |
| Bytewise.OneByteStep | src/transaction/deserialize.c:107-164 | one byte more: parser and blind pass go the same way as long as nothing is shown of a copied field but two bytes |
| Bytewise.BytesFed | src/handler/sign_tx.c:70-136 | one byte at a time the run is reviewed exactly when the blind pass accepts the bytes |
| Distinct.Frozen | src/transaction/deserialize.c:267-297 | bytes below the lowest one still to be written keep their values to the end of an accepted run |
| Distinct.ApartStates | src/transaction/deserialize.c:264-274 | two inputs that differ in a copied field of at most 40 bytes, and not before it, are not accepted in the same state |
| Distinct.NextLength | src/transaction/deserialize.c:264-274 | no chunk makes the bytes shown more than the bytes sent, and fewer only in a field of more than 40 bytes |
| Distinct.SameStateExactly | src/handler/sign_tx.c:70-136 | if no field is shown shorter than sent: one pass over the bytes sent is accepted in the state of the run if and only if the bytes shown are the bytes sent |
| Buffering.FitsExactly | src/handler/sign_tx.c:70-73 | the handler's size test passes for every chunk exactly if each fits 300 bytes behind what is kept of the chunks before it, whatever is in the arena |
| Buffering.KeptMeans | src/handler/sign_tx.c:105-113 | what is kept is the part that is there of a field of known length or of a length, else the varint of the missing bytes |
| Buffering.KeptBelow | src/handler/sign_tx.c:105-113 | of an accepted whole whose fields of known length have at most m bytes, fewer than m are ever kept |
| Buffering.NarrowGrows | src/handler/sign_tx.c:70-73 | a chunk that fits the buffer completes no field of known length longer than the buffer |
| Buffering.NoWayPast | src/handler/sign_tx.c:70-73 | a session that waits for more than 300 bytes of one field reaches no review, whatever chunks come |
| Cutting.Cut | src/handler/sign_tx.c:70-126 | from any session that can still reach the review, the bytes to come can be cut cleanly so that every chunk fits |
| Device.ShownExactly | src/handler/sign_tx.c:46-136 | every type, every cutting: all chunks are reviewed if and only if the bytes shown are readable and supported and the chunks fit, with every field of them under review; undefined iff one pass over them leaves the arena and the chunks fit; a wrong length is answered iff they do not fit; a parsing failure in all other cases |
| Device.UndefinedExactly | src/handler/sign_tx.c:46-136 | the same in terms of the copies of that pass: undefined if and only if one of them ends behind byte 400 and the chunks fit |
| Device.HashedExactly | src/handler/sign_tx.c:46-136 | if no field is shown shorter, one pass over the hashed bytes leads to the state under review if and only if every field shows itself |
| Device.ReviewLists | src/handler/sign_tx.c:46-136 | every type, every cutting: the grammar reads exactly the hashed bytes of any review, and type, sums, assets and amounts under review are theirs; the documented format reads the same if the announced lengths hold, and nothing otherwise |
| Device.CleanlyShown | src/handler/sign_tx.c:70-126 | after a clean run the bytes shown are the bytes hashed |
| Device.ReviewIsFaithful | src/handler/sign_tx.c:46-136 | after a clean run whatever is reviewed is a supported transaction that the source's grammar reads from exactly the hashed bytes, every field under review being its field; the documented format reads the same one if the announced lengths hold, and none otherwise |
| Device.ReviewedExactly | src/handler/sign_tx.c:46-136 | all chunks of a clean run are reviewed if and only if the grammar reads a supported transaction from them without rest and they fit the buffer |
| Device.ReviewIsReached | src/handler/sign_tx.c:46-136 | a supported transaction is reviewed exactly when the chunks fit the buffer, if interior chunks are not shorter than its longest address or name less one |
| Device.SmallChunksFit | src/handler/sign_tx.c:70-73 | if no kept argument has more than m bytes, m at least 32, chunks of at most 301 - m bytes fit |
| Device.PlainReviewedExactly | src/handler/sign_tx.c:46-136 | for types other than 16 and any cutting in which one pass stays inside the arena: reviewed if and only if readable, supported and fitting the buffer |
| Device.PlainIsReached | src/handler/sign_tx.c:46-136 | a supported transaction that is no contract call is reviewed under any cutting whose chunks fit, and chunks of at most 269 bytes always do |
| Device.SentBytewise | src/handler/sign_tx.c:46-136 | one byte at a time a byte string is reviewed if and only if the grammar reads it and its outputs have blocks, whatever its names and arguments; a call is then reviewed without its arguments |
| Device.ReviewableExactly | src/handler/sign_tx.c:46-136 | a byte string can be cut in some way so that it is reviewed if and only if the grammar reads it and its outputs have blocks |
| Device.CleanlyReviewableExactly | src/handler/sign_tx.c:46-136 | a byte string can be cut cleanly so that it is reviewed if and only if the grammar reads a supported transaction from it and no kept argument is longer than 300 bytes |
| Device.OversizedCall | src/handler/sign_tx.c:70-73 | a documented call with one argument of n bytes is supported exactly up to 304 and can be reviewed under a clean cutting exactly up to 300; one byte at a time it is reviewed for every n, without its argument |
| Device.WrongLengthsReviewed | src/handler/sign_tx.c:46-136 | a transfer is reviewed with any announced lengths of txData and coinData; the documented format reads it with exactly one pair of them |
| Device.WideRemarkReviewed | src/handler/sign_tx.c:46-136 | a transfer whose remark is announced with 2^32 bytes is reviewed; the documented format does not read it |
| Documented.ContractLocal | src/transaction/tx_call_contract.c:174-269 | contract data are read from the front: what was read is read the same whatever follows |
| Documented.EntriesLocal | src/transaction/deserialize.c:336-407 | inputs and outputs are read from the front: what was read is read the same whatever follows |
| Documented.ContractExact | doc/TRANSACTION.md:9-16 | contract data are read with exact lengths as with 32-bit ones exactly if every announced length is below 2^32 |
| Documented.EntriesExact | doc/TRANSACTION.md:9-16 | the same for inputs and outputs |
| Documented.DataAgrees | doc/TRANSACTION.md:9-16 | txData as documented are read exactly when the announced length is the number of bytes the source reads and all lengths inside are below 2^32 |
| Documented.CoinsAgree | doc/TRANSACTION.md:9-16 | coinData as documented are read exactly when the announced length is the number of bytes the source reads and all lengths inside are below 2^32 |
| Documented.DocumentedExactly | doc/TRANSACTION.md:9-16 | where the announced lengths hold the documented format reads what the source reads, for byte strings of any length; below 2^32 bytes it reads nothing otherwise |
| Documented.WrongLengths | src/transaction/deserialize.c:498-523 | the source reads a transfer with any announced lengths, the documented format with exactly one pair |
| Documented.FieldIsExact | src/transaction/deserialize.c:107-145 | a field is read as documented exactly when its announced length is below 2^32 |
| Documented.WideField | src/transaction/deserialize.c:107-145 | a field announced with 2^32 bytes is read as an empty one |
| Documented.WideRemarkRead | src/transaction/deserialize.c:479-489 | a transfer with such a remark is read by the source and not by the documented format |
| Wire.WrittenIsRead | doc/TRANSACTION.md:1-57 | a message serialised as documented, with any fields, is read back by the documented format and by the source, nothing left over |
| Wire.WrittenIsReviewed | doc/TRANSACTION.md:1-57 | cut cleanly, it is reviewed if and only if its content is supported and the chunks fit, and every field under review is the one that was written |
| SignTx.Context.Reset | src/handler/sign_tx.c:46-49 | a first chunk starts from the zeroed context, whatever was before; the arena keeps its bytes |
| SignTx.Context.Append | src/handler/sign_tx.c:70-86 | the chunk is hashed and appended, unless it does not fit the 300 bytes; then nothing changes |
| SignTx.Context.Compact | src/handler/sign_tx.c:106-108 | the unread tail moves to the front |
| SignTx.Context.Parse | src/handler/sign_tx.c:90-136 | parsing, the three ways to keep what the next chunk needs, and the answer, as `Chunks.Digest` says |
| SignTx.Context.HandleSignTx | src/handler/sign_tx.c:42-139 | one call is one step of the chunk loop: same answer, same kept bytes, same parser state, same hashed bytes; a first chunk is taken in any context |
| SignTx.Context.SignAll | src/main.c:51-96 | from any context, also after a review or a refusal, handing over the chunks one by one ends with the answer, the parser state and the hashed bytes of `Chunks.Sign` |
| Powers.BitLengthBounds | src/common/uint128.c:92-109 | a number of bit length k lies between 2^(k-1) and 2^k |
| Powers.OrBits | src/common/uint128.c:142-147 | every bit of the result is set if and only if it is set in one of the two |
| Powers.BitLengthSplit | src/common/uint128.c:92-109 | the bit length of two halves is that of the upper one, moved up |
| Powers.OrSplit | src/common/uint256.c:168-173 | bitwise or works on the halves separately |
| Powers.OrOfNewBit | src/common/uint256.c:215 | setting a bit below all set bits is adding it |
| Halves.ShiftLeftNear | src/common/uint128.c:60-62 | shifting two halves left by less than a half is multiplying modulo the square, and the upper sum does not overflow |
| Halves.ShiftRightNear | src/common/uint128.c:79-83 | shifting two halves right by less than a half is dividing, and the lower sum does not overflow |
| Halves.AddHalves | src/common/uint256.c:138-151 | the carry test on the lower halves makes the sum exact modulo the square |
| Halves.SubHalves | src/common/uint256.c:153-166 | the borrow test on the lower halves makes the difference exact modulo the square |
| Division.Aligned | src/common/uint256.c:199-211 | moving the divisor by the difference of the bit lengths overflows nothing and is too far by at most one bit |
| Division.NewBit | src/common/uint256.c:215 | the quotient bit is not there yet, so or-ing it in adds it |
| Division.Round | src/common/uint256.c:212-219 | one round of the division keeps dividend = quotient * divisor + rest and halves the moved divisor |
| Uint128.Read128LE | src/common/uint128.c:33-36 | the little-endian number in 16 bytes |
| Uint128.Shiftl128 | src/common/uint128.c:52-69 | multiplication by a power of two modulo 2^128, for every shift amount, in place too |
| Uint128.Shiftr128 | src/common/uint128.c:71-90 | division by a power of two for every shift amount, except by 64 in place, which gives 0 |
| Uint128.Bits128 | src/common/uint128.c:92-109 | the bit length, 0 for zero |
| Uint128.Equal128 | src/common/uint128.c:111-113 | equality of the numbers |
| Uint128.Gt128 | src/common/uint128.c:115-120 | the order of the numbers |
| Uint128.Gte128 | src/common/uint128.c:122-124 | the order of the numbers |
| Uint128.Add128 | src/common/uint128.c:126-132 | the sum modulo 2^128, whichever objects coincide |
| Uint128.Sub128 | src/common/uint128.c:134-140 | the difference modulo 2^128, whichever objects coincide |
| Uint128.Or128 | src/common/uint128.c:142-147 | the bitwise or of the numbers |
| Uint128.Schoolbook | src/common/uint128.c:163-167 | the product of two four-digit numbers is the sum of its four rows of digit products |
| Uint128.SumColumns | src/common/uint128.c:169-181 | the unnormalised columns hold the rows' sum modulo 2^128 and none of them overflows 64 bits |
| Uint128.Recombine | src/common/uint128.c:183-193 | shifting and adding the columns gives their number modulo 2^128 |
| Uint128.Mul128 | src/common/uint128.c:149-194 | the product modulo 2^128 for all operands, the target being one of them or not |
| Uint128.Divmod128 | src/common/uint128.c:196-228 | quotient and remainder for every divisor but 0, and the loop ends; operands and results may coincide |
| Uint256.Read256LE | src/common/uint256.c:31-34 | the little-endian number in 32 bytes |
| Uint256.Shiftl256 | src/common/uint256.c:51-74 | multiplication by a power of two modulo 2^256, for every shift amount, in place too |
| Uint256.Shiftr256 | src/common/uint256.c:76-99 | division by a power of two, for every shift amount, in place too |
| Uint256.Bits256 | src/common/uint256.c:101-120 | the bit length, 0 for zero |
| Uint256.Zero256 | src/common/uint256.c:37-39 | whether the number is zero |
| Uint256.Equal256 | src/common/uint256.c:122-125 | equality of the numbers |
| Uint256.Gt256 | src/common/uint256.c:127-132 | the order of the numbers |
| Uint256.Gte256 | src/common/uint256.c:134-136 | the order of the numbers |
| Uint256.Add256 | src/common/uint256.c:138-151 | the sum modulo 2^256, in place too |
| Uint256.Sub256 | src/common/uint256.c:153-166 | the difference modulo 2^256, in place too |
| Uint256.Or256 | src/common/uint256.c:168-173 | the bitwise or of the numbers |
| Uint256.Divmod256 | src/common/uint256.c:190-223 | quotient and remainder for every divisor but 0, and the loop ends; also when dividend and quotient are one object |
| Numerals.DigitCodes | src/common/uint256.c:229 | the digits are the characters from 0x30 and, above nine, from 0x61 on |
| Numerals.DigitOfNumber | src/common/uint256.c:242-255 | each character of a numeral is the digit at its place |
| Numerals.NumeralDenotes | src/common/uint256.c:242-255 | the numeral of a number has digits only, no leading zero, and reads back as the number |
| Numerals.NumeralIsUnique | src/common/uint256.c:242-255 | a well-formed numeral is the numeral of the number it denotes |
| Numerals.NumeralLength | src/common/uint256.c:243-252 | a number below base^k takes at most k digits |
| Numerals.NumeralFits | src/common/uint256.c:243-252 | a numeral takes at most k digits if and only if the number is below base^k |
| Numerals.DecimalDigits | src/ui/bagl_display.c:212-214 | 256-bit numbers are below 10^78, so 80 characters are always enough |
| Numerals.ReverseString | src/common/uint_common.c:42-50 | the characters of the range in reverse order, nothing else touched |
| Numerals.WriteDigits | src/common/uint256.c:230-252 | the digits of the number, last one first; false exactly when numeral and terminator do not fit, where a room of 0 wraps around to 2^32 |
| Numerals.Tostring256 | src/common/uint256.c:225-257 | succeeds exactly for bases 2 to 16 with room for numeral and terminator, a room of 0 counting as 2^32, writes the numeral then, and never writes further than that |
| Numerals.Negated | src/common/uint256.c:279-290 | whether the two's-complement value is negative, and then its absolute value |
| Numerals.Tostring256Signed | src/common/uint256.c:268-296 | base 10 writes the two's-complement value with its sign, other bases the bare number; exact failure condition for every announced room, wrapped or not |
| Format.FormatU64 | src/common/format.c:63-132 | the decimal numeral of the number; exact failure condition, including the single digit that is written without room |
| Format.Lay | src/common/format.c:216-248 | the digits with the point in its place and leading zeros, or false exactly when there is no room for them |
| Format.Trim | src/common/format.c:249-263 | the zeros at the end of the decimals are cut off, and the point with the last of them |
| Format.FormatDecimals | src/common/format.c:197-265 | writes `Decimals` of the source, succeeds exactly when the room is said to be enough, and then writes exactly as far as the untrimmed text and its terminator go |
| Format.DecimalsOfNumeral | src/common/format.c:197-265 | for a numeral the text is the whole part and, only if any remain, a point and the decimals without their trailing zeros |
| Format.TextOfNumber | src/common/format.c:197-265 | for every number and every number of decimals the text is the numeral of the quotient by 10^d and, exactly if something remains, a point and the remaining digits without trailing zeros |
| Format.DecimalsDenote | src/common/format.c:197-265 | the text's value times 10^decimals is the number; no superfluous zero, no point at the end |
| Format.DecimalsAreInjective | src/common/format.c:197-265 | different numerals get different texts |
| Fee.ConvMount1 | src/ui/bagl_display.c:196-208 | the text of a little-endian amount of the transaction, for every amount and every number of decimals, and how far it is written |
| Fee.ConvMount2 | src/ui/bagl_display.c:210-218 | the text of the amount and how far it is written, for every amount and every number of decimals; nothing is written when it is refused |
| Fee.AmountIsShown | src/ui/bagl_display.c:210-218 | for up to 77 decimals no 256-bit amount is refused |
| Fee.AmountTextDenotes | src/ui/bagl_display.c:210-218 | the text of an amount denotes exactly that amount and is well formed |
| Fee.AmountTextIsInjective | src/ui/bagl_display.c:210-218 | amounts that look the same are the same |
| Fee.AddAmount | src/transaction/deserialize.c:218-227 | reading 32 bytes and adding them with `add256` is the sum the parser model uses |
| Fee.ShowFee | src/ui/bagl_display.c:433-441 | for any two sums the text written is "NULS ", the numeral of the difference modulo 2^256 divided by 100,000,000 and, exactly if something remains, a point and those eight digits without trailing zeros; it is written up to a last terminator, inside `text` or not |
| Fee.FeeScreenIs | src/ui/bagl_display.c:433-441 | the text of the fee screen character by character, in units of 100,000,000 |
| Fee.FeeScreenExample | src/ui/bagl_display.c:433-441 | a fee of 100,000 is shown as "NULS 0.001" |
| Fee.TextFits | src/ui/bagl_display.c:433-441 | the fee screen stays inside the 80 characters of `text` if and only if the amount is below 10^73 |
| Fee.FeeIsExact | doc/TRANSACTION.md:487-495 | the screen spells inputs minus outputs of asset 1-1 modulo 2^256; that is the difference itself if and only if it is at least 0 and below 2^256; the screen stays inside `text` iff the difference modulo 2^256 is below 10^73; both together iff the difference is at least 0 and below 10^73 |
| Fee.FeeOfReview | src/ui/bagl_display.c:433-441 | from the chunks to the screen, for every type and every cutting, whether or not more chunks are announced: the same conditions for the transaction read from exactly the hashed bytes, which is the documented one if the announced lengths hold |
| Fee.WrappedFee | src/ui/bagl_display.c:433-441 | a transfer without inputs is reviewed and shows 2^256 minus its output, inside `text` only if that is below 10^73 |
| Fee.WrappedFeeExample | src/ui/bagl_display.c:433-441 | an output of one unit without inputs is reviewed and its fee text does not fit |
| Fee.DemonstrationReviewed | doc/TRANSACTION.md:77-112 | the documented transfer, written out in its 149 bytes, is reviewed with every field as written and shows "NULS 0.001" |
| Radix.DigitAt | src/common/base58.c:74-136 | each digit of a number is the one at its place |
| Base58.TableInvertsAlphabet | src/common/base58.c:24-43 | the decoding table gives every letter its digit back |
| Base58.AlphabetInvertsTable | src/common/base58.c:24-43 | a character with a digit is the letter of that digit |
| Base58.AlphabetRuns | src/common/base58.c:38-43 | the 58 characters in order: digits but 0, capitals but I and O, small letters but l |
| Base58.EncodeSpells | src/common/base58.c:107-155 | the text is the number of the bytes, in base 58, behind a 1 for each leading zero byte |
| Base58.TestVector | src/common/base58.c:107-155 | 00 00 28 7f b4 cd is 11233QC4, as in section 5 of draft-msporny-base58-02 |
| Base58.RecodeRoundTrip | src/common/base58.c:45-155 | changing the base and changing it back gives the same digits, leading zeros included |
| Base58.DecodeOfEncode | src/common/base58.c:45-155 | decoding an encoding gives the bytes back, for any bytes |
| Base58.EncodeOfDecode | src/common/base58.c:45-155 | encoding a decoding gives the text back, for any valid text |
| Base58.EncodeIsInjective | src/common/base58.c:107-155 | inputs with the same text are the same |
| Base58.DigitsSuffice | src/common/base58.c:122 | 256^n <= 58^m whenever 41 n <= 30 m, strictly when 41 n < 30 m |
| Base58.EncodedLength | src/common/base58.h:10-14 | what is encoded from at most 120 bytes has at most 164 characters |
| Base58.EncodedIsDecodable | src/common/base58.c:45-155 | every encoding of two characters or more passes the decoder's checks and decodes to the bytes |
| Base58Code.AddByte | src/common/base58.c:125-135 | the digits become 256 times the number plus the byte; the early exit leaves no digit behind, and the first digit in use moves by one or is not zero |
| Base58Code.RoomForNext | src/common/base58.c:122-131 | while bytes are left, `stop_at - 1` does not wrap around and the next number fits the 138/100 estimate |
| Base58Code.EncodeDigits | src/common/base58.c:122-136 | the buffer holds the number of the bytes in base 58 |
| Base58Code.Base58Encode | src/common/base58.c:107-155 | `Encode` of the input, or -1 exactly when the input is over 120 bytes or there is too little room |
| Base58Code.DivideBy256 | src/common/base58.c:77-87 | the digits are divided by 256 in place, stay below 58, and the first one becomes 0 |
| Base58Code.DivideDigits | src/common/base58.c:74-90 | one byte for each digit after the leading zeros: the bytes hold the number of the digits |
| Base58Code.Base58Decode | src/common/base58.c:45-105 | `Decode` of the input, or -1 exactly when length or a character is wrong or there is too little room |
| Address.Xor | src/address.c:63-69 | every bit of the result is the parity of the number of bytes that have it set |
| Powers.XorBits | src/address.c:66 | a bit is set in the exclusive or if and only if it is set in one of the two only |
| Address.XorIsParity | src/address.c:63-69 | bit k of the exclusive or of all bytes is the parity of the number of bytes that have bit k set |
| Address.ChecksumCancels | src/address.c:83 | over an address and its checksum byte every bit is set an even number of times |
| Address.TextLength | src/address.c:75-91 | an address whose first byte is 1 to 9 takes exactly 32 characters |
| Address.TextLengthExactly | src/address.c:75-122 | for any bytes: 32 characters if and only if the number of address and checksum lies between 58^(31-z) and 58^(32-z), z leading zero bytes; refused iff it is not below the latter |
| Address.TextDenotes | src/address.c:75-91 | the text decodes to 24 bytes, the 23 of the address and one with which every bit is set an even number of times |
| Address.TextIsInjective | src/address.c:75-91 | different addresses have different texts |
| Address.AddressToBase58 | src/address.c:75-91 | writes the text of the address, or throws exactly when it takes more than 32 characters |
| Address.DisplayAddress | src/address.c:93-122 | "NERVEe" for the bytes 9, 0 and else "NULSd", the text, and the terminator in its place whenever the text has 32 characters, so for every first byte from 1 to 9 |
| Address.AddressFromHash | src/address.c:125-143 | low and high byte of the chain id, the type, and the 20 bytes of the hash, and their text, for every chain id with a low byte from 1 to 9 |
| SignNs.SignsExactly | src/handler/sign_ns.c:87-128 | an uninterrupted run signs if and only if the bytes that arrive are as many as are missing, fails iff they are fewer, says so iff they are more, and signs what it hashed |
| SignNs.MessageSigned | src/handler/sign_ns.c:48-128 | from the first chunk on, whose four bytes give a length, the highest first: signed iff the message has that length, failed iff it is shorter, refused iff longer; hashed are 0x19, the characters of the magic, the decimal length and the message |
| SignNs.NothingDeclared | src/handler/sign_ns.c:66 | a first chunk of fewer than four bytes is signed only as the empty message |
| SignNs.FrameIsInjective | src/handler/sign_ns.c:61-88 | magic, decimal length and message determine the message |
| SignNs.LengthFits | src/handler/sign_ns.c:70 | the declared length fits the ten characters exactly when it is below 10^9 |
| SignNs.Context.Open | src/handler/sign_ns.c:51-71 | a first chunk declares the length and the frame is hashed |
| SignNs.Context.HandleSignNs | src/handler/sign_ns.c:44-128 | one call is one step of the counting: same answer, same counters, same hashed bytes |

## Left out

- Screen flow, paging and menus: of the display code only the way from an amount to its text is modelled; which output a
  screen shows is not.
- Key derivation, signatures, SHA-256, RIPEMD-160 and Keccak: a hash is the sequence of the bytes fed to it, and the
  20-byte hash in an address is a parameter.
- `init_public_key` and the BIP-32 path in a first chunk: its verdict is a parameter, and the cursor stands behind it.
- `transaction_serialize` (a stub), the join and leave consensus readers (unreachable) and `mul256` (commented out).
- `format_i64`, `format_fpu64`, `format_hex` and `format_signature_out`: not on the way of an amount or an address.
- `tostring128` and `tostring128_signed`: the same loops as `tostring256`, one size smaller.
- Runs that go on after an error answer, and runs that mix the two signing commands.
- Documented.DocumentedExactly: for byte strings of 2^32 bytes and more with a length that does not hold nothing is said,
  because there the announced bytes could all be present.
- Device.HashedExactly: runs that show a field of more than 40 bytes shorter than it was sent are left out, because what is
  cut off may have been overwritten by later blocks anyway.
- Device.UndefinedExactly: contract calls of 2^32 - 1 bytes and more are left out.
- Device.OversizedCall: arguments of 2^32 - 256 bytes and more are left out.
- What happens after a copy has left the 400-byte arena, which C leaves undefined: the parser stops there with `Stray`
  (`Wild` in the class, `Undefined` in the answer). When it happens is the subject of `Safety` and
  `Device.UndefinedExactly`.
- What lies in memory behind `text`: `Fee` says how far the fee screen writes, not what it overwrites there.
- The sums in `Deserialize` are naturals modulo 2^256; `Fee.AddAmount` is the same addition on the `Uint256` objects.
- The C structures inside the parser class are values assigned as a whole, so the aliasing of `coin_to_t` and the array
  it points into is not modelled; which slot a call may change is part of the contracts.
- The method name's final length, which after a cut holds the last piece only and is not read again.
- Uint128.Divmod128: a divisor of 0 is excluded, for which the loop of the source does not end.
- Uint256.Divmod256: a divisor of 0 is excluded, for which the loop of the source does not end.
- SignNs.MessageSigned: a declared length of 10^9 or more is excluded, for which the source hashes an unterminated
  buffer; `HandleSignNs` answers `Undefined` there.
