# Verification of the blockchain SDK's cores

A Dafny model of the parts of the SDK whose correctness is hardest to see from the code, with proofs that hold for
every input, every run and every interleaving. Check it with `dafny verify dfyconfig.toml`.

## What is modelled

- **RLP** (`RlpSpec`, `RlpEncode`, `RlpStream`, `RlpRaw`, `Bytes`). The encoder records list headers in the order in
  which lists are opened and knows their sizes only when they are closed; the buffer, the writer and the incremental
  reader all splice to the simple recursive encoding. The stream decoder keeps a stack of list frames and accepts
  exactly the canonical encodings. The slice parser agrees with it.
- **Contract ABI** (`Abi`, `AbiUnpack`, `AbiLoops`, `AbiWords`, `AbiRoundTrip`, `AbiLayout`, `AbiExact`, `AbiPanic`).
  `AbiLayout` says what an encoding is, by positions, as the Solidity specification does; what the encoder writes is that
  exactly when sizes sum up right. Encoder and decoder compute positions independently from the types; the round trip
  holds for every list of sound types, and soundness is also necessary, for all static lists and for dynamic ones but a
  small family. Which lists can make the decoder panic is a condition on the types, of sound lists and of most others.
- **Bloom bits** (`Bits`, `Bloom`, `BloomMatcher`). From the logs of the blocks over their blooms, the transposed index
  of every section and the merging of bit vectors to the numbers that are emitted: exactly the passing blocks, ascending,
  and no block whose logs match is missed.
- **Retrieval** (`SortSearch`, `Distributor`, `Scheduler`). Two step machines: the distributor with its retrievers, and
  the concurrent runs of a scheduler. Invariants are kept by every step and give safety of every run.
- **Event feed** (`Feed`). A step machine over all interleavings of Subscribe, Unsubscribe and Send.
- **Priority queues** (`Heap`, `SStack`, `LazyQueue`, `LazyRun`). The heap of Go's `container/heap`, the block-allocated
  stack under it, and the lazy queue with its two heaps and the index callback. Over whole runs the lazy queue is
  compared with a plain set of values; contents and reported indices are right for all priorities, the order for int64
  priorities that the wrapped comparison can tell apart.
- **Transactions by price and nonce** (`PriceNonce`), **bitset compression** (`BitsetCompress`), **secp256k1 in Jacobian
  coordinates** (`Congruence`, `Curve`) and **wallet lists** (`Wallets`). `Wrappers` holds what all modules share.

Objects that the source updates in place are classes whose methods are proved against a function of the old state;
loops stay loops. Concurrent code is a state, a set of enabled actions and a transition function; a run is any sequence
of enabled actions. Channels that hand over a value are one step. Things the code takes from outside are parameters: the
hash of a bloom key, the vectors a retriever fetches, the clock, the priority callbacks, the modular inverse of the big
integer library (given by its specification), the recovered sender of a transaction, the order in which a map is
iterated.

## Where the code departs from its promise

Each of these is stated with its condition and shown at an input. The condition is exact, for the ABI except for the lists
named under "Left out".

- Packing panics on an empty slice of fixed arrays (`AbiRoundTrip.PackOutcome`; `AbiPanic.EmptySlicePanics`).
- `getTypeSize` counts a fixed array of static tuples as one word per element. A component behind such an array is read
  from inside it, and offsets to dynamic components point too far to the front (`AbiLayout.PackConforms`,
  `AbiExact.AnchoredExact`, `AbiExact.StaticExact`; `AbiLayout.PairsNotStraight`, `AbiExact.PairsThenNumber`,
  `AbiExact.StringThenPairs`).
- Unpacking follows the low 64 bits of the offset of a fixed array of dynamic elements without a check, and received data
  can make it panic (`AbiUnpack.ArrayPointsTo`, `AbiPanic.PanicsExactly`; `AbiPanic.FullWordPanics`, and
  `AbiPanic.CoveredNeverPanics` for a list with such an array that never does).
- `DecompressBytes` accepts an uncompressed input of the target length even if it would have been compressed
  (`BitsetCompress.CompressDecompressed`; `BitsetCompress.ZeroByteAccepted`).
- Picking a bit for a retriever fails if all pending sections are the largest uint64
  (`Distributor.SearchFindsUnallocated`; `Distributor.MaxSectionNotFound`); the matcher never asks for such sections.
- Delivering an empty bitset to a scheduler would let its channel be closed twice
  (`Scheduler.ClosedOnceIffFiltered`; `Scheduler.EmptyClosesTwice`); the distributor filters them out.
- The affine `Add` and `Double` dereference a missing inverse and panic, `Add` always for a point and itself
  (`Curve.AffineFromJacobian`, `Curve.Add`, `Curve.Double`; `Curve.AddBaseTwice`).
- The heaps compare priorities by the sign of their wrapped int64 difference, while `peekIndex` and `MultiPop` compare
  plainly; the two agree exactly when the difference does not overflow (`SStack.BeforeIff`,
  `LazyQueue.LazyQueue.PeekIndex`; `SStack.WrapAround` has the two ends of int64).
- `LazyQueue.Reset` leaves the index offset and the indices told before (`LazyQueue.LazyQueue.Reset`;
  `LazyQueue.ResetLosesTrack` resets a new queue).
- An account that keeps its URL and changes its address is missing until the next refresh (`Wallets.RefreshComplete`;
  `Wallets.LosesChanged`), and `drop` of an absent wallet removes another one (`Wallets.DroppedAbsent`;
  `Wallets.DropsAnother`).

## Model

| member | source | states |
|---|---|---|
| `RlpSpec.PrefixFree` | `rlp/encode.go:163-197` | No encoding of a nested value is a proper prefix of another: equal concatenations start with the same value and go on with the same bytes |
| `RlpSpec.EncodeAllInjective` | `rlp/encode.go:458-476` | A concatenation of item encodings determines the items |
| `RlpSpec.HeaderPrefixFree` | `rlp/encode.go:123-131` | A header determines its size and where its content starts |
| `RlpSpec.FirstByte` | `rlp/encode.go:163-182` | The first byte tells lists from strings and single bytes from headed strings |
| `RlpSpec.HeaderExact` | `rlp/encode.go:114-131` | A byte string is the header of a size if and only if it is 0x80 or 0xC0 plus the size for sizes up to 55, and for others that plus 55 plus the number of bytes of the size, followed by the size, big-endian without a leading zero |
| `RlpSpec.EncodeIs` | `rlp/encode.go:163-197` | A byte string is the encoding of a value if and only if it is the bare byte below 0x80, the string behind such a header from 0x80 on, or the encoded items in order behind one from 0xC0 on |
| `RlpSpec.EncodeExamples` | `rlp/encode.go:163-197` | The encodings of the empty string and list, of "dog" and of the list of "cat" and "dog", and the header of 1024 bytes, as literals |
| `RlpEncode.IntSize` | `rlp/encode.go:606-612` | Number of bytes of the shortest big-endian form |
| `RlpEncode.PutInt` | `rlp/encode.go:548-603` | Writes exactly the shortest big-endian form at the given place and touches nothing behind it |
| `RlpEncode.PutHead` | `rlp/encode.go:114-131` | Writes exactly the short or long header of the size and returns its length |
| `RlpEncode.EncBuf.EncodeStringHeader` | `rlp/encode.go:163-172` | Appends the string header to the string data |
| `RlpEncode.EncBuf.EncodeString` | `rlp/encode.go:174-182` | Appends the canonical encoding of the string, a bare byte below 0x80 |
| `RlpEncode.EncBuf.OpenList` | `rlp/encode.go:184-188` | Records a header in list-open order with the header bytes counted so far |
| `RlpEncode.EncBuf.CloseList` | `rlp/encode.go:190-197` | Sizes the recorded header from the data and headers added since it was opened |
| `RlpEncode.EncBuf.EncodeValue` | `rlp/encode.go:458-476` | Encoding a nested value appends its string data and its list heads, sized, in open order, and keeps the header count |
| `RlpEncode.SpliceEncodes` | `rlp/encode.go:203-219` | Splicing the recorded heads of a value into its string data, at their offsets, gives the recursive encoding of the value followed by what comes next |
| `RlpEncode.SpliceWhole` | `rlp/encode.go:184-219` | For a whole value, string data and heads splice to its recursive encoding |
| `RlpEncode.StreamSizes` | `rlp/encode.go:199-201` | String data plus header bytes is the length of the encoding |
| `RlpEncode.EncBuf.ToBytes` | `rlp/encode.go:203-219` | The assembled array is the spliced output |
| `RlpEncode.EncBuf.ToWriter` | `rlp/encode.go:221-243` | A writer gets the spliced output, or its prefix when it fails, and success is reported exactly when all of it fits |
| `RlpEncode.EncReader.Next` | `rlp/encode.go:279-310` | The next piece, header or data, is a non-empty prefix of what remains, and there is none exactly at the end |
| `RlpEncode.EncReader.Read` | `rlp/encode.go:254-275` | A read fills the buffer or drains the reader: bytes returned followed by what remains is what remained before |
| `RlpEncode.EncodeToBytes` | `rlp/encode.go:70-78` | Equals the simple recursive encoding for every nested value |
| `RlpEncode.EncodeToWriter` | `rlp/encode.go:53-66` | The writer gets the simple recursive encoding |
| `RlpEncode.EncodeToReader` | `rlp/encode.go:85-92` | The announced size and the remaining bytes are those of the simple recursive encoding |
| `RlpEncode.ReadInChunks` | `rlp/encode.go:254-310` | Under any sequence of buffer sizes the concatenated reads are the recursive encoding, cut at the requested total |
| `RlpStream.ParseHeadSound` | `rlp/decode.go:857-917` | An accepted header is the canonical one for its kind and size |
| `RlpStream.ParseHeadComplete` | `rlp/decode.go:857-943` | Every canonical header is accepted with its kind, length and size |
| `RlpStream.Stream.constructor` | `rlp/decode.go:778-811` | A fresh stream at the input, limited as asked or by the length of an in-memory reader |
| `RlpStream.Stream.ListStream` | `rlp/decode.go:591-597` | A stream that pretends to be inside a list of the given size |
| `RlpStream.Stream.WillRead` | `rlp/decode.go:971-989` | Charges the innermost frame and the input limit, and fails only when there is no room in one of them, with the error of the list before that of the limit |
| `RlpStream.Stream.ReadFull` | `rlp/decode.go:945-958` | Succeeds exactly when the frame, the limit and the input hold that many bytes, and returns them; otherwise the error says which of the three did not |
| `RlpStream.Stream.ReadUint` | `rlp/decode.go:919-943` | Big-endian number without a leading zero; a leading zero is ErrCanonSize |
| `RlpStream.Stream.ReadKind` | `rlp/decode.go:857-917` | Succeeds exactly on a canonical header and gives its kind, size and single byte; otherwise the error is io.EOF at the end of the outermost input, that of reading the missing bytes, or ErrCanonSize |
| `RlpStream.Stream.Peek` | `rlp/decode.go:824-855` | Caches the header; EOL exactly at the end of the innermost list; an error only when no item can start here, that of the header or of a size beyond the list or the limit |
| `RlpStream.Stream.ReadString` | `rlp/decode.go:602-623` | Succeeds exactly when a canonical string starts here, returns it and consumes exactly its encoding |
| `RlpStream.Stream.Raw` | `rlp/decode.go:626-648` | Returns exactly the header and content bytes of the next item |
| `RlpStream.Stream.OpenList` | `rlp/decode.go:711-723` | Pushes a frame of the declared size; fails exactly when no list header is here |
| `RlpStream.Stream.CloseList` | `rlp/decode.go:727-742` | Succeeds exactly inside a list at its end, and charges the outer frame with the size of the list |
| `RlpStream.Stream.ReadNumber` | `rlp/decode.go:657-688` | Succeeds exactly when the canonical encoding of a number of at most maxbits bits starts here |
| `RlpStream.NumberValueIs` | `rlp/encode.go:361-375` | A number is encoded as the one string without a leading zero that denotes it, big-endian |
| `RlpStream.Stream.ReadBool` | `rlp/decode.go:693-706` | Succeeds exactly when the encoding of 0 or 1 starts here, and rejects the encodings of all other numbers of a byte as invalid booleans |
| `RlpStream.Stream.DecodeListSlice` | `rlp/decode.go:274-287` | The items of a list are exactly those whose concatenated encodings fill its declared size; otherwise there are none |
| `RlpStream.Stream.DecodeSliceElems` | `rlp/decode.go:289-316` | Reads items to the end of the frame, and fails only if no sequence of items fills it |
| `RlpStream.Stream.DecodeInterface` | `rlp/decode.go:478-500` | Succeeds exactly when an encoding starts here, yields that value and consumes exactly its bytes |
| `RlpStream.DecodeBytes` | `rlp/decode.go:88-102` | Accepts exactly the encodings: what it yields re-encodes to the input, and every encoding is accepted with its value; reports more than one value if and only if a proper prefix is an encoding, and io.EOF for no input |
| `RlpStream.UniqueValue` | `rlp/decode.go:88-102` | No other value has an encoding that the accepted input starts with |
| `RlpStream.RoundTrip` | `rlp/decode.go:88-102` | Decoding the encoding of any nested value yields the value |
| `RlpStream.RunCalls` | `rlp/decode.go:711-742` | In any sequence of stream calls on any input every frame keeps pos <= size and covers the list nested in it |
| `RlpStream.EnterList` | `rlp/decode.go:711-723` | Opening a list leaves the outer frames intact and restricts the view to the list |
| `RlpStream.LeaveList` | `rlp/decode.go:727-742` | Leaving a list at its end is the same as having read over it |
| `RlpRaw.SizesAgree` | `rlp/raw.go:127-156` | The slice parser accepts a size exactly when the stream parser does, with the same value; otherwise bytes are missing or the size is not canonical, as the error says |
| `RlpRaw.SplitIsHead` | `rlp/raw.go:86-125` | The slice parser splits exactly at the header the stream parser finds, and fails exactly when it finds none, content is missing or not canonical, each with its own error |
| `RlpRaw.FirstItem` | `rlp/raw.go:39-45` | Split succeeds exactly when a stream limited to the input can read the first item with Kind and Bytes or List, with the same kind (byte, string or list), content and rest |
| `RlpRaw.SplitStringExact` | `rlp/raw.go:49-58` | A string is split off exactly when the encoding of one starts the input, with its content and rest |
| `RlpRaw.SplitListExact` | `rlp/raw.go:62-71` | A list is split off exactly when a canonical list header and as many bytes as it announces start the input, with those bytes as content; they need not be items, and for an encoded list they are its items |
| `RlpRaw.SplitValue` | `rlp/raw.go:39-45` | An encoded value at the start is split off as a whole |
| `RlpRaw.CountValues` | `rlp/raw.go:74-84` | The number of items that can be split off until nothing is left; for n concatenated encodings it is n |
| `AbiWords.UintRoundTrip` | `accounts/abi/unpack.go:36-70` | An unsigned integer comes back from its word exactly when it is in the range its type holds |
| `AbiWords.IntRoundTrip` | `accounts/abi/unpack.go:36-70` | A signed integer comes back from its two's complement word exactly when it is in range |
| `AbiWords.IntegerExact` | `accounts/abi/unpack.go:36-70` | Of every word, also one with other bytes in front: the number in the range of the type that agrees with the word modulo the size of the range |
| `AbiWords.BoolRoundTrip` | `accounts/abi/unpack.go:73-87` | A boolean word reads back |
| `AbiWords.BoolExact` | `accounts/abi/unpack.go:73-87` | The words of 0 and 1 are false and true, every other word is an error |
| `AbiWords.FunctionRoundTrip` | `accounts/abi/unpack.go:91-101` | A function selector padded to a word reads back |
| `AbiWords.FunctionExact` | `accounts/abi/unpack.go:91-101` | A word is a function, its first 24 bytes, exactly when its last eight bytes are zero |
| `AbiWords.PackNumWhole` | `accounts/abi/pack.go:69-81` | An offset or length below 2^64 is the number in its word and in its last eight bytes |
| `AbiUnpack.LengthPrefixPointsTo` | `accounts/abi/unpack.go:250-279` | Never panics; succeeds exactly when the offset, the length word there and as many bytes as it says lie in the data and below 2^63, and returns where they start and how many they are |
| `AbiUnpack.TuplePointsTo` | `accounts/abi/unpack.go:282-293` | Never panics; returns the number in the word exactly when it lies in the data and below 2^63 |
| `AbiUnpack.ArrayPointsTo` | `accounts/abi/unpack.go:222-227` | The unchecked offset of an array of dynamic elements: panics exactly when its low eight bytes exceed an int64 or the data |
| `AbiRoundTrip.TypeCheckOutcome` | `accounts/abi/error.go:40-79` | The check of a well-typed value never errs; it panics only at an empty slice or array of fixed arrays |
| `AbiRoundTrip.PackOutcome` | `accounts/abi/type.go:236-315` | Packing a well-typed value succeeds exactly when no slice of fixed arrays in it is empty, and panics otherwise |
| `AbiRoundTrip.PartsOutcome` | `accounts/abi/argument.go:321-361` | The same for a list of components |
| `AbiRoundTrip.PackAccepts` | `accounts/abi/type.go:236-315` | Of all values, well typed or not, exactly those are packed whose arrays have their lengths, whose structs have their fields and whose elements have their kinds at every level, with no empty slice of fixed arrays, although each check looks at first elements only |
| `AbiRoundTrip.SolidSize` | `accounts/abi/type.go:350-365` | The head size is a positive whole number of words and never exceeds what the type really takes |
| `AbiRoundTrip.PackSize` | `accounts/abi/type.go:236-315` | Packed values are whole words, and a static value takes exactly the true size of its type |
| `AbiRoundTrip.ShapedSizes` | `accounts/abi/argument.go:335-361` | Heads fill exactly the true sizes of the components; without dynamic components there are no tails |
| `AbiRoundTrip.HeadsPlaced` | `accounts/abi/argument.go:335-361` | Every offset that is written is the position at which its tail is found |
| `AbiRoundTrip.AssemblePlaced` | `accounts/abi/argument.go:321-361` | The components of an aligned list are found by their heads from the start of the data |
| `AbiRoundTrip.Decodes` | `accounts/abi/unpack.go:188-247` | A packed value of a sound type is read back wherever it is placed |
| `AbiRoundTrip.DecodesSequence` | `accounts/abi/unpack.go:117-154` | The elements of a slice or array are read back from where they were assembled |
| `AbiRoundTrip.DecodesTuple` | `accounts/abi/unpack.go:156-184` | The fields of a tuple are read back, in place or through its offset |
| `AbiRoundTrip.DecodesAll` | `accounts/abi/argument.go:284-312` | Components in a row are read back from the positions counted with getTypeSize |
| `AbiRoundTrip.PackUnpack` | `accounts/abi/argument.go:284-361` | For every sound argument list and all well-typed values, UnpackValues of Pack returns exactly the values, and Pack succeeds exactly when no slice of fixed arrays is empty |
| `AbiLayout.ElementEncoded` | `accounts/abi/pack.go:29-81` | What an elementary value is packed to, and nothing else: a number in big-endian two's complement of 256 bits; for strings and bytes of length n, the word of n, the n bytes, and zeros up to the next multiple of 32; an address behind 12 zeros; fixed bytes and functions in front of zeros |
| `AbiLayout.DynamicIs` | `accounts/abi/type.go:330-340` | A type is dynamic exactly when it is a string, bytes or a slice, an array of such, or a tuple with such a component |
| `AbiLayout.LaidOutIsAssembled` | `accounts/abi/type.go:273-310` | Heads one behind the other, then tails one behind the other, each static component its own head and the head of each dynamic one the position of its tail, in words of 256 bits, and no byte more: that is what assembling gives when offsets count from the end of the heads |
| `AbiLayout.Conforms` | `accounts/abi/type.go:236-315` | Where offsets count from the end of the heads, what is packed is the encoding that the Solidity ABI specification defines, and its only one |
| `AbiLayout.ConformsOnly` | `accounts/abi/type.go:236-315` | Only there: what is packed is not that encoding if some row of components with a dynamic one has sizes that getTypeSize understates |
| `AbiLayout.EncodedLength` | `accounts/abi/type.go:236-315` | Every encoding of a value has the length of what is packed, even where that is not one |
| `AbiLayout.PackConforms` | `accounts/abi/argument.go:321-361` | For all argument lists and well-typed values: what is packed is the specified encoding of the arguments if and only if in every row with a dynamic component the sizes sum up right, and then no other byte string is |
| `AbiLayout.PairsNotStraight` | `accounts/abi/type.go:350-365` | The concrete list: a string and two pairs fail that condition, whatever the values |
| `AbiLayout.SoundStraightRow` | `accounts/abi/argument.go:321-361` | For every sound argument list that condition holds, so what is packed is the specified encoding |
| `AbiLayout.Reads` | `accounts/abi/unpack.go:188-247` | A specified encoding, wherever it is placed, is read as the value it encodes, empty slices of fixed arrays included |
| `AbiLayout.UnpackEncoded` | `accounts/abi/argument.go:284-312` | Every specified encoding of well-typed values is unpacked to them, not only one that was packed here and also of values that cannot be packed, if at every level all components of a row but the last have the size that getTypeSize says |
| `AbiLayout.LegibleMore` | `accounts/abi/type.go:350-365` | Sound lists meet that condition, and so does the list of a string and two pairs, which the encoder does not encode as specified |
| `AbiExact.ReadsWord` | `accounts/abi/unpack.go:188-247` | Whatever the type, from a word of the heads, zero or an offset, no marked value is read, if the word is zero or the value starts there |
| `AbiExact.ReadsBehind` | `accounts/abi/unpack.go:188-247` | The same for a value that starts behind one more offset |
| `AbiExact.MisreadFirst` | `accounts/abi/argument.go:284-361` | The first component is looked for inside the heads, where a marked value is not read if it starts there or the word is zero |
| `AbiExact.MisreadNext` | `accounts/abi/type.go:350-365` | The component behind the first one that getTypeSize understates is read from a zero word inside it, and as an offset that leads to the first word |
| `AbiExact.MisreadDynamic` | `accounts/abi/argument.go:284-361` | When only the last component is understated, the first dynamic one is looked for inside it |
| `AbiExact.RowLoses` | `accounts/abi/unpack.go:117-184` | An unsound anchored row of fields or elements does not bring back the values built for it |
| `AbiExact.Loses` | `accounts/abi/unpack.go:188-247` | An unsound anchored type, static or dynamic, loses a value wherever it is placed |
| `AbiExact.AnchoredExact` | `accounts/abi/argument.go:284-361` | An anchored argument list brings back all values that pack if and only if it is sound, a condition on the types alone; not anchored are only lists, and tuples inside, whose first component starts behind an offset and the one right behind the first understated one behind two, when the offset of the first leads to the head of a dynamic component |
| `AbiExact.StaticExact` | `accounts/abi/argument.go:284-361` | A static argument list brings back all its values if and only if it is sound |
| `AbiExact.PairsThenNumber` | `accounts/abi/type.go:350-365` | The concrete failure: two pairs of numbers followed by a number, where the number 1 comes back as 0; behind the number the pairs do no harm |
| `AbiExact.StringThenPairs` | `accounts/abi/type.go:350-365` | The concrete failure with an offset: a string of one byte before two pairs does not come back |
| `AbiPanic.CalmUnpacks` | `accounts/abi/unpack.go:188-247` | Without a fixed array of dynamic elements, at any depth, and with fixed bytes within a word, unpacking panics on no data |
| `AbiPanic.WildPanics` | `accounts/abi/unpack.go:222-227` | Any other exposed type, however deep the array is nested, panics on data built for it wherever its head leads there |
| `AbiPanic.SoundListExposed` | `accounts/abi/type.go:350-365` | Every sound list is exposed, unless it panics on no data |
| `AbiPanic.PanicsExactly` | `accounts/abi/argument.go:284-312` | Unpacking an exposed list panics on no data if and only if no fixed array of dynamic elements is in it; exposed: no understated array with a boolean or function in it reaches over the heads in front of the first such array, at any depth |
| `AbiPanic.CoveredNeverPanics` | `accounts/abi/argument.go:284-312` | A list that is not exposed: two booleans that reach over the head of the array accept no offset that panics, and no data makes the list panic |
| `AbiPanic.FullWordPanics` | `accounts/abi/unpack.go:222-227` | The concrete input: 32 bytes 0xFF read as an array of one string |
| `AbiPanic.EmptySlicePanics` | `accounts/abi/error.go:40-61` | The concrete input: an empty slice of pairs cannot be packed |
| `AbiLoops.PackValue` | `accounts/abi/type.go:236-315` | The packing loop computes the head and tail encoding; where sizes sum up right it is the one that the Solidity ABI specification defines |
| `AbiLoops.PackElements` | `accounts/abi/type.go:244-272` | The loop over elements, with running offset and tail, computes the length prefix, heads and tails |
| `AbiLoops.PackArguments` | `accounts/abi/argument.go:321-361` | The loop over arguments computes heads and tails with the offset counted from getTypeSize; where sizes sum up right it is the specified encoding of the arguments |
| `AbiLoops.UnpackValue` | `accounts/abi/unpack.go:188-247` | The decoder with its loops computes the value at a head |
| `AbiLoops.UnpackElements` | `accounts/abi/unpack.go:117-154` | The loop over elements reads them one element size apart |
| `AbiLoops.UnpackArguments` | `accounts/abi/argument.go:284-312` | Counting extra words in virtualArgs reads every argument at the sum of the sizes before it |
| `AbiLoops.SizeInWords` | `accounts/abi/type.go:350-365` | getTypeSize is always a multiple of 32, so that division by 32 in virtualArgs is exact |
| `BitsetCompress.BitsetEncodeBytes` | `common/bitutil/compress.go:71-97` | The marking loop with recursion on the bitset computes the compressed form |
| `BitsetCompress.NonZeroBitsetBit` | `common/bitutil/compress.go:83-92` | Bit i from the top of the bitset is set exactly when byte i is not zero |
| `BitsetCompress.NonZeroBytesAt` | `common/bitutil/compress.go:83-92` | The non-zero bytes, each behind those in front of it |
| `BitsetCompress.EncodeExample` | `common/bitutil/compress.go:71-97` | The bytes 00 05 00 07 encode to 50 05 07 |
| `BitsetCompress.BitsetDecodePartialBytes` | `common/bitutil/compress.go:130-170` | The recursive decoder with its pointer loop computes the reference decoding, including every error |
| `BitsetCompress.DistributeFaults` | `common/bitutil/compress.go:152-168` | Decoding fails at the first marked place for which no byte is left, there is no room or the byte is zero, in that order, with the error of that fault, and succeeds exactly when there is none |
| `BitsetCompress.DecodeEncoded` | `common/bitutil/compress.go:130-170` | An encoding followed by anything decodes to its data and consumes exactly its bytes |
| `BitsetCompress.DecodeSound` | `common/bitutil/compress.go:130-170` | Whatever the partial decoder accepts is the encoding of its output |
| `BitsetCompress.DecodeIsInverse` | `common/bitutil/compress.go:115-124` | Decoding at a length yields d if and only if the input is the encoding of d |
| `BitsetCompress.DecompressCompressed` | `common/bitutil/compress.go:60-112` | DecompressBytes(CompressBytes(d), len(d)) is d for all data |
| `BitsetCompress.CompressDecompressed` | `common/bitutil/compress.go:60-112` | Compressing what was decompressed gives the input back exactly when the input was shorter than the target or does not compress |
| `BitsetCompress.ZeroByteAccepted` | `common/bitutil/compress.go:102-112` | The concrete input: a single zero byte is accepted for target 1 and compresses to nothing |
| `Bloom.Bloom9` | `core/types/bloom9.go:115-127` | Exactly three bits: the first three byte pairs of the digest, each as a big-endian number modulo 2048 |
| `Bloom.KeyBitsExample` | `core/types/bloom9.go:115-127` | A digest that starts with 01 02, FF FF and 08 07 sets the bits 258, 2047 and 7 |
| `Bloom.BigIsNumber` | `core/types/bloom9.go:66-69` | The one bits of the filter are the binary digits of its bytes read as one big-endian number |
| `Bloom.BytesToBloomBits` | `core/types/bloom9.go:44-57` | The bits of the filter bytes are the bits of the number |
| `Bloom.LogsBloom` | `core/types/bloom9.go:103-113` | A bit is set exactly when some address or topic of some log sets it |
| `Bloom.CreateBloom` | `core/types/bloom9.go:94-101` | A bit of the bloom is set exactly when an address or topic of some log of some receipt sets it, so every address and every topic passes the lookup |
| `Bloom.Generator.AddBloom` | `core/bloombits/generator.go:58-81` | Blooms are accepted in order up to the section size, and the transposed rows hold the bits of all added blooms |
| `Bloom.Generator.Bitset` | `core/bloombits/generator.go:85-93` | Available exactly when complete and in range; bit s of row i is bit i of bloom s |
| `Bits.MaskIsShift` | `core/bloombits/generator.go:67-72` | The masks are one bit shifted to its place |
| `Bits.VectorIsNumber` | `core/bloombits/generator.go:66-77` | Vectors are numbers in binary, their first bit the highest of their first byte |
| `Bloom.NewGenerator` | `core/bloombits/generator.go:45-54` | Fails exactly when the section size is not a multiple of 8 |
| `Bloom.IndexSection` | `core/bloombits/generator.go:58-93` | Indexing a section gives the rotation of its blooms for all 2048 bits |
| `BloomMatcher.CalcBloomIndexes` | `core/bloombits/matcher.go:38-46` | The three bit indexes of a clause: the first three byte pairs of its digest, each as a big-endian number modulo 2048, in order |
| `BloomMatcher.LookupIsIndexes` | `core/types/bloom9.go:131-136` | A bloom passes the lookup of a key exactly when the three indexed bits are set |
| `BloomMatcher.BuildFilter` | `core/bloombits/matcher.go:92-132` | Wildcard groups are dropped, the others become index triples in order |
| `BloomMatcher.FilterIsGroups` | `core/bloombits/matcher.go:92-132` | A bloom passes the filter exactly when it passes every remaining group by its indexes |
| `BloomMatcher.MatchAlternative` | `core/bloombits/matcher.go:336-373` | The AND of the three bit vectors of a clause |
| `BloomMatcher.SubMatch` | `core/bloombits/matcher.go:336-373` | OR over the clauses of a group, AND with the bits of the groups before |
| `BloomMatcher.TestBytes` | `common/bitutil/bitutil.go:151-188` | True exactly when some bit is set |
| `BloomMatcher.MatchSection` | `core/bloombits/matcher.go:225-378` | The bits of a section are the blooms that pass all groups; a dropped section has none |
| `BloomMatcher.Emit` | `core/bloombits/matcher.go:182-211` | The emission loop, with its byte skips and range ends, emits ascending exactly the set bits within the range |
| `BloomMatcher.RunSections` | `core/bloombits/matcher.go:225-254` | All sections together: ascending and exactly the passing blocks of their ranges |
| `BloomMatcher.Match` | `core/bloombits/matcher.go:147-216` | For every section size that is a positive multiple of 8, every range and every filter: ascending, exactly the blocks in range whose bloom passes |
| `BloomMatcher.PassesIsReported` | `core/types/bloom9.go:94-136` | A bloom made from receipts passes a filter exactly when every non-wildcard group has a clause whose bits the logs take |
| `BloomMatcher.MentionedReported` | `core/types/bloom9.go:94-136` | That is so for a block whose logs mention a clause of every such group |
| `BloomMatcher.IndexIndexed` | `core/bloombits/generator.go:58-93` | The vectors of all sections together are the index the matcher needs |
| `BloomMatcher.IndexSections` | `core/bloombits/generator.go:58-93` | Running the generator over every section of the blooms gives that index |
| `BloomMatcher.Search` | `core/bloombits/matcher.go:147-216` | From the receipts of the blocks over their blooms, the index of every section and the matcher: ascending, exactly the blocks in range in which every non-wildcard group has a clause whose bits the logs take, and never without a block whose logs mention a clause of every group |
| `SortSearch.Search` | `core/bloombits/matcher.go:425-425` | Binary search: the first index at which a monotone condition holds |
| `SortSearch.InsertBySearch` | `core/bloombits/matcher.go:424-426` | Insertion by binary search is sorted insertion |
| `SortSearch.InsertAllSorted` | `core/bloombits/matcher.go:490-496` | Inserting several sections keeps the queue sorted and adds exactly them |
| `Distributor.InitInv` | `core/bloombits/matcher.go:385-394` | The invariant holds at the start |
| `Distributor.AssignCompletes` | `core/bloombits/matcher.go:397-407` | Assigning the one bit that has work and no owner restores the invariant, handed over or left unallocated |
| `Distributor.RequestKeeps` | `core/bloombits/matcher.go:422-431` | A request adds its section to the sorted queue of its bit and nothing to the others, and the bit is assigned if the queue was empty |
| `Distributor.ArriveKeeps` | `core/bloombits/matcher.go:433-447` | A retriever gets an unallocated bit whose first section is the lowest of all unallocated bits |
| `Distributor.CollectKeeps` | `core/bloombits/matcher.go:453-468` | The retriever gets the first sections of the queue, as many as it wants or all, the others stay queued in order, and the bit is assigned again for them |
| `Distributor.DeliverKeeps` | `core/bloombits/matcher.go:470-502` | Of each section of each bit: delivered grows by the number of places at which it comes with a bitset, its queue by the number of places at which the bitset is missing, and nothing else; the bit is assigned if its queue was empty |
| `Distributor.SplitDelivery` | `core/bloombits/matcher.go:473-486` | The loop that splits a delivery: the scheduler gets the sections with a bitset that is not empty, in order, each with its own bitset, and the others are missing |
| `Distributor.PickBit` | `core/bloombits/matcher.go:435-440` | The loop over the unallocated bits, in any order, finds one with the lowest first section |
| `Distributor.SearchFindsUnallocated` | `core/bloombits/matcher.go:435-440` | The bit found is unallocated if and only if bit 0 is or some pending section is below the largest uint64 |
| `Distributor.MaxSectionNotFound` | `core/bloombits/matcher.go:435-440` | The concrete state: bit 5 alone waits, for the largest uint64, and the search ends with bit 0 |
| `Distributor.SectionsBelowMax` | `core/bloombits/matcher.go:225-254` | Section numbers of the matcher are below the largest uint64, so that condition holds |
| `Distributor.StepKeeps` | `core/bloombits/matcher.go:382-508` | Every step of the distributor and of retrievers that follow the protocol keeps the invariant |
| `Distributor.RunSafety` | `core/bloombits/matcher.go:382-508` | In every run: a queue is non-empty exactly when its bit is unallocated or handed to exactly one retriever, never both; queues are sorted; allocs counts the outstanding retrievers; the number of requests of a section is the number of times it is in its queue, in the hands of a retriever and among the deliveries |
| `Scheduler.InitInv` | `core/bloombits/scheduler.go:73-82` | What reset leaves over is complete |
| `Scheduler.ReceiveKeeps` | `core/bloombits/scheduler.go:98-113` | A section is requested by the run that first sees it |
| `Scheduler.PushKeeps` | `core/bloombits/scheduler.go:115-122` | A request goes out once |
| `Scheduler.HandOutKeeps` | `core/bloombits/scheduler.go:145-166` | A vector is handed out in its turn |
| `Scheduler.DeliverKeeps` | `core/bloombits/scheduler.go:171-181` | A delivery sets every open section that it brings to the data at the section's first place and closes it once, and leaves all other sections as they are |
| `Scheduler.StepKeeps` | `core/bloombits/scheduler.go:87-181` | Every step of every concurrent run, and every filtered delivery, keeps the invariant |
| `Scheduler.SessionSafety` | `core/bloombits/scheduler.go:87-181` | In every session each section is requested at most once and none whose vector was left over, each done channel is closed at most once, and every run outputs for the sections it received, in the order it received them, the vector left over or the one that the first delivery of the section after it was first received has at the section's first place |
| `Scheduler.ClosedOnceIffFiltered` | `core/bloombits/scheduler.go:171-181` | Two deliveries of a section close its channel once if and only if the first carried a bitset, which the filter of the distributor guarantees |
| `Scheduler.EmptyClosesTwice` | `core/bloombits/scheduler.go:171-181` | The concrete input: two empty deliveries of a section close its channel twice |
| `Feed.FindCounts` | `event/feed.go:213-220` | A channel is found exactly when it occurs |
| `Feed.FindCase` | `event/feed.go:213-220` | The loop finds the first case of the channel, or -1 if there is none |
| `Feed.DeleteCase` | `event/feed.go:223-225` | Shifts the cases behind the index down in place |
| `Feed.DeactivateCase` | `event/feed.go:228-232` | Swaps a case behind the active prefix in place |
| `Feed.SubscribeKeeps` | `event/feed.go:72-92` | A new subscription goes to the end of the inbox; the cases, and a send in progress, stay as they are |
| `Feed.UnsubscribeKeeps` | `event/feed.go:103-115` | A removal takes the first case of its channel from the inbox and is done, or waits if there is none |
| `Feed.RemoveIdleKeeps` | `event/feed.go:117-123` | A removal between sends finds the first case of its channel and deletes exactly it |
| `Feed.SendInboxKeeps` | `event/feed.go:133-146` | A send appends the inbox to the cases and empties it, also when the type of the value is wrong |
| `Feed.DeliverKeeps` | `event/feed.go:160-164` | A delivery moves the case to the delivered part |
| `Feed.RemoveKeeps` | `event/feed.go:170-178` | A removal during a send of a case still active, or already delivered to, keeps the prefix exact |
| `Feed.NeverPanics` | `event/feed.go:103-190` | No step of a reachable state deletes a case that is not found or indexes past a slice |
| `Feed.StepKeeps` | `event/feed.go:72-190` | Every step of every goroutine keeps the invariant |
| `Feed.RunSafety` | `event/feed.go:103-190` | In every interleaving: occurrences in inbox and cases equal live subscriptions; removals past the inbox never outnumber the cases; at every moment past the inbox a send reached each case at most once, only cases it started with, and counted the deliveries, and each case it started with was reached, removed or is still to be sent to, when finished none of the last |
| `Feed.SentIsAccepted` | `event/feed.go:155-183` | In every run: at any moment of a send, what it has recorded and counted is exactly the cases that accepted the value since it took over the inbox, by a try or by a select, in that order |
| `Feed.SendBegan` | `event/feed.go:133-146` | Every send in progress has a step at which it took over the inbox, and was to reach the cases of that moment |
| `Feed.SelectsAfterRefusals` | `event/feed.go:155-170` | In every run: a pass of the fast path tries the active cases in order; a send blocks in a select only when every active case has refused since the last one chosen, and ends exactly when none is left |
| `Feed.SelectRemoveKeeps` | `event/feed.go:170-178` | A removal during a send deletes exactly the first case of its channel |
| `Feed.TargetsFixed` | `event/feed.go:133-152` | What a send is to reach is fixed when it takes over the inbox |
| `Heap.TopBest` | `common/prque/sstack.go:96-98` | The first element of a heap ranks highest |
| `Heap.PushSame` | `common/prque/prque.go:35-37` | Whatever the comparison, Push adds exactly the element |
| `Heap.PushHeap` | `common/prque/prque.go:35-37` | Push keeps the heap order and adds exactly the element |
| `Heap.PopSame` | `common/prque/prque.go:47-50` | Whatever the comparison, Pop takes the first element and leaves exactly the others |
| `Heap.PopHeap` | `common/prque/prque.go:47-50` | Pop takes the first element and leaves a heap of exactly the others |
| `Heap.RemoveSame` | `common/prque/prque.go:58-63` | Whatever the comparison, Remove takes the element at the index and leaves exactly the others |
| `Heap.RemoveHeap` | `common/prque/prque.go:58-63` | Remove takes the element at the index and leaves a heap of exactly the others |
| `Heap.FixHeap` | `core/types/transaction.go:344-352` | Fix restores the heap after one element was replaced |
| `Heap.InitHeap` | `core/types/transaction.go:313-333` | Init makes a heap of any sequence |
| `SStack.BeforeIff` | `common/prque/sstack.go:96-98` | The wrapped comparison of int64 priorities is the true one if and only if their difference does not overflow |
| `SStack.WrapAround` | `common/prque/sstack.go:96-98` | The concrete input: of the lowest and the highest int64 the heap puts the lowest on top |
| `SStack.SameWindow` | `common/prque/sstack.go:96-98` | Two priorities lie in a window narrower than 2^63 exactly when the wrapped comparison is right about them in both directions |
| `SStack.WithinAgrees` | `common/prque/sstack.go:96-98` | On priorities in a window narrower than 2^63 it is the descending order |
| `SStack.SStack.constructor` | `common/prque/sstack.go:44-51` | An empty stack of one block |
| `SStack.SStack.Grow` | `common/prque/sstack.go:56-64` | Makes room in a new or the next block and keeps the contents; block number times block size plus offset stays the size |
| `SStack.SStack.Push` | `common/prque/sstack.go:55-71` | Appends to the plain sequence and reports the new position |
| `SStack.SStack.Pop` | `common/prque/sstack.go:75-87` | Takes the last element of the plain sequence, clears its slot and reports -1 |
| `SStack.SStack.Less` | `common/prque/sstack.go:96-98` | Compares the elements of the plain sequence |
| `SStack.SStack.Swap` | `common/prque/sstack.go:101-109` | Swaps in the plain sequence and reports both new positions |
| `SStack.SStack.Up` | `common/prque/sstack.go:96-109` | Sift up on the blocks is sift up on the plain sequence; every report follows its item |
| `SStack.SStack.Down` | `common/prque/sstack.go:96-109` | Sift down on the blocks is sift down on the plain sequence; every report follows its item |
| `SStack.SStack.HeapPush` | `common/prque/prque.go:35-37` | For all priorities: adds exactly the item, and positions told are positions held, of all items; in a window narrower than 2^63 a heap stays a heap |
| `SStack.SStack.HeapPop` | `common/prque/prque.go:47-50` | For all priorities: takes the first item, tells it -1, and keeps the others told; of a heap in a window it is one of highest priority and the rest is a heap |
| `SStack.SStack.HeapRemove` | `common/prque/prque.go:58-63` | For all priorities: takes the item at the index, tells it -1, and keeps the others told; in a window a heap stays a heap |
| `LazyQueue.NewLazyQueue` | `common/prque/lazyqueue.go:55-66` | A new queue is empty and valid after its first refresh |
| `LazyQueue.LazyQueue.Reset` | `common/prque/lazyqueue.go:69-72` | Empties the queues; the index space is in order afterwards if and only if the offset is 0 and the queue was empty, since neither offset nor old indices are reset |
| `LazyQueue.ResetLosesTrack` | `common/prque/lazyqueue.go:55-72` | A new queue that is reset: the first item pushed is told index 1, which points to no item |
| `LazyQueue.LazyQueue.LastLocates` | `common/prque/lazyqueue.go:153-182` | The last index told for a queued item locates it through queue[(index&1)^indexOffset] at index>>1; every other item was last told -1 |
| `LazyQueue.LazyQueue.Push` | `common/prque/lazyqueue.go:86-88` | For all priorities: adds to the second queue exactly the item, under the estimate made now until maxUntil, and keeps all positions told and all estimates valid; keeps the order if the estimate lies in the window |
| `LazyQueue.LazyQueue.Update` | `common/prque/lazyqueue.go:91-93` | For all priorities: the item an index points to leaves its queue and joins the second one under the estimate made now until maxUntil, and all others keep theirs; a negative index pushes nil |
| `LazyQueue.LazyQueue.Remove` | `common/prque/lazyqueue.go:153-158` | For all priorities: removes exactly the item an index points to, from the queue the index tells, and tells it -1; a negative index changes nothing |
| `LazyQueue.LazyQueue.Refresh` | `common/prque/lazyqueue.go:75-83` | For all priorities: keeps exactly the items, those of the first queue under estimates made now for one period and the others under theirs, exchanges the queues and the parity, and estimates hold until the next refresh and the one after |
| `LazyQueue.LazyQueue.PeekIndex` | `common/prque/lazyqueue.go:111-122` | The queue whose top has the higher estimate, the first one in a tie, or -1; it is the choice of the wrapped comparison if and only if the difference of the tops does not overflow |
| `LazyQueue.LazyQueue.LeaderIsBest` | `common/prque/lazyqueue.go:127-144` | An evaluated item above every estimate has the highest actual priority of all |
| `LazyQueue.LazyQueue.MultiPop` | `common/prque/lazyqueue.go:127-144` | For all priorities: each queued item is handed out once with its actual priority or still queued, handed out items were told -1, and it stops only when told or empty, with nothing waiting; what stays queued keeps its estimate or has the one made now until maxUntil; with heaps in order, int64 priorities of the queued items at this time in a window, refreshes on time and estimates that are bounds, items come in falling actual priority and none still queued is higher |
| `LazyQueue.LazyQueue.Pop` | `common/prque/lazyqueue.go:96-107` | Hands out a queued item with its actual priority, nothing exactly when the queue is empty; under the conditions of MultiPop one of highest actual priority |
| `LazyRun.Step` | `common/prque/lazyqueue.go:86-158` | Pushing what is not queued, updating and removing by the index last told, refreshing and popping change the set of queued values exactly as a plain queue does; popping hands out different queued values with their priorities, as many as asked for or all; in order if the heaps were and the window holds |
| `LazyRun.Run` | `common/prque/lazyqueue.go:55-182` | After any run of Push, Update, Remove, Refresh and MultiPop with any priorities: the queue holds and pops what a plain set of values would, all queued items are located by the index last told and all others were told -1; if refreshes and pops are on time and estimates are bounds, every pop takes the highest as long as each operation up to it found the estimates queued at its moment, and what it evaluates and estimates, in a window of its own; one window for the run is enough for that |
| `PriceNonce.TransactionsByPriceAndNonce.constructor` | `core/types/transaction.go:313-333` | Every account starts with its whole list |
| `PriceNonce.TransactionsByPriceAndNonce.Peek` | `core/types/transaction.go:336-341` | A head of maximal price among the next transactions of all accounts; none exactly when none is left |
| `PriceNonce.TransactionsByPriceAndNonce.Shift` | `core/types/transaction.go:344-352` | Takes the first transaction of that account only |
| `PriceNonce.TransactionsByPriceAndNonce.Pop` | `core/types/transaction.go:357-359` | Takes all that is left of that account only |
| `PriceNonce.Run` | `core/types/transaction.go:313-359` | In every run of Peek with Shift or Pop: list order per account, all of them exactly once unless popped, none of an account after its pop, and each peeked price maximal among the accounts' next ones |
| `PriceNonce.InOrderNext` | `core/types/transaction.go:344-359` | One more step keeps what was handed out a prefix of the account's list, with the rest still to come |
| `Curve.DoubleJacobian` | `crypto/secp256k1/curve.go:209-239` | Through all reductions: the doubling formulas modulo P, on the curve if the argument is, and the tangent law for every affine point the argument stands for |
| `Curve.AddJacobian` | `crypto/secp256k1/curve.go:138-199` | Through all reductions and sign corrections: the addition formulas modulo P, on the curve if both arguments are, and the chord law for every affine points they stand for |
| `Curve.DoubleOnCurve` | `crypto/secp256k1/curve.go:209-239` | The double of a triple with Y^2 = X^3 + bZ^6 satisfies it |
| `Curve.SumOnCurve` | `crypto/secp256k1/curve.go:138-199` | The sum of two triples with Y^2 = X^3 + bZ^6 satisfies it |
| `Curve.DoubleDefect` | `crypto/secp256k1/curve.go:209-239` | Over the integers the defect of the double is 64 Y^6 times the defect of the argument |
| `Curve.SumDefect` | `crypto/secp256k1/curve.go:138-199` | Over the integers the defect of the sum is the first one scaled plus a multiple of the difference of both |
| `Curve.TangentLaw` | `crypto/secp256k1/curve.go:209-239` | The double stands for the third point of any tangent, mirrored |
| `Curve.ChordLaw` | `crypto/secp256k1/curve.go:138-199` | The sum stands for the third point of any chord, mirrored |
| `Curve.IsOnCurve` | `crypto/secp256k1/curve.go:101-114` | True exactly when y^2 is congruent to x^3 + b |
| `Curve.AffineFromJacobian` | `crypto/secp256k1/curve.go:118-128` | The one affine point the triple stands for; panics exactly when Z has no inverse |
| `Curve.Add` | `crypto/secp256k1/curve.go:131-134` | The chord law for affine points; panics if and only if twice the difference of abscissas is not invertible, so always for a point and itself |
| `Curve.AddBaseTwice` | `crypto/secp256k1/curve.go:131-134` | The concrete input: adding the base point to itself panics |
| `Curve.Double` | `crypto/secp256k1/curve.go:202-205` | The tangent law for affine points; panics if and only if twice the ordinate is not invertible |
| `Curve.BaseOnCurve` | `crypto/secp256k1/curve.go:310-320` | The base point is on the curve |
| `Wallets.CmpEqual` | `accounts/url.go:99-104` | URL comparison is 0 only for equal URLs and antisymmetric |
| `Wallets.CmpTransitive` | `accounts/url.go:99-104` | URL comparison is transitive |
| `Wallets.CmpIsBelow` | `accounts/url.go:99-104` | A URL is below another exactly when its scheme is lower, whatever the paths are, or the schemes are equal and its path is lower, lower meaning a proper prefix or smaller where the strings first differ |
| `Wallets.FindPosition` | `accounts/manager.go:210-217` | The binary search finds the first wallet not below the URL |
| `Wallets.MergedSorted` | `accounts/manager.go:210-220` | Merging a wallet with a new URL keeps the list sorted and adds exactly it |
| `Wallets.DroppedSorted` | `accounts/manager.go:224-234` | Dropping a wallet of the list keeps it sorted and removes exactly it |
| `Wallets.DroppedAbsent` | `accounts/manager.go:224-234` | Dropping a URL the list does not have leaves it alone if and only if every wallet is below; otherwise exactly the first wallet above it goes |
| `Wallets.DropsAnother` | `accounts/manager.go:224-234` | The concrete input: the only wallet goes when an absent one with a lower URL is dropped |
| `Wallets.SortedUnique` | `accounts/manager.go:205-220` | A sorted list is determined by its wallets |
| `Wallets.Manager.Update` | `accounts/manager.go:110-121` | Merges or drops as the event says |
| `Wallets.ReplayTracks` | `accounts/manager.go:110-121` | Replaying proper events of one backend keeps the cache sorted and holding the other wallets and exactly what the events make of its own |
| `Wallets.Replay` | `accounts/manager.go:98-132` | The manager's loop over the events |
| `Wallets.KeyStore.RefreshWallets` | `accounts/keystore/keystore.go:134-177` | The new list is sorted and holds exactly the accounts whose URL did not belong to another account; the events are proper and lead from the old list to the new, and only accounts without a wallet arrive and only wallets without an account go |
| `Wallets.RefreshComplete` | `accounts/keystore/keystore.go:134-177` | Every account has its wallet if and only if no URL changed its address |
| `Wallets.LosesChanged` | `accounts/keystore/keystore.go:134-177` | The concrete run: a refresh with one account and another in which its URL has another address leave no wallet |
| `Wallets.Sync` | `accounts/keystore/keystore.go:134-177` | Refresh and replay: the manager holds the other backends' wallets and exactly the new ones; alone it equals the keystore's list, and that equals the account list if and only if no URL changed its address |

## Left out

- AbiExact.AnchoredExact: necessity is open for lists, and tuples inside, whose first component starts behind an offset, and the one right behind the first understated array behind two, when the offset of the first leads to the head of a dynamic component: the next offset leads past the heads, and what is read there depends on the tails.
- AbiPanic.PanicsExactly: open for lists in which an understated array that has booleans or functions reaches over the heads; `AbiPanic.CoveredNeverPanics` is one that never panics, and others may.
- ABI arrays of length zero, empty tuples and fixed bytes wider than a word: Solidity has no such types, and the round trip is stated for the others.
- PriceNonce.TransactionsByPriceAndNonce.constructor: only maps whose keys are the senders of their transactions and whose lists are not empty. With another key the loop adds to the map it ranges over, and Go leaves open whether the new entry is visited; an empty list panics.
- Distributor.RunSafety: runs before quit; the shutdown and kill branches end the goroutine and are not steps.
- Scheduler.SessionSafety: quit ends a run and is not a step.
- LazyQueue.LazyQueue.MultiPop: the callback decides from the items handed out so far and does not call the queue.
- LazyQueue.LazyQueue.Push: a value is queued at most once, so that the index callback speaks of one item.
- SStack.SStack.HeapPush: a value is held at most once, for the same reason.
- Wallets.KeyStore.RefreshWallets: a wallet is its account; which wallet object is kept is not visible.
- Feed.RunSafety: cases are a value sequence with the length of the active prefix; the slices in place are `Feed.DeleteCase` and `Feed.DeactivateCase`.
- Curve.ModInverse: stands for the library function by its specification, not its algorithm.
- Reflection on Go types, struct tags and the mapping to user types: ABI and RLP are modelled on nested values.
- RLP pointers, optional and tail struct fields, and the type cache: they add cases of reflection only.
- ABI argument names, indexed event arguments, JSON descriptions and type strings: parsing, not encoding.
- int64 overflow of times in the lazy queue, and memory limits of slices beyond 2^63 bytes.
- Fast paths of the bit operations over machine words: the model has the byte-wise result.
- Progress of the protocols (that a retriever or receiver eventually answers): it depends on the environment.
- Scalar multiplication, signatures, key files, RPC clients and contract bindings: C code, I/O, or glue.
