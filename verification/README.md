# Verification of the Tron application's parsing and signing core

A Dafny model of the parts of the Tron Ledger application that decide what is signed and what is shown, with
proofs about every input and every run:

- **256-bit arithmetic** (`Arith`, `Wide`, `Multiply`, `Radix`): the limb code of `src/uint256.c` against the natural
  numbers, with the aliasing that its callers use. Multiplication has a carry at the wrong weight; the exact law,
  an input that shows it and the exact condition for a correct product are proved.
- **Decimal rendering** (`Decimal`, `Amount`): `adjustDecimals` and `print_amount` against the rationals they denote.
- **The nanopb codec**: `Varints`, `Schema` and `Wire` define the format and what the encoder and decoder make of it;
  `RoundTrip`, `Split`, `Merge`, `Capacity` and `Format` prove its laws; `Reader` and `Decoder`, `Writer` and
  `Encoder` are the stream code, proved to compute it; `MaxSize` is the generator's size bound; `Descriptor` and
  `FieldIterator` are the packed descriptors and the iterator over them.
- **The INS_SIGN session** (`Transaction`, `Payloads`, `Chunks`, `Swap`, `Session`, `Device`, `Runs`, `Reviews`,
  `SwapRuns`, `Paths`, `Witnesses`): chunks to recorded content to review or swap check to signature. `Session` gives
  each step as a function of the state, `Device` is the code that updates the globals, proved to take exactly these
  steps, and `Runs` proves what holds in every run. `Payloads` says what the bytes of a transaction are recorded as,
  `Reviews` when exactly a review is shown and why a command is refused, `SwapRuns` when exactly a swap is signed,
  `Paths` which path a signature uses, and `Witnesses` follows transactions from their bytes to review and signature,
  and holds runs that show what else the device signs. An observer who sees only commands and replies can compute the
  accepted payloads (`Runs.Observe`), and the theorems are stated about those payloads.
- **Personal messages** (`PersonalMessage`): the chunked hash with its counter.

`dafny verify dfyconfig.toml` checks the whole project.

## Reading the model

A schema is a list of fields with rising numbers; a message is a list of slots, one per field. A callback field
records the byte strings it was given, and what the application's callbacks make of them follows from that list.
Machine words are bounded integers; wrap-around, truncation and sign extension are written out. A hash context is
the sequence of bytes hashed so far. Hashing, signing, address encoding, the token table and the screens of
contract types other than transfers and smart contract calls are functions of an environment that every theorem
quantifies over. An exception ends the run.

Some laws that one might expect are false of the code; each is stated with the exact condition under which it holds:
`Multiply.Mul256ExactIff`, `Wide.ShiftRight128Into`, `Amount.PrintMatchesIff`, `Chunks.SplitInvariant` and
`Chunks.ChunkingInvariant`, `Capacity.DeclaredSizesIff`, `MaxSize.BytesBoundIff`, `Descriptor.SingleKeepsIff`,
`Runs.SignatureCovers` (one Contract message), `Paths.SignaturePath`, `PersonalMessage.LengthTextIff`. `Witnesses` has
the runs.

## Model

| member | source | states |
|---|---|---|
| `Wide.Gt256` | src/uint256.c:225-230 | The limb-wise comparison is the order of the numbers |
| `Wide.ShiftLeft128` | src/uint256.c:79-96 | The shift is multiplication by a power of two modulo 2^128, for every shift count |
| `Wide.ShiftLeft256` | src/uint256.c:98-121 | The same modulo 2^256, also when target and operand are one object |
| `Wide.ShiftRight128` | src/uint256.c:123-142 | The shift is division by a power of two |
| `Wide.ShiftRight128Into` | src/uint256.c:123-142 | Through pointers: the only shift that loses its value is the one by 64 in place |
| `Wide.ShiftRight256` | src/uint256.c:144-167 | Division by a power of two at 256 bits, also in place |
| `Wide.Bits128` | src/uint256.c:169-186 | The loop finds the bit length |
| `Wide.Bits256` | src/uint256.c:188-207 | The loop finds the bit length |
| `Wide.Add128` | src/uint256.c:240-244 | Addition modulo 2^128 from two limbs and a carry |
| `Wide.Add256` | src/uint256.c:246-257 | Addition modulo 2^256, aliasing allowed |
| `Wide.Minus128` | src/uint256.c:259-263 | Subtraction modulo 2^128 from two limbs and a borrow |
| `Wide.Minus256` | src/uint256.c:265-276 | Subtraction modulo 2^256, aliasing allowed |
| `Wide.WrapIsMod` | src/uint256.c:240-276 | The wrapped sums and differences above are those modulo 2^128 and 2^256 |
| `Wide.Or256` | src/uint256.c:283-286 | Limb-wise OR is the OR of the numbers |
| `Wide.DivMod128` | src/uint256.c:427-456 | Terminates for every nonzero divisor with the quotient and the remainder |
| `Wide.DivMod256` | src/uint256.c:458-488 | The same at 256 bits, even when an output is the dividend or the divisor |
| `Wide.DivideRound` | src/uint256.c:477-484 | One round of long division keeps: copyd is the divisor times adder, adder a power of two whose bit is clear in the quotient, the remainder below twice copyd |
| `Wide.LongDivision` | src/uint256.c:471-484 | The loop ends with quotient times divisor plus remainder equal to the dividend, and the remainder below the divisor |
| `Multiply.ProductByColumns` | src/uint256.c:333-400 | The sum of the sixteen limb products, gathered by columns, is the product plus a multiple of base^4 |
| `Multiply.Mul128` | src/uint256.c:288-331 | The product modulo 2^128, from sixteen 32-bit partial products |
| `Multiply.Mul256` | src/uint256.c:333-425 | The product modulo 2^256 plus U * (2^192 - 2^128), with U the upper half of the third64 column |
| `Multiply.Mul256ExactIff` | src/uint256.c:400-425 | The result is the product modulo 2^256 exactly when that column stays below 2^64 |
| `Multiply.Mul256Inexact` | src/uint256.c:416-416 | Operands for which the result is not the product modulo 2^256 |
| `Radix.ConvertUint256BE` | src/uint256.c:45-49 | Up to 32 big-endian bytes become the number they spell |
| `Radix.ReverseString` | src/uint256.c:490-498 | The first characters are reversed in place, the others stay |
| `Radix.PrintDigits` | src/uint256.c:537-543 | The digit loop stops with the reversed numeral, or, exactly when the number is at least base^outLength, with outLength digits and no terminator |
| `Radix.ToString256` | src/uint256.c:524-547 | Succeeds iff the base is 2 to 16 and the value is below base^outLength, and then holds the numeral, most significant digit first, with a terminator |
| `Radix.NumeralDenotes` | src/uint256.c:524-547 | The numeral read back is the number |
| `Radix.NumeralUnique` | src/uint256.c:524-547 | It is the only numeral without leading zeros that denotes the number |
| `Radix.NumeralLength` | src/uint256.c:537-543 | It has at most n digits iff the number is below base^n |
| `Decimal.AdjustDecimals` | src/parse.c:60-125 | Succeeds iff the target has the room asked for, and then holds the digits with the point in place and trailing zeros trimmed |
| `Decimal.AdjustedKeepsValue` | src/parse.c:60-125 | For every canonical numeral and number of decimals the text denotes the number divided by 10^decimals and ends in neither a fractional zero nor a point |
| `Decimal.AdjustedIsDecimal` | src/parse.c:60-125 | The text is a numeral without leading zeros and, behind a point, digits only |
| `Decimal.RoomByValue` | src/parse.c:69-102 | The target size it asks for: 2 for zero, decimals + 3 for numbers below 10^decimals, the number of digits + 2 otherwise |
| `Decimal.AdjustedInjective` | src/parse.c:60-125 | At the same decimals, equal texts come from equal numerals |
| `Decimal.SameTextSameRational` | src/swap/handle_swap_sign_transaction.c:116-138 | A text read at two numbers of decimals denotes the same rational |
| `Decimal.SameRationalSameText` | src/parse.c:60-125 | And numbers that are the same rational at their decimals have the same text: the rendering is a function of the rational |
| `Amount.CountDigits` | src/parse.c:130-139 | The digit count and the weight of the first digit |
| `Amount.PrintAmount` | src/parse.c:127-158 | The buffer holds the rendered amount and its length is returned, or an empty text and 0 when it does not fit; an exception is thrown for twenty digits |
| `Amount.PrintDenotes` | src/parse.c:127-158 | A text that print_amount shows denotes the amount divided by 10^sun |
| `Amount.PrintMatchesNumeral` | src/parse.c:127-158 | A positive amount throws iff it is at least 10^19; below, when it fits the buffers, it renders as through the 256-bit numeral and adjustDecimals |
| `Amount.PrintMatchesIff` | src/parse.c:127-158 | For every amount, buffer and number of decimals: the two renderings agree iff the amount is positive and below 10^19, the decimals are at most 22 and the text fits |
| `Amount.PrintZeroDiffers` | src/parse.c:130-156 | A failing input: zero is shown with padded zeros instead of a plain 0 |
| `Amount.TokenAmountLine` | src/handlers/sign.c:357-366 | The line of a TRC20 call denotes its 32-byte argument divided by 10^decimals, and no step fails up to 97 decimals, or at all for zero |
| `Varints.VarintIsVarint` | nanopb/pb_encode.c:570-620 | The encoding of a number is a complete varint that spells the number |
| `Varints.VarintMinimal` | nanopb/pb_encode.c:570-620 | No varint of the same number is shorter |
| `Varints.VarintAtMost10` | nanopb/pb_encode.c:573-573 | 64-bit numbers take at most ten bytes, 32-bit numbers five |
| `Varints.Read64RoundTrip` | nanopb/pb_decode.c:240-260 | The 64-bit decoder returns every encoded value and consumes exactly its bytes |
| `Varints.Read64Iff` | nanopb/pb_decode.c:240-260 | Every varint of at most ten bytes, minimal or not, is read modulo 2^64, and no longer one |
| `Varints.UnendedRefused` | nanopb/pb_decode.c:240-260 | Bytes that never end a varint are refused by both decoders |
| `Varints.Read32Refines` | nanopb/pb_decode.c:170-232 | Whenever the 32-bit decoder accepts, the 64-bit one accepts the same bytes and agrees modulo 2^32 |
| `Varints.Read32RoundTrip` | nanopb/pb_decode.c:170-232 | It accepts the encoding of every unsigned 32-bit value |
| `Varints.Read32Iff` | nanopb/pb_decode.c:170-232 | Up to five bytes it takes exactly the varints of 32-bit numbers |
| `Varints.Read32Padded` | nanopb/pb_decode.c:196-221 | It takes every varint of a 32-bit number up to ten bytes |
| `Varints.Read32Negative` | nanopb/pb_decode.c:204-215 | It accepts the sign-extended encoding of every negative 32-bit value |
| `Varints.ZigZagRoundTrip` | nanopb/pb_encode.c:622-631 | ZigZag and its inverse return every signed 64-bit value, which is doubled and folded |
| `Varints.UnZigZagRoundTrip` | nanopb/pb_decode.c:1337-1349 | And every unsigned one the other way |
| `RoundTrip.ValueRoundTrip` | nanopb/pb_decode.c:393-462 | Decoding an encoded item of any type returns it and leaves the bytes behind it |
| `RoundTrip.MessageRoundTrip` | nanopb/pb_encode.c:509-531 | For every schema of static fields, nested and repeated submessages included, and every message it can hold, decoding the encoding succeeds, consumes it all and returns the message |
| `RoundTrip.OmittedIsDefault` | nanopb/pb_encode.c:241-355 | A value that is left out of the encoding is the default that decoding puts in its place |
| `Format.EmptyFieldIff` | nanopb/pb_encode.c:241-355 | A field takes no bytes iff it holds its default and is not a singular one of fixed length, at any depth |
| `Format.EmptyMessageIff` | nanopb/pb_encode.c:509-531 | A message takes no bytes iff it is the default one and no singular field in it has a fixed length |
| `Format.MessageRecords` | nanopb/pb_encode.c:509-531 | The encoding is a run of records in the order of the fields: none for a default, one for a packed array, one for each item otherwise |
| `Format.WordIsResidue` | nanopb/pb_encode.c:762-815 | Negative numbers are extended to 64 bits and take ten bytes, whatever the size of the field |
| `Format.LittleEndianAt` | nanopb/pb_encode.c:633-668 | Fixed-size numbers start with their lowest byte |
| `Format.UnknownVarint` | nanopb/pb_decode.c:263-272 | For every schema, a varint of any length under an unknown field number is passed over and decoding goes on behind it |
| `Format.UnknownString` | nanopb/pb_decode.c:274-285 | So is a delimited record |
| `Format.UnknownFixed` | nanopb/pb_decode.c:305-315 | So are eight bytes behind wire type 1 and four behind wire type 5; other wire types are refused |
| `Format.ZeroTagRefused` | nanopb/pb_decode.c:1004-1040 | Field number zero is an error |
| `Format.TruncatedRefused` | nanopb/pb_decode.c:85-120 | A record cut short anywhere is refused |
| `Format.WrongWireTypeRefused` | nanopb/pb_decode.c:393-462 | A known field behind a wire type that is not its own is refused |
| `Format.IntegerIff` | nanopb/pb_decode.c:1406-1476 | A varint is accepted as a number iff it is that number: the word itself, its residue in the range of a signed field, or its ZigZag inverse |
| `Format.BoolIff` | nanopb/pb_decode.c:1327-1335 | A boolean is true for every number but zero |
| `Format.ByteStringIff` | nanopb/pb_decode.c:1478-1566 | Which contents bytes, strings and fixed-length bytes take, and what they then hold |
| `Format.UnpackedItem` | nanopb/pb_decode.c:509-517 | Arrays of numbers also take their items one by one |
| `Format.FullArrayRefuses` | nanopb/pb_decode.c:509-517 | A full array takes no further item |
| `Format.PackedOverflow` | nanopb/pb_decode.c:476-508 | Packed items beyond the room of the array are refused |
| `Format.CallbackGets` | nanopb/pb_decode.c:743-784 | A callback is given the content of a delimited record in place, or the raw bytes of a number |
| `Format.CallbackRefuses` | nanopb/pb_decode.c:320-345 | A varint of more than ten bytes is not |
| `Format.EmptyBufferIsZero` | nanopb/pb_decode.c:939-972 | The empty buffer decodes to zeros at every depth |
| `Split.DecodeSplit` | nanopb/pb_decode.c:1004-1100 | Decoding a concatenation is decoding the first part and merging the second into the result |
| `Capacity.DecodeKeepsValid` | nanopb/pb_decode.c:476-517 | Whatever bytes decode, every array count, byte length and integer stays within the capacity of the struct, at every depth; a bytes field of odd max_size has room for one byte more |
| `Capacity.OverlongDecodes` | nanopb/pb_decode.c:1478-1516 | A schema with an odd max_size, at any depth, accepts a buffer whose byte string is one longer than declared |
| `Capacity.DeclaredSizesIff` | nanopb/pb.h:333-334 | Everything that decodes obeys the declared max_size of its bytes fields iff none of those is odd |
| `Capacity.ReencodeStable` | nanopb/pb_decode.c:1170-1183 | Encoding what was decoded from any bytes gives bytes that decode to the same message |
| `Merge.ConcatOver` | nanopb/pb_decode.c:1004-1100 | For every schema, field by field: callbacks, packed and unpacked arrays of a concatenation append, scalars take the second part's value unless that is the default (which of the two stays is then told by Merge.LastRecordConcat), submessages merge |
| `Merge.RunStays` | nanopb/pb_decode.c:1004-1100 | For every schema, a part that decodes on its own fails on top of another message only for reasons that no further bytes remove |
| `Merge.LastRecordWins` | nanopb/pb_decode.c:1004-1100 | A field ends up with its last record, or what it held before |
| `Merge.LastRecordConcat` | nanopb/pb_decode.c:1004-1100 | The last record of a concatenation is that of its second part if there is one, else of its first |
| `Schema.DefaultIsValid` | nanopb/pb_decode.c:939-972 | The defaults of every valid schema are within its capacities |
| `Reader.Read` | nanopb/pb_decode.c:85-120 | Succeeds iff enough bytes are left, and then moves past exactly those, with the end of the stream in place |
| `Reader.DecodeVarint` | nanopb/pb_decode.c:240-260 | The shift-and-OR loop computes the 64-bit reading of the stream and consumes exactly it |
| `Reader.ScanVarint32` | nanopb/pb_decode.c:196-221 | The loop over later bytes stops at the end of an acceptable varint, or rejects one that no continuation could save |
| `Reader.DecodeVarint32` | nanopb/pb_decode.c:170-232 | The loop computes the 32-bit reading, overflow and sign extension included; eof is reported exactly at the end of the stream |
| `Decoder.SkipUnknown` | nanopb/pb_decode.c:305-315 | Passes over exactly one value of the given wire type |
| `Decoder.MakeSubstream` | nanopb/pb_decode.c:359-372 | The substream covers the delimited bytes, the parent what lies behind, and their ends add up |
| `Decoder.CloseSubstream` | nanopb/pb_decode.c:374-387 | The parent resumes behind the substream with its old end restored |
| `Decoder.DecodeInteger` | nanopb/pb_decode.c:1406-1476 | Truncation and comparison accept exactly the values in the range of the field |
| `Decoder.DecodeByteString` | nanopb/pb_decode.c:1478-1566 | Bytes, strings and fixed-length bytes within their capacity, read as the format says |
| `Decoder.DecodeSubmessage` | nanopb/pb_decode.c:1568-1618 | The substream's content is merged into the submessage and the parent continues behind it |
| `Decoder.DecodePackedItems` | nanopb/pb_decode.c:476-508 | A packed array is appended while there is room, and refused when bytes are left over |
| `Decoder.DecodeRepeated` | nanopb/pb_decode.c:475-517 | One record of an array: all items of a packed one, or one more item if there is room |
| `Decoder.DecodeCall` | nanopb/pb_decode.c:743-784 | A callback field hands over exactly its bytes, delimited or copied |
| `Decoder.DecodeNext` | nanopb/pb_decode.c:1004-1100 | One record, known or unknown |
| `Decoder.DecodeInner` | nanopb/pb_decode.c:978-1140 | Terminates; succeeds iff every record is acceptable, and then has consumed the stream up to its old end and holds the decoded message within its capacities |
| `Decoder.DecodeMessage` | nanopb/pb_decode.c:1170-1183 | The same from the defaults |
| `Writer.OStream.Write` | nanopb/pb_encode.c:81-108 | Succeeds iff there is room or nothing is stored, and then the emitted bytes end with the data; nothing outside the stream's part of the buffer changes |
| `Writer.OStream.Store` | nanopb/pb_encode.c:52-62 | The copy loop puts the data behind what was written |
| `Writer.EncodeHalves` | nanopb/pb_encode.c:570-602 | Two 32-bit halves become the minimal encoding of the 64-bit value |
| `Encoder.EncodeVarint` | nanopb/pb_encode.c:604-620 | Emits the minimal encoding, by the short path or the halves |
| `Encoder.EncodeInteger` | nanopb/pb_encode.c:762-815 | Emits the varint of the extended or ZigZag value |
| `Encoder.PackedSize` | nanopb/pb_encode.c:149-170 | The product or the counting pass is the length of the packed items |
| `Encoder.EncodePackedArray` | nanopb/pb_encode.c:141-192 | Tag, length and items on a writing stream, the same number of bytes on a counting one |
| `Encoder.EncodeUnpackedArray` | nanopb/pb_encode.c:194-233 | Every item behind its tag, until one is invalid or does not fit |
| `Encoder.EncodeArray` | nanopb/pb_encode.c:125-237 | Succeeds iff the count is within the array, the items are valid and the encoding fits |
| `Encoder.EncodeSubmessage` | nanopb/pb_encode.c:710-758 | The counting pass and the writing pass agree, so the size never changes between them; emits length and content iff valid and fitting |
| `Encoder.EncodeKnown` | nanopb/pb_encode.c:415-465 | Presence rules, then the field, or nothing |
| `Encoder.EncodeMessage` | nanopb/pb_encode.c:509-531 | On either kind of stream: succeeds iff every count and length is within its capacity and the encoding fits, and emits exactly the encoding |
| `Encoder.EncodedSize` | nanopb/pb_encode.c:554-563 | The counting stream returns the exact length of the encoding |
| `Encoder.EncodeToBuffer` | nanopb/pb_encode.c:509-531 | Encoding into a buffer of capacity c succeeds iff a valid message's encoding is at most c long, and the buffer starts with it |
| `MaxSize.VarintMaxSize` | nanopb/generator/nanopb_generator.py:198-205 | The loop finds the length of the varint, or none beyond ten bytes |
| `MaxSize.TenTimes` | nanopb/generator/nanopb_generator.py:906-913 | The length prefix of a packed array is never longer than the tags that packing saves, or one byte for a single item |
| `MaxSize.PackedFieldBound` | nanopb/generator/nanopb_generator.py:902-913 | A packed array stays within the space reserved for an unpacked one |
| `MaxSize.FieldBound` | nanopb/generator/nanopb_generator.py:843-915 | The size computed for a field bounds its encoding, for declared enumerators and byte strings up to their max_size |
| `MaxSize.MessageBound` | nanopb/generator/nanopb_generator.py:1397-1408 | The size computed for a message bounds the encoding of every value with declared enumerators and byte strings up to their max_size |
| `MaxSize.ScalarAttained` | nanopb/generator/nanopb_generator.py:843-915 | The size of a number or an enumeration is what some value of it takes |
| `MaxSize.ByteStringAttained` | nanopb/generator/nanopb_generator.py:843-915 | So is that of bytes; a full string takes at most one byte less |
| `MaxSize.FieldAttained` | nanopb/generator/nanopb_generator.py:895-915 | And that of the field around it, for single items, arrays that are not packed and a packed single item |
| `MaxSize.MessageAttained` | nanopb/generator/nanopb_generator.py:1397-1408 | And that of a message all of whose fields take their sizes |
| `MaxSize.SubmessageAttained` | nanopb/generator/nanopb_generator.py:851-873 | And that of a submessage with its length |
| `MaxSize.EvenMessageBound` | nanopb/generator/nanopb_generator.py:1397-1408 | Without odd max_sizes it bounds the encoding of everything the struct can hold with declared enumerators |
| `MaxSize.EncodeSized` | nanopb/pb_encode.c:509-531 | Encoding such a value into a buffer of the computed size always succeeds |
| `MaxSize.BytesBoundIff` | nanopb/generator/nanopb_generator.py:843-915 | The space computed for a bytes field suffices iff the byte string is no longer than max_size |
| `MaxSize.OddSizeExceeded` | nanopb/pb_encode.c:842-860 | For every odd max_size, a byte string that fills the padding decodes, and its encoding exceeds the computed size |
| `MaxSize.OddExample` | nanopb/tests/decode_unittests/decode_unittests.c:277-283 | With max_size 5, six bytes are accepted and take eight bytes where seven are reserved |
| `Descriptor.UnpackPacked` | nanopb/pb.h:717-733 | At every width, unpacking the packed words returns the field, and the first word alone tells width, type and low tag bits |
| `Descriptor.PackIsLayout` | nanopb/pb.h:690-733 | The words that the macros pack are the documented layout, bit by bit |
| `Descriptor.KindParts` | nanopb/pb.h:210-239 | Submessages, extensions and required fields are told by the data type and rule bits of the field type |
| `Descriptor.SingleKeepsIff` | nanopb/pb.h:743-744 | Among the array sizes that the one-word assertion admits, only 1 survives |
| `Descriptor.EntryAt` | nanopb/pb_common.c:8-73 | In a table of any mix of widths, every field reads back at its offset |
| `FieldIterator.FieldIter.Load` | nanopb/pb_common.c:8-73 | Fails iff the index is past the last field, and loads that field otherwise |
| `FieldIterator.FieldIter.Advance` | nanopb/pb_common.c:122-154 | Moves to the next field or around to the first, the three side indices staying prefix sums |
| `FieldIterator.FieldIter.Next` | nanopb/pb_common.c:188-193 | Reports the end exactly when it is back at the first field |
| `FieldIterator.FieldIter.Find` | nanopb/pb_common.c:195-244 | From any position agrees with a linear search, and is back at its start when there is no such field |
| `FieldIterator.Locate` | nanopb/pb_common.c:195-244 | For a table without extensions that was packed from a schema's tags, it stops at the field that the decoder's search picks, or reports that there is none |
| `Chunks.OneContract` | proto/core/Tron.pb.h:314-317 | No chunk decodes to more than one contract |
| `Chunks.MergeTx` | src/parse.c:837-980 | What a concatenation says, from what its parts say: data and contracts append, the last fee limit record wins |
| `Chunks.FeeOfConcat` | src/parse.c:866-875 | The fee limit record of a concatenation is the last one in it |
| `Chunks.SplitInvariant` | src/parse.c:837-980 | Two chunks accepted in turn whose concatenation decodes: it is accepted too, and leaves the same content unless, and only unless, the second takes back the first's fee limit with an explicit zero |
| `Chunks.ExplicitZeroForgets` | src/parse.c:866-875 | Two chunks for which the explicit zero makes the difference |
| `Chunks.ChunkingInvariant` | src/parse.c:837-980 | Any number of chunks accepted in turn whose concatenation decodes: it is accepted too, and leaves the same content, except exactly when no fee limit was known before, some chunk gives one and the last fee limit record of the whole is an explicit zero |
| `Device.TransferContract` | src/parse.c:426-440 | The details recorded for a TRX transfer are those of its payload |
| `Payloads.TransferRead` | src/parse.c:426-440 | The bytes of a transfer, for every owner, recipient and amount, are recorded as that owner, recipient and amount |
| `Device.TriggerCallbacks` | src/parse.c:623-676 | The data callback over all its records, the last one deciding the method |
| `Device.TriggerSmartContract` | src/parse.c:678-705 | The details recorded for a smart contract call, unknown tokens as arbitrary contracts |
| `Payloads.TriggerRead` | src/parse.c:678-705 | The bytes of a call are recorded with owner, contract, values and token each from its own field |
| `Payloads.KnownCallRead` | src/parse.c:623-676 | Data with the selector a9059cbb or 095ea7b3 and two words gives the method, the recipient 0x41 and the last 20 bytes of the first word, and the second word as the amount |
| `Payloads.OtherCallRead` | src/parse.c:644-662 | Other selectors take whole words only and keep nothing else; the known ones take exactly two |
| `Payloads.ShortCallRefused` | src/parse.c:628-630 | Less than a selector is refused |
| `Payloads.LastCallCounts` | src/parse.c:623-676 | Of several data records the last one is applied to what the others left |
| `Device.Signer.ProcessParameter` | src/parse.c:886-977 | One contract per session, captured once, within the buffer and not empty |
| `Device.Signer.ProcessFields` | src/parse.c:864-884 | Fee limit conflicts and forbidden data stop the parse |
| `Device.Signer.ProcessBuffer` | src/parse.c:837-980 | Status and recorded content of every chunk |
| `Payloads.OrderRead` | proto/core/Tron.pb.h:314-317 | Of the bytes of a transaction the device reads the note, the contract's type, parameter and permission and the fee limit, each from its own field, and passes over block reference, expiration and timestamp |
| `Payloads.OrderRecorded` | src/parse.c:837-980 | What is recorded of it, or the status that refuses it |
| `Payloads.KindsRead` | src/parse.c:900-977 | The contract types that are decoded |
| `Reviews.AcceptIff` | src/parse.c:864-977 | A payload is accepted on top of others iff it decodes, its fee limit agrees with theirs, extra data is absent or allowed, and a contract parameter is the first one, captured once, not empty and readable |
| `Reviews.LastDataCounts` | src/parse.c:837-862 | Of several records of extra data the last one counts |
| `Session.ReadPath` | src/helpers.c:111-138 | A successful read takes exactly the path's bytes, and the path lies under Tron's prefix |
| `Device.Signer.InitTx` | src/parse.c:408-414 | A session with an empty hash and no content |
| `Device.Signer.TerminateSession` | src/parse.c:416-420 | No session and no content |
| `Device.Signer.ReadBip32Path` | src/helpers.c:111-138 | The loop reads the indices, which stay stored even when the prefix test fails |
| `Device.Signer.Complete` | src/handlers/sign.c:220-283 | The completed hash and the checks before a review |
| `Device.Signer.DisplayToken` | src/handlers/sign.c:350-405 | A known token's call: no hidden value, an amount that fits, then review or swap check |
| `Device.TokenLine` | src/handlers/sign.c:357-366 | The amount of a token call through its buffers: its rendering, or a refusal when it does not fit |
| `Device.Signer.HandlePayload` | src/handlers/sign.c:166-218 | Hash update, double-sign guard, parse, and what each parser status leads to |
| `Device.Signer.HandleTokenName` | src/handlers/sign.c:118-161 | Token names only for the contract types that have them |
| `Device.Signer.HandleCommand` | src/handlers/sign.c:98-218 | Every INS_SIGN command: the whole new state and the reply |
| `Device.Signer.Accept` | src/ui/ui_globals.c:92-110 | Signs the completed hash and closes the session |
| `Device.Signer.Cancel` | src/ui/ui_globals.c:77-90 | Closes the session without a signature |
| `Runs.AcceptChunk` | src/parse.c:837-980 | An accepted chunk keeps the recorded content equal to what the payloads say |
| `Runs.EveryRun` | src/handlers/sign.c:98-226 | In every run an open session has hashed exactly the accepted payloads and recorded what they say |
| `Runs.SignatureCovers` | src/ui/ui_globals.c:92-110 | Every signature of every run is over SHA-256 of exactly the payloads accepted since the session started; exactly one of them has a contract parameter, and they hold exactly one Contract message iff none goes without a parameter; all nonzero fee limits are equal; the session is closed afterwards; in swap mode there is one payload, that of the command, and it is a transfer as validated |
| `Paths.ReadPathStores` | src/helpers.c:111-138 | A path is refused without a trace when its indices are incomplete; otherwise it is stored, and accepted iff it is under Tron's prefix |
| `Paths.IndexAt` | src/helpers.c:125-129 | Each index is four bytes, most significant first |
| `Paths.RunTrail` | src/helpers.c:125-138 | In every run the session's path is the one that was stored last, and it is under the prefix iff the command that stored it was not refused for its path |
| `Paths.SignaturePath` | src/ui/ui_globals.c:92-110 | Every signature of every run is made with the path stored last, which is under the prefix iff the command that stored it was not refused for its path |
| `Witnesses.ForeignSignature` | src/helpers.c:125-135 | For every proposal that may be reviewed, a run whose signature is made with a path that was refused |
| `Runs.ReviewIsTrue` | src/handlers/sign.c:220-283 | Every review of every run records the type, permission and details of the one contract parameter, the fee limit of every payload that gives one (0 if none does) and the extra data; the payloads hold no other Contract message iff none goes without a parameter |
| `Runs.ContractCount` | src/parse.c:886-890 | Payloads hold as many Contract messages as contract parameters iff none goes without a parameter |
| `Witnesses.BareAccepted` | src/parse.c:886-890 | A Contract message without a parameter is accepted by every session that no forbidden data stops: it is hashed, and the recorded content stays |
| `Witnesses.TwoContracts` | src/parse.c:886-890 | For every such proposal, a run whose signature covers two Contract messages |
| `Runs.ReviewIsPermitted` | src/handlers/sign.c:229-283 | A review is only shown for what the settings in force allow: extra data, signing by hash and arbitrary contracts need their setting; a known token's call moves no other value; the permission is 0 to 9; and it shows the recorded amount, token, action and recipient |
| `Reviews.FinalVerdict` | src/handlers/sign.c:220-283 | A finished content is answered by a fixed verdict: 0x6A8B for forbidden data, 0x6A80 for the permission, then by type a review, 0x6A8C without sign-by-hash for types 10, 16, 17 and 18, 0x6A8D for a custom contract, 0x6A80, 0x6700, or an exception |
| `Reviews.CompletedVerdict` | src/handlers/sign.c:98-283 | In every run a command that completes a content is answered by that verdict, and no other command shows a review |
| `Reviews.ReviewIff` | src/handlers/sign.c:98-283 | In every run a step shows a review iff no review is on the screen and the command completes a content that is reviewable under its settings |
| `Reviews.ChunkVerdict` | src/handlers/sign.c:191-218 | In every run an unacceptable chunk is answered by 0x6A80 or, for forbidden data, 0x6A8B, and leaves an open session with nothing in it; an acceptable one is hashed |
| `Reviews.PlacesIff` | src/handlers/sign.c:98-170 | In every run 0x6B00 is the answer iff the command is out of place, and 0x6A8A iff its path is refused |
| `Reviews.NameReplies` | src/handlers/sign.c:118-161 | Which token names are taken, refused or complete the transaction |
| `Reviews.RenameIs` | src/handlers/sign.c:118-161 | Names go to the details of the contract and change nothing else |
| `Reviews.DecisionIff` | src/ui/ui_globals.c:77-110 | In every run a confirmation signs the hash of the payloads with the stored path or reports 0x6982, and a rejection answers 0x6985 |
| `Reviews.NobodyElse` | src/ui/ui_globals.c:77-110 | While a review is on the screen no command is heard |
| `Witnesses.TransferReviewed` | src/handlers/sign.c:285-349 | The bytes of every transfer below 10^19 sun, sent in one command, lead to a review that shows its amount and recipient |
| `Witnesses.TokenReviewed` | src/handlers/sign.c:350-405 | The bytes of every call of a known token lead to a review of the amount, action and recipient in its data |
| `Runs.ReviewShowsPayloads` | src/handlers/sign.c:285-405 | In every run a review of a transfer or a known token's call shows a nonempty amount that denotes the amount in the accepted payloads at its decimals, with their token, action and recipient |
| `Runs.SwapSignsOnce` | src/handlers/sign.c:175-189 | Every run in swap mode releases at most one signature |
| `Runs.OnlyPayload` | src/handlers/sign.c:175-189 | In swap mode only the first command that opens a session can be answered by a signature, for its own payload alone |
| `Runs.SwapRelease` | src/handlers/sign.c:259-283 | A signature in swap mode is for a TRX transfer or a known token's transfer without extra data, within the fee cap, with the validated token, recipient and amount |
| `Swap.CopyParameters` | src/swap/handle_swap_sign_transaction.c:39-113 | Committed iff there is no extra id, the address has 34 characters, and amount and coin configuration are given and readable; what is committed is that address, the number the amount spells, and the configured ticker and decimals, or those of TRX |
| `Swap.CheckSwapAmount` | src/swap/handle_swap_sign_transaction.c:116-138 | True iff the validated amount, rendered at its decimals, fits and is the text of the transaction |
| `Swap.SameTextExact` | src/swap/handle_swap_sign_transaction.c:131-170 | Comparing up to the buffer size compares whole strings |
| `Swap.CheckValidity` | src/swap/handle_swap_sign_transaction.c:140-175 | True iff something was validated and amount, ticker, action and recipient pass their comparisons |
| `Swap.MatchingAmount` | src/swap/handle_swap_sign_transaction.c:116-138 | A text that passes and denotes a at d decimals means a / 10^d is the validated amount at its decimals |
| `Swap.RenderedMatchesIff` | src/swap/handle_swap_sign_transaction.c:116-138 | When the validated amount fits, a rendered number passes the check iff it is the validated rational |
| `Swap.EqualDecimals` | src/swap/handle_swap_sign_transaction.c:116-138 | At equal decimals the amounts are equal integers |
| `SwapRuns.TokenValidIff` | src/swap/handle_swap_sign_transaction.c:140-175 | A token transfer's texts are valid iff something was validated whose amount fits, ticker and recipient are those validated and the amount is the validated rational |
| `SwapRuns.TransferValidIff` | src/swap/handle_swap_sign_transaction.c:140-175 | The same of a TRX amount, which must moreover be positive: a zero never matches |
| `SwapRuns.SwapReleaseIff` | src/handlers/sign.c:259-405 | A finished swap transaction is signed iff something was validated whose amount fits, the keys sign, and it is a TRX transfer or a known token's transfer as validated, without extra data, within the fee cap and with a permission of 0 to 9 |
| `SwapRuns.FinalSwapVerdict` | src/handlers/sign.c:220-405 | In a swap every finished content is answered by a fixed verdict, with the reason for every refusal |
| `SwapRuns.PayloadContent` | src/parse.c:837-980 | A single chunk leaves such a content iff it says so: a contract parameter that is a transfer as validated, no extra data, a fee limit within the cap and a permission of 0 to 9, whatever the settings |
| `SwapRuns.SwapSignsIff` | src/handlers/sign.c:98-283 | Every step of every swap run is answered by a signature iff no earlier command opened a session, the command is P1_SIGN with a path under the prefix, its payload is a transfer as validated and the keys sign; the signature is over that one payload |
| `Witnesses.SwapSigned` | src/handlers/sign.c:98-283 | The bytes of a transfer without a note are signed in a swap iff they give the validated amount and recipient, within the fee cap |
| `SwapRuns.ExchangeSignature` | src/swap/handle_swap_sign_transaction.c:39-113 | In every run started by the exchange, a signature is over one payload, which moves the amount in the exchange's parameters, as a rational, to the address in them |
| `PersonalMessage.Signer.Handle` | src/handlers/sign_personal_message.c:41-122 | Every command of a personal message: the whole new state and the reply |
| `PersonalMessage.AbsorbStep` | src/handlers/sign_personal_message.c:88-119 | The review starts exactly when nothing is missing any more, and the context is cleared by then |
| `PersonalMessage.EveryRun` | src/handlers/sign_personal_message.c:41-122 | In every run the hash input is the header and the accepted chunks, whose lengths plus the counter are the declared length |
| `PersonalMessage.EveryAnswer` | src/handlers/sign_personal_message.c:41-122 | In every run: with sign-by-hash off a command is answered by 0x6A8C and changes nothing; otherwise the reply tells a bad path, a missing length, a command out of place, a chunk that is too long, one that leaves bytes missing, and the one that completes the message |
| `PersonalMessage.EveryDecision` | src/ui/ui_globals.c:58-90 | In every run a decision ends the review, and only a confirmation signs the whole message |
| `PersonalMessage.MagicText` | src/handlers/sign_personal_message.c:33-33 | The header starts with 0x19, its text and a line feed |
| `PersonalMessage.SignatureIsWhole` | src/ui/ui_globals.c:58-75 | Every signature is over the header and the chunks of the whole message of the declared length, with a path under Tron's prefix |
| `PersonalMessage.HeaderIsDecimal` | src/handlers/sign_personal_message.c:68-82 | Below 2^31 the header is the magic and the decimal length |
| `PersonalMessage.LengthTextIff` | src/handlers/sign_personal_message.c:75-82 | The length is printed as its decimal numeral exactly for lengths below 2^31 |

## Left out

- RoundTrip.MessageRoundTrip: for encodings shorter than 2^32 bytes, because lengths travel as 32-bit varints.
- Encoder.EncodeMessage: for encodings shorter than 2^32 bytes; sizes are unbounded numbers, so the wrap-around of size_t that pb_write tests for is not modelled.
- Writer.OStream.Write: the same; the room test is on unbounded numbers.
- Capacity.DeclaredSizesIff: sizes are 16 bits wide, as without PB_FIELD_32BIT, so a bytes array is padded to an even size; for an odd max_size nested so deep that the shortest buffer exceeding it has 2^32 bytes or more, nothing is said.
- Decoder.DecodeInner: the message is a value that each record replaces; writing through pData into a C struct, and what a failed decode leaves there, are not captured.
- Decoder.DecodeCall: the callback reads everything it is given and never fails while decoding; the application's callbacks are applied to the recorded bytes afterwards.
- Wide.DivMod128: the divisor is nonzero; the source does not terminate otherwise. The 128-bit operations are on values, and what happens in place at 128 bits is stated for the right shift only.
- Radix.ConvertUint256BE: lengths up to 32; beyond, the source copies in front of its buffer.
- Radix.ToString256: the buffer has one character more than outLength, where the source may put its terminator.
- Swap.CheckSwapAmount: the digit buffer has one character more than the source's, which receives the terminator of a number with exactly as many digits as the buffer has characters.
- Swap.CopyParameters: the result of parsing the coin configuration is given, and the amount has at most 32 bytes, as for Radix.ConvertUint256BE.
- SwapRuns.ExchangeSignature: the ticker, here and in the other theorems on swaps, fits its buffer, as swap_parse_config is given that buffer's size.
- Device.Signer.HandleTokenName: whether a token name or an exchange is accepted, and what it says, is a function of the environment.
- FieldIterator.FieldIter.Advance: the indices are unbounded; the source relies on tables that fit 16-bit indices.
- tostring128: the same loop as tostring256 at another width.
- nanopb pointer allocation, extensions, oneofs, required and fixed-count fields, float conversion, UTF-8 validation and streams over custom callbacks, none of which the application's schemas use.
- Encode callbacks: a callback field encodes to nothing, as with an unset callback.
- The generator's symbolic sizes, which the C preprocessor resolves, and oneofs, whose size is that of their largest field.
- Decoders and screens of contract types other than TransferContract and TriggerSmartContract: whether they accept a payload is a function of the environment; the session proofs cover them with that.
- Signatures of token names and exchanges, the TRC20 table and the known services: a function of the environment.
- The screen texts other than amount, token, action and recipient of a transfer or token call, and the settings menu; settings may change before every command.
- Runs that mix INS_SIGN with personal messages, which share a counter; each instruction's runs are separate.
- That the application exits after its reply in swap mode; only the guard against a second transaction is modelled.
- The address book, public key, ECDH and TIP-712 commands.
