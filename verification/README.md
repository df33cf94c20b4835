# libpomelo2, verified in Dafny

This project models the protocol code of libpomelo2 and the libuv algorithms it is built
on, and proves what they are for. `dafny verify dfyconfig.toml` checks all of it.

Code that changes things step by step is modelled as classes, arrays and linked nodes whose
methods follow the C statements; each method is proved against a specification function or
states its new state outright. The theorems about every input, every run or every
interleaving are lemmas about those specification functions.

| files | what they model | main results |
|---|---|---|
| Words, PbEncodeSpec, PbEncoder, PbDecodeSpec, PbDecoder, PbRoundTrip, PbWire, PbSafety, PbSize | the protobuf codec driven by a schema tree | `PbRoundTrip.RoundTrip`, `PbWire.MessageIsFields`, `PbSafety.BufferIsSafeIff`, `PbEncoder.PbEncode`, `PbEncoder.WritePassFills`, `PbSize.SchemasFitIff` |
| Framing, MsgHeader, MsgCode, MsgDefault | packages cut out of a byte stream, message headers, whole messages | `Framing.AnyChunks`, `MsgHeader.ConversationArrives`, `MsgDefault.MessageArrivesIff`, `MsgDefault.ResponseArrives`, `MsgDefault.PushArrives` |
| Lifecycle, LifecycleBooks, LifecycleRuns, LifecycleOutcomes, LifecycleOrder, LifecycleFifo, LifecycleCode | requests and notifies between the client's queues and the four queues of the TCP transport | `LifecycleRuns.CalledAtMostOnce`, `LifecycleRuns.ResetAnswersAll`, `LifecycleOutcomes.CallEndsIff`, `LifecycleOutcomes.OverdueIff`, `LifecycleRuns.ItemsLinkedOnce`, `LifecycleRuns.SlotBusyIffLinked`, `LifecycleRuns.QueuesMatchWrites`, `LifecycleRuns.CompletionFindsItsBatch`, `LifecycleOrder.QueuesHoldTheirKindIff`, `LifecycleOrder.HandshakeGoesFirstIff`, `LifecycleFifo.SentInSequenceIff` |
| JsonTree, JsonText, CBuffer, JsonPrinter, JsonParser, Numerals, JsonGrammar, JsonTexts, JsonRoundTrip, JsonLayout, JsonMinify, JsonComments, JsonMinifier | the JSON parser, printer and minifier | `JsonTexts.TextIff`, `JsonTexts.LegalTextParses`, `JsonRoundTrip.PrintedParses`, `JsonLayout.Layout`, `JsonPrinter.PrintValue`, `JsonComments.MinifiedKeeps`, `JsonMinifier.MinifyInPlace` |
| ThreadPool, ThreadPoolOrder, ThreadPoolCode | libuv's worker threads, cancellation and completion | `ThreadPool.InExactlyOnePlace`, `ThreadPool.RunsAndCompletesOnce`, `ThreadPoolOrder.FirstComeFirst` |
| RbShape, RbTree, RbRemove, RbQuery | the red-black tree with parent pointers | `RbTree.Insert`, `RbRemove.Remove`, `RbQuery.NFind`, `RbQuery.Next`, `RbShape.HeightBound` |
| Heap | the linked binary heap addressed by path bits | `Heap.Insert`, `Heap.Remove`, `Heap.MinIsLeast` |
| InetText, Inet, InetRoundTrip, InetForms | IPv4 and IPv6 text | `InetForms.Pton6Iff`, `InetForms.ShownIff`, `Inet.AddressRoundTrip`, `Inet.LongestZeros`, `Inet.Pton6Bytes` |
| Ring | the intrusive circular lists and the timeout sweep on them | `Ring.Add`, `Ring.Split`, `Ring.Sweep` |
| Reconnect | reconnection delays | `Reconnect.BaseIsCapped`, `Reconnect.BelowMaxIff`, `Reconnect.WaitsAreLimited` |

What a format or a text is, is said apart from the code that writes or reads it: fields by a
reader that knows no schema (`PbWire`), the flag bytes of messages and the head bytes of
packages by their numbers (`MsgHeader.SentBytes`, `Framing.HeadForm`), JSON by its grammar
(`JsonTexts`), addresses by their forms (`InetForms`), what ends a call by the steps of the
run (`LifecycleOutcomes.Tells`).

How the lifecycle is modelled: each libuv callback, each call of the user and each critical
section is one atomic step; completions, clock readings and packages from the server are
arbitrary inputs. The counting results (each callback at most once, exactly once after a
reset, each item in one queue, slots busy exactly when used) and the order of requests and
notifies hold after any list of steps, also steps the code asserts against. The results about
the handshake are about the runs in which those assertions hold, connect requests handled on an
open connection included. What is said to go out is what `uv_write` has accepted for the
socket in use.

## Where the code keeps less than its comments or its format suggest

- A packed array is prefixed with the number of its elements; section "Packed Repeated
  Fields" of the Protocol Buffers Encoding specification prefixes the number of bytes. Both
  sides of the codec agree on the count, so the round trip holds.
- A `uInt32` field goes through a C int: a negative value is written as a number that does not
  fit an int when it is read (`PbRoundTrip.UnsignedRoundTripsIff`, `PbRoundTrip.MinusOneFails`).
- Decoding is undefined for numbers that do not fit an int, and for a string that announces
  2^32-1 bytes, whose buffer size wraps round to 0; for nothing else
  (`PbSafety.BufferIsSafeIff`, `PbSafety.LargeNumberFails`, `PbSafety.LongStringFails`).
- An empty list of strings or messages is not in the bytes at all
  (`PbRoundTrip.EmptyListIsDroppedIff`, `PbRoundTrip.EmptyListFails`).
- The route length is written as a byte and read as a signed char, so routes are limited to
  127 bytes instead of 255 (`MsgHeader.RouteRoundTripIff`, `MsgHeader.LongRouteFails`).
- `src/tr/uv/pr_msg_pb.c:41` takes twice the JSON size as always enough for the protobuf
  body. A body that does not fit is refused (`MsgDefault.MessageArrivesIff`,
  `MsgDefault.DoublesFail`); for schemas of named fields with tag numbers below 2^18 it always
  fits exactly when no field repeats doubles (`PbSize.SchemasFitIff`); with tag numbers of 2^18
  it may not fit even when none does (`PbSize.LargeTagsFail`).
- The JSON parser takes more than RFC 8259 allows, and exactly this much more
  (`JsonTexts.ValueIff`): any character may be escaped and stands for itself, escapes of code
  points that do not exist stand for nothing, control characters may stand in strings and
  count as blanks between tokens, the end of the text closes a string, digits may be missing
  behind a minus or an exponent mark, and a zero may lead a number.
- The minifier takes a slash, a star and a slash for a whole comment (`JsonComments.IsBlock`).
- The comments on the insertion of handshake and ack say that they go out before application
  data. That holds exactly without three events: a handshake response accepted while the
  handshake still waits to be written, which puts the ack in front of it; a failed write of the
  batch with the ack, which is then never sent; and a connect request handled on an open
  connection with more than handshakes and heartbeats queued for writing
  (`LifecycleOrder.HandshakeGoesFirstIff`, `LifecycleOrder.EarlyResponseFails`,
  `LifecycleOrder.LostAckFails`, `LifecycleOrder.LateConnectFails`).
- A connect request handled on an open connection goes back to connecting without a reset. What
  is in `conn_pending_queue` stays there and does no harm; application data queued for writing,
  being written or unanswered is stranded (`LifecycleOrder.QueuesHoldTheirKindIff`).
- Requests and notifies sent right after the handshake overtake older ones that are still
  pending (`LifecycleFifo.SentInSequenceIff`, `LifecycleFifo.OvertakenFails`).
- A reconnect delay above its maximum is used once as it is, and a delay of 0 makes the
  random part divide by zero (`Reconnect.BelowMaxIff`, `Reconnect.NeverZeroIff`).

## Model

| member | source | states |
|---|---|---|
| `Words.VarintLength64` | src/tr/uv/pb_encode.c:274-289 | a 64-bit value never takes more than ten bytes, the size of the encoder's buffer |
| `Words.VarintIff` | src/tr/uv/pb_encode.c:274-289 | the varint of a number is the one shortest string of seven-bit groups, low group first, with the top bit on all but the last, that adds up to it |
| `Words.ToU64` | src/tr/uv/pb_encode.c:210-223 | a C integer widened to 64 bits fits them, and is itself when not negative |
| `Words.ZigZagInverse` | src/tr/uv/pb_decode.c:421-432 | the signed form is undone by the decoder's shift and complement |
| `Words.ZigZagSmall` | src/tr/uv/pb_encode.c:293-301 | the signed form of a 32-bit integer fits 32 bits |
| `JsonTree.CreateNumberOfInt` | src/pc_JSON.c:540 | a number made from an int keeps it in both its integer and its double field |
| `JsonTree.TruncateForm` | src/pc_JSON.c:110 | the int field is the number cut off towards zero |
| `JsonTree.Find` | src/pc_JSON.c:510 | a member of that name, or none when there is none |
| `JsonTree.FindIsFirst` | src/pc_JSON.c:510 | of several members of that name the first is found |
| `JsonTree.FindAppend` | src/pc_JSON.c:510-519 | a member appended under a new name is the one found, and the one an update changes |
| `JsonTree.TextRoundTrip` | src/tr/uv/pb_decode.c:483-490 | a NUL-free C string survives the way through bytes |
| `Numerals.DigitsForm` | src/pc_JSON.c:124 | a printed number has the digits of its value and no leading zero |
| `PbEncoder.VarintBytes` | src/tr/uv/pb_encode.c:274-289 | the do-while loop writes exactly the varint of its value |
| `PbEncoder.OStream.Sizing` | src/tr/uv/pb_encode.c:369-377 | a sizing stream has no buffer and accepts any length |
| `PbEncoder.OStream.At` | src/tr/uv/pb_encode.c:100-107 | a stream over a buffer starts with nothing written |
| `PbEncoder.OStream.Write` | src/tr/uv/pb_encode.c:109-121 | refuses, leaving buffer and count alone, exactly when the bytes do not fit; otherwise writes them and counts them; a sizing stream only counts |
| `PbEncoder.OStream.Skip` | src/tr/uv/pb_encode.c:385-386 | the parent of a sizing stream counts a whole submessage without writing |
| `PbEncoder.OStream.EncodeVarint` | src/tr/uv/pb_encode.c:274-289 | appends the varint of the value or refuses for room |
| `PbEncoder.OStream.EncodeSVarint` | src/tr/uv/pb_encode.c:293-301 | appends the zigzag varint |
| `PbEncoder.OStream.EncodeString` | src/tr/uv/pb_encode.c:360-366 | appends the length and then the bytes |
| `PbEncoder.OStream.EncodeTagForField` | src/tr/uv/pb_encode.c:341-357 | appends the tag the schema gives the field |
| `PbEncoder.OStream.Encode` | src/tr/uv/pb_encode.c:160-195 | appends exactly the encoding of the message, member by member, or stops where it is refused |
| `PbEncoder.OStream.EncodeMember` | src/tr/uv/pb_encode.c:168-192 | one member: unknown names refused, arrays and single values told apart by the option |
| `PbEncoder.OStream.EncodeArray` | src/tr/uv/pb_encode.c:125-158 | packed arrays get one tag and a count, others a tag for every element |
| `PbEncoder.OStream.EncodeItems` | src/tr/uv/pb_encode.c:140-155 | the elements of an array one after the other |
| `PbEncoder.OStream.EncodeItem` | src/tr/uv/pb_encode.c:140-155 | one element, with its tag when the array is not packed |
| `PbEncoder.OStream.EncodeProto` | src/tr/uv/pb_encode.c:197-268 | one value by the type its schema names |
| `PbEncoder.OStream.EncodeSubmessage` | src/tr/uv/pb_encode.c:369-408 | sizing pass, length prefix, writing pass: the result is the length-prefixed encoding, and the two passes agree on the size |
| `PbEncoder.WritePassFills` | src/tr/uv/pb_encode.c:388-405 | a writing pass bounded by what the sizing pass counted writes exactly that many bytes |
| `PbEncoder.PbEncode` | src/tr/uv/pb_encode.c:82-90 | succeeds exactly when the encoding is defined and fits the capacity; then the buffer starts with it; nothing behind the capacity is ever touched |
| `PbWire.ValueTaken` | src/tr/uv/pb_encode.c:197-268 | a reader without a schema takes exactly one payload of the kind the tag announces, with the value in the form its type has |
| `PbWire.ListTaken` | src/tr/uv/pb_encode.c:125-139 | the elements of a packed array are taken one payload after the other |
| `PbWire.MemberTaken` | src/tr/uv/pb_encode.c:332-357 | the tag of a member holds the number of its schema and, by its named type, the low bits 0, 1, 2 or 5 |
| `PbWire.MessageIsFields` | src/tr/uv/pb_i.c:19-55 | for every well-typed message a reader that knows no schema but which numbers are packed splits the bytes into whole fields, and gets the number and payload of every member in order |
| `PbWire.OddNumbers` | src/tr/uv/pb_encode.c:206-223 | in the place of a number anything else is written as 0, and true as 1 where an integer belongs |
| `PbWire.NoObject` | src/tr/uv/pb_encode.c:160-166 | of a message that is no object nothing is written |
| `PbWire.OtherMembers` | src/tr/uv/pb_encode.c:168-192 | a member with another option, or a repeated one that is no array, is left out; a name without schema stops the encoder |
| `PbDecodeSpec.ReadVarint` | src/tr/uv/pb_decode.c:403-417 | reads move forward only, and any byte read lowers what is left |
| `PbDecodeSpec.DecodeMsg` | src/tr/uv/pb_decode.c:339-382 | whatever is decoded, the rest of the input is a suffix and its length never exceeds the buffer |
| `PbDecoder.IStream.Read` | src/tr/uv/pb_decode.c:105-127 | refuses exactly when fewer bytes are left than asked for, and otherwise consumes exactly those |
| `PbDecoder.IStream.DecodeVarint` | src/tr/uv/pb_decode.c:403-417 | the loop reads what the varint function reads and leaves the stream where it ends |
| `PbDecoder.IStream.DecodeVarint32` | src/tr/uv/pb_decode.c:390-399 | the same, cut to 32 bits |
| `PbDecoder.IStream.Decode` | src/tr/uv/pb_decode.c:339-382 | the message loop builds the tree, or refuses, as the specification says, and stops the stream where it says |
| `PbDecoder.IStream.DecodeField` | src/tr/uv/pb_decode.c:356-378 | one tag: its name looked up in `__tags`, then the field by its option |
| `PbDecoder.IStream.DecodeArray` | src/tr/uv/pb_decode.c:267-333 | packed arrays by their count, other arrays one element at a time into the array of that name |
| `PbDecoder.IStream.DecodeElements` | src/tr/uv/pb_decode.c:291-319 | the elements are appended in order |
| `PbDecoder.IStream.DecodeItems` | src/tr/uv/pb_decode.c:297-303 | the counted loop of a packed array |
| `PbDecoder.IStream.DecodeProto` | src/tr/uv/pb_decode.c:141-265 | one value by its type, attached under its key |
| `PbDecoder.IStream.DecodeScalar` | src/tr/uv/pb_decode.c:169-230 | integers, zigzag integers, floats, doubles and strings from their wire forms, wherever C defines reading them |
| `PbDecoder.IStream.MakeSubstream` | src/tr/uv/pb_decode.c:521-535 | a substream of exactly the announced bytes; the parent gives them up |
| `PbDecoder.IStream.Close` | src/tr/uv/pb_decode.c:537-539 | the parent goes on where the substream stopped |
| `PbDecoder.IStream.DecodeSubmessage` | src/tr/uv/pb_decode.c:542-556 | a nested message inside its length, then the rest of the parent |
| `PbDecoder.PbDecode` | src/tr/uv/pb_decode.c:80-88 | succeeds exactly when the specification decodes the bytes, with that tree |
| `PbRoundTrip.VarintRoundTrip` | src/tr/uv/pb_decode.c:403-417 | every 64-bit value is read back from its varint, whatever follows; the 32-bit reader keeps its low 32 bits |
| `PbRoundTrip.IntegerRoundTrip` | src/tr/uv/pb_decode.c:170-190 | integers of all three kinds come back with sign |
| `PbRoundTrip.ScalarRoundTrip` | src/tr/uv/pb_decode.c:141-265 | every well-typed scalar comes back |
| `PbRoundTrip.SubmessageRoundTrip` | src/tr/uv/pb_decode.c:542-556 | a nested message comes back through its length prefix |
| `PbRoundTrip.PrefixedDecodes` | src/tr/uv/pb_decode.c:521-556 | a message is read from a substream of its announced length and the parent goes on right behind it |
| `PbRoundTrip.PackedRoundTrip` | src/tr/uv/pb_decode.c:291-303 | a packed array comes back element by element |
| `PbRoundTrip.TaggedRoundTrip` | src/tr/uv/pb_decode.c:304-330 | an array of strings or messages comes back, appended to what is there |
| `PbRoundTrip.MembersRoundTrip` | src/tr/uv/pb_decode.c:339-382 | any list of members comes back behind those already decoded, in the same order |
| `PbRoundTrip.RoundTrip` | src/tr/uv/pb_decode.c:339-382 | for every schema, recursive ones included, and every well-typed message the decoder gives back the same tree with the same member order and consumes exactly the encoded bytes |
| `PbRoundTrip.NeverRefused` | src/tr/uv/pb_encode.c:160-195 | encoding a well-typed message is never refused |
| `PbRoundTrip.UnsignedRoundTripsIff` | src/tr/uv/pb_encode.c:211-216 | a uInt32 field, a C int, comes back exactly when it is not negative; reading what a negative one was written as is undefined |
| `PbRoundTrip.MinusOneFails` | src/tr/uv/pb_encode.c:211-216 | -1 is written as a number that cannot be read |
| `PbRoundTrip.EmptyListIsDroppedIff` | src/tr/uv/pb_encode.c:131-156 | an empty array is lost exactly when its element type is not packed |
| `PbRoundTrip.EmptyListFails` | src/tr/uv/pb_encode.c:131-156 | a message of one empty list of strings comes back without it |
| `PbSafety.ScalarAgrees` | src/tr/uv/pb_decode.c:169-230 | reading one value is undefined exactly when it is a number beyond an int or a string announcing 2^32-1 bytes |
| `PbSafety.SubmessageIsSafeIff` | src/tr/uv/pb_decode.c:542-556 | the exact condition for nested messages, whatever length they announce |
| `PbSafety.ArrayIsSafeIff` | src/tr/uv/pb_decode.c:267-333 | the exact condition for arrays, whatever count they announce |
| `PbSafety.DecodeIsSafeIff` | src/tr/uv/pb_decode.c:339-382 | for a closed set of schemas and any bytes, decoding is undefined exactly when a walk over the bytes meets a harmful value; else it ends where the walk ends, or is refused where the walk is cut short |
| `PbSafety.BufferIsSafeIff` | src/tr/uv/pb_decode.c:80-88 | on any buffer at all the decoder accepts or refuses, within what C defines, exactly when every number met fits an int and no string announces 2^32-1 bytes |
| `PbSafety.LongStringFails` | src/tr/uv/pb_decode.c:210-216 | a string field announcing 2^32-1 bytes is harmful: its buffer has size 0 and a terminator is stored behind it |
| `PbSafety.LargeNumberFails` | src/tr/uv/pb_decode.c:170-178 | a uInt32 field of 2^31 is harmful: its conversion to int is undefined |
| `JsonText.ParseValue` | src/pc_JSON.c:285-297 | a value that parses consumes at least one character, so the recursion ends |
| `JsonText.ParseString` | src/pc_JSON.c:153-210 | a string that parses consumes at least its quote |
| `JsonText.Literal` | src/pc_JSON.c:590 | a literal and what is behind it make up the text |
| `JsonPrinter.PrintStringPtr` | src/pc_JSON.c:213-246 | the text is the escaped string in quotes and the measured length is exactly what is written, terminator included |
| `JsonPrinter.PutEscaped` | src/pc_JSON.c:227-242 | one character's escape, in place |
| `JsonPrinter.DecimalFits` | src/pc_JSON.c:116-124 | an int prints in at most eleven of the 21 bytes set aside |
| `JsonPrinter.ItemEntries` | src/pc_JSON.c:366-374 | every entry is rendered and the length adds up their room |
| `JsonPrinter.ComposeArray` | src/pc_JSON.c:377-400 | all the writing, separators and terminators included, stays inside that length |
| `JsonPrinter.PrintArray` | src/pc_JSON.c:346-401 | the buffer holds the array's text |
| `JsonPrinter.MemberEntries` | src/pc_JSON.c:466-474 | names and values are rendered and the length adds up the room of each line |
| `JsonPrinter.PutLine` | src/pc_JSON.c:490-499 | one line: tabs, name, colon, value, comma, newline |
| `JsonPrinter.ComposeObject` | src/pc_JSON.c:477-504 | all the writing stays inside the computed length |
| `JsonPrinter.PrintObject` | src/pc_JSON.c:440-505 | the buffer holds the object's text, the special case of an empty object included |
| `JsonPrinter.PrintValue` | src/pc_JSON.c:300-315 | the buffer holds the value's text for every tree, depth and format |
| `JsonPrinter.JoinedFits` | src/pc_JSON.c:368-374 | the room counted for an array's entries covers what they and their separators take |
| `JsonPrinter.LinesFit` | src/pc_JSON.c:466-474 | the room counted for an object's lines covers what they take |
| `JsonPrinter.ValueClean` | src/pc_JSON.c:300-315 | no printed text has a NUL inside, so strlen of an entry is its length |
| `CBuffer.Copy` | src/pc_JSON.c:394 | strcpy through the moving pointer: the text so far grows by exactly the string, terminator behind it |
| `CBuffer.StrLen` | src/pc_JSON.c:372 | strlen of a buffer holding a text without NUL is its length |
| `JsonParser.SkipBlanks` | src/pc_JSON.c:259 | drops characters up to 32 and nothing else |
| `JsonParser.ReadNumber` | src/pc_JSON.c:94-113 | sign, digits, fraction and exponent as the specification reads them; exponents and values beyond an int are undefined |
| `JsonParser.MeasureString` | src/pc_JSON.c:158 | the first pass counts characters, an escape counting as one |
| `JsonParser.MeasureEnough` | src/pc_JSON.c:158-160 | whatever the second pass writes fits what the first pass measured |
| `JsonParser.PutUtf8` | src/pc_JSON.c:190-199 | the fall-through that writes a code point backwards gives its UTF-8 bytes |
| `JsonParser.ReadString` | src/pc_JSON.c:153-210 | the buffer of the measured size receives exactly the unescaped text |
| `JsonParser.ReadItems` | src/pc_JSON.c:326-342 | the loop over array values builds the list the recursive reading gives |
| `JsonParser.ReadArray` | src/pc_JSON.c:318-343 | an array as specified, empty or not |
| `JsonParser.ReadMembers` | src/pc_JSON.c:412-436 | the loop over members builds the list the recursive reading gives |
| `JsonParser.ReadObject` | src/pc_JSON.c:404-437 | an object as specified, empty or not |
| `JsonParser.ReadValue` | src/pc_JSON.c:285-297 | every value by its first characters |
| `JsonParser.ReadWithOpts` | src/pc_JSON.c:262-276 | the tree and the end, and with the check only when nothing but blanks follows |
| `JsonGrammar.Utf8Iff` | src/pc_JSON.c:190-200 | a code point is written as the octets that RFC 3629 decodes to it, and as no others |
| `JsonGrammar.LegalStringReads` | src/pc_JSON.c:153-210 | every legal spelling of a string, by plain characters, short escapes, four hexadecimal digits of either case, or surrogate pairs, is read as the bytes it stands for |
| `JsonGrammar.StringReads` | src/pc_JSON.c:153-210 | so is every other spelling the parser takes |
| `JsonGrammar.StringSound` | src/pc_JSON.c:153-210 | every string that is read has such a spelling; beyond the legal ones any other escaped character stands for itself, code points that do not exist stand for nothing, and the end of the text closes a string |
| `JsonGrammar.NumberReads` | src/pc_JSON.c:94-113 | every spelling of a number, with fraction and exponent, is read as the number written, unless the exponent or the number does not fit an int |
| `JsonGrammar.NumberSound` | src/pc_JSON.c:94-113 | every number that is read has such a spelling; beyond the legal ones digits may be missing behind a minus or an e, and one leading zero is passed over |
| `JsonTexts.FormParses` | src/pc_JSON.c:285-437 | every text of a value, whatever its blanks and spellings, is read as the tree it writes |
| `JsonTexts.ValueSound` | src/pc_JSON.c:285-437 | every value that is read is such a text of its tree |
| `JsonTexts.ValueIff` | src/pc_JSON.c:285-437 | both directions: a value is accepted, with that tree and that rest, exactly when the text is one of those described |
| `JsonTexts.TextIff` | src/pc_JSON.c:262-277 | a whole text is accepted under the check exactly when it is one of them with blanks around it |
| `JsonTexts.LegalTextParses` | src/pc_JSON.c:262-277 | every JSON text of RFC 8259 whose numbers fit is accepted with the tree it writes, and nothing behind it is taken for a part of it |
| `JsonRoundTrip.DecimalParses` | src/pc_JSON.c:94-124 | every int comes back from its `%d` text with equal integer and double fields |
| `JsonRoundTrip.EscapeParses` | src/pc_JSON.c:164-206 | every byte but NUL comes back from its escape |
| `JsonRoundTrip.StringParses` | src/pc_JSON.c:153-246 | every NUL-free string comes back from its printed form |
| `JsonRoundTrip.ItemsParse` | src/pc_JSON.c:318-401 | the printed values of an array come back, formatted or not |
| `JsonRoundTrip.MembersParse` | src/pc_JSON.c:404-505 | the printed members of an object come back, formatted or not |
| `JsonRoundTrip.ValueParses` | src/pc_JSON.c:281-505 | any tree of ints and C strings comes back from its print at any depth in either format, in front of anything that cannot continue a number |
| `JsonRoundTrip.AnyObjectParses` | src/pc_JSON.c:404-437 | an object comes back whatever stands behind it |
| `JsonRoundTrip.PrintedParses` | src/pc_JSON.c:262-282 | with the null-termination check the parser consumes all the printed text and rebuilds the equal tree |
| `JsonLayout.Layout` | src/pc_JSON.c:346-503 | the two formats laid out: separators, line ends and tabs of arrays and objects, the empty object included |
| `JsonLayout.EscapesWritten` | src/pc_JSON.c:213-246 | which characters are escaped, and how |
| `JsonLayout.NumberWritten` | src/pc_JSON.c:116-136 | a number within 2^-52 of its int field is printed as that int and read back as it; any other one is left to the C library |
| `JsonMinify.StringKept` | src/pc_JSON.c:590 | a printed string, escapes included, passes the minifier unchanged |
| `JsonMinify.MembersMinify` | src/pc_JSON.c:579-594 | formatted members minify to the unformatted ones |
| `JsonMinify.ValueMinifies` | src/pc_JSON.c:579-594 | any printed value minifies to its unformatted print, whatever follows |
| `JsonMinify.PrintedMinifies` | src/pc_JSON.c:281-282 | minifying the formatted print gives the unformatted print byte for byte, and minifying that changes nothing |
| `JsonMinify.MinifiedIff` | src/pc_JSON.c:579-594 | the minifier stays inside the text exactly when the text does not end in a string, behind a backslash in one, or in a block comment |
| `JsonMinify.LoneQuoteFails` | src/pc_JSON.c:590 | a lone quote is a text it runs out of |
| `JsonComments.ChunksMinify` | src/pc_JSON.c:579-594 | a text cut into blanks, comments, literals and other characters minifies to the last two |
| `JsonComments.MinifiedKeeps` | src/pc_JSON.c:579-594 | for every text at all the result is what such a cut keeps, and there is none exactly when there is no such cut |
| `JsonMinifier.MoveLiteral` | src/pc_JSON.c:590 | string literals are moved down unchanged |
| `JsonMinifier.MinifyRound` | src/pc_JSON.c:584-591 | one round keeps the write index behind the read index and the result it still owes |
| `JsonMinifier.MinifyInPlace` | src/pc_JSON.c:579-594 | the buffer ends up holding the minified text, for every text the code does not run out of |
| `Framing.EncodedComesFirst` | src/tr/uv/pr_pkg.c:112-145 | an encoded package in front of any stream is its first package, with its type modulo 256 and its body |
| `Framing.HeadForm` | src/tr/uv/pr_pkg.c:112-143 | the head is the type and three bytes of length, the most significant first, both written and read |
| `Framing.TooLongRefused` | src/tr/uv/pr_pkg.c:118-122 | a package is refused exactly when its body has 2^24 bytes or more |
| `Framing.StreamFits` | src/tr/uv/pr_pkg.c:118-122 | packages make a stream exactly when every body is below 2^24 bytes |
| `Framing.StreamParses` | src/tr/uv/pr_pkg.c:47-145 | encoded packages sent one after the other come back in order with nothing left over |
| `Framing.Continued` | src/tr/uv/pr_pkg.c:47-59 | bytes added to a stream act only through its incomplete last package |
| `Framing.PkgParser.constructor` | src/tr/uv/pr_pkg.c:26-35 | a new parser is at the start of a head |
| `Framing.PkgParser.Reset` | src/tr/uv/pr_pkg.c:37-45 | back to the start of a head, what was handled untouched |
| `Framing.PkgParser.ParseHead` | src/tr/uv/pr_pkg.c:61-91 | takes up to the missing head bytes; when the head is complete a body buffer of the announced length is ready |
| `Framing.PkgParser.ParseBody` | src/tr/uv/pr_pkg.c:93-110 | takes up to the missing body bytes; a complete body is handed over once and the parser starts afresh |
| `Framing.PkgParser.FeedRound` | src/tr/uv/pr_pkg.c:51-58 | one round makes progress and hands over exactly the packages the bytes so far complete |
| `Framing.PkgParser.Feed` | src/tr/uv/pr_pkg.c:47-59 | after a feed the handler has seen the packages of all bytes so far and the parser holds back exactly the incomplete rest |
| `Framing.FedTogether` | src/tr/uv/pr_pkg.c:47-59 | feeding pieces one by one equals feeding them joined |
| `Framing.AnyChunks` | src/tr/uv/pr_pkg.c:47-145 | however a stream of encoded packages is cut, the handler sees exactly those packages and the parser ends clean |
| `MsgCode.IdLength` | src/tr/uv/pr_msg.c:380-388 | the length computed for an id is the length of its varint |
| `MsgCode.PutId` | src/tr/uv/pr_msg.c:354-368 | the loop writes exactly the varint of the id |
| `MsgCode.EncodeRouteMsg` | src/tr/uv/pr_msg.c:275-309 | flag, id, route length, route, body: the buffer is exactly that and exactly as long |
| `MsgCode.EncodeCodeMsg` | src/tr/uv/pr_msg.c:311-345 | flag, id, two code bytes, body: the buffer is exactly that and exactly as long |
| `MsgCode.TakeId` | src/tr/uv/pr_msg.c:100-114 | the varint loop with its bounds test, ids modulo 2^32 |
| `MsgCode.TakeRoute` | src/tr/uv/pr_msg.c:117-143 | code or length-prefixed string with the size_t bounds tests, the length read through a plain char |
| `MsgCode.Wraps` | src/tr/uv/pr_msg.c:128-129 | what the wrapped bounds test decides for lengths below and above 127 |
| `MsgCode.DecodeToRaw` | src/tr/uv/pr_msg.c:63-166 | the raw message, or NULL, or the failed assertion on the reserved id, as specified |
| `MsgHeader.ReadId` | src/tr/uv/pr_msg.c:100-114 | an id that is read consumes at least one byte |
| `MsgHeader.IdRoundTrip` | src/tr/uv/pr_msg.c:100-114 | every 32-bit id is read back from its varint |
| `MsgHeader.RouteRoundTripIff` | src/tr/uv/pr_msg.c:126-142 | a message with a route string decodes to itself exactly when the route has at most 127 bytes and the id is not the reserved one |
| `MsgHeader.LongRouteFails` | src/tr/uv/pr_msg.c:126-142 | a route of 128 bytes is one that does not come back |
| `MsgHeader.CodeRoundTripIff` | src/tr/uv/pr_msg.c:118-125 | a message with a route code decodes to itself exactly when the code fits two bytes and the id is not the reserved one |
| `MsgHeader.CarriedDecodes` | src/tr/uv/pr_msg.c:63-166 | every message the format can carry decodes to itself |
| `MsgHeader.SentBytes` | src/tr/uv/pr_msg.c:275-388 | the bytes of a request and of a notify, with route or code: flag 0 to 3, id only in requests, length or two bytes of code |
| `MsgHeader.ResponseDecodes` | src/tr/uv/pr_msg.c:63-166 | a response of a server, flag 4 or 5, is read with its id, no route and the rest as body, for every id but the reserved one, which fails an assertion |
| `MsgHeader.PushDecodes` | src/tr/uv/pr_msg.c:63-166 | a push, flag 6 with a route of up to 127 bytes or flag 7 with two bytes of code, is read with id 0, that route and the rest as body |
| `MsgHeader.LongPushFails` | src/tr/uv/pr_msg.c:130-142 | a push with a length byte from 128 on is refused, and with 255 its route runs out of the input |
| `MsgHeader.OtherFlagsRefused` | src/tr/uv/pr_msg.c:91-98 | no other flag byte is a message, and the kind is what the flag says |
| `MsgHeader.ConversationArrives` | src/tr/uv/pr_pkg.c:47-145 | any list of such requests and notifies, encoded, framed, joined and fed in any pieces, comes out as exactly that list in order, the parser left at a clean head |
| `MsgDefault.JsonBodyReturns` | src/tr/uv/pr_msg_json.c:15-47 | a JSON object printed into a body is read back and ends where the body does, whatever memory follows |
| `MsgDefault.BodyReturns` | src/tr/uv/pr_msg_pb.c:18-78 | a body is encoded exactly when it fits the room set aside, and then decodes to the same tree; else it is refused |
| `MsgDefault.MessageArrivesIff` | src/tr/uv/pr_msg.c:168-472 | a message text goes through parser, body codec, header and back: exactly when the body fits, the same id and route arrive with the unformatted text of the same tree; else nothing is sent |
| `MsgDefault.MessageArrives` | src/tr/uv/pr_msg.c:168-472 | with compact schemas, tag numbers below 2^18 included, that repeat no doubles every message arrives |
| `MsgDefault.BytesSent` | src/tr/uv/pr_msg.c:390-472 | which bytes go out for a message text: the route by its code where the dictionary has a number above 0, else as it is |
| `MsgDefault.PrintReturns` | src/tr/uv/pr_msg_json.c:13-47 | an object printed in either format is read back from a body, whatever lies behind it |
| `MsgDefault.ServerBodyReturns` | src/tr/uv/pr_msg.c:216-243 | a body of a server is read by the schema of its route or as JSON |
| `MsgDefault.ResponseArrives` | src/tr/uv/pr_msg.c:168-258 | a response arrives with its id, without a route, with the unformatted text of its body |
| `MsgDefault.PushArrives` | src/tr/uv/pr_msg.c:168-258 | a push arrives with its route, written out or by its code in the dictionary, and the text of its body |
| `MsgDefault.DoublesFail` | src/tr/uv/pr_msg_pb.c:41-57 | five ones in a repeated field of doubles are refused for want of room |
| `PbSize.NumberRoom` | src/tr/uv/pb_encode.c:210-243 | what a number may take for its text |
| `PbSize.ItemsRoom` | src/tr/uv/pb_encode.c:140-155 | the elements of a list take at most twice their text and separators |
| `PbSize.MessageFits` | src/tr/uv/pr_msg_pb.c:41-42 | for compact schemas that repeat no doubles, nested ones included, the encoding with a header and length in front takes at most twice the text and a comma |
| `PbSize.RepeatedDoubleOverflows` | src/tr/uv/pr_msg_pb.c:41-42 | in every repeated field of doubles enough ones take more than twice their text |
| `PbSize.LargeTagsFail` | src/tr/uv/pr_msg_pb.c:41-42 | with tag numbers of 2^18 a schema that repeats no doubles has messages that do not fit |
| `PbSize.SchemasFitIff` | src/tr/uv/pr_msg_pb.c:41-42 | among compact schemas, with headers of up to two or up to three bytes, twice the text is always enough exactly when none repeats doubles |
| `PbSize.HeaderLength` | src/tr/uv/pb_encode.c:341-357 | a header takes at most two bytes for tag numbers below 2048 and at most three below 2^18 |
| `Lifecycle.IndexOf` | src/pc_trans.c:335-347 | the first entry with the key, or the end when there is none |
| `Lifecycle.FirstIdle` | src/tr/uv/tr_uv_tcp_i.c:365-374 | the first idle slot, or the end when all are busy |
| `Lifecycle.NextReqId` | src/pc_pomelo.c:578-580 | request ids skip 0 and 2^32-1 |
| `LifecycleCode.ClientQueues.Search` | src/pc_trans.c:335-347 | the queue scan finds the first entry with the key |
| `LifecycleCode.ClientQueues.Deliver` | src/pc_trans.c:225-372 | find, unlink, call back, release, for requests and notifies alike; a late or unknown key changes nothing |
| `LifecycleCode.ClientQueues.Report` | src/pc_trans.c:174-324 | direct delivery, or an event queued when polling |
| `LifecycleCode.ClientQueues.Poll` | src/pc_pomelo.c:338-382 | every queued event is handled once, in order |
| `LifecycleCode.TcpTransport.NewItem` | src/tr/uv/tr_uv_tcp_i.c:365-383 | an idle preallocated slot is taken and marked, else an item is allocated |
| `LifecycleCode.TcpTransport.Free` | src/tr/uv/tr_uv_tcp_aux.c:40-44 | a preallocated item becomes idle, any other is freed |
| `LifecycleCode.TcpTransport.FinishItem` | src/tr/uv/tr_uv_tcp_aux.c:25-45 | the owner of the item is told exactly once, internal items tell nobody |
| `LifecycleCode.TcpTransport.GatherWriting` | src/tr/uv/tr_uv_tcp_aux.c:87-95 | the pending and waiting queues go behind the writing queue in order |
| `LifecycleCode.TcpTransport.Reset` | src/tr/uv/tr_uv_tcp_aux.c:47-117 | every queued item is finished with RESET, all four queues are empty, no connection is left |
| `LifecycleCode.TcpTransport.Reconn` | src/tr/uv/tr_uv_tcp_aux.c:128-198 | a reset, then connecting again or given up |
| `LifecycleCode.TcpTransport.Send` | src/tr/uv/tr_uv_tcp_i.c:332-414 | refused without connection or encoding; else one new item at the tail of the queue its state calls for |
| `LifecycleCode.TcpTransport.Request` | src/pc_pomelo.c:517-614 | the entry is queued first and taken back when the send is refused |
| `LifecycleCode.TcpTransport.NotifyCall` | src/pc_pomelo.c:646-743 | the same for notifies |
| `LifecycleCode.TcpTransport.AddInternal` | src/tr/uv/tr_uv_tcp_aux.c:696-740 | handshake and its ack go to the head of the write queue, a heartbeat to its tail |
| `LifecycleCode.TcpTransport.ConnAsync` | src/tr/uv/tr_uv_tcp_aux.c:200-281 | a connect request is ignored while one is under way |
| `LifecycleCode.TcpTransport.ConnDone` | src/tr/uv/tr_uv_tcp_aux.c:297-359 | a connection starts the handshake, a failure reconnects |
| `LifecycleCode.TcpTransport.HandshakeResp` | src/tr/uv/tr_uv_tcp_aux.c:1004-1216 | an accepted handshake queues its ack and opens the transport, a refused one resets it |
| `LifecycleCode.TcpTransport.HeartbeatTimer` | src/tr/uv/tr_uv_tcp_aux.c:782-795 | one heartbeat item is queued |
| `LifecycleCode.TcpTransport.MergePending` | src/tr/uv/tr_uv_tcp_aux.c:383-397 | pending items go behind the waiting ones in order |
| `LifecycleCode.TcpTransport.WriteAsync` | src/tr/uv/tr_uv_tcp_aux.c:361-501 | nothing while a write is under way; else the whole write queue becomes the batch of one write, or is finished when the write fails |
| `LifecycleCode.TcpTransport.WriteDone` | src/tr/uv/tr_uv_tcp_aux.c:503-561 | after a good write requests wait for responses and the rest is acknowledged; after a bad one all are finished |
| `LifecycleCode.TcpTransport.CheckQueueTimeout` | src/tr/uv/tr_uv_tcp_aux.c:563-615 | keeps the unexpired items in order, finishes each expired one once, and reports whether one with a timeout is left |
| `LifecycleCode.TcpTransport.CheckTimeout` | src/tr/uv/tr_uv_tcp_aux.c:617-638 | the three queues one after the other |
| `LifecycleCode.TcpTransport.Response` | src/tr/uv/tr_uv_tcp_aux.c:846-914 | the client hears first, then the waiting item, if any, is released |
| `LifecycleBooks.DeliverBalances` | src/pc_trans.c:225-372 | an answer moves one entry from waiting to called back, or nothing |
| `LifecycleBooks.FinishAllBalances` | src/tr/uv/tr_uv_tcp_aux.c:25-45 | finishing items in hand keeps all the books |
| `LifecycleBooks.RequestBalances` | src/pc_pomelo.c:517-614 | a request keeps the books, accepted or refused |
| `LifecycleBooks.NotifyBalances` | src/pc_pomelo.c:646-743 | so does a notify |
| `LifecycleBooks.ResetBalances` | src/tr/uv/tr_uv_tcp_aux.c:47-117 | so does a reset |
| `LifecycleBooks.WriteAsyncBalances` | src/tr/uv/tr_uv_tcp_aux.c:361-501 | so does starting a write, also one that fails |
| `LifecycleBooks.WriteDoneBalances` | src/tr/uv/tr_uv_tcp_aux.c:503-561 | so does its completion |
| `LifecycleBooks.CheckTimeoutBalances` | src/tr/uv/tr_uv_tcp_aux.c:617-638 | so does the timeout sweep |
| `LifecycleBooks.ResponseBalances` | src/tr/uv/tr_uv_tcp_aux.c:846-914 | so does a response, known or not |
| `LifecycleBooks.PollBalances` | src/pc_pomelo.c:338-382 | so does a poll |
| `LifecycleRuns.SelectFilters` | src/tr/uv/tr_uv_tcp_aux.c:563-615 | the sweep keeps exactly the unexpired items, each as often as before or less |
| `LifecycleRuns.SelectConcat` | src/tr/uv/tr_uv_tcp_aux.c:571-609 | sweeping a queue is sweeping its parts one behind the other, so the order is kept |
| `LifecycleRuns.StepKeepsBooks` | src/tr/uv/tr_uv_tcp_aux.c:25-638 | every step, enabled or not, keeps items, slots, answers and calls balanced |
| `LifecycleRuns.StepKeepsRequests` | src/tr/uv/tr_uv_tcp_aux.c:515-540 | nothing but requests ever waits for a response, whatever the step |
| `LifecycleRuns.RunKeepsBooks` | src/tr/uv/tr_uv_tcp_aux.c:25-638 | so does any list of steps |
| `LifecycleRuns.CalledAtMostOnce` | src/pc_trans.c:225-372 | after any steps in any order, direct or polling, every callback that has run belongs to an accepted request or notify, and no two to the same one |
| `LifecycleRuns.ResetAnswersAll` | src/pc_pomelo.c:272-273 | after a reset, and the next poll when polling, each accepted call has had its callback exactly once, and the queues whose emptiness cleanup asserts are empty |
| `LifecycleRuns.ItemsLinkedOnce` | src/tr/uv/tr_uv_tcp_aux.c:25-117 | after any steps in any order each live item is linked in exactly one of the four queues |
| `LifecycleRuns.SlotBusyIffLinked` | src/tr/uv/tr_uv_tcp_i.c:365-392 | after any steps in any order a preallocated slot is busy exactly when a linked item uses it |
| `LifecycleRuns.BatchIsSealed` | src/tr/uv/tr_uv_tcp_aux.c:503-561 | while a write is under way no step adds to its batch |
| `LifecycleRuns.StepKeepsBatch` | src/tr/uv/tr_uv_tcp_aux.c:361-501 | only an accepted write fills the writing queue, with the whole write queue, which is what the socket gets; any other step leaves it or empties it, and it never holds anything without a write under way |
| `LifecycleRuns.RunKeepsBatch` | src/tr/uv/tr_uv_tcp_aux.c:361-561 | so through any list of steps it is empty or the batch of the last accepted write |
| `LifecycleRuns.QueuesMatchWrites` | src/tr/uv/tr_uv_tcp_aux.c:25-117 | after any steps in any order the writing queue is empty unless a write is under way, and only requests wait for responses |
| `LifecycleRuns.CompletionFindsItsBatch` | src/tr/uv/tr_uv_tcp_aux.c:503-561 | after any steps in any order a completion finds the whole batch of the last accepted write, or nothing when a reset took it; it acknowledges exactly that, and exactly its requests go on to wait for responses |
| `LifecycleRuns.WriteIsItsBatch` | src/tr/uv/tr_uv_tcp_aux.c:438-501 | a write that starts after any steps finds the writing queue empty and hands the socket exactly the batch its completion will find |
| `LifecycleOutcomes.TellsOneCode` | src/pc_trans.c:225-372 | no step ends a call with two codes |
| `LifecycleOutcomes.StepReaches` | src/tr/uv/tr_uv_tcp_aux.c:25-914 | every step takes every call exactly as far as it tells: back to the user, into the event queue, or nowhere |
| `LifecycleOutcomes.CalledBackIff` | src/pc_trans.c:225-372 | from any moment at which a call waits, in any run, direct or polling: its callback has run with a code exactly when the first step to end it, a response, a good write of a notify, a failed write, a sweep after its time or a reset, ended it with that code, and a poll came after it when polling |
| `LifecycleOutcomes.CallEndsIff` | src/pc_pomelo.c:540-610 | the same for every accepted call from the moment it is made, by the number it got, as long as numbers have not come round |
| `LifecycleOutcomes.OverdueIff` | src/tr/uv/tr_uv_tcp_aux.c:563-615 | a sweep ends a call exactly when the timeout given with the call is set and over, counted from the call, and its item is still queued for writing or unanswered |
| `LifecycleOutcomes.ItemsAreMade` | src/tr/uv/tr_uv_tcp_i.c:332-414 | every queued item of the user was made by an accepted call of the run, with its number, timeout and time |
| `LifecycleOutcomes.NewEntry` | src/tr/uv/tr_uv_tcp_i.c:332-414 | a call is accepted exactly when there is a connection and the message can be encoded; then it has one entry, the last, and one item, behind the others of the queue its state calls for |
| `LifecycleOutcomes.NumbersInTurn` | src/pc_pomelo.c:574-580 | request ids are given out in turn from 1 to 2^32-2 and again from 1, sequence numbers from 0 to 2^32-1 |
| `LifecycleOutcomes.NumbersDiffer` | src/pc_pomelo.c:574-580 | until they come round no two calls have the same |
| `LifecycleOrder.KindsStepIff` | src/tr/uv/tr_uv_tcp_aux.c:361-561 | a step keeps what each queue may hold exactly when it is not a connect request that strands application data |
| `LifecycleOrder.QueuesHoldTheirKindIff` | src/tr/uv/tr_uv_tcp_aux.c:382-400 | throughout a run, before the handshake is done the write queues hold only internal items and nothing waits for responses, and only requests ever do, exactly when no connect request handled on an open connection finds application data queued for writing, being written or unanswered |
| `LifecycleOrder.SteadyStepIff` | src/tr/uv/tr_uv_tcp_aux.c:361-1259 | a step keeps the order of handshake, ack and data exactly when it is none of the three upsets |
| `LifecycleOrder.OrderStepIff` | src/tr/uv/tr_uv_tcp_aux.c:361-1259 | an upset is exactly what makes some run without another upset send out of order |
| `LifecycleOrder.HandshakeGoesFirstIff` | src/tr/uv/tr_uv_tcp_aux.c:992-1259 | a run stays safe throughout exactly when no connect request on an open connection finds more than handshakes and heartbeats queued, no response is accepted before the handshake was written, and no write of the batch with the ack fails |
| `LifecycleOrder.HandshakeGoesFirst` | src/tr/uv/tr_uv_tcp_aux.c:992-1259 | in such runs a handshake, after it an ack, and only after that application data are accepted by the socket in use |
| `LifecycleOrder.EarlyResponseFails` | src/tr/uv/tr_uv_tcp_aux.c:1004-1259 | a response handled before the handshake is written: the ack goes out in front of it |
| `LifecycleOrder.LostAckFails` | src/tr/uv/tr_uv_tcp_aux.c:455-485 | the write of the ack fails and a request goes out without it |
| `LifecycleOrder.LateConnectFails` | src/tr/uv/tr_uv_tcp_aux.c:200-215 | a late connect request leaves application data in the write queue of a connecting transport |
| `LifecycleFifo.FifoStepIff` | src/tr/uv/tr_uv_tcp_i.c:386-392 | a step keeps all queued requests and notifies in the order in which they were accepted exactly when it sends none past pending ones |
| `LifecycleFifo.SentInSequenceIff` | src/tr/uv/tr_uv_tcp_aux.c:383-397 | requests and notifies go out in the order in which they were accepted, in every run, exactly as long as none is sent between the end of the handshake and the move of the pending ones |
| `LifecycleFifo.OvertakenFails` | src/tr/uv/tr_uv_tcp_i.c:386-392 | a notify made right after the handshake overtakes a request made while connecting |
| `ThreadPoolCode.Shared.Post` | deps/uv/src/threadpool.c:103-109 | the entry goes to the tail of the shared queue |
| `ThreadPoolCode.Shared.WorkSubmit` | deps/uv/src/threadpool.c:175-184 | the item is recorded and queued |
| `ThreadPoolCode.Shared.WorkerTake` | deps/uv/src/threadpool.c:70-88 | the first entry is taken; an exit message is left for the next worker |
| `ThreadPoolCode.Shared.WorkerRun` | deps/uv/src/threadpool.c:90-91 | the work function runs outside the mutexes |
| `ThreadPoolCode.Shared.WorkerReport` | deps/uv/src/threadpool.c:93-98 | the item goes to the tail of its loop's finished queue, no longer cancellable |
| `ThreadPoolCode.Shared.WorkCancel` | deps/uv/src/threadpool.c:187-210 | the item is unlinked and marked under both mutexes exactly when it is still queued and not run, then handed to its loop |
| `ThreadPoolCode.Shared.WorkDone` | deps/uv/src/threadpool.c:213-238 | the finished queue is split off and each of its items gets its done callback once, in order |
| `ThreadPool.StepKeeps` | deps/uv/src/threadpool.c:63-238 | every step of any worker, submit, cancel or drain keeps the invariant |
| `ThreadPool.RunKeepsInv` | deps/uv/src/threadpool.c:63-238 | so does every interleaving |
| `ThreadPool.InExactlyOnePlace` | deps/uv/src/threadpool.c:63-238 | in every interleaving a submitted item is in exactly one queue, worker or cancel |
| `ThreadPool.RunsAndCompletesOnce` | deps/uv/src/threadpool.c:63-238 | since its submit a work function runs at most once and done is called at most once; the final status is cancelled exactly when it never ran |
| `ThreadPool.CancelSucceedsIff` | deps/uv/src/threadpool.c:187-210 | a cancel succeeds exactly while no worker has taken the item |
| `ThreadPool.CancelledNeverRuns` | deps/uv/src/threadpool.c:187-210 | no later step can run a cancelled item |
| `ThreadPoolOrder.LineMoves` | deps/uv/src/threadpool.c:63-245 | a step removes items from a queue and keeps the order of the others, or adds one at the end |
| `ThreadPoolOrder.FirstComeFirst` | deps/uv/src/threadpool.c:63-245 | in every interleaving the items of the shared queue, and those a loop has to complete, stand in the order in which they came |
| `ThreadPoolOrder.TakesOldest` | deps/uv/src/threadpool.c:63-101 | a worker takes the item that has waited longest since its submit |
| `ThreadPoolOrder.CompletesOldest` | deps/uv/src/threadpool.c:213-245 | a loop calls the done callback of the item that was handed back first |
| `RbShape.HeightBound` | deps/uv/include/tree.h:60-61 | a tree within the rules has height at most twice the logarithm of its size plus one |
| `RbShape.HeightAndSize` | deps/uv/include/tree.h:60-61 | black height bounds both height and size |
| `RbShape.InorderPlug` | deps/uv/include/tree.h:407-449 | the key order of a tree, seen from any place in it |
| `RbShape.RulesPlug` | deps/uv/include/tree.h:407-449 | rules kept at one place and around it are the rules of the whole tree |
| `RbTree.Head.constructor` | deps/uv/include/tree.h:306-308 | an empty tree under any comparison that ranks the keys |
| `RbTree.Adopt` | deps/uv/include/tree.h:344-346 | only the parent link of a possibly missing child changes |
| `RbTree.Replace` | deps/uv/include/tree.h:348-354 | the link down to a node, or the root, now leads to another |
| `RbTree.RotateLeft` | deps/uv/include/tree.h:342-360 | the linked nodes, parent pointers included, form the rotated tree at the same place |
| `RbTree.RotateRight` | deps/uv/include/tree.h:362-380 | the mirror image |
| `RbTree.RotatedLeftContent` | deps/uv/include/tree.h:342-360 | a left rotation keeps nodes and key order |
| `RbTree.RotatedRightContent` | deps/uv/include/tree.h:362-380 | so does a right rotation |
| `RbTree.RecolorUp` | deps/uv/include/tree.h:416-421 | red uncle: three colours change and nothing else |
| `RbTree.RecoloredRules` | deps/uv/include/tree.h:416-421 | after it every rule holds but at the grandparent |
| `RbTree.RotateUpLeft` | deps/uv/include/tree.h:422-429 | black uncle, left side: the one or two rotations and colours |
| `RbTree.RotateUpRight` | deps/uv/include/tree.h:438-445 | the right side |
| `RbTree.RotateUpLeftRules` | deps/uv/include/tree.h:422-429 | after them every rule holds and nodes and order are kept |
| `RbTree.RotateUpRightRules` | deps/uv/include/tree.h:438-445 | the right side |
| `RbTree.InsertRound` | deps/uv/include/tree.h:413-446 | one round keeps everything and moves the one possible red-red edge up |
| `RbTree.InsertColor` | deps/uv/include/tree.h:407-449 | the result is within the rules, with the same nodes in the same order |
| `RbTree.Link` | deps/uv/include/tree.h:615-623 | the new red leaf hangs where the search ended |
| `RbTree.Insert` | deps/uv/include/tree.h:598-626 | under any comparison that ranks the keys: returns null exactly when no node compares equal; then exactly the new node was added; otherwise such a node is returned and nothing changed, the node itself when it was already linked; search order, links and rules hold after |
| `RbTree.RulesUnplug` | deps/uv/include/tree.h:451-595 | the rules of a whole tree, seen from any place in it |
| `RbRemove.RaiseRedSiblingLeft` | deps/uv/include/tree.h:460-464 | a red sibling is rotated above the parent |
| `RbRemove.RaiseInnerChildLeft` | deps/uv/include/tree.h:473-482 | a red inner nephew is rotated above the sibling |
| `RbRemove.RaiseSiblingLeft` | deps/uv/include/tree.h:483-487 | the sibling is rotated above the parent and takes its colour |
| `RbRemove.RaiseRedSiblingRight` | deps/uv/include/tree.h:493-497 | the mirror image |
| `RbRemove.RaiseInnerChildRight` | deps/uv/include/tree.h:506-515 | the mirror image |
| `RbRemove.RaiseSiblingRight` | deps/uv/include/tree.h:516-520 | the mirror image |
| `RbRemove.PaintSiblingRulesLeft` | deps/uv/include/tree.h:465-471 | painting the sibling moves the missing black up one level |
| `RbRemove.RedSiblingRulesLeft` | deps/uv/include/tree.h:460-464 | raising a red sibling keeps the situation with a black sibling |
| `RbRemove.InnerChildRulesLeft` | deps/uv/include/tree.h:473-482 | after it the outer nephew is red |
| `RbRemove.RaiseSiblingRulesLeft` | deps/uv/include/tree.h:483-487 | after it the whole tree is within the rules |
| `RbRemove.RemoveRoundLeft` | deps/uv/include/tree.h:458-490 | one round for a left child: done, or the missing black is higher up |
| `RbRemove.RemoveRoundRight` | deps/uv/include/tree.h:491-524 | one round for a right child |
| `RbRemove.RemoveColor` | deps/uv/include/tree.h:451-528 | the result is within the rules, with the same nodes in the same order |
| `RbRemove.Unlink` | deps/uv/include/tree.h:579-590 | a node with at most one child gives its place to it |
| `RbRemove.TakePlace` | deps/uv/include/tree.h:559-570 | the successor takes over links and colour of the removed node |
| `RbRemove.SpliceSuccessor` | deps/uv/include/tree.h:540-577 | with two children the successor is spliced out and put in place, and the parent to repair from is right even when it was the removed node |
| `RbRemove.SuccessorContent` | deps/uv/include/tree.h:540-577 | exactly the removed node leaves, the order stays |
| `RbRemove.SuccessorRules` | deps/uv/include/tree.h:540-577 | at most one black is missing, where the successor was |
| `RbRemove.Remove` | deps/uv/include/tree.h:530-595 | exactly the given node leaves; search order, links and rules hold after |
| `RbQuery.Find` | deps/uv/include/tree.h:629-645 | a node that compares equal, null exactly when there is none |
| `RbQuery.NFind` | deps/uv/include/tree.h:647-666 | the first node in order that does not compare below, null exactly when all do |
| `RbQuery.Next` | deps/uv/include/tree.h:668-688 | the node right after in key order, null exactly for the last |
| `Heap.Heap.constructor` | deps/uv/src/heap-inl.h:62-65 | an empty heap is complete |
| `Heap.Exchange` | deps/uv/src/heap-inl.h:78-89 | two nodes exchange their links and then point at each other |
| `Heap.SwapResult` | deps/uv/src/heap-inl.h:72-104 | all the links a swap rewrites are those of the level order with the two nodes exchanged |
| `Heap.NodeSwap` | deps/uv/src/heap-inl.h:72-104 | parent and child exchange places, all links around them consistent |
| `Heap.BitsOf` | deps/uv/src/heap-inl.h:122-124 | the bits collected lead back to the number, without a bit lost in 32 |
| `Heap.FindLink` | deps/uv/src/heap-inl.h:122-136 | following the bits reaches the link to exactly that position of the complete tree |
| `Heap.Append` | deps/uv/src/heap-inl.h:115-141 | the new node becomes the last position |
| `Heap.SiftUp` | deps/uv/src/heap-inl.h:146-147 | the order is restored upwards, same nodes |
| `Heap.SiftDown` | deps/uv/src/heap-inl.h:220-229 | the order is restored downwards, same nodes |
| `Heap.SiftUpStep` | deps/uv/src/heap-inl.h:146-147 | a swap upwards leaves only the next edge in doubt, under any strict weak order |
| `Heap.SiftDownStep` | deps/uv/src/heap-inl.h:220-229 | a swap with the smallest child leaves only the edges below in doubt |
| `Heap.Insert` | deps/uv/src/heap-inl.h:106-148 | complete, ordered, exactly the new node more |
| `Heap.DropLast` | deps/uv/src/heap-inl.h:166-185 | the last position is unlinked |
| `Heap.TakePlace` | deps/uv/src/heap-inl.h:195-214 | the last node takes the place and all links of the removed one |
| `Heap.Remove` | deps/uv/src/heap-inl.h:150-237 | complete, ordered, exactly the given node less, wherever it was |
| `Heap.Dequeue` | deps/uv/src/heap-inl.h:239-241 | exactly the minimum leaves |
| `Heap.RootIsLeast` | deps/uv/src/heap-inl.h:33-35 | no node is less than the root |
| `Heap.MinIsLeast` | deps/uv/src/heap-inl.h:67-69 | `min` is a member that no member is less than |
| `InetText.OneText` | deps/uv/src/inet.c:93-116 | an address has only one text |
| `Inet.LongestZeros` | deps/uv/src/inet.c:93-116 | the longest run of zero words, the first of several, none when it is a single word |
| `Inet.CopyWords` | deps/uv/src/inet.c:90-92 | sixteen bytes as eight big-endian words |
| `Inet.Ntop4` | deps/uv/src/inet.c:53-69 | the dotted text, at most 15 characters, if it fits the size |
| `Inet.FormatWord` | deps/uv/src/inet.c:122-144 | one round of the formatting loop, inside the 46 bytes |
| `Inet.Ntop6` | deps/uv/src/inet.c:72-158 | the one text with the best run compressed, always shorter than 46, or ENOSPC exactly when it does not fit the size |
| `Inet.ParseQuad` | deps/uv/src/inet.c:190-226 | the octet loop accepts what the specification accepts |
| `Inet.ShiftRight` | deps/uv/src/inet.c:298-307 | the bytes behind the double colon move to the end, zeros between |
| `Inet.Pton6Bytes` | deps/uv/src/inet.c:229-313 | the group loop accepts what the specification accepts, with the same bytes |
| `Inet.UvPton6Bytes` | deps/uv/src/inet.c:161-187 | anything from a percent sign on is dropped, too long a prefix refused |
| `Inet.TextClean` | deps/uv/src/inet.c:80 | the text has no percent sign and never exceeds 45 characters |
| `Inet.AddressRoundTrip` | deps/uv/src/inet.c:229-313 | every 16-byte address is parsed back from its text |
| `Inet.ScopedRoundTrip` | deps/uv/src/inet.c:161-187 | also through uv_inet_pton with any scope behind it |
| `InetForms.Pton4Iff` | deps/uv/src/inet.c:190-226 | exactly the dotted quads are accepted: four numbers from 0 to 255 without leading zeros, with dots between them |
| `InetForms.Pton6Iff` | deps/uv/src/inet.c:229-313 | exactly the texts of section 2.2 of RFC 4291 are accepted, with their bytes: groups of one to four hexadecimal digits of either case, at most one double colon for two zero bytes or more, a dotted tail |
| `InetForms.UvPton6Iff` | deps/uv/src/inet.c:161-187 | and those with a scope behind at most 45 characters |
| `InetForms.HexWritten` | deps/uv/src/inet.c:144 | a word is written without capitals and leading zeros |
| `InetForms.DottedWritten` | deps/uv/src/inet.c:53-69 | the dotted quad of the four octets is written |
| `InetForms.ShownIff` | deps/uv/src/inet.c:72-158 | the text written has exactly this form: the first longest run of two zero words or more as a double colon, a dotted tail behind six zero words or behind five and ffff, else groups |
| `InetForms.AddressWritten` | deps/uv/src/inet.c:72-158 | what is written is a text of the address in small letters |
| `InetRoundTrip.HexReads` | deps/uv/src/inet.c:250-258 | a group is read back from its `%x` text |
| `InetRoundTrip.DottedReads` | deps/uv/src/inet.c:190-226 | an IPv4 address is read back from its dotted text |
| `InetRoundTrip.TextParses` | deps/uv/src/inet.c:229-313 | an address is read back whichever of its zero runs was compressed, dotted tails included |
| `Ring.Init` | src/queue.h:40-45 | a node alone is an empty queue |
| `Ring.InsertHead` | src/queue.h:67-74 | the node is prepended |
| `Ring.InsertTail` | src/queue.h:76-83 | the node is appended |
| `Ring.Remove` | src/queue.h:85-90 | the node leaves from wherever it is |
| `Ring.Add` | src/queue.h:47-54 | the second queue is appended to the first, also when either is empty |
| `Ring.Split` | src/queue.h:56-65 | from a node on, the queue becomes the queue of the other head |
| `Ring.EmptyIff` | src/queue.h:34-38 | the head points at itself exactly when the queue is empty, and else at its first node |
| `Ring.SweepRound` | src/tr/uv/tr_uv_tcp_aux.c:571-609 | the first node is unlinked and relinked behind the temporary head unless it expired |
| `Ring.Sweep` | src/tr/uv/tr_uv_tcp_aux.c:563-615 | on the pointers: the queue keeps exactly the unexpired nodes in order, each expired one met once in order |
| `Reconnect.CountBits` | src/tr/uv/tr_uv_tcp_aux.c:172-176 | the loop counts the bits of the factor |
| `Reconnect.Reconnecter.constructor` | src/tr/uv/tr_uv_tcp_i.c:120-294 | no attempt made yet |
| `Reconnect.Reconnecter.Reconn` | src/tr/uv/tr_uv_tcp_aux.c:128-198 | gives up when disabled or past the limit; else the wait is half the base delay plus a random part below it |
| `Reconnect.BelowMaxIff` | src/tr/uv/tr_uv_tcp_aux.c:159-191 | the base delay stays within the maximum on every attempt exactly when the configured delay does |
| `Reconnect.NeverShrinks` | src/tr/uv/tr_uv_tcp_aux.c:159-191 | in both modes it never goes down, and is the maximum from `max_reconn_incr` on |
| `Reconnect.BaseIsCapped` | src/tr/uv/tr_uv_tcp_aux.c:159-191 | which delay every attempt has: the configured one, then as much again or twice as much each time, cut off at the maximum |
| `Reconnect.NeverZeroIff` | src/tr/uv/tr_uv_tcp_aux.c:193 | the divisor of the random part is never zero exactly when both delays are set |
| `Reconnect.WaitsAreLimited` | src/tr/uv/tr_uv_tcp_aux.c:150-157 | a retry limit N allows at most N waits in a row, no limit allows all, disabled none |

## Left out

- PbRoundTrip.RoundTrip: floats and doubles are opaque bytes with a value that survives them and fits an int; rounding is not modelled, and neither is narrowing a double that no float can hold.
- JsonRoundTrip.PrintedParses: numbers are C ints with an equal double, as reading and printing other doubles is `sprintf` and `pow`; the text of other doubles is a parameter. `True` keeps the value field 1 that the parser gives it, and object members have names.
- JsonParser.ReadNumber: numbers are real, so rounding and the infinities of double arithmetic are not modelled.
- JsonParser.ReadString: a `\u` escape without four hexadecimal digits and reading past the terminator are one outcome, Wild, about which nothing is promised.
- JsonParser.ReadValue: the tree is a returned value; the linked child lists it is built of, and the reference flag, are not modelled.
- JsonMinifier.MinifyInPlace: nothing is said of texts the code runs out of, which `JsonMinify.MinifiedIff` determines.
- PbEncoder.PbEncode: searching a schema that is a non-empty array, whose elements have no names, is Undefined, as the code compares a null name; so it is for `PbDecoder.PbDecode`.
- PbSize.SchemasFitIff: schemas with tag numbers of 2^18 and more, a double field with an empty name, a list with an empty name where tag numbers reach 2048, or names of hundreds of millions of characters are left to the exact test `MsgDefault.MessageArrivesIff`.
- PbEncoder.OStream.EncodeSVarint: shifting a negative number left is undefined in C; the method gives it the arithmetic value.
- PbSafety.BufferIsSafeIff: allocation of the announced string length succeeds; schemas with a field that lacks its type or option are excluded.
- MsgHeader.RouteRoundTripIff: an id is taken modulo 2^32, and bits shifted beyond 32 count as lost, which C leaves open.
- MsgCode.DecodeToRaw: messages are shorter than 2^31 bytes.
- MsgDefault.MessageArrivesIff: the route dictionaries are objects.
- LifecycleOrder.HandshakeGoesFirst: a write that uv_write accepted and that fails later counts as gone out.
- LifecycleOutcomes.CallEndsIff: calls after 2^32-2 requests or 2^32 calls, whose numbers come round, are left to `LifecycleOutcomes.CalledBackIff`; when polling, so is a call whose id an earlier unasked response has put into the event queue.
- LifecycleRuns.CalledAtMostOnce: steps are atomic; the separate mutexes of the client's request and notify queues, and callbacks that call the client again inside a step, are not modelled.
- LifecycleCode.ClientQueues.Poll: events about the network state, and the preallocated slots of requests, notifies and events in the client, are left out; entries are values.
- LifecycleCode.TcpTransport.Request: the client state that gates requests is left out, so a request can be made at any time.
- LifecycleCode.TcpTransport.HandshakeResp: what the handshake carries, and a response that is not JSON, are left out.
- ThreadPoolCode.Shared.WorkerTake: the endless loop of a worker is a run of its critical sections; starting and joining threads is left out.
- RbTree.Insert: the comparison looks at a key that does not change while the node is in the tree; RB_AUGMENT, RB_PREV, RB_MINMAX and the splay tree are left out.
- Heap.Insert: the heap holds fewer than 2^32 - 1 nodes, as its path bits need.
- Heap.Remove: the test whether the moved node is the minimum again, which cannot hold there, is dropped.
- Inet.Ntop6: the test for a best run of seven words before the dotted tail cannot hold there and is dropped.
- Reconnect.Reconnecter.Reconn: delays are natural numbers; the overflow of the product in milliseconds is not modelled.
- Sockets, name resolution, timers as real time, logging, and failures of malloc.
- TLS, which rests on OpenSSL.
- The Java, Python and C# bindings, the rest of libuv, and the compression dictionaries' loading.
