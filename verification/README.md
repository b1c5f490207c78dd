# Verified model of the vendored protocol libraries

The keyboard's radio, pairing and shell code stands on five small C libraries that are vendored under
`SDK/external`. This project models what those libraries compute and proves what their callers rely on.

* **nanopb** (`Pb*.dfy`). A protobuf encoder and decoder driven by field descriptors. A C message struct is a
  sequence of slots, one per field, typed by the descriptor; consecutive oneof members share a slot. `PbEncodeSpec`
  gives the bytes of a message, `PbDecodeSpec` the effect of decoding a window of bytes, and the classes `OStream`,
  `IStream` and `FieldIter` do the work in place and are proved against them. The main results: decoding undoes
  encoding for every descriptor and message; the sizing pass and the writing pass never disagree, so encoding into
  a buffer succeeds exactly when the computed size fits; nested windows are never overrun, on malformed input
  either, and bytes outside a window do not matter; unknown records and the order of records do not matter; a
  decode succeeds exactly when every required field has a record; whatever bytes decode can be encoded again, and
  decode to the same content.
* **cifra** (`Cf*.dfy`). Block buffering, CMAC, CBC, CTR and EAX over an arbitrary function on 16-byte blocks, and
  AES. The main results: chunked input refines byte-at-a-time feeding; streaming CMAC in any split is the tag of
  RFC 4493; CTR in any chunking is one xor with a counted key stream, and a second pass in any other chunking restores
  the input; EAX opens what it seals, and a changed header, nonce or ciphertext exactly when its tag is the same;
  AES decryption inverts encryption for every key array and round count, its S-box, column mixing, round constants
  and key expansion being those of FIPS 197 byte by byte.
* **cJSON** (`Json*.dfy`). The recursive-descent parser, the printer that allocates each text exactly, the printer
  that grows one buffer, and the doubly linked child lists. The main results: the texts the parser accepts are exactly
  those of a grammar with all its white space and spellings, and it gives exactly their trees; parsing undoes
  printing; the two printers give the same text and never write outside what they allocated; the list operations are the operations
  on sequences and keep the links consistent.
* **fnmatch** (`Fnmatch*.dfy`). The backtracking matcher with its recursion budget decides the declarative match
  relation, bracket expressions included, and the relation is said again on the characters of the pattern.
* **nrf_fprintf_format** (`Fprintf*.dfy`). Numbers and strings through a flushing buffer: digits, padding, signs.

The methods are proved against functions. The modules named `...Laws`, `PbReencode`, `JsonGrammar` and `JsonLayout`
say what those functions give in terms of bytes, characters, digits and grammar.

`Division.dfy` holds facts about quotients and remainders. `dafny verify dfyconfig.toml` checks everything.

Findings, where the code does less than it seems to promise, each stated with its exact condition:

* `JsonRoundTrip.ReprintIsSame`: without CJSON_DOUBLE_SUPPORT `parse_number` sets `valueint` only, but
  `print_number` looks at `valuedouble` first, so every number that was parsed prints as `0`. Printing what was parsed gives
  the same text exactly when the tree holds no number but zero. `JsonRoundTrip.OneReprintsZero` is the number one.
* `PbIter.AdjacentUnions`: two different unions in a row confuse the field iterator; the second union is found at
  its own address exactly when the first one's `data_offset` cancels its size. `PbIter.SecondUnionMissed` is a
  descriptor of two four-byte unions.
* `CfBitops.MaskIs`: `mask_u8` is the promised comparison of two words exactly when unequal words differ in their
  low byte. `CfBitops.MaskConfuses` are two words it confuses.
* `CfCmac.CmacStream.UnusedIs`: the guard that refuses an empty final chunk lets it through exactly when the message so
  far is a whole multiple of 2^32 bytes, since the byte counter is back at zero; then a padded empty block is added to
  the message. `CfCmac.WrappedEmptyChunk` is a message of 2^32 zero bytes for which the result is not the tag.
* `CfBlockwise.PadAsCommented`: the comment in `blockwise.h` has a padding of three or more bytes end with the first byte
  again; the code ends it with the last byte given. They agree exactly for fewer than three bytes or when those two
  bytes are the same. `CfBlockwise.CmacPadDiffers` is the padding CMAC uses. The code is followed.
* `JsonRoom.FitsExactly`: a quote among the four characters after `\u` ends the string for the loop that counts its
  length and not for the loop that writes it. With no backslash among those characters, the text fits its block
  whatever follows the quote exactly when every `\u` has its four characters before the quote. `JsonRoom.TextOverruns`
  is a text that does not fit.

## Model

| member | source | states |
|---|---|---|
| `PbWire.VarintLength` | SDK/external/nano-pb/pb_encode.c:414-434 | the written varint has the least length whose base-128 range holds the value |
| `PbWire.VarintMax` | SDK/external/nano-pb/pb_encode.c:414-434 | ten bytes are enough for every 64-bit value, five for every 32-bit value |
| `PbWire.VarintRoundTrip` | SDK/external/nano-pb/pb_encode.c:414-434 | the 64-bit decoder gives every value back and consumes exactly the written bytes, whatever follows; below 2^32 so does the 32-bit decoder |
| `PbWire.VarintIsShortest` | SDK/external/nano-pb/pb_encode.c:414-434 | no byte string that decodes to the same value is shorter than the written one |
| `PbWire.DecodersAgree` | SDK/external/nano-pb/pb_decode.c:172-228 | on every input the 32-bit decoder accepts, both decoders stop at the same byte with the same value modulo 2^32 |
| `PbWire.ZigZagRoundTrip` | SDK/external/nano-pb/pb_encode.c:436-445 | the code of v is 2v, or -2v-1 below zero, and decoding gives every signed 64-bit number back |
| `PbWire.LittleEndianRoundTrip` | SDK/external/nano-pb/pb_encode.c:447-471 | little-endian bytes of any width below 256^n read back to the number |
| `PbIter.FieldIter.constructor` | SDK/external/nano-pb/pb_common.c:8-18 | a new iterator stands at the first field with every field of its state a function of the position |
| `PbIter.FieldIter.Begin` | SDK/external/nano-pb/pb_common.c:8-18 | back to the first field; true exactly for a nonempty descriptor |
| `PbIter.FieldIter.Next` | SDK/external/nano-pb/pb_common.c:20-76 | one field on, or back to the first with false at the end; `required_field_index` stays the number of required fields before the position and `pData` a function of the position |
| `PbIter.FieldIter.Find` | SDK/external/nano-pb/pb_common.c:78-95 | the first match in cyclic order after at most one turn, every field looked at once at most; without a match the iterator is where it was |
| `PbIter.FindComplete` | SDK/external/nano-pb/pb_common.c:78-95 | a search from anywhere succeeds exactly when some field with the number is not an extension |
| `PbIter.IteratorFollowsLayout` | SDK/external/nano-pb/pb.h:387-395 | on generated descriptors the running sums of offsets and sizes give each member's address |
| `PbIter.AdjacentUnions` | SDK/external/nano-pb/pb_common.c:44-50 | two different unions in a row: the second is found at its address if and only if the first one's offset cancels its size |
| `PbIter.SecondUnionMissed` | SDK/external/nano-pb/pb_common.c:44-50 | a descriptor of two four-byte unions: the second one is looked for at the address of the first |
| `PbEncode.OStream.constructor` | SDK/external/nano-pb/pb_encode.c:70-85 | a stream over the first `size` bytes of a buffer, nothing written |
| `PbEncode.OStream.Sizing` | SDK/external/nano-pb/pb_encode.h:96-104 | a stream that only counts |
| `PbEncode.OStream.Write` | SDK/external/nano-pb/pb_encode.c:87-105 | appends exactly the bytes or fails with nothing written when they do not fit; a sizing stream counts them; bytes past the capacity stay |
| `PbEncode.OStream.EncodeVarint` | SDK/external/nano-pb/pb_encode.c:414-434 | writes the varint of the value, or fails for want of room |
| `PbEncode.OStream.EncodeTag` | SDK/external/nano-pb/pb_encode.c:473-477 | writes the tag bytes of a wire type and field number |
| `PbEncode.OStream.EncodeString` | SDK/external/nano-pb/pb_encode.c:511-517 | writes a length prefix and the bytes |
| `PbEncode.OStream.EncodeFixed32` | SDK/external/nano-pb/pb_encode.c:447-456 | writes the four little-endian bytes |
| `PbEncode.OStream.EncodeFixed64` | SDK/external/nano-pb/pb_encode.c:458-471 | writes the eight little-endian bytes |
| `PbEncode.OStream.EncodeNumber` | SDK/external/nano-pb/pb_encode.c:571-635 | writes a number as its field type and width have it, and fails exactly for an integer width other than 1, 2, 4 or 8 |
| `PbEncode.OStream.StringLength` | SDK/external/nano-pb/pb_encode.c:656-680 | the length up to the first NUL, never beyond the field |
| `PbEncode.OStream.EncodeItem` | SDK/external/nano-pb/pb_encode.c:637-688 | writes one item of any field type; fails exactly for an item that cannot be encoded or does not fit |
| `PbEncode.OStream.EncodeArray` | SDK/external/nano-pb/pb_encode.c:112-197 | writes an array, packed when its type allows it with a size counted beforehand, tagged item by item otherwise |
| `PbEncode.OStream.PackedSize` | SDK/external/nano-pb/pb_encode.c:131-151 | the counted size is the size of the packed body |
| `PbEncode.OStream.EncodeField` | SDK/external/nano-pb/pb_encode.c:201-269 | writes all records of a field: one if required, at most one if optional or oneof, an array otherwise |
| `PbEncode.OStream.Encode` | SDK/external/nano-pb/pb_encode.c:371-393 | writes the bytes of the whole message; outcome good exactly when the message is encodable and fits, and never a size change |
| `PbEncode.OStream.EncodeSubmessage` | SDK/external/nano-pb/pb_encode.c:519-567 | writes a nested message behind its size; the pass on the inner stream never runs out of room and never writes another size |
| `PbEncode.StepInside` | SDK/external/nano-pb/pb_encode.c:542-564 | a stream limited to exactly the size of what is written into it succeeds, and the parent has moved by that size |
| `PbEncode.GetEncodedSize` | SDK/external/nano-pb/pb_encode.c:400-409 | succeeds exactly for encodable messages and gives the number of bytes of the message |
| `PbEncode.EncodeToBuffer` | SDK/external/nano-pb/pb_encode.c:371-409 | encoding into a buffer succeeds if and only if the computed size is at most its capacity; then the buffer starts with the message; nothing past the capacity is touched |
| `PbBits.SetBit` | SDK/external/nano-pb/pb_decode.c:896-901 | or-ing a bit into a word sets that bit and no other |
| `PbBits.FirstMarkedMeans` | SDK/external/nano-pb/pb_decode.c:912-943 | the final comparison of words and masks is exactly that the first `count` bits are set, unless `count` is 32 |
| `PbBits.TracksAll` | SDK/external/nano-pb/pb_decode.c:912-943 | the bitset comparison succeeds exactly when every required field was seen |
| `PbDecode.IStream.constructor` | SDK/external/nano-pb/pb_decode.c:143-166 | a stream whose unread bytes are the first `size` bytes of the buffer |
| `PbDecode.IStream.ReadByte` | SDK/external/nano-pb/pb_decode.c:125-141 | takes the first unread byte, or fails at the end of the window with nothing moved |
| `PbDecode.IStream.Read` | SDK/external/nano-pb/pb_decode.c:89-121 | takes `count` bytes of the window in order, or fails with nothing moved |
| `PbDecode.IStream.DecodeVarint32` | SDK/external/nano-pb/pb_decode.c:172-206 | the 32-bit varint of the unread bytes, with the position after it, overflow included |
| `PbDecode.IStream.DecodeVarint` | SDK/external/nano-pb/pb_decode.c:208-228 | the 64-bit varint of the unread bytes, with the position after it, overflow included |
| `PbDecode.IStream.SkipVarint` | SDK/external/nano-pb/pb_decode.c:230-239 | moves behind the first byte without a continuation bit |
| `PbDecode.IStream.SkipString` | SDK/external/nano-pb/pb_decode.c:241-248 | moves behind a length-delimited value or fails |
| `PbDecode.IStream.SkipField` | SDK/external/nano-pb/pb_decode.c:276-286 | moves behind a value of its wire type; fails for wire types without one |
| `PbDecode.IStream.DecodeTag` | SDK/external/nano-pb/pb_decode.c:250-274 | wire type and field number, and the end of the message at an empty window or a zero tag |
| `PbDecode.IStream.DecodeSvarint` | SDK/external/nano-pb/pb_decode.c:1103-1115 | the zigzag-decoded varint |
| `PbDecode.IStream.DecodeFixed32` | SDK/external/nano-pb/pb_decode.c:1117-1129 | four bytes read as a little-endian number, or a failure that leaves the stream where it was |
| `PbDecode.IStream.DecodeFixed64` | SDK/external/nano-pb/pb_decode.c:1131-1148 | eight bytes read as a little-endian number, or a failure that leaves the stream where it was |
| `PbDecode.IStream.DecVarint` | SDK/external/nano-pb/pb_decode.c:1150-1185 | a varint cast to the signed width of its field, an error when the cast loses something; either way the stream stands behind the varint |
| `PbDecode.IStream.DecUvarint` | SDK/external/nano-pb/pb_decode.c:1187-1209 | a varint cast to the unsigned width of its field, an error when the cast loses something; either way the stream stands behind the varint |
| `PbDecode.IStream.DecSvarint` | SDK/external/nano-pb/pb_decode.c:1211-1233 | a zigzag varint cast to the width of its field, an error when the cast loses something; either way the stream stands behind the varint |
| `PbDecode.IStream.DecBytes` | SDK/external/nano-pb/pb_decode.c:1247-1282 | a length-delimited byte array that fits its field; on failure the stream stands behind the length, or where the length broke off |
| `PbDecode.IStream.DecString` | SDK/external/nano-pb/pb_decode.c:1284-1317 | a length-delimited string that fits its field together with its NUL; on failure the stream stands behind the length, or where the length broke off |
| `PbDecode.IStream.MakeSubstream` | SDK/external/nano-pb/pb_decode.c:321-334 | the inner stream reads exactly the announced bytes and the parent is left with the rest; refused when the window is shorter, with the parent behind the length |
| `PbDecode.IStream.CloseSubstream` | SDK/external/nano-pb/pb_decode.c:336-343 | the parent goes on where the inner stream stopped, with its own count of bytes, after a failure too |
| `PbDecode.IStream.DecodeSubmessage` | SDK/external/nano-pb/pb_decode.c:1319-1340 | a nested message decoded in its own window, array items starting from defaults; good or bad, the parent goes on where the inner stream stopped |
| `PbDecode.IStream.DecodePacked` | SDK/external/nano-pb/pb_decode.c:367-393 | the items of a packed array up to the end of the window, a bad item or a full array; in every case the parent goes on where the inner stream stopped |
| `PbDecode.IStream.DecodeStaticField` | SDK/external/nano-pb/pb_decode.c:349-420 | the new slot of the field: flag, count or union tag set and the item stored; on failure the position the specification has |
| `PbDecode.IStream.SkipRecord` | SDK/external/nano-pb/pb_decode.c:867-893 | a record without a field is skipped by its wire type; the search for extensions changes nothing the decoder sees |
| `PbDecode.IStream.StoreRecord` | SDK/external/nano-pb/pb_decode.c:896-909 | a record with a field sets its required bit and its slot; on failure the position the specification has |
| `PbDecode.IStream.SkipTurn` | SDK/external/nano-pb/pb_decode.c:865-894 | a turn for a record without a field: what is left to decode has the outcome of the whole, or the whole fails here |
| `PbDecode.IStream.StoreTurn` | SDK/external/nano-pb/pb_decode.c:896-909 | a turn for a record with a field: what is left to decode, with the new message and bitset, has the outcome of the whole, or the whole fails here |
| `PbDecode.IStream.DecodeRecord` | SDK/external/nano-pb/pb_decode.c:851-910 | one turn of the loop: what is left to decode, with the new message and bitset, has the outcome of the whole, or the whole fails at the position reached; a turn consumes input |
| `PbDecode.IStream.DecodeNoInit` | SDK/external/nano-pb/pb_decode.c:840-946 | the outcome, the message and the position of the loop specification, for every input; position and end never leave the window, the end stays when inner windows are used up, and bytes_left is the termination measure |
| `PbDecode.IStream.Decode` | SDK/external/nano-pb/pb_decode.c:948-960 | the same from default values |
| `PbDecode.CheckRequired` | SDK/external/nano-pb/pb_decode.c:912-943 | succeeds if and only if every required field was seen |
| `PbDecode.FindExtensionField` | SDK/external/nano-pb/pb_decode.c:737-748 | stops at the first extension field in cyclic order, and back at its start when there is none |
| `PbDecode.SetFieldToDefault` | SDK/external/nano-pb/pb_decode.c:751-821 | a static field at its default: flags, counts and union tags cleared, single items set |
| `PbDecode.SetToDefaults` | SDK/external/nano-pb/pb_decode.c:823-834 | the whole struct at its defaults, shared oneof storage included |
| `PbDecode.DecodeFromBuffer` | SDK/external/nano-pb/pb_decode.c:948-960 | decoding a buffer has the outcome of the decode specification on its first `size` bytes and on nothing else |
| `PbMoves.LoopMoved` | SDK/external/nano-pb/pb_decode.c:321-343 | for every input, well-formed or not: the position moves forward, position plus bytes_left never passes the end of the window at any depth, and stays at it when the decode succeeds with all inner windows used up |
| `PbMoves.ItemMoved` | SDK/external/nano-pb/pb_decode.c:1319-1340 | the same across one item, nested messages and items that fail to decode included: the parent resumes inside its own window |
| `PbMoves.SlotMoved` | SDK/external/nano-pb/pb_decode.c:349-420 | the same across one field: packed arrays that stop early and full arrays included |
| `PbWindow.LoopReadsWindow` | SDK/external/nano-pb/pb_decode.c:321-343 | bytes behind a window have no influence: outcome, message, bytes used and, on failure, the position reached are the same whatever stands there |
| `PbRoundTrip.NumberRoundTrip` | SDK/external/nano-pb/pb_decode.c:1150-1233 | a number of any field type and width is written and read back unchanged |
| `PbRoundTrip.SignedBack` | SDK/external/nano-pb/pb_decode.c:1150-1185 | a negative number of up to 32 bits survives the 64-bit varint and the int32_t cast |
| `PbRoundTrip.ItemRoundTrip` | SDK/external/nano-pb/pb_decode.c:349-420 | one item of any type, nested messages included, decodes to an item with the same content |
| `PbRoundTrip.PackedField` | SDK/external/nano-pb/pb_decode.c:367-393 | a packed array decodes to the same items |
| `PbRoundTrip.UnpackedField` | SDK/external/nano-pb/pb_decode.c:394-404 | an unpacked array decodes to the same items, record by record |
| `PbRoundTrip.OneofExclusive` | SDK/external/nano-pb/pb_encode.c:254-262 | at most one member of a oneof is present |
| `PbRoundTrip.MessageRoundTrip` | SDK/external/nano-pb/pb_decode.c:840-946 | for every descriptor, a run of oneof fields being one union, and every encodable message with NUL-terminated strings, decoding the written bytes into any memory succeeds, consumes them all and yields the same content, required, optional, repeated, oneof and nested fields alike |
| `PbRecords.RecordThenRest` | SDK/external/nano-pb/pb_decode.c:851-910 | decoding one whole record and then the rest is decoding both together |
| `PbRecords.UnknownRecordPassed` | SDK/external/nano-pb/pb_decode.c:865-894 | from any state of the decoder, inserting a well-formed record of an unknown field anywhere between records leaves outcome, message and unread input unchanged, whether the decode succeeds or not |
| `PbRecords.UnknownRecordIgnored` | SDK/external/nano-pb/pb_decode.c:865-894 | so a whole message decodes the same with and without such a record |
| `PbRecords.RecordsCommute` | SDK/external/nano-pb/pb_decode.c:851-910 | two records of different fields outside a common oneof have the same effect in either order |
| `PbRecords.RecordsSwapped` | SDK/external/nano-pb/pb_decode.c:851-910 | from any state of the decoder, swapping two such adjacent records leaves outcome, message and unread input unchanged |
| `PbRecords.RecordOrderIgnored` | SDK/external/nano-pb/pb_decode.c:851-910 | so a whole message decodes the same with the two records in either order |
| `PbEncodeLaws.VarintByteAt` | SDK/external/nano-pb/pb_encode.c:414-434 | byte k of a varint is the k-th group of seven bits, with 128 added to all but the last |
| `PbEncodeLaws.FixedByteAt` | SDK/external/nano-pb/pb_encode.c:447-471 | byte k of a fixed-width number is its k-th byte, the lowest first |
| `PbEncodeLaws.NumberBytes` | SDK/external/nano-pb/pb_encode.c:571-635 | numbers by field type: the 64-bit word of a signed one, an unsigned one as it is, 2n or -2n-1 for zigzag, four or eight bytes for fixed ones |
| `PbEncodeLaws.SingleRecord` | SDK/external/nano-pb/pb_encode.c:479-509 | a single item that is present: a key of eight times the field number and 0, 1, 2 or 5 by field type, and the value, behind its length for bytes, strings and messages |
| `PbEncodeLaws.PackedRecord` | SDK/external/nano-pb/pb_encode.c:125-167 | an array of numbers is one record: a key with 2, the length of all items, the items |
| `PbEncodeLaws.UnpackedRecords` | SDK/external/nano-pb/pb_encode.c:168-194 | an array of anything else is one record per item, each with its key |
| `PbEncodeLaws.FieldsInOrder` | SDK/external/nano-pb/pb_encode.c:371-393 | the records of a message stand in the order of its fields, and an absent field has none |
| `PbEncodeLaws.ItemUnknown` | SDK/external/nano-pb/pb_encode.c:479-509 | a record the encoder wrote is well-formed for every decoder that does not list its field |
| `PbEncodeLaws.PackedUnknown` | SDK/external/nano-pb/pb_encode.c:125-167 | so is the record of a packed array |
| `PbEncodeLaws.MessageSkipped` | SDK/external/nano-pb/pb_decode.c:276-286 | a descriptor without fields reads every written message to its end |
| `PbDecodeLaws.VarintMeans` | SDK/external/nano-pb/pb_decode.c:172-228 | any varint of at most ten bytes, padded ones too, is the sum of its groups modulo 2^64, and of at most five bytes modulo 2^32 for the 32-bit decoder |
| `PbDecodeLaws.OverlongFails` | SDK/external/nano-pb/pb_decode.c:172-228 | a longer varint is an error behind its tenth byte, or fifth; one that breaks off is an error at the end |
| `PbDecodeLaws.RequiredDecides` | SDK/external/nano-pb/pb_decode.c:912-943 | a message of whole records decodes if and only if every required field has a record with its number, and then to what the records made of the defaults |
| `PbDecodeLaws.ZeroEnds` | SDK/external/nano-pb/pb_decode.c:265-269 | a zero byte where a key is due ends the message, and what follows stays unread |
| `PbDecodeLaws.CutKeyEnds` | SDK/external/nano-pb/pb_decode.c:257-263 | a key that breaks off with the window ends the message without an error |
| `PbDecodeLaws.LongKeyFails` | SDK/external/nano-pb/pb_decode.c:257-263 | a key of more than five bytes is an error |
| `PbDecodeLaws.ZeroNumber` | SDK/external/nano-pb/pb_decode.c:865-894 | a key with field number zero is skipped like an unknown record, but is an error for a message type without fields |
| `PbDecodeLaws.UnreadableFails` | SDK/external/nano-pb/pb_decode.c:276-286 | an unknown record with wire type 3, 4, 6 or 7, or a value that breaks off, is an error |
| `PbDecodeLaws.UnsignedTaken` | SDK/external/nano-pb/pb_decode.c:1187-1209 | an unsigned field of 1, 2, 4 or 8 bytes takes exactly the varints below its range |
| `PbDecodeLaws.SignedTaken` | SDK/external/nano-pb/pb_decode.c:1150-1185 | a signed field takes exactly the varints whose 32-bit word, or 64-bit word for eight bytes, is a number in its range |
| `PbDecodeLaws.ZigZagTaken` | SDK/external/nano-pb/pb_decode.c:1211-1233 | a zigzag field takes exactly the varints whose number, v / 2 or -v / 2 - 1 by parity, is in its range |
| `PbDecodeLaws.BlobTaken` | SDK/external/nano-pb/pb_decode.c:1247-1317 | bytes are taken exactly when they and their two-byte size fit the field, a string when it and its NUL do |
| `PbDecodeLaws.BlobCut` | SDK/external/nano-pb/pb_decode.c:1247-1317 | bytes or a string shorter than announced are an error |
| `PbDecodeLaws.WindowTaken` | SDK/external/nano-pb/pb_decode.c:321-334 | a length opens a window on exactly that many bytes, or none when there are fewer |
| `PbDecodeLaws.FullArrayFails` | SDK/external/nano-pb/pb_decode.c:394-404 | a full array takes no further record |
| `PbDecodeLaws.PackedOverflows` | SDK/external/nano-pb/pb_decode.c:367-393 | a packed array with more items than there is room for is an error |
| `PbDecodeLaws.EmptyMessage` | SDK/external/nano-pb/pb_decode.c:751-834 | the empty message gives every field its default: the declared value or zero, absent, or empty |
| `PbDecodeLaws.ScalarRecord` | SDK/external/nano-pb/pb_decode.c:349-420 | a record is taken exactly when its value is read to its end and an array has room; it replaces a single item and sets its flag or union tag, or goes behind the items of an array |
| `PbDecodeLaws.MessageRecord` | SDK/external/nano-pb/pb_decode.c:1319-1340 | a nested message is decoded into what its field holds already, an array item or union member into defaults, and is taken exactly when its bytes decode to their end |
| `PbDecodeLaws.LastOneStays` | SDK/external/nano-pb/pb_decode.c:349-420 | of two records of one single field that holds no message the second one counts |
| `PbReencode.LoopReady` | SDK/external/nano-pb/pb_decode.c:840-946 | everything present in the memory of a decode is encodable throughout, at every depth, and all of it is when the decode succeeds |
| `PbReencode.DecodedIsEncodable` | SDK/external/nano-pb/pb_decode.c:948-960 | whatever bytes decode, the encoder takes the message, and its strings are terminated |
| `PbReencode.DecodedReencodes` | SDK/external/nano-pb/pb_decode.c:948-960 | and what the encoder writes of it decodes, into any memory, to the same content |
| `CfBlockwise.FeedConcat` | SDK/external/cifra_AES128-EAX/blockwise.c:34-100 | feeding depends on the concatenation of the chunks only |
| `CfBlockwise.FeedLeft` | SDK/external/cifra_AES128-EAX/blockwise.c:34-100 | the number of bytes waiting is the total length modulo the block size |
| `CfBlockwise.FinalOnLastBlock` | SDK/external/cifra_AES128-EAX/blockwise.c:34-100 | the final callback runs once and exactly when input is nonempty and ends with a full block, on that block, after all others |
| `CfBlockwise.FinalIsFeed` | SDK/external/cifra_AES128-EAX/blockwise.c:24-32 | with one callback for all blocks the final form is plain feeding |
| `CfBlockwise.AccumulateFinal` | SDK/external/cifra_AES128-EAX/blockwise.c:34-100 | buffer, fill count and callback state are those of byte-at-a-time feeding with a distinguished last block |
| `CfBlockwise.Accumulate` | SDK/external/cifra_AES128-EAX/blockwise.c:24-32 | buffer, fill count and callback state are those of byte-at-a-time feeding |
| `CfBlockwise.AccByte` | SDK/external/cifra_AES128-EAX/blockwise.c:132-162 | feeding the same byte `nbytes` times, though the buffer is filled once |
| `CfBlockwise.AccPad` | SDK/external/cifra_AES128-EAX/blockwise.c:164-197 | feeding the padding pattern: first byte, middle bytes, last byte, and their overlaps for short paddings |
| `CfBlockwise.PadAsCommented` | SDK/external/cifra_AES128-EAX/blockwise.h:116-129 | the pattern written is the one the header describes if and only if there are fewer than three bytes or the first byte is the last one too |
| `CfBlockwise.CmacPadDiffers` | SDK/external/cifra_AES128-EAX/cifra_cmac.c:138-142 | the padding CMAC asks for, over three bytes, and what the header would have it be |
| `CfBlockwise.KeyConcat` | SDK/external/cifra_AES128-EAX/blockwise.c:102-130 | drawing key bytes in two goes is drawing them in one |
| `CfBlockwise.XorStream` | SDK/external/cifra_AES128-EAX/blockwise.c:102-130 | the output is the input xored with the next key bytes and the unused ones stay buffered, in place or not |
| `CfBitops.MaskIs` | SDK/external/cifra_AES128-EAX/bitops.h:163-169 | `mask_u8` compares low bytes; it compares whole words if and only if unequal words differ in their low byte |
| `CfBitops.SelectU8` | SDK/external/cifra_AES128-EAX/bitops.h:188-199 | the masked scan is a table lookup by the low byte of the index, nought past the table |
| `CfBitops.SelectU8x4` | SDK/external/cifra_AES128-EAX/bitops.h:203-226 | one masked scan is four table lookups |
| `CfBitops.IncrBe` | SDK/external/cifra_AES128-EAX/bitops.h:260-271 | the first `len` bytes are incremented, the others stay |
| `CfBitops.IncrementedAddsOne` | SDK/external/cifra_AES128-EAX/bitops.h:260-271 | the increment is addition of one to the big-endian number modulo 256^n |
| `CfWords.WordRoundTrip` | SDK/external/cifra_AES128-EAX/bitops.h:52-94 | reading back a written big-endian word gives the word |
| `CfModes.Cbc.Encrypt` | SDK/external/cifra_AES128-EAX/modes.c:31-44 | writes the chained blocks and keeps the last one for the next call |
| `CfModes.Cbc.Decrypt` | SDK/external/cifra_AES128-EAX/modes.c:46-59 | writes the unchained blocks and keeps the last ciphertext block |
| `CfModes.CbcRoundTrip` | SDK/external/cifra_AES128-EAX/modes.c:31-59 | for every inverse pair of block functions decryption gives the input of encryption back |
| `CfModes.CounterAdds` | SDK/external/cifra_AES128-EAX/modes.c:80-85 | the i-th counter block is the nonce plus i modulo 2^128 as a big-endian number |
| `CfModes.TapRun` | SDK/external/cifra_AES128-EAX/modes.c:80-94 | the buffered key source gives the bytes of E(n), E(n+1), ... in order, however many are drawn at a time |
| `CfModes.Ctr.Cipher` | SDK/external/cifra_AES128-EAX/modes.c:87-94 | each call xors with the key bytes that follow those already drawn, so any chunking equals one pass; in place or not |
| `CfModes.Ctr.DiscardBlock` | SDK/external/cifra_AES128-EAX/modes.c:96-99 | the position rounds up to the next whole block |
| `CfModes.CtrTwice` | SDK/external/cifra_AES128-EAX/modes.c:87-94 | the one-shot key stream applied twice restores the input |
| `CfModes.CtrNext` | SDK/external/cifra_AES128-EAX/modes.c:87-94 | a chunk ciphered behind what was ciphered before is the one-shot cipher of both |
| `CfModes.CipherChunks` | SDK/external/cifra_AES128-EAX/modes.c:87-94 | any list of chunks gives the one-shot cipher of their concatenation |
| `CfModes.CipherTwice` | SDK/external/cifra_AES128-EAX/modes.c:62-94 | two contexts from the same nonce, each with chunks of its own, restore the input |
| `CfGf128.DoubleWords` | SDK/external/cifra_AES128-EAX/gf128.c:38-54 | all four words are shifted with their borrows and the reduction is folded in, into the same array or another |
| `CfGf128.DoubledBlock` | SDK/external/cifra_AES128-EAX/gf128.c:21-54 | on block bytes this is the doubling of section 2.3 of RFC 4493 |
| `CfCmac.CmacStream.constructor` | SDK/external/cifra_AES128-EAX/cifra_cmac.c:25-63 | a fresh stream with the empty message, subkeys 2L and 4L |
| `CfCmac.CmacStream.Reset` | SDK/external/cifra_AES128-EAX/cifra_cmac.c:65-73 | from any state, finalised or not, back to the empty message |
| `CfCmac.CmacStream.Update` | SDK/external/cifra_AES128-EAX/cifra_cmac.c:108-143 | the message grows by the chunk |
| `CfCmac.CmacStream.UpdateFinal` | SDK/external/cifra_AES128-EAX/cifra_cmac.c:108-143 | the state is the CMAC of the whole message when the last chunk is nonempty or nothing was sent, and the stated other value when an empty last chunk gets through after a message |
| `CfCmac.CmacStream.UnusedIs` | SDK/external/cifra_AES128-EAX/cifra_cmac.c:114-121 | the guard on an empty last chunk passes if and only if the message so far is a whole multiple of 2^32 bytes |
| `CfCmac.WrappedEmptyChunk` | SDK/external/cifra_AES128-EAX/cifra_cmac.c:114-121 | 2^32 zero bytes under the identity cipher: the guard passes and the result is not the tag |
| `CfCmac.WholeEnd` | SDK/external/cifra_AES128-EAX/cifra_cmac.c:83-106 | a message that ends a block: the last block meets 2L and the result is the tag |
| `CfCmac.PaddedEnd` | SDK/external/cifra_AES128-EAX/cifra_cmac.c:83-106 | otherwise the rest is padded with a one bit and zeros and meets 4L, in one final block |
| `CfCmac.PaddedIsCmac` | SDK/external/cifra_AES128-EAX/cifra_cmac.c:108-143 | which is the tag when the message is empty or ends inside a block |
| `CfCmac.Sign` | SDK/external/cifra_AES128-EAX/cifra_cmac.c:50-57 | the one-shot call gives the tag of section 2.4 of RFC 4493 |
| `CfCmac.SignChunks` | SDK/external/cifra_AES128-EAX/cifra_cmac.c:108-149 | every split whose last chunk is nonempty, or of an empty message, gives the same tag |
| `CfEax.ComputeN` | SDK/external/cifra_AES128-EAX/eax.c:21-43 | the CMAC of the tweak block and the input, on a reused stream |
| `CfEax.CombineTag` | SDK/external/cifra_AES128-EAX/eax.c:73-77 | the first `ntag` bytes of NN xor CC xor HH, nothing else written |
| `CfEax.Encrypt` | SDK/external/cifra_AES128-EAX/eax.c:45-78 | ciphertext and tag are those of EAX; the plaintext may be encrypted in place |
| `CfEax.MemEq` | SDK/external/cifra_AES128-EAX/handy.h:70-85 | the comparison without early exit is equality |
| `CfEax.Decrypt` | SDK/external/cifra_AES128-EAX/eax.c:80-115 | 0 exactly when the tag is the recomputed prefix, with the plaintext written; otherwise 1 with the output untouched |
| `CfEax.SealedOpens` | SDK/external/cifra_AES128-EAX/eax.c:45-115 | for every cipher, nonce, header, message and tag length, what was sealed opens to the message |
| `CfModeLaws.IncrementCarries` | SDK/external/cifra_AES128-EAX/bitops.h:260-271 | an increment goes into the byte before the trailing 0xFF bytes, which become zero |
| `CfModeLaws.IncrementWraps` | SDK/external/cifra_AES128-EAX/bitops.h:260-271 | all bytes 0xFF become zero |
| `CfModeLaws.CtrByteIs` | SDK/external/cifra_AES128-EAX/modes.c:80-94 | byte i of the output is byte i of the input xor byte i mod 16 of the cipher of the block whose number is the nonce plus i div 16, modulo 2^128 |
| `CfModeLaws.CbcBlockIs` | SDK/external/cifra_AES128-EAX/modes.c:31-44 | each cipher block is the cipher of its plain block xor the cipher block before it, or the initial one |
| `CfModeLaws.DoubleIsTwice` | SDK/external/cifra_AES128-EAX/gf128.c:38-54 | the doubled block is twice the number; when a bit is lost, the last byte xor 0x87 makes it twice the number less 2^128 |
| `CfModeLaws.CmacShort` | SDK/external/cifra_AES128-EAX/cifra_cmac.c:83-106 | the tag of at most one block: the cipher of the block xor 2L, or of the block padded with 0x80 and zeros xor 4L |
| `CfModeLaws.CmacFolds` | SDK/external/cifra_AES128-EAX/cifra_cmac.c:75-81 | the cipher of a first block is xored into the next one when that one is whole |
| `CfModeLaws.CmacPartial` | SDK/external/cifra_AES128-EAX/cifra_cmac.c:83-106 | a block cut short behind a first one is padded, meets 4L and the cipher of the first one |
| `CfModeLaws.SealedIs` | SDK/external/cifra_AES128-EAX/eax.c:45-78 | the ciphertext is the message in counter mode from the tag of the nonce; the tag is the xor of the tags of nonce, header and ciphertext behind fifteen zero bytes and 0, 1 and 2 |
| `CfModeLaws.HeaderBound` | SDK/external/cifra_AES128-EAX/eax.c:97-109 | what was sealed under one header opens under another if and only if the two have the same tag in the bytes that are kept |
| `CfModeLaws.CipherBound` | SDK/external/cifra_AES128-EAX/eax.c:100-109 | the same for a changed ciphertext of any length |
| `CfModeLaws.NonceBound` | SDK/external/cifra_AES128-EAX/eax.c:94-109 | the same for another nonce |
| `CfModeLaws.OpenedIs` | SDK/external/cifra_AES128-EAX/eax.c:111-114 | what opens is the ciphertext in counter mode from the tag of the nonce |
| `CfAes.SboxInverse` | SDK/external/cifra_AES128-EAX/cifra_eax_aes.c:279-301 | S_inv undoes S on every byte |
| `CfAes.SboxInverseBack` | SDK/external/cifra_AES128-EAX/cifra_eax_aes.c:279-301 | S undoes S_inv on every byte |
| `CfAes.SboxIsFips` | SDK/external/cifra_AES128-EAX/cifra_eax_aes.c:23-45 | every entry of S is the affine image of the field inverse, as section 5.1.1 of FIPS 197 defines it |
| `CfAes.XtimeIsTwo` | SDK/external/cifra_AES128-EAX/cifra_eax_aes.c:219-224 | the doubling of a byte is the field product with {02} |
| `CfAes.SubWord` | SDK/external/cifra_AES128-EAX/cifra_eax_aes.c:88-103 | the masked scan of the table is plain lookup in each byte |
| `CfAes.MixColumnIsFips` | SDK/external/cifra_AES128-EAX/cifra_eax_aes.c:219-230 | the word form of mix_column is the column product of section 5.1.3 of FIPS 197 |
| `CfAes.MixInverse` | SDK/external/cifra_AES128-EAX/cifra_eax_aes.c:341-350 | inv_mix_column undoes mix_column on every word |
| `CfAes.ShiftRowsInverse` | SDK/external/cifra_AES128-EAX/cifra_eax_aes.c:311-339 | inv_shift_rows undoes shift_rows |
| `CfAes.SubBlockInverse` | SDK/external/cifra_AES128-EAX/cifra_eax_aes.c:303-309 | inv_sub_block undoes sub_block |
| `CfAes.RoundBack` | SDK/external/cifra_AES128-EAX/cifra_eax_aes.c:360-396 | one decryption round undoes the encryption round with the same key |
| `CfAes.CipherInverse` | SDK/external/cifra_AES128-EAX/cifra_eax_aes.c:360-396 | decryption inverts encryption on every block, for every array of round keys and every number of rounds |
| `CfAesContext.RconIsPower` | SDK/external/cifra_AES128-EAX/cifra_eax_aes.c:47-69 | the table of round constants holds the powers of x |
| `CfAesContext.AddRoundKey` | SDK/external/cifra_AES128-EAX/cifra_eax_aes.c:173-179 | the state words xored with the round key, in place |
| `CfAesContext.SubBlockInPlace` | SDK/external/cifra_AES128-EAX/cifra_eax_aes.c:181-187 | the S-box on all bytes, in place |
| `CfAesContext.ShiftRowsInPlace` | SDK/external/cifra_AES128-EAX/cifra_eax_aes.c:189-217 | the masked words are the shifted rows, in place |
| `CfAesContext.MixColumnsInPlace` | SDK/external/cifra_AES128-EAX/cifra_eax_aes.c:232-238 | all columns mixed, in place |
| `CfAesContext.InvSubBlockInPlace` | SDK/external/cifra_AES128-EAX/cifra_eax_aes.c:303-309 | the inverse S-box on all bytes, in place |
| `CfAesContext.InvShiftRowsInPlace` | SDK/external/cifra_AES128-EAX/cifra_eax_aes.c:311-339 | rows shifted back, in place |
| `CfAesContext.InvMixColumnsInPlace` | SDK/external/cifra_AES128-EAX/cifra_eax_aes.c:352-358 | all columns unmixed, in place |
| `CfAesContext.NextWord` | SDK/external/cifra_AES128-EAX/cifra_eax_aes.c:119-138 | the running counters are quotient and remainder of the word index by the key length, and the word is that of the expansion |
| `CfAesContext.AesContext.constructor` | SDK/external/cifra_AES128-EAX/cifra_eax_aes.c:141-171 | for 16, 24 and 32 byte keys, 10, 12 and 14 rounds and the expanded key |
| `CfAesContext.AesContext.Schedule` | SDK/external/cifra_AES128-EAX/cifra_eax_aes.c:105-139 | all words are those of section 5.2 of FIPS 197 |
| `CfAesContext.AesContext.Encrypt` | SDK/external/cifra_AES128-EAX/cifra_eax_aes.c:240-276 | the cipher of section 5.1 of FIPS 197 on the block bytes, in place or not |
| `CfAesContext.AesContext.Decrypt` | SDK/external/cifra_AES128-EAX/cifra_eax_aes.c:360-396 | the inverse cipher of section 5.3 of FIPS 197 on the block bytes, in place or not |
| `CfAesContext.AesInverse` | SDK/external/cifra_AES128-EAX/cifra_eax_aes.c:240-396 | on block bytes decryption inverts encryption, so the modes may use it as an inverse pair |
| `CfAesLaws.ExpansionStarts` | SDK/external/cifra_AES128-EAX/cifra_eax_aes.c:113-117 | the bytes of the first words are those of the key |
| `CfAesLaws.ExpansionTurns` | SDK/external/cifra_AES128-EAX/cifra_eax_aes.c:122-138 | a word whose number is a multiple of the key length: byte k is byte k of the word a key length before, xor S of byte (k + 1) mod 4 of the word before, xor the round constant in byte 0 |
| `CfAesLaws.ExpansionHalfway` | SDK/external/cifra_AES128-EAX/cifra_eax_aes.c:132-137 | with keys of eight words, every eighth word from the fourth on: S without rotation and constant |
| `CfAesLaws.ExpansionPlain` | SDK/external/cifra_AES128-EAX/cifra_eax_aes.c:132-137 | every other word is the xor of the two before it |
| `CfAesLaws.RoundPowersAre` | SDK/external/cifra_AES128-EAX/cifra_eax_aes.c:47-50 | the ten round constants |
| `CfAesLaws.FirstExpandedWords` | SDK/external/cifra_AES128-EAX/cifra_eax_aes.c:105-139 | the first word computed from each of the three keys in appendix A of FIPS 197 |
| `CfAesLaws.AddKeyByte` | SDK/external/cifra_AES128-EAX/cifra_eax_aes.c:173-179 | every byte of the block is xored with its byte of the round key |
| `CfAesLaws.SubBlockByte` | SDK/external/cifra_AES128-EAX/cifra_eax_aes.c:181-187 | S is applied to every byte of the block |
| `CfAesLaws.ShiftRowsByte` | SDK/external/cifra_AES128-EAX/cifra_eax_aes.c:189-217 | byte 4c + r of the block comes from column c + r mod 4: row r moves r columns to the left |
| `CfAesLaws.MixColumnsByte` | SDK/external/cifra_AES128-EAX/cifra_eax_aes.c:219-238 | {02} times a byte, {03} times the next one of its column, and the other two, in the field |
| `CfAesLaws.OneRound` | SDK/external/cifra_AES128-EAX/cifra_eax_aes.c:240-276 | the last round: bytes, rows, key, with no mixing |
| `CfAesLaws.MoreRounds` | SDK/external/cifra_AES128-EAX/cifra_eax_aes.c:240-276 | any other: the first key, bytes, rows, columns, and then the cipher with the keys that follow |
| `JsonParse.ParseNumberAt` | SDK/external/cJSON/cJSON.c:122-135 | the integer of the digits, one leading zero skipped, and the position behind them |
| `JsonParse.ParseUnicodeAt` | SDK/external/cJSON/cJSON.c:237-259 | a code unit or surrogate pair as UTF-8 bytes, nothing for an invalid one |
| `JsonParse.ParseStringAt` | SDK/external/cJSON/cJSON.c:213-270 | the unescaped text up to the closing quote, which with its NUL fits the allocated block when every escape is whole |
| `JsonRoom.CountRoom` | SDK/external/cJSON/cJSON.c:218-220 | the first loop counts characters up to the quote, an escape as one |
| `JsonRoom.TextFits` | SDK/external/cJSON/cJSON.c:218-265 | when every escape is whole, both loops stop at the same quote and the text is no longer than what was counted |
| `JsonRoom.FitsExactly` | SDK/external/cJSON/cJSON.c:218-265 | of a body without quote or backslash among the characters of a `\u`, the text fits its block whatever follows the quote if and only if every `\u` has its four characters before the quote |
| `JsonRoom.TextOverruns` | SDK/external/cJSON/cJSON.c:218-265 | a quote among the four characters after `\u`: one character was counted and five are written |
| `JsonRoom.PrintedSound` | SDK/external/cJSON/cJSON.c:273-338 | what print_string_ptr wrote always has whole escapes, and its text fits when it is parsed |
| `JsonParse.ParseValueAt` | SDK/external/cJSON/cJSON.c:387-399 | the value at a position and where it ends, or failure, as the recursive specification on the rest of the text has it |
| `JsonParse.ParseArrayAt` | SDK/external/cJSON/cJSON.c:436-462 | the loop over the commas gives the items of the recursive specification |
| `JsonParse.ParseObjectAt` | SDK/external/cJSON/cJSON.c:545-579 | the same for members, each with its name |
| `JsonParse.ParseWithOpts` | SDK/external/cJSON/cJSON.c:354-368 | the tree and its end, with or without the demand that only space follows |
| `JsonRoundTrip.RoundTrip` | SDK/external/cJSON/cJSON.c:387-579 | for every tree of null, booleans, ints, NUL-free strings, arrays and objects, formatted or not, the printed text parses to the same tree and nothing is left |
| `JsonRoundTrip.CharsBack` | SDK/external/cJSON/cJSON.c:273-338 | every escape print_string_ptr writes is read back to its character |
| `JsonRoundTrip.NumberBack` | SDK/external/cJSON/cJSON.c:122-135 | every int but the most negative is read back from its decimal text |
| `JsonRoundTrip.Utf8Back` | SDK/external/cJSON/cJSON.c:250-258 | the bytes written for a code point are its UTF-8 form, in the fewest bytes |
| `JsonRoundTrip.PointBack` | SDK/external/cJSON/cJSON.c:237-259 | every code point but zero and the surrogates, escaped as one unit or as a surrogate pair, comes back as its UTF-8 bytes |
| `JsonRoundTrip.ParsedNumberPrintsZero` | SDK/external/cJSON/cJSON.c:122-175 | a number that was parsed prints as zero, so as it was parsed if and only if it is zero |
| `JsonRoundTrip.ReprintIsSame` | SDK/external/cJSON/cJSON.c:122-175 | printing what was parsed from a printed tree gives the same text if and only if all its numbers are zero |
| `JsonRoundTrip.OneReprintsZero` | SDK/external/cJSON/cJSON.c:122-175 | the number one, printed and parsed, prints as zero |
| `JsonPrint.QuotedLength` | SDK/external/cJSON/cJSON.c:277-309 | the counted length is that of the escaped text, and no flag means nothing to escape |
| `JsonPrint.WriteQuoted` | SDK/external/cJSON/cJSON.c:279-337 | the quoted text and its NUL, exactly `len` + 3 bytes, nothing else written |
| `JsonPrint.PrintNumber` | SDK/external/cJSON/cJSON.c:168-196 | the decimal text, which 21 bytes are enough for |
| `JsonPrint.PrintString` | SDK/external/cJSON/cJSON.c:273-340 | the quoted text from a block of exactly its size |
| `JsonPrint.PrintValue` | SDK/external/cJSON/cJSON.c:402-433 | the text of any tree at any depth |
| `JsonPrint.ItemsFit` | SDK/external/cJSON/cJSON.c:506-517 | the composed items always fit the length added up for them |
| `JsonPrint.ComposeArray` | SDK/external/cJSON/cJSON.c:529-539 | the composed text of an array, written within the computed length |
| `JsonPrint.MembersFit` | SDK/external/cJSON/cJSON.c:650-661 | the composed members always fit the length added up for them |
| `JsonPrint.ComposeObject` | SDK/external/cJSON/cJSON.c:672-687 | the composed text of an object, written within the computed length |
| `JsonPrint.PrintAllocated` | SDK/external/cJSON/cJSON.c:373-374 | the text of the whole tree, formatted or not |
| `JsonBuffer.SmearedIsPower` | SDK/external/cJSON/cJSON.c:138-138 | the bit smearing gives a power of two that is at least `x` and below twice `x` |
| `JsonBuffer.SmearedIsDoubled` | SDK/external/cJSON/cJSON.c:138-138 | the smeared word and one is, as a number, the least power of two above the word |
| `JsonBuffer.Pow2Gt` | SDK/external/cJSON/cJSON.c:138-138 | the least power of two that is at least the size asked for |
| `JsonBuffer.PrintBuffer.Ensure` | SDK/external/cJSON/cJSON.c:142-157 | afterwards offset plus needed is within the length, and the old bytes are kept |
| `JsonBuffer.PrintBuffer.Update` | SDK/external/cJSON/cJSON.c:159-165 | the offset moves to the NUL that ends the text |
| `JsonBuffer.PrintBuffer.PrintInto` | SDK/external/cJSON/cJSON.c:402-433 | the text of the tree stands behind what was printed before, whatever size the buffer had |
| `JsonBuffer.PrintBuffer.PrintArrayInto` | SDK/external/cJSON/cJSON.c:484-499 | the text of an array behind what was printed before |
| `JsonBuffer.PrintBuffer.PrintObjectInto` | SDK/external/cJSON/cJSON.c:602-639 | the text of an object behind what was printed before |
| `JsonBuffer.PrintBuffered` | SDK/external/cJSON/cJSON.c:376-383 | the text of the tree for every initial size |
| `JsonBuffer.PrintersAgree` | SDK/external/cJSON/cJSON.c:373-383 | for every tree, format and initial size both printers give the same text |
| `JsonList.Item.constructor` | SDK/external/cJSON/cJSON.c:76-81 | an unlinked item without children |
| `JsonList.Item.GetArraySize` | SDK/external/cJSON/cJSON.c:693-693 | the number of children |
| `JsonList.Item.Walk` | SDK/external/cJSON/cJSON.c:694-694 | the child with the given number, the first one for a negative number, null past the end |
| `JsonList.Item.AddItem` | SDK/external/cJSON/cJSON.c:703-703 | the children with the item appended, links consistent |
| `JsonList.Item.DetachItem` | SDK/external/cJSON/cJSON.c:709-710 | the child with the given number, unlinked, and the children without it; nothing changes past the end |
| `JsonList.Item.InsertItem` | SDK/external/cJSON/cJSON.c:716-717 | the children with the item at the given place, at the end past it |
| `JsonList.Item.ReplaceItem` | SDK/external/cJSON/cJSON.c:718-720 | the children with one of them replaced and the old one unlinked; nothing changes past the end |
| `JsonGrammar.AcceptsTexts` | SDK/external/cJSON/cJSON.c:354-368 | every text of the grammar, with white space wherever it may stand and any spelling of numbers and escapes, parses to the tree it stands for |
| `JsonGrammar.AcceptsNothingElse` | SDK/external/cJSON/cJSON.c:354-368 | every text that parses is one of the grammar, and the result is its tree |
| `JsonGrammar.TextParses` | SDK/external/cJSON/cJSON.c:387-399 | the same for a value at any depth: it stops where its text ends, whatever may follow |
| `JsonGrammar.ParsedIsText` | SDK/external/cJSON/cJSON.c:387-399 | and whatever a value was parsed from is a text of the grammar, and what is left may follow it |
| `JsonGrammar.BodyRead` | SDK/external/cJSON/cJSON.c:213-270 | a string of characters, escapes, code units in any spelling and surrogate pairs reads as what its pieces stand for, up to the quote or the end of the text |
| `JsonGrammar.BodyFound` | SDK/external/cJSON/cJSON.c:213-270 | every string that is read consists of such pieces |
| `JsonGrammar.CaseIgnored` | SDK/external/cJSON/cJSON.c:198-209 | the case of the hexadecimal digits does not matter |
| `JsonGrammar.SpelledPointBack` | SDK/external/cJSON/cJSON.c:237-259 | every code point but zero and the surrogates comes back as its UTF-8 bytes from every spelling of its escape |
| `JsonGrammar.NumberRead` | SDK/external/cJSON/cJSON.c:122-135 | a sign, one zero and digits, each of which may be missing, are the number of the digits as an int |
| `JsonGrammar.NumberFound` | SDK/external/cJSON/cJSON.c:122-135 | every number that is read is spelled so, and nothing that would prolong it follows |
| `JsonLayout.EscapeIs` | SDK/external/cJSON/cJSON.c:320-335 | the escape of every character |
| `JsonLayout.QuoteGrows` | SDK/external/cJSON/cJSON.c:316-337 | a quoted text with one character more has its escape before the closing quote |
| `JsonLayout.DecimalGrows` | SDK/external/cJSON/cJSON.c:168-182 | a decimal number with one digit more, and the minus of a negative one |
| `JsonLayout.ArrayGrows` | SDK/external/cJSON/cJSON.c:464-542 | an array with one item more has a comma, a space if formatted, and the item before its bracket |
| `JsonLayout.ObjectGrows` | SDK/external/cJSON/cJSON.c:581-690 | an object with one member more has a comma and the member before its brace; formatted, on a line of its own, one tab deeper than the brace, with a tab behind the colon |
| `Fnmatch.RangeMatch` | SDK/external/fnmatch/fnmatch.c:56-99 | whether the character is in the bracket's ranges, negated or not, and where the bracket ends; an error for an open bracket |
| `Fnmatch.CollapseStars` | SDK/external/fnmatch/fnmatch.c:132-136 | a run of stars matches what one star matches |
| `Fnmatch.TrailingStar` | SDK/external/fnmatch/fnmatch.c:143-150 | a star that ends the pattern matches everything, but no slash with FNM_PATHNAME |
| `Fnmatch.StarBeforeSlash` | SDK/external/fnmatch/fnmatch.c:151-155 | with FNM_PATHNAME a star before a slash takes exactly the characters before the next slash |
| `Fnmatch.NoPlace` | SDK/external/fnmatch/fnmatch.c:157-171 | the places the recursive case tries are all that matter |
| `Fnmatch.MatchAt` | SDK/external/fnmatch/fnmatch.c:102-202 | whatever the budget, 0 only for a match and FNM_NOMATCH only for none; FNM_NORES needs as many runs of stars as the budget |
| `Fnmatch.Match` | SDK/external/fnmatch/fnmatch.c:204-207 | with at most 63 runs of stars never FNM_NORES, and 0 if and only if the declarative relation holds |
| `FnmatchLaws.PlainMatchesItself` | SDK/external/fnmatch/fnmatch.c:187-198 | a pattern without special characters matches itself and nothing else, under all flags |
| `FnmatchLaws.EscapedMatchesItself` | SDK/external/fnmatch/fnmatch.c:187-198 | with every character escaped any text is a pattern for itself and nothing else |
| `FnmatchLaws.QuestionTakes` | SDK/external/fnmatch/fnmatch.c:121-131 | a question mark takes one character, with FNM_PATHNAME no slash |
| `FnmatchLaws.StarTakesRun` | SDK/external/fnmatch/fnmatch.c:132-171 | a star takes any run of characters, with FNM_PATHNAME without slash |
| `FnmatchLaws.StarTook` | SDK/external/fnmatch/fnmatch.c:132-171 | and nothing else: what matches splits into such a run and a match of the rest |
| `FnmatchLaws.ClassTakes` | SDK/external/fnmatch/fnmatch.c:56-99 | a closed bracket of characters and ranges, escaped or not, takes exactly one character that a part holds, or that none does after `!` or `^`; with FNM_PATHNAME no slash |
| `FnmatchLaws.OpenBracketFails` | SDK/external/fnmatch/fnmatch.c:56-99 | a bracket that is never closed matches nothing |
| `FnmatchLaws.SlashedBracketTakes` | SDK/external/fnmatch/fnmatch.c:77-80 | a bracket cut short by a slash takes an opening bracket, and the pattern goes on behind it |
| `FnmatchLaws.ProperUnlessBackslash` | SDK/external/fnmatch/fnmatch.c:187-193 | only a pattern that ends with a backslash can lead past its end |
| `FnmatchLaws.RunsAtMostStars` | SDK/external/fnmatch/fnmatch.c:112-113 | the recursion budget that is needed is at most the number of stars no other star follows |
| `Fprintf.Context.Flush` | SDK/external/fprintf/nrf_fprintf_format.c:93-107 | what was buffered is written and the buffer is empty |
| `Fprintf.Context.Add` | SDK/external/fprintf/nrf_fprintf_format.c:93-107 | the printed text grows by the character, with a carriage return before a line feed if asked for; the buffer never overflows and its size does not show |
| `Fprintf.Context.ActualWidth` | SDK/external/fprintf/nrf_fprintf_format.c:172-181 | the larger of the precision and the least number of digits |
| `Fprintf.Context.HighestWeight` | SDK/external/fprintf/nrf_fprintf_format.c:206-232 | the weight of the highest digit to print, without overflow |
| `Fprintf.Context.OutputDigits` | SDK/external/fprintf/nrf_fprintf_format.c:236-242 | the digits of the value, highest first |
| `Fprintf.Context.UnsignedPrint` | SDK/external/fprintf/nrf_fprintf_format.c:154-257 | the printed text grows by digits and padding as flags, precision and field width have it |
| `Fprintf.Context.IntPrint` | SDK/external/fprintf/nrf_fprintf_format.c:259-339 | the same with the sign before zeros and behind spaces |
| `Fprintf.Context.StringPrint` | SDK/external/fprintf/nrf_fprintf_format.c:109-152 | the string and the padding on its left or right |
| `Fprintf.CountIsLeast` | SDK/external/fprintf/nrf_fprintf_format.c:172-177 | the counting loop finds the least number of digits that holds the value |
| `Fprintf.DigitsReadBack` | SDK/external/fprintf/nrf_fprintf_format.c:236-242 | printed digits read back to the value, in every base from 2 to 16 |
| `Fprintf.BodyReadsBack` | SDK/external/fprintf/nrf_fprintf_format.c:154-257 | so does what the precision extends, and it has the larger of precision and digit count as length |
| `Fprintf.ZerosReadAway` | SDK/external/fprintf/nrf_fprintf_format.c:183-204 | zeros used as padding do not change the number that is read |
| `Fprintf.TotalLength` | SDK/external/fprintf/nrf_fprintf_format.c:154-339 | the total length is the larger of the field width and sign plus digits |
| `Fprintf.PrecisionFits` | SDK/external/fprintf/nrf_fprintf_format.c:206-232 | the weight stays within 32 bits if and only if the precision is at most ten decimal or eight hexadecimal digits |
| `FprintfLaws.DigitsAre` | SDK/external/fprintf/nrf_fprintf_format.c:236-242 | the characters printed are digits below the base, 0 to 9 and A to F, and the number they write is the value |
| `FprintfLaws.BodyIs` | SDK/external/fprintf/nrf_fprintf_format.c:154-257 | as many digits as the precision asks for, more only when the value needs them, and then no leading zero |
| `FprintfLaws.UnsignedLayout` | SDK/external/fprintf/nrf_fprintf_format.c:154-257 | digits and fill: spaces behind if left-justified, zeros in front if asked for and no precision is given, spaces in front otherwise, up to the field width |
| `FprintfLaws.IntLayout` | SDK/external/fprintf/nrf_fprintf_format.c:259-339 | the same with the sign, which stands behind spaces and before zeros |
| `FprintfLaws.ExpandedIs` | SDK/external/fprintf/nrf_fprintf_format.c:93-107 | a line feed gets its carriage return in front if asked for; everything else is printed as it is |

## Left out

General

- int, size_t and pointer arithmetic is unbounded except where a width is written out (varint words, casts to field widths, the CMAC byte counter, int overflow while parsing, the weight of a digit).
- The C preconditions that end in abort() or undefined behaviour are preconditions of the members: aligned buffers, nonzero block sizes, key lengths 16, 24 and 32, tag lengths up to 16.
- Function pointers are functions from old state to new state, passed as arguments.

nanopb

- Struct memory is a value per field instead of addressed bytes; only the storage shared by a oneof is modelled. The iterator's addresses are computed but not dereferenced.
- Adjacent different unions, whose members the iterator places wrongly: `PbIter.AdjacentUnions` gives the exact condition, and the decoder is modelled for layouts the iterator follows.
- PbBits.FirstMarkedMeans: 32 required fields, where the final check shifts by 32 bits, and 64 or more, where it reads a third word, are excluded; so they are in every descriptor.
- Pointer fields, callback fields and extensions, PB_ENABLE_MALLOC, custom stream callbacks, error strings, pb_encode_delimited and pb_decode_delimited.
- A message left half decoded by a failed decode.
- PbRoundTrip.MessageRoundTrip: a run of oneof fields is one union, as the iterator has it. Compares logical content, so absent optionals, inactive union members, unused array items and the bytes behind a string's NUL may differ, as in the C struct.
- PbReencode.DecodedReencodes: messages whose encoding reaches 2^32 bytes are excluded; so they are in MessageRoundTrip.
- PbEncode.OStream.Encode: messages whose encoding reaches 2^32 bytes, where size_t sums wrap, are excluded.
- The bits of a varint word are joined by addition; the groups never overlap, so this is the C code's or.
- A nested message that ends early at a zero tag leaves its window unread; the order and unknown-record results speak of records that are read to their end, the window results of all inputs.

cifra

- cf_ctr_custom_counter: the counter is the whole block.
- cf_gf128_mul, cf_gf128_double_le, mask_u32, select_u32, the little-endian and 64-bit helpers, which no modelled mode uses.
- CfBitops.SelectU8: tables longer than 256 entries, whose scan would wrap, are excluded; so they are for SelectU8x4.
- Constant-time behaviour is not modelled; only the results of the masked scans are.
- Nonce and header of EAX, the chunks of CMAC and the blocks of CBC are passed as values; message and output arrays are modelled in place.

cJSON

- Floating-point parsing and printing: numbers have an int and a double part, and doubles that are no int are not printed.
- The most negative int, whose negation overflows while it is parsed; other overflow wraps in the model where C leaves it undefined.
- JsonPrint.PrintNumber: a double that is no int, which the C code prints as floating point, is excluded; so it is in every printed tree.
- JsonList.Item.ReplaceItem: the old item is unlinked but not deleted.
- Allocation failure, item references, cJSON_Duplicate, deletion, lookup by name and cJSON_Minify.
- Escapes that run past the end of the text are a failure in the model; the C code reads past the end.
- JsonRoom.FitsExactly: says nothing of bodies with a backslash among the four characters of a `\u`, where the two loops can fall out of step and into step again.
- Parser and printers work on trees as values; `JsonList` models the linked lists themselves.
- JsonBuffer.PrintBuffer.Ensure: past 2^30 bytes, where pow2gt overflows an int, the model goes on doubling.

fnmatch

- Fnmatch.Match: FNM_PERIOD, FNM_LEADING_DIR and FNM_CASEFOLD, and characters beyond ASCII, whose order in ranges depends on the sign of char.
- A pattern that ends in a backslash, with which the C code goes past the end of the text.
- FnmatchLaws.SlashedBracketTakes: says nothing of a bracket with a dash or a backslash before the slash, which may be the end of a range or escaped.
- FnmatchLaws.ClassTakes: a part that ends in a single character is not followed by a dash unless the dash is the last part; such a dash would make a range.

nrf_fprintf_format

- Floating-point printing, the format string interpreter and varargs.
- Fprintf.Context.IntPrint: the most negative int, whose negation overflows, is excluded.
- Fprintf.Context.HighestWeight: precisions whose weight overflows 32 bits are excluded; `Fprintf.PrecisionFits` says which.
