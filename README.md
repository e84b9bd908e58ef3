# swift-protobuf binary writer, Any type registry and AnyMessage box, in Dafny

This project models three parts of the SwiftProtobuf runtime:

- **`BinaryEncoder`.** This is the writer of the protobuf binary wire format. It is a cursor over an output buffer that the caller sized beforehand.
  - It writes field keys (`startField`), varints (one-byte fast path plus a ten-way fall-through jump table), ZigZag varints, bools, fixed-width and floating-point values (least significant byte first), strings and bytes (length-delimited), and unknown-field bytes passed through unchanged.
  - It is modelled as a class `BinaryEncoder` over an `array<uint8>`, with the cursor as a field. Every write is proved to append exactly the wire-format bytes for its value, to move the cursor past them, and to leave the rest of the buffer untouched.
  - The wire format is specified by pure functions with reader-side partners and round-trip lemmas:
    - varints (`Varint.Encode` / `Varint.Decode` / `Varint.ReadVarint`);
    - ZigZag;
    - field tags;
    - little-endian fixed-width values;
    - length-delimited records.
- **The `Google_Protobuf_Any` type registry.**
  - Type URLs: `typeName(fromURL:)` (a scanning loop, proved against a specification of "the text after the last `/`") and `buildTypeURL`.
  - The two process-wide tables `knownTypes` and `typeRegistry`, modelled as a class `TypeRegistry`:
    - its invariant is that both tables have the same names and each type is filed under its own protobuf name;
    - it is seeded with the seventeen well-known types;
    - `register` keeps the tables unchanged on a repeat or a conflict;
    - the URL- and name-based lookups are included.
- **`AnyMessage` and `_ConcreteAnyMessageBox`.** These form the type-erasing wrapper.
  - Unboxing succeeds exactly at the stored type.
  - Equality is `nil`, which reads as false, across types. Within one type it is that type's `isEqualTo`.
  - The hash is the message's own.
  - Lemmas show that `AnyMessage` keeps the `Equatable` and `Hashable` contracts exactly when every wrapped message type does.

Finally, `RequiredVectors` drives the encoder through twelve fields of the library's required-fields test message. It proves each field's bytes, and the bytes of eight of them written in sequence, equal to the bytes the test expects.

## Model

| member | source | states |
|---|---|---|
| Ints.BitPattern64 | Sources/SwiftProtobuf/BinaryEncoder.swift:132-134 | `UInt64(bitPattern:)`: non-negative values are unchanged, and negative values map to at least 2^63; the result is congruent to the input modulo 2^64 |
| Ints.BitPatternRoundTrip | Sources/SwiftProtobuf/BinaryEncoder.swift:132-134 | `UInt64(bitPattern:)` and `Int64(bitPattern:)` are inverse bijections |
| Ints.OrHighBit | Sources/SwiftProtobuf/BinaryEncoder.swift:86-110 | `x OR 0x80` sets bit 7 and keeps the low seven bits and every bit above bit 7 |
| Ints.Shr | Sources/SwiftProtobuf/BinaryEncoder.swift:86-115 | `v >> bits` is never larger than `v` |
| Ints.ShrIsDivision | Sources/SwiftProtobuf/BinaryEncoder.swift:86-115 | `v >> bits` is `v` divided by 2^bits, rounded down |
| Ints.TruncateToUInt8 | Sources/SwiftProtobuf/BinaryEncoder.swift:86-115 | `UInt8(truncatingIfNeeded:)` keeps the low eight bits: the input is 256 times something plus the result |
| Ints.ContinuationByte | Sources/SwiftProtobuf/BinaryEncoder.swift:86-110 | the truncated `(v >> 7k) OR 0x80` is the low seven bits of `v >> 7k` plus 0x80 |
| Varint.EncodedSize | Sources/SwiftProtobuf/BinaryEncoder.swift:83 | the size the jump table dispatches on is between 1 and 10 |
| Varint.Encode | Sources/SwiftProtobuf/BinaryEncoder.swift:81-128 | the encoding is never empty, and it is one byte exactly for values below 128 |
| Varint.EncodedLength | Sources/SwiftProtobuf/BinaryEncoder.swift:83-116 | `encodedSize(of:)` is the length of the encoding the jump table writes |
| Varint.EncodedLengthIsMinimal | Sources/SwiftProtobuf/BinaryEncoder.swift:83-116 | the encoding holds all of the value's bits, and its last group is non-zero |
| Varint.EncodeByteAt | Sources/SwiftProtobuf/BinaryEncoder.swift:84-116 | byte k is `UInt8(truncatingIfNeeded: (v >> 7k) OR 0x80)` for k < n-1; the last byte is `v >> 7(n-1)`, below 128 |
| Varint.Uint64FitsTenBytes | Sources/SwiftProtobuf/BinaryEncoder.swift:113 | every UInt64 encodes in at most ten bytes, as the jump table's assert demands |
| Varint.EncodeIsCanonical | Sources/SwiftProtobuf/BinaryEncoder.swift:84-116 | the output sets the continuation bit on every byte but the last, and has no padding group |
| Varint.DecodeEncode | Sources/SwiftProtobuf/BinaryEncoder.swift:84-116 | reading the seven-bit groups back yields the value |
| Varint.EncodeDecode | Sources/SwiftProtobuf/BinaryEncoder.swift:84-116 | every canonical varint is the encoding of the value it decodes to |
| Varint.ReadVarint | Sources/SwiftProtobuf/BinaryEncoder.swift:81-128 | reader-side partner of `putVarInt`: a reader takes at most ten well-formed bytes and returns their decoded value |
| Varint.ReadEncoded | Sources/SwiftProtobuf/BinaryEncoder.swift:81-128 | a written varint reads back as its value and length, whatever follows |
| ZigZag.Encoded | Sources/SwiftProtobuf/BinaryEncoder.swift:141-144 | `(n << 1) ^ (n >> 63)`: the low bit is the sign, and the rest is the magnitude (minus one for negatives) |
| ZigZag.Decoded | Sources/SwiftProtobuf/BinaryEncoder.swift:141-144 | reader-side partner of `ZigZag.encoded`: the inverse map is negative exactly for odd inputs |
| ZigZag.RoundTrip | Sources/SwiftProtobuf/BinaryEncoder.swift:141-144 | ZigZag is a bijection between Int64 and UInt64 |
| ZigZag.Int32RangeFits | Sources/SwiftProtobuf/BinaryEncoder.swift:141-144 | an Int32-range value (a sint32 field) encodes below 2^32 |
| WireFormats.WireFormat.RawValue | Sources/SwiftProtobuf/BinaryEncoder.swift:72-78 | wire type codes are at most 5 |
| WireFormats.WireFormatFromRawValue | Sources/SwiftProtobuf/BinaryEncoder.swift:72-78 | a code is a wire type iff it is at most 5, and it maps back to its code |
| WireFormats.FieldTag.RawValue | Sources/SwiftProtobuf/BinaryEncoder.swift:76-78 | `fieldNumber << 3 OR wireFormat` fits 32 bits, and splits back into the two |
| WireFormats.FieldTagFromRawValue | Sources/SwiftProtobuf/BinaryEncoder.swift:72-78 | a raw tag is valid iff its field number is in 1..2^29-1 and its wire code is at most 5 |
| WireFormats.FieldTagRoundTrip | Sources/SwiftProtobuf/BinaryEncoder.swift:72-78 | every tag's raw value parses back to the tag |
| WireFormats.FieldKey | Sources/SwiftProtobuf/BinaryEncoder.swift:72-78 | the key `startField` writes is the canonical varint of the tag's raw value |
| WireFormats.ReadFieldKey | Sources/SwiftProtobuf/BinaryEncoder.swift:72-78 | reader-side partner of `startField`: a field key read consumes between 1 byte and all of the input |
| WireFormats.FieldKeyRoundTrip | Sources/SwiftProtobuf/BinaryEncoder.swift:72-78 | the key `startField` writes reads back as the same tag and length, whatever follows |
| WireFormats.LittleEndian | Sources/SwiftProtobuf/BinaryEncoder.swift:150-162 | the memory image of `value.littleEndian` has exactly `width` bytes |
| WireFormats.LittleEndianByteAt | Sources/SwiftProtobuf/BinaryEncoder.swift:150-162 | byte k of that image is `(v >> 8k) & 0xFF` |
| WireFormats.LittleEndianRoundTrip | Sources/SwiftProtobuf/BinaryEncoder.swift:150-162 | a value that fits `width` bytes reads back unchanged |
| WireFormats.FromLittleEndianRoundTrip | Sources/SwiftProtobuf/BinaryEncoder.swift:150-162 | every byte string is the image of the value it reads as |
| WireFormats.Uint32FitsFourBytes | Sources/SwiftProtobuf/BinaryEncoder.swift:157-162 | a UInt32 fits the four bytes `putFixedUInt32` writes |
| WireFormats.Uint64FitsEightBytes | Sources/SwiftProtobuf/BinaryEncoder.swift:150-155 | a UInt64 fits the eight bytes `putFixedUInt64` writes |
| WireFormats.LengthDelimited | Sources/SwiftProtobuf/BinaryEncoder.swift:179-200 | a length-delimited record is the canonical varint of the payload's length followed by the payload itself |
| WireFormats.ReadLengthDelimited | Sources/SwiftProtobuf/BinaryEncoder.swift:179-200 | reader-side partner of the length-delimited writers: a record read splits off a payload and a rest that are strictly shorter than the input together |
| WireFormats.LengthDelimitedRoundTrip | Sources/SwiftProtobuf/BinaryEncoder.swift:179-200 | count varint then bytes reads back as the payload, and leaves what follows untouched |
| BinaryEncoding.BinaryEncoder.constructor | Sources/SwiftProtobuf/BinaryEncoder.swift:23-26 | the cursor starts at the start of the buffer with nothing written |
| BinaryEncoding.BinaryEncoder.Used | Sources/SwiftProtobuf/BinaryEncoder.swift:43-45 | `used` is the number of bytes written, and never exceeds the buffer size |
| BinaryEncoding.BinaryEncoder.Remainder | Sources/SwiftProtobuf/BinaryEncoder.swift:47-52 | `remainder.count == buffer.count - used`, and output plus remainder is the whole buffer |
| BinaryEncoding.BinaryEncoder.Advance | Sources/SwiftProtobuf/BinaryEncoder.swift:54-56 | the first `bytes` of the remainder become output, and the cursor moves by exactly `bytes` |
| BinaryEncoding.BinaryEncoder.AppendByte | Sources/SwiftProtobuf/BinaryEncoder.swift:29-32 | appends one byte; the rest of the buffer is unchanged |
| BinaryEncoding.BinaryEncoder.CopyMemory | Sources/SwiftProtobuf/BinaryEncoder.swift:37 | the bytes land at the cursor, and everything else in the buffer is unchanged |
| BinaryEncoding.BinaryEncoder.AppendContents | Sources/SwiftProtobuf/BinaryEncoder.swift:34-41 | appends the bytes verbatim (nothing for empty input) |
| BinaryEncoding.BinaryEncoder.AppendBuffer | Sources/SwiftProtobuf/BinaryEncoder.swift:59-66 | appends the bytes verbatim and returns their count |
| BinaryEncoding.BinaryEncoder.AppendUnknown | Sources/SwiftProtobuf/BinaryEncoder.swift:68-70 | unknown-field data is appended unchanged |
| BinaryEncoding.BinaryEncoder.StartField | Sources/SwiftProtobuf/BinaryEncoder.swift:72-74 | appends the field key for (number, wire format) |
| BinaryEncoding.BinaryEncoder.StartFieldTag | Sources/SwiftProtobuf/BinaryEncoder.swift:76-78 | appends the varint of the tag's raw value |
| BinaryEncoding.BinaryEncoder.PutVarIntLarge | Sources/SwiftProtobuf/BinaryEncoder.swift:81-118 | the jump table appends exactly the canonical varint (`encodedSize` bytes) and moves the cursor by that much |
| BinaryEncoding.BinaryEncoder.FallThrough | Sources/SwiftProtobuf/BinaryEncoder.swift:84-111 | the cases from the entry point on store every continuation byte of the varint, and nothing else |
| BinaryEncoding.BinaryEncoder.StoreContinuation | Sources/SwiftProtobuf/BinaryEncoder.swift:86-110 | one case stores the continuation byte at its offset |
| BinaryEncoding.BinaryEncoder.StoreBytes | Sources/SwiftProtobuf/BinaryEncoder.swift:115 | `storeBytes(toByteOffset:)` changes exactly one byte of the buffer |
| BinaryEncoding.BinaryEncoder.PutVarInt | Sources/SwiftProtobuf/BinaryEncoder.swift:121-128 | appends the varint; a value below 128 writes exactly that one byte and advances by 1 |
| BinaryEncoding.BinaryEncoder.PutVarInt64 | Sources/SwiftProtobuf/BinaryEncoder.swift:132-134 | appends the varint of the two's-complement bit pattern |
| BinaryEncoding.BinaryEncoder.PutVarIntInt | Sources/SwiftProtobuf/BinaryEncoder.swift:137-139 | `Int` is written as the Int64 overload writes it |
| BinaryEncoding.BinaryEncoder.PutZigZagVarInt | Sources/SwiftProtobuf/BinaryEncoder.swift:141-144 | appends the varint of `ZigZag.encoded(value)` |
| BinaryEncoding.BinaryEncoder.PutBoolValue | Sources/SwiftProtobuf/BinaryEncoder.swift:146-148 | appends one byte, 1 or 0 |
| BinaryEncoding.BinaryEncoder.PutFixedUInt64 | Sources/SwiftProtobuf/BinaryEncoder.swift:150-155 | appends the 8 bytes, least significant first |
| BinaryEncoding.BinaryEncoder.PutFixedUInt32 | Sources/SwiftProtobuf/BinaryEncoder.swift:157-162 | appends the 4 bytes, least significant first |
| BinaryEncoding.BinaryEncoder.PutFloatValue | Sources/SwiftProtobuf/BinaryEncoder.swift:164-169 | appends the 4 bytes of the bit pattern, least significant first |
| BinaryEncoding.BinaryEncoder.PutDoubleValue | Sources/SwiftProtobuf/BinaryEncoder.swift:171-176 | appends the 8 bytes of the bit pattern, least significant first |
| BinaryEncoding.BinaryEncoder.PutStringValue | Sources/SwiftProtobuf/BinaryEncoder.swift:179-195 | both the contiguous branch and the byte-by-byte loop append the count varint and then the UTF-8 bytes |
| BinaryEncoding.BinaryEncoder.PutContiguousBody | Sources/SwiftProtobuf/BinaryEncoder.swift:183-186 | the contiguous-storage closure appends the count varint then the bytes, and returns the count |
| BinaryEncoding.BinaryEncoder.PutBytesValue | Sources/SwiftProtobuf/BinaryEncoder.swift:197-200 | appends the count varint then the bytes verbatim |
| AnyRegistry.TypeName | Sources/SwiftProtobuf/Google_Protobuf_Any+Registry.swift:40-52 | the type name is a '/'-free suffix of the URL that is all of it or preceded by '/' |
| AnyRegistry.TypeNameIsLastSegment | Sources/SwiftProtobuf/Google_Protobuf_Any+Registry.swift:40-52 | any such suffix is the type name: the text after the last '/', or the whole string |
| AnyRegistry.TypeNameFromURL | Sources/SwiftProtobuf/Google_Protobuf_Any+Registry.swift:40-52 | the scanning loop returns exactly that type name |
| AnyRegistry.NeedsSlash | Sources/SwiftProtobuf/Google_Protobuf_Any+Registry.swift:25 | a '/' is needed exactly when the prefix does not end in "/" (so also when it is empty) |
| AnyRegistry.TypeURL | Sources/SwiftProtobuf/Google_Protobuf_Any+Registry.swift:22-33 | the prefix, then the name, with one '/' added iff the prefix is empty or does not end in '/' |
| AnyRegistry.BuildTypeURL | Sources/SwiftProtobuf/Google_Protobuf_Any+Registry.swift:22-38 | `buildTypeURL` builds that URL from the message's `protoMessageName` |
| AnyRegistry.TypeNameOfTypeURL | Sources/SwiftProtobuf/Google_Protobuf_Any+Registry.swift:22-52 | `typeName(fromURL: buildTypeURL(m, p))` is `m`'s name when that name has no '/' |
| AnyRegistry.TypeRegistry.constructor | Sources/SwiftProtobuf/Google_Protobuf_Any+Registry.swift:84-125 | both tables are seeded with the 17 well-known types, consistently |
| AnyRegistry.TypeRegistry.Register | Sources/SwiftProtobuf/Google_Protobuf_Any+Registry.swift:156-172 | a new name goes into both tables (true). On a present name the tables are unchanged, and the result is true iff it is the same type. The invariant is kept |
| AnyRegistry.RegisterTwice | Sources/SwiftProtobuf/Google_Protobuf_Any+Registry.swift:156-172 | registering the same type again returns the same answer and leaves both tables as one registration leaves them: unchanged when the name was known, otherwise extended by that one name |
| AnyRegistry.TypeRegistry.MessageTypeForName | Sources/SwiftProtobuf/Google_Protobuf_Any+Registry.swift:177-181 | the `knownTypes` lookup finds a type iff the name is present, and that type carries the name |
| AnyRegistry.TypeRegistry.MessageTypeForURL | Sources/SwiftProtobuf/Google_Protobuf_Any+Registry.swift:175-182 | the lookup by URL depends only on its type name, and what it finds is named so |
| AnyRegistry.TypeRegistry.MessageInfoForName | Sources/SwiftProtobuf/Google_Protobuf_Any+Registry.swift:190-196 | the `typeRegistry` entry exists iff the name is present, and it is built from the known type |
| AnyRegistry.TypeRegistry.MessageInfoForURL | Sources/SwiftProtobuf/Google_Protobuf_Any+Registry.swift:185-188 | the info by URL exists iff the type by URL does, and it is for that type name |
| AnyRegistry.TypeRegistry.IsMessageTypeRegisteredForName | Sources/SwiftProtobuf/Google_Protobuf_Any+Registry.swift:207-209 | true iff the name is a key of `typeRegistry` (equivalently of `knownTypes`) |
| AnyRegistry.TypeRegistry.IsMessageTypeRegisteredForURL | Sources/SwiftProtobuf/Google_Protobuf_Any+Registry.swift:200-203 | agrees with the type lookup for the URL's type name |
| AnyRegistry.TypeRegistry.FoundByTypeURL | Sources/SwiftProtobuf/Google_Protobuf_Any+Registry.swift:175-203 | a registered type is found, and counted registered, through every URL built for it |
| AnyMessages.ConcreteAnyMessageBox.Message | Sources/SwiftProtobuf/AnyMessage.swift:25-27 | `_message` is the stored message at the stored type |
| AnyMessages.ConcreteAnyMessageBox.Unbox | Sources/SwiftProtobuf/AnyMessage.swift:29-31 | `_unbox<T>` gives the stored message iff `T` is the box's type, and nil otherwise |
| AnyMessages.ConcreteAnyMessageBox.IsEqual | Sources/SwiftProtobuf/AnyMessage.swift:33-40 | nil iff the other box's type differs; otherwise the stored type's `isEqualTo` of the two messages |
| AnyMessages.ConcreteAnyMessageBox.HashValue | Sources/SwiftProtobuf/AnyMessage.swift:42-44 | the box's hash is the stored message's hash |
| AnyMessages.AnyMessage.Message | Sources/SwiftProtobuf/AnyMessage.swift:62-64 | `message` is what the box stores |
| AnyMessages.AnyMessage.Equals | Sources/SwiftProtobuf/AnyMessage.swift:87-91 | `==` holds only between the same types, and there it is `isEqualTo` |
| AnyMessages.AnyMessage.HashValue | Sources/SwiftProtobuf/AnyMessage.swift:93-97 | `hashValue` is the wrapped message's hash |
| AnyMessages.Wrap | Sources/SwiftProtobuf/AnyMessage.swift:58-60 | `init(_:)` boxes the message at its own type |
| AnyMessages.WrapRoundTrip | Sources/SwiftProtobuf/AnyMessage.swift:25-31 | `AnyMessage(m).message` is `m`, and unboxing yields `m` exactly at `m`'s type |
| AnyMessages.DifferentTypesNeverEqual | Sources/SwiftProtobuf/AnyMessage.swift:87-91 | boxes of different types are unequal in both directions |
| AnyMessages.HashConsistency | Sources/SwiftProtobuf/AnyMessage.swift:93-97 | the hash is consistent with `==` iff every type's hash is consistent with its `isEqualTo` |
| AnyMessages.EquivalenceConsistency | Sources/SwiftProtobuf/AnyMessage.swift:87-91 | `==` is an equivalence iff every type's `isEqualTo` is |
| RequiredVectors.WriteRequiredInt32 | Tests/SwiftProtobufTests/Test_Required.swift:296 | int32 field 1 = 1 writes `[8, 1]` |
| RequiredVectors.WriteRequiredSint32 | Tests/SwiftProtobufTests/Test_Required.swift:300 | sint32 field 5 = 5 writes `[40, 10]` |
| RequiredVectors.WriteRequiredSint64 | Tests/SwiftProtobufTests/Test_Required.swift:301 | sint64 field 6 = 6 writes `[48, 12]` |
| RequiredVectors.WriteRequiredFixed32 | Tests/SwiftProtobufTests/Test_Required.swift:302 | fixed32 field 7 = 7 writes `[61, 7, 0, 0, 0]` |
| RequiredVectors.WriteRequiredFixed64 | Tests/SwiftProtobufTests/Test_Required.swift:303 | fixed64 field 8 = 8 writes `[65, 8, 0, 0, 0, 0, 0, 0, 0]` |
| RequiredVectors.WriteRequiredFloat | Tests/SwiftProtobufTests/Test_Required.swift:306 | float field 11 = 11.0, bit pattern 0x41300000, writes `[93, 0, 0, 48, 65]` |
| RequiredVectors.WriteRequiredDouble | Tests/SwiftProtobufTests/Test_Required.swift:307 | double field 12 = 12.0, bit pattern 0x4028000000000000, writes `[97, 0, 0, 0, 0, 0, 0, 40, 64]` |
| RequiredVectors.WriteRequiredBool | Tests/SwiftProtobufTests/Test_Required.swift:308 | bool field 13 = true writes `[104, 1]` |
| RequiredVectors.WriteRequiredString | Tests/SwiftProtobufTests/Test_Required.swift:309 | string field 14 = "14" writes `[114, 2, 49, 52]` through either string branch |
| RequiredVectors.WriteRequiredBytes | Tests/SwiftProtobufTests/Test_Required.swift:310 | bytes field 15 = [15] writes `[122, 1, 15]` |
| RequiredVectors.WriteRequiredGroup | Tests/SwiftProtobufTests/Test_Required.swift:311 | group 16 holding field 17 = 16 writes `[131, 1, 136, 1, 16, 132, 1]` |
| RequiredVectors.WriteDefaultSint32 | Tests/SwiftProtobufTests/Test_Required.swift:323 | sint32 field 65 = 65 writes `[136, 4, 130, 1]` |
| RequiredVectors.WriteScalarFields | Tests/SwiftProtobufTests/Test_Required.swift:346-353 | four fields in sequence write the concatenation of their encodings |
| RequiredVectors.WriteRemainingFields | Tests/SwiftProtobufTests/Test_Required.swift:346-353 | four more fields in sequence write the concatenation of their encodings |
| RequiredVectors.EncodeRequiredFields | Tests/SwiftProtobufTests/Test_Required.swift:346-353 | all eight fields in one exactly-sized buffer give the concatenated expected bytes |

## Left out

- Varint.swift, ZigZag.swift, FieldTag.swift and WireFormat.swift are not part of this model. `Varint.EncodedSize`, `ZigZag.Encoded`, `WireFormats.FieldTag` and `WireFormats.WireFormat` are written from the protobuf wire format and from how `BinaryEncoder.swift` uses them. Their reader-side partners (`Varint.ReadVarint`, `ReadFieldKey`, `ReadLengthDelimited`) specify the format; they are not the library's decoder.
- Raw pointers: `UnsafeMutableRawBufferPointer` and the `pointer` into it are an `array<uint8>` and an index. `baseAddress!` on a buffer without storage is not modelled.
- Every write `requires` the room it needs. The source leaves writing past the end undefined, and the caller sizes the buffer beforehand.
- Floating point: `PutFloatValue` and `PutDoubleValue` take `value.bitPattern` as their argument. The IEEE 754 conversion from `Float`/`Double` to bits is not modelled.
- Strings: `PutStringValue` takes the string's UTF-8 view as bytes. It also takes a flag saying whether `withContiguousStorageIfAvailable` finds contiguous storage. Unicode-to-UTF-8 encoding is not modelled.
- Swift's `Int` is 32 or 64 bits wide depending on the platform. `putVarInt(value: Int)` converts it with `Int64(value)` (BinaryEncoder.swift:137-139), which only widens, so `BinaryEncoding.BinaryEncoder.PutVarIntInt` takes an `int64` and covers `Int` on both widths.
- AnyRegistry.TypeName: strings are sequences of Unicode scalars. Swift's `Character` is a grapheme cluster, and the comparison with "/" in `typeName(fromURL:)` (Google_Protobuf_Any+Registry.swift:40-52) works on those. The model compares scalars, so it differs when a combining mark follows a '/': for "a/\u{301}b" Swift returns the whole string and the model returns "\u{301}b". Likewise for "a\u{600}/b" Swift returns the whole string and the model returns "b". Type names made of protobuf identifiers and dots are unaffected.
- AnyRegistry.TypeNameFromURL: scans Unicode scalars rather than grapheme clusters, for the reason given for `AnyRegistry.TypeName`.
- AnyRegistry.NeedsSlash: looks at the last Unicode scalar of the prefix, where `typePrefix.last` (Google_Protobuf_Any+Registry.swift:25) is the last grapheme cluster; they differ when the final '/' joins the character before it into one cluster: for "x\u{600}/" (U+0600 is a Prepend character, rule GB9b of Unicode Standard Annex #29) the model needs no slash, while Swift's last `Character` is "\u{600}/" and it adds one.
- AnyRegistry.BuildTypeURL: inherits the scalar-level `AnyRegistry.NeedsSlash` test.
- AnyRegistry.TypeNameOfTypeURL: the round trip is stated over Unicode scalars; with grapheme clusters it fails for a name that starts with a combining mark.
- The `switch 10 - numBytes` with `fallthrough` is modelled as the recursion `FallThrough`. Each level is one case and stores the same byte at the same offset.
- `serialQueue`: every registry access in the source runs on one serial dispatch queue. The model is a single object whose methods run one at a time, and concurrency is not modelled.
- `MessageInfo` keeps three closures: `instance()`, `instance(jsonData:options:)` and `instance(serializedData:partial:)`. They construct or decode a message of the registered type. The model keeps the type they close over; decoding, JSON and the `Data` inputs are not modelled.
- Swift metatypes are modelled as the value `MessageType(swiftName, protoMessageName)`. Metatype equality is value equality. `typeName(fromMessage:)` is read off as `protoMessageName`, the only property of a message type the registry uses.
- TypeRegistry: the lookups and `Register` require the registry invariant `Valid()`. The invariant holds from the constructor on, and `Register` preserves it. The source tables are module globals with no such precondition.
- The generated `isEqualTo(message:)` and `hashValue` of each message type are code outside this model. They come in as the two functions of `MessageOps`, indexed by the concrete type.
- `AnyMessage`'s `description`, `debugDescription` and `customMirror` are printing and reflection and are not modelled.
- `AnyMessages.Wrap`: its contract states only the type it boxes at. That the message comes back out is stated by `WrapRoundTrip`.
