# bson codec model

A Dafny model of the codec in the Go package `bson`. The package is a
writer and a reader for a BSON-like binary format, plus the ordered
document type `D` the reader produces. The model covers:

- **Wire** (`wire.dfy`): Go's `int32`/`int64` as subtypes of `int`.
  - `encoding/binary` little-endian images, and the two's-complement
    conversions `uint32(n)`/`int32(u)`.
  - The tag table and the errors of both directions.
  - `NegativeLength` stands for the panic Go raises when `make` gets a
    negative size.
- **Document** (`document.dfy`): `E`, `D` and the value a Go `any` can hold.
  - The value is a closed datatype: the eleven types the writer's type
    switch knows, plus `Unsupported` for every other type.
  - The helpers `Get`, `FromArray`, `ToArray`, `Normalize`, `ToMap`, each
    as a method (loops, in-place update) proved against a function that
    specifies it.
- **Encode** (`encode.dfy`, lemmas in `encode_properties.dfy`): what each
  writer appends, as functions over byte sequences.
  - The methods `WriteElement`, `WriteDocument`, `WriteArray` and
    `MarshalBinary` append to a destination the way the Go writers append
    to a `bufio.Writer`. Their loops are proved to produce exactly the
    bytes those functions specify.
  - Arrays, at every depth, are written by the corrected `WriteArray`,
    which flushes its scratch writer before measuring it. The Go code as
    written does not (see "## Findings"); `Encode.WriteArrayAsWritten`
    models that version on its own.
- **Decode** (`decode.dfy`, lemmas in `decode_properties.dfy`): each
  reader as a function of the input bytes and a cursor, returning the
  value and the new cursor, or the error.
  - `ReadDocument` and `ReadElement` are methods proved equal to those
    functions. `ReadDocument` keeps Go's loop over a fresh reader on the
    body, which stops at the first EOF.
- **RoundTrip** (`roundtrip.dfy`): a written document reads back as its
  canonical form, and writing that form again gives the same bytes.
  - In the canonical form, native `int` becomes `int64`.
  - The law holds for every document whose names, at every depth, contain
    no zero byte.
- **Findings** (`findings.dfy`): `WriteArray` as written, which does not
  flush its scratch writer (see below).

The length prefix of a document counts the body only, not the 4-byte
prefix and the terminator as BSON 1.1 (bsonspec.org) has it. The model
keeps this convention.

Where the package's documented design and its code disagree, the model follows the code:

- `ToArray` checks that each name "0".."n-1" is present. It does not
  check their order (`Document.ToArrayIgnoresOrder`).
- A string, blob or document payload that is too large fails after the
  tag and the name have been written (`EncodeProperties.PayloadFailureLayout`),
  not before anything of the element is written.
- The subtype byte of a binary payload is read and discarded
  (decode.go:104-106, `DecodeProperties.BinarySubtypeIgnored`): the value
  read is the blob alone.
- A trailing element cut short ends the document without error
  (decode.go:65-70). Any element read that meets EOF, whether before its
  tag, inside its name or inside its payload, drops that element and
  everything after it (`DecodeProperties.ElementEOF`,
  `DecodeProperties.TruncatedElementDropped`). Only the other errors
  (`UnexpectedEOF`, "not zero", a negative length, an unknown tag, and
  "invalid array" for a nested array whose names are not "0".."n-1",
  `DecodeProperties.ArrayTag`) fail the document.

Some rows of the table below state a single branch of the reader's tag
switch (`DecodeProperties.NullTags`, `DecodeProperties.UnknownTag`,
`DecodeProperties.TimeTag`): they are facts about one tag each, not
properties of the whole reader.

## Model

The functions that specify the writers and readers carry few contracts of
their own; their properties are proved as lemmas about them:

- `Encode.TagOf`: `EncodeProperties.TagTable`.
- `Encode.PayloadBytes`: `EncodeProperties.PayloadWidths`, the per-type
  layout lemmas, `EncodeProperties.PayloadFailureLayout`.
- `Encode.ElementBytes`: `EncodeProperties.ElementOutcome`,
  `EncodeProperties.ElementLayout`, `EncodeProperties.UnsupportedWritesNothing`.
- `Encode.BodyBytes`: `EncodeProperties.BodyBytesFirstError`,
  `BodyBytesOk`, `BodyBytesAppend`, `BodyBytesLength`.
- `Encode.DocumentBytes`: `EncodeProperties.DocumentFraming`.
- `Encode.ArrayBodyBytes` and `Encode.ArrayBytes`:
  `EncodeProperties.ArrayBodyIsIndexedBody`, `ArrayBodyBytesLength`,
  `ArrayBytesIsDocumentBytes`.
- `Decode.ParseBody`: `DecodeProperties.BodyNeverEOF`, `ElementEOF`,
  `BodyEndsAtEOF`, `RoundTrip.BodyStep`, `RoundTrip.BodyRoundTrip`.
- `Document.ArrayFrom` and `Document.ArrayOf`: `Document.ArrayFromFails`,
  `ArrayFromLength`, `ArrayFromItem`, `ToArrayMeaning`.
- `Document.Indexed` (`IndexedFrom` from 0): `Document.IndexedFrom`,
  `LookupIndexed`.
- `Document.MapOf`: `Document.MapOfMeaning`.


| member | source | states |
|---|---|---|
| Wire.LittleEndian | encode.go:26 | the k-byte little-endian image (PutUint32 with k = 4) has exactly k bytes |
| Wire.FromLittleEndian | decode.go:27 | the number read from s bytes (Uint32 with s = 4) is below 256^s |
| Wire.Uint32Of | encode.go:26 | uint32(n): the unique number below 2^32 congruent to n modulo 2^32 |
| Wire.Int32Of | decode.go:27 | int32(u): a number in the int32 range congruent to u modulo 2^32 |
| Wire.Uint64Of | encode.go:32 | uint64(n): the unique number below 2^64 congruent to n modulo 2^64 |
| Wire.Int64Of | decode.go:36 | int64(u): a number in the int64 range congruent to u modulo 2^64 |
| Wire.FromLittleEndianOfLittleEndian | encode.go:24-35 | reading a k-byte little-endian image gives back the number written, for every number below 256^k |
| Wire.LittleEndianOfFromLittleEndian | decode.go:21-37 | re-encoding the number read from a byte sequence gives that byte sequence |
| Wire.Int32OfUint32Of | decode.go:27 | int32(uint32(n)) == n: the two's-complement conversion loses nothing |
| Wire.Int64OfUint64Of | decode.go:36 | int64(uint64(n)) == n |
| Document.Itoa | document.go:50 | strconv.Itoa of a non-negative index is a non-empty run of ASCII digits (so it never contains a zero byte), with no leading zero unless the index is 0 |
| Document.ParseDecimalItoa | document.go:74 | the decimal string of n denotes n |
| Document.ItoaInjective | document.go:72-79 | distinct indices have distinct names |
| Document.Lookup | document.go:56-66 | the index is -1 with value nil, or an index whose element has the name and whose value is returned |
| Document.LookupFirst | document.go:56-66 | -1 exactly when no element has the name; otherwise no earlier element has it (first match) |
| Document.Get | document.go:56-66 | the linear scan returns what Lookup specifies |
| Document.IndexedFrom | document.go:47-54 | element i is named Itoa(k + i) and holds value i; same length |
| Document.FromArray | document.go:47-54 | the loop fills a document of the same length whose element i is named "i" and holds values[i] |
| Document.ArrayFromFails | document.go:72-79 | the scan from i fails exactly when some index k >= i has no element named "k", and the error is "invalid array" |
| Document.ArrayFromLength | document.go:72-80 | a successful scan from i yields len(doc) - i values |
| Document.ArrayFromItem | document.go:72-80 | value k - i of the scan from i is the first match for name "k" |
| Document.ToArrayMeaning | document.go:68-81 | ToArray fails with "invalid array" iff some index below len(doc) is missing; otherwise item k is the first element named "k" (the empty document gives the empty list) |
| Document.ToArray | document.go:68-81 | the index loop returns what ArrayOf specifies |
| Document.ToArrayIgnoresOrder | document.go:72-79 | names "1","0" in that order are accepted and read by name, not position |
| Document.LookupIndexed | document.go:47-54 | in FromArray(values), name "i" first occurs at index i with values[i] |
| Document.ToArrayFromArray | document.go:47-81 | ToArray(FromArray(v)) == v for every list v |
| Document.Normalize | document.go:31-38 | the array afterwards holds Normalized of its old contents |
| Document.NormalizedElement | document.go:33-37 | the name is kept, a native int becomes int64 of the same value, and no native int remains |
| Document.Normalized | document.go:31-38 | the normalized document has as many elements as the original |
| Document.NormalizedMeaning | document.go:31-38 | same length and names; each top-level native int becomes int64 of equal value; every other element is untouched (nested documents included); no native int remains; normalizing twice changes nothing |
| Document.LastIndex | document.go:82-92 | the last index with the name, or -1: no later element has it |
| Document.EntryOf | document.go:85-89 | a value becomes a nested map exactly when it is a D; any other value is kept unchanged |
| Document.MapOfMeaning | document.go:82-92 | a name is a key iff some element has it, and it maps to the last such element's value, converted recursively only when it is a D |
| Document.ToMap | document.go:82-92 | the loop builds the map MapOf specifies |
| Encode.Int32Bytes | encode.go:24-29 | four bytes whose little-endian reading is the two's-complement image of n |
| Encode.Int64Bytes | encode.go:30-35 | eight bytes whose little-endian reading is the two's-complement image of n |
| Encode.CStringBytes | encode.go:14-23 | fails with "too large cString" exactly when the length is at least MaxInt32 |
| EncodeProperties.CStringLayout | encode.go:14-23 | the name's bytes then exactly one zero; zero bytes inside the name are not rejected |
| Encode.StringBytes | encode.go:202-211 | fails with "too large string" exactly when the length is at least MaxInt32; otherwise len(s) + 5 bytes whose prefix reads len(s) + 1 |
| EncodeProperties.StringLayout | encode.go:202-211 | after the prefix come the bytes of s and a closing zero |
| Encode.BoolBytes | encode.go:212-217 | one byte: 1 for true, 0 for false |
| Encode.BinaryBytes | encode.go:218-232 | fails with "too large binary" exactly when the length is at least MaxInt32; otherwise len(bin) + 5 bytes whose prefix reads len(bin) (no +1) |
| EncodeProperties.BinaryBytesLayout | encode.go:218-232 | after the prefix come the subtype byte and the blob, to the end |
| Encode.Framed | encode.go:50-61 | fails with "too large document" exactly when the body has at least MaxInt32 bytes; otherwise len(body) + 5 bytes whose prefix reads len(body) |
| EncodeProperties.FramedLayout | encode.go:53-61 | after the prefix come the body and one zero |
| EncodeProperties.TagTable | encode.go:89-199 | the writer uses ten tags, never 0x06 (undefined), and 0x12 exactly for int64 and native int |
| EncodeProperties.PayloadWidths | encode.go:89-199 | only string, blob, document and array payloads can fail, and each takes at least 5 bytes; int32 takes 4, int64, int and time 8, an id 12, a bool 1, nil none |
| EncodeProperties.ElementOutcome | encode.go:89-201 | an element writes cleanly exactly when its type is known, its name is shorter than MaxInt32 and its payload writes; then it takes len(name) + 2 + len(payload) bytes; a known type writes its tag first even when it fails |
| EncodeProperties.ElementLayout | encode.go:89-199 | a supported value with a writable name and payload is written as tag, name, zero, payload |
| EncodeProperties.Int32Layout | encode.go:168-177 | int32 is tag 0x10, the name, and four bytes |
| EncodeProperties.Int64Layout | encode.go:178-187 | int64 is tag 0x12, the name, and eight bytes |
| EncodeProperties.NativeIntIsInt64 | encode.go:188-198 | a native int writes exactly the bytes of the int64 of the same value |
| EncodeProperties.NullLayout | encode.go:162-167 | nil is tag 0x0A and the name, with no payload |
| EncodeProperties.BoolLayout | encode.go:142-151 | bool is tag 0x08, the name, and the byte 1 or 0 |
| EncodeProperties.BinaryLayout | encode.go:122-131 | []byte is tag 0x05, the name, then the blob with subtype 0x00 |
| EncodeProperties.BinaryTooLarge | encode.go:122-131 | a blob of MaxInt32 bytes or more fails with "too large binary" after tag and name |
| EncodeProperties.PayloadFailureLayout | encode.go:89-199 | a failing payload leaves the tag and the name written and returns the payload's error |
| EncodeProperties.UnsupportedWritesNothing | encode.go:200 | a value of an unknown type writes nothing and fails with "unsupported type" naming the type |
| EncodeProperties.BodyBytesFirstError | encode.go:40-44 | the first element that fails decides the document's error; nothing is written for the document |
| EncodeProperties.BodyBytesOk | encode.go:40-44 | the body is written iff every element writes cleanly |
| EncodeProperties.BodyBytesAppend | encode.go:40-45 | appending an element that writes cleanly appends its bytes to the body |
| EncodeProperties.BodyBytesLength | encode.go:40-45 | a body that writes takes at least two bytes per element |
| EncodeProperties.ArrayBodyBytesLength | encode.go:66-71 | an array body that writes takes at least two bytes per item |
| EncodeProperties.DocumentFraming | encode.go:37-62 | a document is int32(len(body)), the body, a zero, len(body) + 5 bytes in all; a body of MaxInt32 bytes or more fails with "too large document" |
| EncodeProperties.ArrayBodyIsIndexedBody | encode.go:66-71 | the array loop writes the body of FromArray's document |
| EncodeProperties.ArrayBytesIsDocumentBytes | encode.go:63-84 | the flushed array writer writes exactly what WriteDocument writes for FromArray of the same values |
| EncodeProperties.ExampleInt32Element | encode.go:168-177 | {a, int32(1)} is 10 61 00 01 00 00 00 |
| EncodeProperties.ExampleStringElement | encode.go:92-101 | {b, "hi"} is 02 62 00 03 00 00 00 68 69 00 |
| EncodeProperties.ExampleNullElement | encode.go:162-167 | {c, nil} is 0A 63 00 |
| EncodeProperties.ExampleBody | encode.go:40-45 | the body of {a: int32(1), b: "hi", c: nil} is those three elements in order |
| EncodeProperties.ExampleDocument | encode.go:37-62 | the document {a: int32(1), b: "hi", c: nil} is the prefix 20, those three elements, and a zero |
| Encode.WriteElement | encode.go:89-201 | appends ElementBytes to the destination and returns its error |
| Encode.WritePayload | encode.go:91-199 | appends the payload, or nothing and the payload's error |
| Encode.WriteDocument | encode.go:37-62 | the loop appends DocumentBytes, or nothing and the first error |
| Encode.WriteArray | encode.go:63-84 | the loop appends ArrayBytes (flushed), or nothing and the first error |
| Encode.MarshalBinary | document.go:18-30 | returns exactly the bytes WriteDocument writes, or its error |
| Decode.ReadByte | decode.go:40 | the byte at the cursor, or EOF at the end of input |
| Decode.ReadFull | decode.go:23 | succeeds iff n bytes remain; otherwise EOF when nothing remains and UnexpectedEOF when some do |
| DecodeProperties.ReadFullReads | decode.go:23 | a successful read returns the next n bytes and moves past them |
| Decode.ZeroFrom | decode.go:14 | the first zero byte at or after the cursor, if any |
| Decode.ReadCString | decode.go:13-19 | a zero-free name, the cursor moved past it and one byte more; errors are EOF |
| DecodeProperties.ReadCStringReads | decode.go:13-19 | succeeds iff a zero follows the cursor; the name is the bytes before the first zero, and that zero is consumed |
| DecodeProperties.ZeroFromFirst | decode.go:14 | the first zero after the cursor is found |
| DecodeProperties.ReadCStringAt | decode.go:13-19 | a zero-free name followed by a zero reads back as that name |
| Decode.ReadInt32 | decode.go:21-28 | succeeds iff four bytes remain; EOF or UnexpectedEOF otherwise |
| Decode.ReadInt64 | decode.go:30-37 | succeeds iff eight bytes remain; EOF or UnexpectedEOF otherwise |
| DecodeProperties.ReadIntReads | decode.go:21-37 | the number read has the next four (eight) bytes as its little-endian two's-complement image |
| RoundTrip.ReadInt32At | decode.go:21-28 | ReadInt32 inverts WriteInt32 and consumes four bytes |
| RoundTrip.Int32BytesOfRead | decode.go:21-28 | WriteInt32 inverts ReadInt32: any four bytes are rewritten unchanged |
| RoundTrip.ReadInt64At | decode.go:30-37 | ReadInt64 inverts WriteInt64 and consumes eight bytes |
| RoundTrip.Int64BytesOfRead | decode.go:30-37 | WriteInt64 inverts ReadInt64 |
| Decode.SkipZero | decode.go:39-48 | succeeds iff the next byte is zero, consuming it; EOF at the end, "not zero" otherwise |
| Decode.ReadObjectID | decode.go:140-144 | succeeds iff twelve bytes remain; otherwise EOF when nothing remains and UnexpectedEOF when 1 to 11 do (so a cut id fails the document) |
| DecodeProperties.ReadObjectIDReads | decode.go:140-144 | the id is the next twelve bytes |
| Decode.ReadBool | decode.go:146-149 | any non-zero byte is true; one byte is consumed; the only failure is EOF at the end of input |
| Decode.Int32Pred | decode.go:173 | Go's int32 n - 1, which wraps from MinInt32 to MaxInt32 |
| Decode.ReadBinary | decode.go:151-166 | the cursor moves past 4 + 1 + len(blob) bytes |
| DecodeProperties.ReadBinaryReads | decode.go:151-166 | the prefix reads len(blob), the next byte is the subtype, the blob is the following bytes |
| DecodeProperties.ReadBinarySubtype | decode.go:151-166 | changing the subtype byte changes neither the blob, nor the cursor, nor success |
| DecodeProperties.ReadBinaryFailures | decode.go:151-166 | EOF with nothing left, nothing after the prefix or nothing after the subtype, UnexpectedEOF on a partial prefix or blob, a negative length once the subtype is read, success when the blob fits |
| RoundTrip.ReadBinaryAt | decode.go:151-166 | ReadBinary inverts WriteBinary |
| Decode.ReadString | decode.go:168-182 | the cursor moves past 4 + len(s) + 1 bytes |
| DecodeProperties.ReadStringReads | decode.go:168-182 | the prefix reads len(s) + 1, the string is the following bytes, and a zero follows |
| DecodeProperties.ReadStringFailures | decode.go:168-182 | EOF with nothing left or nothing after the prefix, UnexpectedEOF on a partial prefix or body, a negative length for n <= 0 (MinInt32 wraps), EOF when the terminator is missing at the end, "not zero" for a wrong terminator, success otherwise |
| RoundTrip.ReadStringAt | decode.go:168-182 | ReadString inverts WriteString |
| Decode.ParseDocument | decode.go:50-76 | a document read consumes at least five bytes and stays within the input |
| DecodeProperties.DocumentExtent | decode.go:50-76 | a document read consumes exactly 4 + L + 1 bytes, L >= 0 is the prefix, a zero follows the body, and the elements come from the L-byte body alone |
| DecodeProperties.ShortBody | decode.go:55-60 | a prefix longer than the rest of the input is an EOF or UnexpectedEOF error |
| DecodeProperties.NegativeDocumentLength | decode.go:55 | a negative prefix is an error (Go's make panics) |
| DecodeProperties.MissingTerminator | decode.go:61-63 | no zero after the body is an EOF or "not zero" error |
| DecodeProperties.BodyEndsAtEOF | decode.go:65-70 | at the end of the body the element loop stops with no error |
| Decode.ParseElement | decode.go:78-138 | an element read consumes at least the tag and the name's terminator |
| DecodeProperties.PayloadAtEnd | decode.go:78-138 | a tag with a payload at the end of input gives EOF |
| DecodeProperties.BodyNeverEOF | decode.go:64-75 | the element loop never returns EOF (it ends the document instead), and a body of n bytes yields at most n / 2 elements |
| DecodeProperties.ElementEOF | decode.go:65-87 | an element read meets EOF exactly when the body ends before its tag, its name has no terminator, or its payload read meets EOF; then the document ends there with no error |
| DecodeProperties.ExampleShortStringDropped | decode.go:65-70 | {a: string} whose prefix promises 5 bytes with none following reads as the empty document |
| DecodeProperties.ExampleUnterminatedStringDropped | decode.go:65-70 | {a: "hi"} missing its terminating zero reads as the empty document |
| DecodeProperties.TruncatedElementDropped | decode.go:65-70 | an element cut off right after its name is silently dropped: the document ends there with no error |
| Decode.ParsePayload | decode.go:87-137 | a payload read stays within the input |
| DecodeProperties.NullTags | decode.go:107-108 | tags 0x06 and 0x0A give nil and consume nothing |
| DecodeProperties.TimeTag | decode.go:115-117 | tag 0x09 gives a time whose milliseconds are the next eight bytes |
| DecodeProperties.UnknownTag | decode.go:137 | any tag outside the table is "unknown element type" for that tag |
| DecodeProperties.ArrayTag | decode.go:97-103 | tag 0x04 reads a document, then ToArray; an invalid array is the error |
| DecodeProperties.BinarySubtypeIgnored | decode.go:104-106 | the element read does not depend on the subtype byte |
| Decode.ReadDocument | decode.go:50-76 | the loop over a fresh reader on the body returns what ParseDocument specifies |
| Decode.ReadElement | decode.go:78-138 | the tag dispatch returns what ParseElement specifies |
| RoundTrip.Canon | decode.go:129-131 | what the reader returns for a written value has no native int |
| RoundTrip.CanonDoc | decode.go:65-75 | the canonical document has as many elements as the original |
| RoundTrip.CanonList | decode.go:97-103 | the canonical list has as many items as the original |
| RoundTrip.CanonPayload | encode.go:188-198 | the canonical value has the same tag and payload bytes |
| RoundTrip.CanonElement | encode.go:89-201 | the canonical value writes the same element bytes |
| RoundTrip.CanonBody | encode.go:40-45 | the canonical document writes the same body |
| RoundTrip.CanonArrayBody | encode.go:66-71 | the canonical list writes the same array body |
| RoundTrip.CanonDocument | encode.go:37-62 | the canonical document writes the same bytes |
| RoundTrip.CanonIndexed | document.go:47-54 | FromArray commutes with the canonical form |
| RoundTrip.CleanIndexed | document.go:47-54 | FromArray of a list with zero-free names is zero-free (indices never contain a zero) |
| RoundTrip.StringRoundTrip | decode.go:91-93 | a written string payload reads back and is consumed exactly |
| RoundTrip.BinaryRoundTrip | decode.go:104-106 | a written blob reads back and is consumed exactly |
| RoundTrip.Int32RoundTrip | decode.go:125-127 | a written int32 reads back |
| RoundTrip.Int64RoundTrip | decode.go:129-131 | a written int64, native int or time reads back as int64 or time |
| RoundTrip.FixedRoundTrip | decode.go:107-119 | a written id, bool or nil reads back |
| RoundTrip.PayloadRoundTrip | decode.go:87-137 | every written payload reads back as its canonical form and is consumed exactly |
| RoundTrip.ArrayRoundTrip | decode.go:97-103 | a written array reads back as a document and ToArray returns the canonical list |
| RoundTrip.ElementRoundTrip | decode.go:78-138 | a written element with a zero-free name reads back as its canonical form and is consumed exactly |
| RoundTrip.BodyStep | decode.go:65-75 | a written element followed by a body that reads as rest reads as that element then rest |
| RoundTrip.BodyRoundTrip | decode.go:64-75 | a written body reads back as the canonical document |
| RoundTrip.DocumentRoundTrip | decode.go:50-76 | a written document anywhere in the input reads back as its canonical form and consumes exactly its bytes |
| RoundTrip.RoundTrip | correctness_test.go:63-77 | MarshalBinary then ReadDocument gives the canonical document with every byte consumed, and MarshalBinary of that document gives the same bytes |
| Encode.WriteArrayAsWritten | encode.go:63-84 | without the flush, the body of an array whose items all write and whose body fits in bufio's 4096-byte buffer is lost: the output is 00 00 00 00 00 |
| Findings.UnflushedArrayLosesItems | encode.go:72-75 | for every non-empty array of at most 4096 body bytes, the unflushed output differs from the flushed one and reads back as an empty array |

## Left out

- The bufio and bytes.Buffer plumbing and write failures of the underlying
  stream: output is a byte sequence that grows, input a byte sequence and a
  cursor.
- Go's ReadDocument returns the elements read so far together with an
  error. The model returns the error alone. The bytes a failed read
  consumed are not modelled either.
- Go's WriteElement returns the error of the element only. The model keeps
  what it had written (tag, name) in `Output.bytes`. WriteDocument and
  WriteArray write nothing to their destination on error, as in Go.
- Negative lengths. Go's `make` panics on them (decode.go:55, 160, 173).
  The model returns the error `NegativeLength` instead. An `n` of MinInt32
  in ReadString wraps to MaxInt32 (`Decode.Int32Pred`) and reads that many
  bytes, as Go does.
- time.Time: a timestamp is its Unix milliseconds. Locations and
  nanoseconds are not modelled.
- Go's platform `int` is taken as 64 bits (`NativeInt` holds an int64).
- FromMap: its order is Go's map iteration order, which is unspecified.
- D.String: fmt rendering.
- subtype.go: a list of constants; only SubtypeGenericBinary (0x00) is used
  by the writer.
- The randomised generator of correctness_test.go. Only its round-trip
  assertion is modelled (`RoundTrip.RoundTrip`).
- The commented-out tags of ReadElement: they fall into the
  unknown-tag error, as in Go.
- RoundTrip.RoundTrip: holds only for names without a zero byte, at every
  depth. writeCString does not reject such names, but readCString stops
  at the first zero.
- Encode.WriteArrayAsWritten: describes only arrays whose items all write
  and whose body is at most 4096 bytes (bufio's default buffer). Larger
  bodies, and the errors of nested arrays and documents, depend on bufio's
  flushing schedule and are not modelled.
- Encode.WriteElement: an array value, at any depth, is written with the
  flushed WriteArray, not Go's as-written output (see "## Findings").
- Encode.WriteDocument: arrays inside the document are written with the
  flushed WriteArray, as for WriteElement.
- Encode.MarshalBinary: arrays inside the document are written with the
  flushed WriteArray, as for WriteElement.
- Document.Normalize: the document is an `array<Element>` updated in
  place. It stands for the backing array of Go's slice; other slices
  sharing that backing array are not modelled.

## Findings

| source | as written | input that shows it | evidently intended | confidence | as-written member | corrected member |
|---|---|---|---|---|---|---|
| encode.go:72-75 | WriteArray reads `b.Len()` and copies `b` without flushing the bufio.Writer `buf` the elements were written to | WriteArray of `[int32(1)]`: the body stays in `buf`, so the output is 00 00 00 00 00 instead of 07 00 00 00 10 30 00 01 00 00 00 00, and it reads back as an empty array | flush `buf` before measuring, as WriteDocument does at encode.go:46 | not executed; high (every non-empty array of at most 4096 body bytes) | Findings.UnflushedArrayLosesItems | EncodeProperties.ArrayBytesIsDocumentBytes |
