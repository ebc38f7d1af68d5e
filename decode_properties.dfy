/** Properties of the reader: framing of a document, the errors of a short
    or unterminated document, EOF as the end of a body, the tags without
    payload, unknown tags, invalid arrays and the discarded binary subtype. */
module DecodeProperties {
  import opened Wire
  import opened Document
  import opened Decode

  // What each reader reads.

  /** io.ReadFull returns exactly the next n bytes. */
  lemma ReadFullReads(data: seq<byte>, pos: nat, n: nat)
    requires pos <= |data|
    ensures ReadFull(data, pos, n).Ok? ==> ReadFull(data, pos, n).value == Step(data[pos..pos + n], pos + n)
  {
  }

  /** readCString succeeds exactly when a zero follows pos; it returns the
      zero-free bytes before the first zero and moves past that zero. */
  lemma ReadCStringReads(data: seq<byte>, pos: nat)
    requires pos <= |data|
    ensures ReadCString(data, pos).Ok? <==> 0 in data[pos..]
    ensures ReadCString(data, pos).Ok? ==>
              var s := ReadCString(data, pos).value;
              0 !in s.item && s.next == pos + |s.item| + 1 <= |data| &&
              data[pos..s.next - 1] == s.item && data[s.next - 1] == 0
  {
    match ZeroFrom(data, pos)
    case None =>
      assert forall i :: 0 <= i < |data[pos..]| ==> data[pos..][i] == data[pos + i];
    case Some(z) =>
      assert data[pos..][z - pos] == 0;
      var name := data[pos..z];
      assert forall i :: 0 <= i < |name| ==> name[i] == data[pos + i];
  }

  /** ReadInt32 and ReadInt64 return the integers whose two's-complement
      little-endian images are the next four and eight bytes. */
  lemma ReadIntReads(data: seq<byte>, pos: nat)
    requires pos <= |data|
    ensures ReadInt32(data, pos).Ok? ==> Uint32Of(ReadInt32(data, pos).value.item) == FromLittleEndian(data[pos..pos + 4])
    ensures ReadInt64(data, pos).Ok? ==> Uint64Of(ReadInt64(data, pos).value.item) == FromLittleEndian(data[pos..pos + 8])
  {
    Pow256Widths();
  }

  /** An ObjectId is the next twelve bytes. */
  lemma ReadObjectIDReads(data: seq<byte>, pos: nat)
    requires pos <= |data|
    ensures ReadObjectID(data, pos).Ok? ==> ReadObjectID(data, pos).value == Step(data[pos..pos + 12], pos + 12)
  {
  }

  /** ReadBinary returns the length-prefixed bytes after the subtype byte,
      and the subtype byte itself. */
  lemma ReadBinaryReads(data: seq<byte>, pos: nat)
    requires pos <= |data|
    ensures ReadBinary(data, pos).Ok? ==>
              var s := ReadBinary(data, pos).value;
              s.next == pos + 5 + |s.item.0| <= |data| &&
              data[pos + 5..s.next] == s.item.0 && data[pos + 4] == s.item.1 &&
              FromLittleEndian(data[pos..pos + 4]) == |s.item.0|
  {
    ReadIntReads(data, pos);
  }

  /** ReadString returns the n - 1 bytes after an int32 n and checks the zero
      after them. */
  lemma ReadStringReads(data: seq<byte>, pos: nat)
    requires pos <= |data|
    ensures ReadString(data, pos).Ok? ==>
              var s := ReadString(data, pos).value;
              s.next == pos + 4 + |s.item| + 1 <= |data| &&
              data[pos + 4..pos + 4 + |s.item|] == s.item && data[s.next - 1] == 0 &&
              FromLittleEndian(data[pos..pos + 4]) == |s.item| + 1
  {
    ReadIntReads(data, pos);
  }

  /** The ways ReadString fails. The input may end before the prefix (EOF),
      inside it (UnexpectedEOF), right after it while bytes are still
      expected (EOF), inside the bytes (UnexpectedEOF) or where the
      terminator should be (EOF); a byte other than zero there is NotZero.
      A prefix n <= 0 makes n - 1 negative (NegativeLength), except
      MinInt32, where n - 1 wraps to MaxInt32. */
  lemma ReadStringFailures(data: seq<byte>, pos: nat)
    requires pos <= |data|
    ensures pos == |data| ==> ReadString(data, pos) == Err(EOF)
    ensures pos < |data| < pos + 4 ==> ReadString(data, pos) == Err(UnexpectedEOF)
    ensures pos + 4 <= |data| ==>
              var n := ReadInt32(data, pos).value.item;
              -0x8000_0000 < n <= 0 ==> ReadString(data, pos) == Err(NegativeLength)
    ensures pos + 4 <= |data| ==>
              var len := Int32Pred(ReadInt32(data, pos).value.item);
              var end := pos + 4 + len;
              len >= 0 ==>
                (end > |data| ==> ReadString(data, pos) == Err(if pos + 4 == |data| then EOF else UnexpectedEOF)) &&
                (end == |data| ==> ReadString(data, pos) == Err(EOF)) &&
                (end < |data| && data[end] != 0 ==> ReadString(data, pos) == Err(NotZero)) &&
                (end < |data| && data[end] == 0 ==> ReadString(data, pos).Ok?)
  {
  }

  /** The ways ReadBinary fails. The subtype byte is read before the
      length is checked, so a negative length is reported only when that
      byte is present. */
  lemma ReadBinaryFailures(data: seq<byte>, pos: nat)
    requires pos <= |data|
    ensures pos == |data| ==> ReadBinary(data, pos) == Err(EOF)
    ensures pos < |data| < pos + 4 ==> ReadBinary(data, pos) == Err(UnexpectedEOF)
    ensures pos + 4 == |data| ==> ReadBinary(data, pos) == Err(EOF)
    ensures pos + 4 < |data| ==>
              var n := ReadInt32(data, pos).value.item;
              (n < 0 ==> ReadBinary(data, pos) == Err(NegativeLength)) &&
              (n >= 0 && pos + 5 + n > |data| ==>
                 ReadBinary(data, pos) == Err(if pos + 5 == |data| then EOF else UnexpectedEOF)) &&
              (n >= 0 && pos + 5 + n <= |data| ==> ReadBinary(data, pos).Ok?)
  {
  }

  /** A document that reads cleanly occupies 4 + L + 1 bytes, where L is its
      length prefix; its byte at 4 + L is zero, and its elements are those of
      the L-byte body alone. */
  lemma DocumentExtent(data: seq<byte>, pos: nat)
    requires pos <= |data| && ParseDocument(data, pos).Ok?
    ensures ReadInt32(data, pos).Ok? && ReadInt32(data, pos).value.item >= 0
    ensures var L := ReadInt32(data, pos).value.item;
            ParseDocument(data, pos).value.next == pos + 4 + L + 1 &&
            data[pos + 4 + L] == 0 &&
            ParseBody(data[pos + 4..pos + 4 + L], 0) == Ok(ParseDocument(data, pos).value.item)
  {
  }

  /** A length prefix that runs past the end of input fails: EOF when the
      prefix is the last thing in the input, UnexpectedEOF otherwise. */
  lemma ShortBody(data: seq<byte>, pos: nat)
    requires pos + 4 <= |data|
    requires ReadInt32(data, pos).value.item >= 0
    requires pos + 4 + ReadInt32(data, pos).value.item > |data|
    ensures ParseDocument(data, pos) == Err(if pos + 4 == |data| then EOF else UnexpectedEOF)
  {
  }

  /** A negative length prefix fails (Go panics in make). */
  lemma NegativeDocumentLength(data: seq<byte>, pos: nat)
    requires pos + 4 <= |data| && ReadInt32(data, pos).value.item < 0
    ensures ParseDocument(data, pos) == Err(NegativeLength)
  {
  }

  /** The byte after the body must be zero: NotZero when it is not, EOF when
      the input ends right after the body. */
  lemma MissingTerminator(data: seq<byte>, pos: nat)
    requires pos + 4 <= |data|
    requires ReadInt32(data, pos).value.item >= 0
    requires pos + 4 + ReadInt32(data, pos).value.item <= |data|
    requires var z := pos + 4 + ReadInt32(data, pos).value.item;
             z == |data| || data[z] != 0
    ensures var z := pos + 4 + ReadInt32(data, pos).value.item;
            ParseDocument(data, pos) == Err(if z == |data| then EOF else NotZero)
  {
  }

  /** EOF at the start of an element ends the document without error. */
  lemma BodyEndsAtEOF(body: seq<byte>)
    ensures ParseBody(body, |body|) == Ok([])
  {
  }

  /** The elements of a body come in wire order: the first one read, then
      the rest; an element error other than EOF is the body's error. */
  lemma {:induction false} BodyOrder(body: seq<byte>, pos: nat)
    requires pos <= |body|
    ensures ParseElement(body, pos).Ok? ==>
              ParseBody(body, pos) == Prepend([ParseElement(body, pos).value.item],
                                              ParseBody(body, ParseElement(body, pos).value.next))
    ensures ParseElement(body, pos).Err? && ParseElement(body, pos).error != EOF ==>
              ParseBody(body, pos) == Err(ParseElement(body, pos).error)
    ensures ParseElement(body, pos) == Err(EOF) ==> ParseBody(body, pos) == Ok([])
  {
  }

  /** ReadDocument's loop never lets EOF escape: a document fails only
      with another error. Each element takes at least its tag and the
      zero ending its name, so a body of n bytes holds at most n / 2. */
  lemma {:induction false} BodyNeverEOF(body: seq<byte>, pos: nat)
    requires pos <= |body|
    ensures ParseBody(body, pos).Err? ==> ParseBody(body, pos).error != EOF
    ensures ParseBody(body, pos).Ok? ==> 2 * |ParseBody(body, pos).value| <= |body| - pos
    decreases |body| - pos
  {
    BodyOrder(body, pos);
    if ParseElement(body, pos).Ok? {
      BodyNeverEOF(body, ParseElement(body, pos).value.next);
    }
  }

  /** The tags with a payload. */
  predicate HasPayload(t: byte)
  {
    t in {TagString, TagDocument, TagArray, TagBinary, TagObjectId, TagBool, TagTime, TagInt32, TagInt64}
  }

  /** The name is read before the tag is examined: a missing terminator is
      EOF whatever the tag, and the element is its payload under its name. */
  lemma ElementHeader(data: seq<byte>, pos: nat)
    requires pos < |data|
    ensures ReadCString(data, pos + 1).Err? ==> ParseElement(data, pos) == Err(EOF)
    ensures ReadCString(data, pos + 1).Ok? ==>
              var name := ReadCString(data, pos + 1).value;
              var p := ParsePayload(data, data[pos], name.next);
              ParseElement(data, pos) == if p.Err? then Err(p.error) else Ok(Step(E(name.item, p.value.item), p.value.next))
  {
  }

  /** Every payload read meets EOF at the end of input. */
  lemma PayloadAtEnd(data: seq<byte>, t: byte)
    requires HasPayload(t)
    ensures ParsePayload(data, t, |data|) == Err(EOF)
  {
  }

  /** A trailing element cut off right after its name is dropped silently:
      its payload read meets EOF, which ends the body without error. */
  lemma TruncatedElementDropped(body: seq<byte>, pos: nat)
    requires pos < |body| && HasPayload(body[pos])
    requires ReadCString(body, pos + 1).Ok? && ReadCString(body, pos + 1).value.next == |body|
    ensures ParseElement(body, pos) == Err(EOF)
    ensures ParseBody(body, pos) == Ok([])
  {
    ElementHeader(body, pos);
    PayloadAtEnd(body, body[pos]);
  }

  /** An element read meets EOF exactly when the body ends before its tag,
      its name has no terminator, or its payload read meets EOF; then the
      element and everything after it are dropped without error. */
  lemma ElementEOF(body: seq<byte>, pos: nat)
    requires pos <= |body|
    ensures ParseElement(body, pos) == Err(EOF) <==>
              pos == |body| ||
              (pos < |body| &&
               (ReadCString(body, pos + 1).Err? ||
                ParsePayload(body, body[pos], ReadCString(body, pos + 1).value.next) == Err(EOF)))
    ensures ParseElement(body, pos) == Err(EOF) ==> ParseBody(body, pos) == Ok([])
  {
    if pos < |body| {
      ElementHeader(body, pos);
    }
    BodyOrder(body, pos);
  }

  /** A string element whose prefix promises more bytes than the body holds
      is dropped: {a: string} with prefix 5 and nothing after it. */
  lemma ExampleShortStringDropped()
    ensures ParseBody([0x02, 0x61, 0, 5, 0, 0, 0], 0) == Ok([])
  {
    var body: seq<byte> := [0x02, 0x61, 0, 5, 0, 0, 0];
    ReadCStringAt(body, 1, [0x61]);
    assert ReadInt32(body, 3).value.item == 5;
    ReadStringFailures(body, 3);
    ElementEOF(body, 0);
  }

  /** A string element whose terminator is missing at the end of the body
      is dropped too: {a: "hi"} without its closing zero. */
  lemma ExampleUnterminatedStringDropped()
    ensures ParseBody([0x02, 0x61, 0, 3, 0, 0, 0, 0x68, 0x69], 0) == Ok([])
  {
    var body: seq<byte> := [0x02, 0x61, 0, 3, 0, 0, 0, 0x68, 0x69];
    ReadCStringAt(body, 1, [0x61]);
    assert ReadInt32(body, 3).value.item == 3;
    ReadStringFailures(body, 3);
    ElementEOF(body, 0);
  }

  /** Tags 0x06 (undefined) and 0x0A (null) both read as nil and consume
      nothing. */
  lemma NullTags(data: seq<byte>, t: byte, q: nat)
    requires q <= |data| && (t == TagUndefined || t == TagNull)
    ensures ParsePayload(data, t, q) == Ok(Step(Null, q))
  {
  }

  /** Tag 0x09 reads the next eight bytes as int64 Unix milliseconds. */
  lemma TimeTag(data: seq<byte>, q: nat)
    requires q + 8 <= |data|
    ensures ParsePayload(data, TagTime, q).Ok?
    ensures var p := ParsePayload(data, TagTime, q).value;
            p.item.Time? && Uint64Of(p.item.millis) == FromLittleEndian(data[q..q + 8]) && p.next == q + 8
  {
  }

  /** A tag outside the table is an error naming the tag. */
  lemma UnknownTag(data: seq<byte>, t: byte, q: nat)
    requires q <= |data| && !HasPayload(t) && t != TagUndefined && t != TagNull
    ensures ParsePayload(data, t, q) == Err(UnknownType(t))
  {
  }

  /** Tag 0x04 reads a document and converts it with ToArray: a document
      whose names are not all of 0..n-1 fails with InvalidArray, and
      otherwise the array holds the first match of each index. */
  lemma ArrayTag(data: seq<byte>, q: nat)
    requires q <= |data| && ParseDocument(data, q).Ok?
    ensures var doc := ParseDocument(data, q).value;
            ParsePayload(data, TagArray, q) ==
              if ArrayOf(doc.item).Err? then Err(InvalidArray)
              else Ok(Step(Arr(ArrayOf(doc.item).value), doc.next))
  {
    ToArrayMeaning(ParseDocument(data, q).value.item);
  }

  /** The scan for the terminator stops at the first zero. */
  lemma {:induction false} ZeroFromFirst(data: seq<byte>, pos: nat, z: nat)
    requires pos <= z < |data| && data[z] == 0
    requires forall i :: pos <= i < z ==> data[i] != 0
    ensures ZeroFrom(data, pos) == Some(z)
    decreases z - pos
  {
    if pos < z {
      ZeroFromFirst(data, pos + 1, z);
    }
  }

  /** readCString reads back a zero-free name written with its terminator. */
  lemma ReadCStringAt(data: seq<byte>, pos: nat, name: seq<byte>)
    requires 0 !in name && At(data, pos, name + [0])
    ensures ReadCString(data, pos) == Ok(Step(name, pos + |name| + 1))
  {
    forall i | pos <= i < pos + |name| ensures data[i] != 0 {
      assert data[i] == (name + [0])[i - pos] == name[i - pos];
    }
    assert data[pos + |name|] == (name + [0])[|name|];
    ZeroFromFirst(data, pos, pos + |name|);
    assert data[pos..pos + |name|] == (name + [0])[..|name|] == name;
  }

  /** ReadBinary on an input whose subtype byte was changed reads the same
      bytes, or fails the same way. */
  lemma ReadBinarySubtype(data: seq<byte>, q: nat, st: byte)
    requires q + 4 < |data|
    ensures var bin, bin' := ReadBinary(data, q), ReadBinary(data[q + 4 := st], q);
            bin.Ok? == bin'.Ok? && (bin.Err? ==> bin' == bin) &&
            (bin.Ok? ==> bin'.value.item.0 == bin.value.item.0 && bin'.value.next == bin.value.next)
  {
    var k := q + 4;
    var other := data[k := st];
    assert other[q..q + 4] == data[q..q + 4];
    assert ReadInt32(other, q) == ReadInt32(data, q);
    var n := ReadInt32(data, q).value.item;
    if n >= 0 && k + 1 + n <= |data| {
      assert other[k + 1..k + 1 + n] == data[k + 1..k + 1 + n];
    }
  }

  /** The subtype byte of a binary is read and then discarded: changing it
      does not change what the payload reads as. */
  lemma BinarySubtypeIgnored(data: seq<byte>, q: nat, st: byte)
    requires q + 4 < |data|
    ensures ParsePayload(data[q + 4 := st], TagBinary, q) == ParsePayload(data, TagBinary, q)
  {
    ReadBinarySubtype(data, q, st);
  }
}
