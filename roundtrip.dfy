/** The round trip of the codec: a document of supported values with
    zero-free names reads back from its own bytes as its canonical form, in
    which native ints have become int64, and the canonical form writes the
    same bytes again. */
module RoundTrip {
  import opened Wire
  import opened Document
  import opened Encode
  import opened EncodeProperties
  import opened Decode
  import opened DecodeProperties

  // The primitive readers invert the primitive writers.

  /** ReadInt32 reads back what WriteInt32 wrote. */
  lemma ReadInt32At(data: seq<byte>, q: nat, n: int32)
    requires At(data, q, Int32Bytes(n))
    ensures ReadInt32(data, q) == Ok(Step(n, q + 4))
  {
    Int32OfUint32Of(n);
  }

  /** WriteInt32 writes back the four bytes ReadInt32 read. */
  lemma Int32BytesOfRead(data: seq<byte>, q: nat)
    requires q + 4 <= |data|
    ensures Int32Bytes(ReadInt32(data, q).value.item) == data[q..q + 4]
  {
    var n := ReadInt32(data, q).value.item;
    LittleEndianOfFromLittleEndian(data[q..q + 4]);
  }

  lemma ReadInt64At(data: seq<byte>, q: nat, n: int64)
    requires At(data, q, Int64Bytes(n))
    ensures ReadInt64(data, q) == Ok(Step(n, q + 8))
  {
    Int64OfUint64Of(n);
  }

  lemma Int64BytesOfRead(data: seq<byte>, q: nat)
    requires q + 8 <= |data|
    ensures Int64Bytes(ReadInt64(data, q).value.item) == data[q..q + 8]
  {
    var n := ReadInt64(data, q).value.item;
    LittleEndianOfFromLittleEndian(data[q..q + 8]);
  }

  /** ReadString reads back what WriteString wrote, zero bytes included. */
  lemma ReadStringAt(data: seq<byte>, q: nat, s: seq<byte>)
    requires StringBytes(s).Ok? && At(data, q, StringBytes(s).value)
    ensures ReadString(data, q) == Ok(Step(s, q + |s| + 5))
  {
    var w := StringBytes(s).value;
    assert w == Int32Bytes(|s| + 1) + (s + [0]);
    AtSplit(data, q, Int32Bytes(|s| + 1), s + [0]);
    AtSplit(data, q + 4, s, [0]);
    ReadInt32At(data, q, |s| + 1);
  }

  /** ReadBinary reads back the bytes and the subtype WriteBinary wrote. */
  lemma ReadBinaryAt(data: seq<byte>, q: nat, b: seq<byte>, st: byte)
    requires BinaryBytes(b, st).Ok? && At(data, q, BinaryBytes(b, st).value)
    ensures ReadBinary(data, q) == Ok(Step((b, st), q + |b| + 5))
  {
    assert BinaryBytes(b, st).value == Int32Bytes(|b|) + [st] + b;
    AtSplit(data, q, Int32Bytes(|b|) + [st], b);
    AtSplit(data, q, Int32Bytes(|b|), [st]);
    ReadInt32At(data, q, |b|);
  }

  // The canonical form: what the reader returns for a written value.

  /** A native int reads back as int64; nested documents and arrays are
      canonical throughout. */
  function Canon(v: Value): (c: Value)
    ensures !c.NativeInt?
    decreases ValueSize(v), 1
  {
    match v
    case NativeInt(n) => Int64(n)
    case Doc(d) => Doc(CanonDoc(d))
    case Arr(a) => Arr(CanonList(a))
    case _ => v
  }

  function CanonDoc(d: D): (c: D)
    ensures |c| == |d|
    decreases DocSize(d), 0
  {
    if d == [] then []
    else
      ElementValueSmaller(d, 0);
      assert d[0..] == d;
      [E(d[0].name, Canon(d[0].value))] + CanonDoc(d[1..])
  }

  function CanonList(a: seq<Value>): (c: seq<Value>)
    ensures |c| == |a|
    decreases ListSize(a), 0
  {
    if a == [] then []
    else
      ListItemSmaller(a, 0);
      [Canon(a[0])] + CanonList(a[1..])
  }

  /** Every name, at every depth, is free of zero bytes: writeCString does
      not reject them, but readCString stops at the first. */
  predicate CleanValue(v: Value)
    decreases ValueSize(v), 1
  {
    match v
    case Doc(d) => CleanDoc(d)
    case Arr(a) => CleanList(a)
    case _ => true
  }

  predicate CleanDoc(d: D)
    decreases DocSize(d), 0
  {
    d == [] ||
    (ElementValueSmaller(d, 0);
     assert d[0..] == d;
     0 !in d[0].name && CleanValue(d[0].value) && CleanDoc(d[1..]))
  }

  predicate CleanList(a: seq<Value>)
    decreases ListSize(a), 0
  {
    a == [] || (ListItemSmaller(a, 0); CleanValue(a[0]) && CleanList(a[1..]))
  }

  // Canonical values write the same bytes.

  lemma {:induction false} CanonPayload(v: Value)
    requires !v.Unsupported?
    ensures !Canon(v).Unsupported? && TagOf(Canon(v)) == TagOf(v)
    ensures PayloadBytes(Canon(v)) == PayloadBytes(v)
    decreases ValueSize(v), 1
  {
    match v
    case Doc(d) =>
      CanonBody(d);
    case Arr(a) =>
      CanonArrayBody(a, 0);
    case _ =>
  }

  lemma {:induction false} CanonElement(name: seq<byte>, v: Value)
    ensures ElementBytes(name, Canon(v)) == ElementBytes(name, v)
    decreases ValueSize(v), 2
  {
    if !v.Unsupported? {
      CanonPayload(v);
    }
  }

  lemma {:induction false} CanonBody(d: D)
    ensures BodyBytes(CanonDoc(d)) == BodyBytes(d)
    decreases DocSize(d), 0
  {
    if d != [] {
      ElementValueSmaller(d, 0);
      assert d[0..] == d;
      CanonElement(d[0].name, d[0].value);
      CanonBody(d[1..]);
      var c := CanonDoc(d);
      assert c[0] == E(d[0].name, Canon(d[0].value)) && c[1..] == CanonDoc(d[1..]);
    }
  }

  lemma {:induction false} CanonArrayBody(a: seq<Value>, k: nat)
    ensures ArrayBodyBytes(CanonList(a), k) == ArrayBodyBytes(a, k)
    decreases ListSize(a), 0
  {
    if a != [] {
      ListItemSmaller(a, 0);
      CanonElement(Itoa(k), a[0]);
      CanonArrayBody(a[1..], k + 1);
      var c := CanonList(a);
      assert c[0] == Canon(a[0]) && c[1..] == CanonList(a[1..]);
    }
  }

  /** The canonical form of a document writes exactly its bytes. */
  lemma CanonDocument(d: D)
    ensures DocumentBytes(CanonDoc(d)) == DocumentBytes(d)
  {
    CanonBody(d);
  }

  // Arrays travel as documents named "0".."n-1".

  lemma {:induction false} CanonIndexed(a: seq<Value>, k: nat)
    ensures CanonDoc(IndexedFrom(a, k)) == IndexedFrom(CanonList(a), k)
  {
    if a != [] {
      CanonIndexed(a[1..], k + 1);
      var d := IndexedFrom(a, k);
      assert d[1..] == IndexedFrom(a[1..], k + 1);
      assert CanonList(a)[1..] == CanonList(a[1..]);
    }
  }

  lemma {:induction false} CleanIndexed(a: seq<Value>, k: nat)
    requires CleanList(a)
    ensures CleanDoc(IndexedFrom(a, k))
  {
    if a != [] {
      CleanIndexed(a[1..], k + 1);
      var d := IndexedFrom(a, k);
      assert d[1..] == IndexedFrom(a[1..], k + 1);
      var name := Itoa(k);
      assert forall i :: 0 <= i < |name| ==> name[i] != 0;
    }
  }

  // The round trip, by induction on the value.

  /** The payload of v is written at q in data. */
  ghost predicate PayloadAt(data: seq<byte>, q: nat, v: Value)
  {
    !v.Unsupported? && PayloadBytes(v).Ok? && At(data, q, PayloadBytes(v).value)
  }

  /** Reading the payload of v's tag at q gives v's canonical form and
      stops right after what was written. */
  ghost predicate PayloadReadsBack(data: seq<byte>, q: nat, v: Value)
    requires PayloadAt(data, q, v)
  {
    ParsePayload(data, TagOf(v), q) == Ok(Step(Canon(v), q + |PayloadBytes(v).value|))
  }

  lemma StringRoundTrip(data: seq<byte>, q: nat, v: Value)
    requires v.Str? && PayloadAt(data, q, v)
    ensures PayloadReadsBack(data, q, v)
  {
    ReadStringAt(data, q, v.text);
  }

  /** The subtype read back is the 0x00 written; the reader drops it. */
  lemma BinaryRoundTrip(data: seq<byte>, q: nat, v: Value)
    requires v.Bin? && PayloadAt(data, q, v)
    ensures PayloadReadsBack(data, q, v)
  {
    ReadBinaryAt(data, q, v.data, SubtypeGenericBinary);
  }

  lemma Int32RoundTrip(data: seq<byte>, q: nat, v: Value)
    requires v.Int32? && PayloadAt(data, q, v)
    ensures PayloadReadsBack(data, q, v)
  {
    ReadInt32At(data, q, v.n32);
  }

  /** int64, a native int and a time all travel as eight bytes under their
      tag; the native int comes back as int64. */
  lemma Int64RoundTrip(data: seq<byte>, q: nat, v: Value)
    requires (v.Int64? || v.NativeInt? || v.Time?) && PayloadAt(data, q, v)
    ensures PayloadReadsBack(data, q, v)
  {
    if v.Int64? {
      ReadInt64At(data, q, v.n64);
    } else if v.NativeInt? {
      ReadInt64At(data, q, v.n);
    } else {
      ReadInt64At(data, q, v.millis);
    }
  }

  lemma FixedRoundTrip(data: seq<byte>, q: nat, v: Value)
    requires (v.ObjectId? || v.Bool? || v.Null?) && PayloadAt(data, q, v)
    ensures PayloadReadsBack(data, q, v)
  {
  }

  lemma {:induction false} PayloadRoundTrip(data: seq<byte>, q: nat, v: Value)
    requires PayloadAt(data, q, v) && CleanValue(v)
    ensures PayloadReadsBack(data, q, v)
    decreases ValueSize(v), 1
  {
    if v.Doc? {
      DocumentRoundTrip(data, q, v.doc, PayloadBytes(v).value);
    } else if v.Arr? {
      ArrayRoundTrip(data, q, v);
    } else if v.Str? {
      StringRoundTrip(data, q, v);
    } else if v.Bin? {
      BinaryRoundTrip(data, q, v);
    } else if v.Int32? {
      Int32RoundTrip(data, q, v);
    } else if v.Int64? || v.NativeInt? || v.Time? {
      Int64RoundTrip(data, q, v);
    } else {
      FixedRoundTrip(data, q, v);
    }
  }

  /** An array is written as the document FromArray builds, read back as a
      document and turned back into a list by ToArray. */
  lemma {:induction false} ArrayRoundTrip(data: seq<byte>, q: nat, v: Value)
    requires v.Arr? && PayloadAt(data, q, v) && CleanValue(v)
    ensures PayloadReadsBack(data, q, v)
    decreases ValueSize(v), 0
  {
    var a := v.items;
    ArrayBytesIsDocumentBytes(a);
    IndexedFromSize(a, 0);
    CleanIndexed(a, 0);
    DocumentRoundTrip(data, q, Indexed(a), PayloadBytes(v).value);
    CanonIndexed(a, 0);
    ToArrayFromArray(CanonList(a));
  }

  lemma AtParts(data: seq<byte>, pos: nat, t: byte, m: seq<byte>, p: seq<byte>)
    requires At(data, pos, [t] + m + p)
    ensures pos < |data| && data[pos] == t && At(data, pos + 1, m) && At(data, pos + 1 + |m|, p)
  {
    AtSplit(data, pos, [t] + m, p);
    AtSplit(data, pos, [t], m);
  }

  /** An element that writes without error is a supported value with a
      writable name and payload, laid out as tag, name, zero, payload. */
  lemma ElementWritten(name: seq<byte>, v: Value)
    requires ElementBytes(name, v).failure.None?
    ensures !v.Unsupported? && |name| < MaxInt32 && PayloadBytes(v).Ok?
    ensures ElementBytes(name, v).bytes == [TagOf(v)] + (name + [0]) + PayloadBytes(v).value
  {
  }

  /** A written element starts with its tag and its terminated name... */
  lemma ElementHead(data: seq<byte>, pos: nat, name: seq<byte>, v: Value)
    requires ElementBytes(name, v).failure.None? && At(data, pos, ElementBytes(name, v).bytes)
    ensures !v.Unsupported? && PayloadBytes(v).Ok?
    ensures pos < |data| && data[pos] == TagOf(v) && At(data, pos + 1, name + [0])
  {
    ElementWritten(name, v);
    AtParts(data, pos, TagOf(v), name + [0], PayloadBytes(v).value);
  }

  /** ...and its payload follows the name's terminator. */
  lemma ElementPayload(data: seq<byte>, pos: nat, name: seq<byte>, v: Value)
    requires ElementBytes(name, v).failure.None? && At(data, pos, ElementBytes(name, v).bytes)
    ensures PayloadAt(data, pos + 2 + |name|, v)
    ensures |ElementBytes(name, v).bytes| == 2 + |name| + |PayloadBytes(v).value|
  {
    ElementWritten(name, v);
    AtParts(data, pos, TagOf(v), name + [0], PayloadBytes(v).value);
  }

  /** An element reads as its tag, its name and the payload the tag
      selects. */
  lemma ElementOfParts(data: seq<byte>, pos: nat, name: seq<byte>, c: Value, next: nat)
    requires pos < |data| && ReadCString(data, pos + 1) == Ok(Step(name, pos + 2 + |name|))
    requires pos + 2 + |name| <= |data| && ParsePayload(data, data[pos], pos + 2 + |name|) == Ok(Step(c, next))
    ensures ParseElement(data, pos) == Ok(Step(E(name, c), next))
  {
    ElementHeader(data, pos);
    var header := ReadCString(data, pos + 1).value;
    assert header.next == pos + 2 + |name| && header.item == name;
  }

  /** An element whose payload reads back reads back as a whole: the tag
      and the name come first. */
  lemma ElementFromPayload(data: seq<byte>, pos: nat, name: seq<byte>, v: Value)
    requires 0 !in name
    requires ElementBytes(name, v).failure.None? && At(data, pos, ElementBytes(name, v).bytes)
    requires PayloadAt(data, pos + 2 + |name|, v) && PayloadReadsBack(data, pos + 2 + |name|, v)
    ensures ParseElement(data, pos) == Ok(Step(E(name, Canon(v)), pos + |ElementBytes(name, v).bytes|))
  {
    ElementHead(data, pos, name, v);
    ElementPayload(data, pos, name, v);
    ReadCStringAt(data, pos + 1, name);
    ElementOfParts(data, pos, name, Canon(v), pos + |ElementBytes(name, v).bytes|);
  }

  /** An element with a zero-free name reads back as written: tag, name,
      then the payload the tag selects. */
  lemma {:induction false} ElementRoundTrip(data: seq<byte>, pos: nat, name: seq<byte>, v: Value)
    requires 0 !in name && CleanValue(v)
    requires ElementBytes(name, v).failure.None? && At(data, pos, ElementBytes(name, v).bytes)
    ensures ParseElement(data, pos) == Ok(Step(E(name, Canon(v)), pos + |ElementBytes(name, v).bytes|))
    decreases ValueSize(v), 2
  {
    ElementPayload(data, pos, name, v);
    PayloadRoundTrip(data, pos + 2 + |name|, v);
    ElementFromPayload(data, pos, name, v);
  }

  /** A body that writes without error is its first element's bytes
      followed by the rest of the body. */
  lemma BodyWritten(d: D)
    requires d != [] && BodyBytes(d).Ok?
    ensures ElementBytes(d[0].name, d[0].value).failure.None? && BodyBytes(d[1..]).Ok?
    ensures BodyBytes(d).value == ElementBytes(d[0].name, d[0].value).bytes + BodyBytes(d[1..]).value
  {
  }

  /** The bytes of body d are written at pos and end the input. */
  ghost predicate BodyAt(body: seq<byte>, pos: nat, d: D)
  {
    BodyBytes(d).Ok? && At(body, pos, BodyBytes(d).value) && pos + |BodyBytes(d).value| == |body|
  }

  /** A written body with zero-free names at pos is its first element, then
      the rest of the body; both meet the round trip's requirements. */
  lemma BodyHead(body: seq<byte>, pos: nat, d: D)
    requires d != [] && CleanDoc(d) && BodyAt(body, pos, d)
    ensures 0 !in d[0].name && CleanValue(d[0].value)
    ensures ElementBytes(d[0].name, d[0].value).failure.None?
    ensures At(body, pos, ElementBytes(d[0].name, d[0].value).bytes)
    ensures CleanDoc(d[1..]) && BodyAt(body, pos + |ElementBytes(d[0].name, d[0].value).bytes|, d[1..])
  {
    BodyWritten(d);
    AtSplit(body, pos, ElementBytes(d[0].name, d[0].value).bytes, BodyBytes(d[1..]).value);
  }

  /** CanonDoc works element by element. */
  lemma CanonDocCons(d: D)
    requires d != []
    ensures CanonDoc(d) == [E(d[0].name, Canon(d[0].value))] + CanonDoc(d[1..])
  {
  }

  /** A written element followed by a body that reads back as rest reads
      back as the element, then rest. */
  lemma {:induction false} BodyStep(body: seq<byte>, pos: nat, name: seq<byte>, v: Value, rest: D)
    requires 0 !in name && CleanValue(v)
    requires ElementBytes(name, v).failure.None? && At(body, pos, ElementBytes(name, v).bytes)
    requires ParseBody(body, pos + |ElementBytes(name, v).bytes|) == Ok(rest)
    ensures ParseBody(body, pos) == Ok([E(name, Canon(v))] + rest)
    decreases ValueSize(v), 3
  {
    ElementRoundTrip(body, pos, name, v);
    var e := ParseElement(body, pos);
    assert e == Ok(Step(E(name, Canon(v)), pos + |ElementBytes(name, v).bytes|));
    BodyOrder(body, pos);
    assert ParseBody(body, pos) == Prepend([e.value.item], ParseBody(body, e.value.next));
  }

  /** A body followed by nothing reads back element by element. */
  lemma {:induction false} BodyRoundTrip(body: seq<byte>, pos: nat, d: D)
    requires CleanDoc(d) && BodyAt(body, pos, d)
    ensures ParseBody(body, pos) == Ok(CanonDoc(d))
    decreases DocSize(d), 1
  {
    if d == [] {
      BodyEndsAtEOF(body);
    } else {
      BodyHead(body, pos, d);
      ElementValueSmaller(d, 0);
      BodyRoundTrip(body, pos + |ElementBytes(d[0].name, d[0].value).bytes|, d[1..]);
      BodyStep(body, pos, d[0].name, d[0].value, CanonDoc(d[1..]));
      CanonDocCons(d);
    }
  }

  /** A written document at pos is its length prefix, its body and a zero. */
  lemma DocumentParts(data: seq<byte>, pos: nat, d: D)
    requires DocumentBytes(d).Ok? && At(data, pos, DocumentBytes(d).value)
    ensures BodyBytes(d).Ok?
    ensures var body := BodyBytes(d).value;
            |DocumentBytes(d).value| == |body| + 5 &&
            ReadInt32(data, pos) == Ok(Step(|body| as int32, pos + 4)) &&
            pos + 4 + |body| < |data| && data[pos + 4..pos + 4 + |body|] == body &&
            data[pos + 4 + |body|] == 0
  {
    var body := BodyBytes(d).value;
    DocumentFraming(d);
    AtSplit(data, pos, Int32Bytes(|body|) + body, [0]);
    AtSplit(data, pos, Int32Bytes(|body|), body);
    ReadInt32At(data, pos, |body|);
  }

  /** A document whose length prefix, body and terminator are in place
      reads as its body. */
  lemma DocumentOfBody(data: seq<byte>, pos: nat, body: seq<byte>, doc: D)
    requires pos + 4 + |body| < |data| && |body| <= MaxInt32
    requires ReadInt32(data, pos) == Ok(Step(|body| as int32, pos + 4))
    requires data[pos + 4..pos + 4 + |body|] == body && data[pos + 4 + |body|] == 0
    requires ParseBody(body, 0) == Ok(doc)
    ensures ParseDocument(data, pos) == Ok(Step(doc, pos + 5 + |body|))
  {
  }

  /** The body of a written document is where the reader looks for it. */
  lemma BodyOfDocument(d: D)
    requires DocumentBytes(d).Ok?
    ensures BodyAt(BodyBytes(d).value, 0, d)
  {
    DocumentFraming(d);
    var body := BodyBytes(d).value;
    assert body[0..|body|] == body;
  }

  /** A written document reads as whatever its body reads as. */
  lemma DocumentReads(data: seq<byte>, pos: nat, d: D, bytes: seq<byte>, doc: D)
    requires DocumentBytes(d) == Ok(bytes) && At(data, pos, bytes)
    requires BodyBytes(d).Ok? && ParseBody(BodyBytes(d).value, 0) == Ok(doc)
    ensures ParseDocument(data, pos) == Ok(Step(doc, pos + |bytes|))
  {
    DocumentParts(data, pos, d);
    DocumentOfBody(data, pos, BodyBytes(d).value, doc);
  }

  /** A document with zero-free names reads back as its canonical form and
      consumes exactly what was written. */
  lemma {:induction false} DocumentRoundTrip(data: seq<byte>, pos: nat, d: D, bytes: seq<byte>)
    requires CleanDoc(d) && DocumentBytes(d) == Ok(bytes) && At(data, pos, bytes)
    ensures ParseDocument(data, pos) == Ok(Step(CanonDoc(d), pos + |bytes|))
    decreases DocSize(d), 2
  {
    BodyOfDocument(d);
    BodyRoundTrip(BodyBytes(d).value, 0, d);
    DocumentReads(data, pos, d, bytes, CanonDoc(d));
  }

  /** The round trip of the codec: a document with zero-free names that
      MarshalBinary writes is read back by ReadDocument as its canonical
      form, consuming every byte, and writing what was read gives the same
      bytes again. */
  lemma RoundTrip(d: D)
    requires CleanDoc(d) && DocumentBytes(d).Ok?
    ensures var b := DocumentBytes(d).value;
            ParseDocument(b, 0) == Ok(Step(CanonDoc(d), |b|)) &&
            DocumentBytes(CanonDoc(d)) == Ok(b)
  {
    var b := DocumentBytes(d).value;
    assert b[0..|b|] == b;
    DocumentRoundTrip(b, 0, d, b);
    CanonDocument(d);
  }
}
