/** Properties of the writer: the byte layout of each wire variant, the
    first-error rule of a document body, framing, and the equivalence of
    WriteArray (flushed) with WriteDocument over FromArray. */
module EncodeProperties {
  import opened Wire
  import opened Document
  import opened Encode

  /** writeCString: the name, then one zero, and nothing else. */
  lemma CStringLayout(s: seq<byte>)
    requires |s| < MaxInt32
    ensures var r := CStringBytes(s).value; |r| == |s| + 1 && r[..|s|] == s && r[|s|] == 0
  {
    assert (s + [0])[..|s|] == s;
  }

  /** WriteString: after the four length bytes (which read back as
      |s| + 1) come the bytes of `s` and a zero that ends the payload. */
  lemma StringLayout(s: seq<byte>)
    requires |s| < MaxInt32
    ensures var r := StringBytes(s).value; r[4..|s| + 4] == s && r[|s| + 4] == 0 && |r| == |s| + 5
  {
    var len := Int32Bytes(|s| + 1);
    assert (len + (s + [0]))[4..|s| + 4] == s;
  }

  /** WriteBinary: after the four length bytes (which read back as |bin|)
      come the subtype byte and the blob, which runs to the end. */
  lemma BinaryBytesLayout(bin: seq<byte>, subtype: byte)
    requires |bin| < MaxInt32
    ensures var r := BinaryBytes(bin, subtype).value; r[4] == subtype && r[5..] == bin
  {
    var len := Int32Bytes(|bin|);
    assert (len + [subtype] + bin)[5..] == bin;
  }

  /** Framing: after the four length bytes (which read back as |body|)
      come the body and a zero that ends the document. */
  lemma FramedLayout(body: seq<byte>)
    requires |body| < MaxInt32
    ensures var r := Framed(body).value; r[4..|body| + 4] == body && r[|body| + 4] == 0 && |r| == |body| + 5
  {
    var len := Int32Bytes(|body|);
    assert (len + body + [0])[4..|body| + 4] == body;
  }

  /** The writer's tag table: ten tags, never 0x06 (undefined), and 0x12
      for both int and int64. */
  lemma TagTable(v: Value)
    requires !v.Unsupported?
    ensures TagOf(v) in {TagString, TagDocument, TagArray, TagBinary, TagObjectId, TagBool, TagTime, TagNull, TagInt32, TagInt64}
    ensures TagOf(v) != TagUndefined
    ensures TagOf(v) == TagInt64 <==> v.Int64? || v.NativeInt?
  {
  }

  /** Only the length-prefixed payloads can fail, and each of them takes at
      least its four length bytes and one more; the others have a fixed
      width. */
  lemma PayloadWidths(v: Value)
    requires !v.Unsupported?
    ensures PayloadBytes(v).Err? ==> v.Str? || v.Bin? || v.Doc? || v.Arr?
    ensures PayloadBytes(v).Ok? && (v.Str? || v.Bin? || v.Doc? || v.Arr?) ==> |PayloadBytes(v).value| >= 5
    ensures v.Int32? ==> PayloadBytes(v).Ok? && |PayloadBytes(v).value| == 4
    ensures v.Int64? || v.NativeInt? || v.Time? ==> PayloadBytes(v).Ok? && |PayloadBytes(v).value| == 8
    ensures v.ObjectId? ==> PayloadBytes(v).Ok? && |PayloadBytes(v).value| == 12
    ensures v.Bool? ==> PayloadBytes(v).Ok? && |PayloadBytes(v).value| == 1
    ensures v.Null? ==> PayloadBytes(v) == Ok([])
  {
  }

  /** WriteElement succeeds exactly when the type is known, the name fits
      and the payload writes; then it writes the tag, the name, a zero and
      the payload. A known type writes at least its tag, even on failure. */
  lemma ElementOutcome(name: seq<byte>, v: Value)
    ensures ElementBytes(name, v).failure.None? <==> !v.Unsupported? && |name| < MaxInt32 && PayloadBytes(v).Ok?
    ensures ElementBytes(name, v).failure.None? ==> |ElementBytes(name, v).bytes| == |name| + 2 + |PayloadBytes(v).value|
    ensures !v.Unsupported? ==> |ElementBytes(name, v).bytes| >= 1 && ElementBytes(name, v).bytes[0] == TagOf(v)
  {
  }

  /** Every element takes at least two bytes (tag and name terminator). */
  lemma {:induction false} BodyBytesLength(d: D)
    ensures BodyBytes(d).Ok? ==> |BodyBytes(d).value| >= 2 * |d|
  {
    if d != [] && BodyBytes(d).Ok? {
      ElementValueSmaller(d, 0);
      assert d[0..] == d;
      ElementOutcome(d[0].name, d[0].value);
      BodyBytesLength(d[1..]);
    }
  }

  /** BodyBytesLength for the array items. */
  lemma {:induction false} ArrayBodyBytesLength(a: seq<Value>, k: nat)
    ensures ArrayBodyBytes(a, k).Ok? ==> |ArrayBodyBytes(a, k).value| >= 2 * |a|
  {
    if a != [] && ArrayBodyBytes(a, k).Ok? {
      ElementOutcome(Itoa(k), a[0]);
      ArrayBodyBytesLength(a[1..], k + 1);
    }
  }

  /** A supported value with a writable name and payload is written as
      tag, name, zero, payload. */
  lemma ElementLayout(name: seq<byte>, v: Value)
    requires !v.Unsupported? && |name| < MaxInt32 && PayloadBytes(v).Ok?
    ensures ElementBytes(name, v) == Output([TagOf(v)] + name + [0] + PayloadBytes(v).value, None)
  {
    var cs := CStringBytes(name).value;
    assert cs == name + [0];
    assert [TagOf(v)] + cs + PayloadBytes(v).value == [TagOf(v)] + name + [0] + PayloadBytes(v).value;
  }

  /** ElementLayout for a given tag and payload. */
  lemma ElementLayoutOf(name: seq<byte>, v: Value, t: byte, p: seq<byte>)
    requires !v.Unsupported? && |name| < MaxInt32 && TagOf(v) == t && PayloadBytes(v) == Ok(p)
    ensures ElementBytes(name, v) == Output([t] + name + [0] + p, None)
  {
    ElementLayout(name, v);
  }

  /** int32 is tagged 0x10 and written as four bytes. */
  lemma Int32Layout(name: seq<byte>, n32: int32)
    requires |name| < MaxInt32
    ensures ElementBytes(name, Int32(n32)) == Output([0x10] + name + [0] + Int32Bytes(n32), None)
  {
    assert PayloadBytes(Int32(n32)) == Ok(Int32Bytes(n32));
    ElementLayoutOf(name, Int32(n32), 0x10, Int32Bytes(n32));
  }

  /** int64 is tagged 0x12 and written as eight bytes. */
  lemma Int64Layout(name: seq<byte>, n64: int64)
    requires |name| < MaxInt32
    ensures ElementBytes(name, Int64(n64)) == Output([0x12] + name + [0] + Int64Bytes(n64), None)
  {
    assert PayloadBytes(Int64(n64)) == Ok(Int64Bytes(n64));
    ElementLayoutOf(name, Int64(n64), 0x12, Int64Bytes(n64));
  }

  /** A native int is written exactly as an int64 of the same value, so the
      two cannot be told apart on the wire. */
  lemma NativeIntIsInt64(name: seq<byte>, n: int64)
    ensures ElementBytes(name, NativeInt(n)) == ElementBytes(name, Int64(n))
  {
    if |name| < MaxInt32 {
      ElementLayout(name, NativeInt(n));
      ElementLayout(name, Int64(n));
    }
  }

  /** ElementLayout for a value without payload. */
  lemma ElementLayoutNoPayload(name: seq<byte>, v: Value, t: byte)
    requires !v.Unsupported? && |name| < MaxInt32 && TagOf(v) == t && PayloadBytes(v) == Ok([])
    ensures ElementBytes(name, v) == Output([t] + name + [0], None)
  {
    ElementLayout(name, v);
    assert [t] + name + [0] + [] == [t] + name + [0];
  }

  /** nil writes the tag and the name only. */
  lemma NullLayout(name: seq<byte>)
    requires |name| < MaxInt32
    ensures ElementBytes(name, Null) == Output([0x0A] + name + [0], None)
  {
    ElementLayoutNoPayload(name, Null, 0x0A);
  }

  /** A bool writes one byte, 1 for true and 0 for false. */
  lemma BoolLayout(name: seq<byte>, b: bool)
    requires |name| < MaxInt32
    ensures ElementBytes(name, Bool(b)) == Output([0x08] + name + [0] + [if b then 1 else 0], None)
  {
    assert PayloadBytes(Bool(b)) == Ok([if b then 1 else 0]);
    ElementLayoutOf(name, Bool(b), 0x08, [if b then 1 else 0]);
  }

  /** A supported value whose payload fails leaves the tag and the name
      written, and reports the payload's error. */
  lemma PayloadFailureLayout(name: seq<byte>, v: Value)
    requires !v.Unsupported? && |name| < MaxInt32 && PayloadBytes(v).Err?
    ensures ElementBytes(name, v) == Output([TagOf(v)] + name + [0], Some(PayloadBytes(v).error))
  {
    var cs := CStringBytes(name).value;
    assert cs == name + [0];
    assert [TagOf(v)] + cs == [TagOf(v)] + name + [0];
  }

  /** []byte writes 0x05, the name and a zero, then WriteBinary's bytes
      with the generic subtype 0x00: int32(len), 0x00, the bytes. */
  lemma BinaryLayout(name: seq<byte>, bin: seq<byte>)
    requires |name| < MaxInt32 && |bin| < MaxInt32
    ensures ElementBytes(name, Bin(bin)) == Output([0x05] + name + [0] + BinaryBytes(bin, 0x00).value, None)
  {
    assert PayloadBytes(Bin(bin)) == BinaryBytes(bin, 0x00);
    ElementLayoutOf(name, Bin(bin), 0x05, BinaryBytes(bin, 0x00).value);
  }

  /** A blob of MaxInt32 bytes or more fails after the tag and the name. */
  lemma BinaryTooLarge(name: seq<byte>, bin: seq<byte>)
    requires |name| < MaxInt32 && |bin| >= MaxInt32
    ensures ElementBytes(name, Bin(bin)) == Output([0x05] + name + [0], Some(TooLargeBinary))
  {
    PayloadFailureLayout(name, Bin(bin));
    assert TagOf(Bin(bin)) == 0x05;
    assert PayloadBytes(Bin(bin)) == Err(TooLargeBinary);
  }

  /** A value of a type the switch does not know writes nothing. */
  lemma UnsupportedWritesNothing(name: seq<byte>, typeName: string)
    ensures ElementBytes(name, Unsupported(typeName)) == Output([], Some(UnsupportedType(typeName)))
  {
  }

  /** The body is every element's bytes in document order, or the error of
      the first element that fails; nothing after that element matters. */
  lemma {:induction false} BodyBytesFirstError(d: D, i: nat)
    requires i < |d|
    requires forall j :: 0 <= j < i ==> ElementBytes(d[j].name, d[j].value).failure.None?
    requires ElementBytes(d[i].name, d[i].value).failure.Some?
    ensures BodyBytes(d) == Err(ElementBytes(d[i].name, d[i].value).failure.value)
    ensures DocumentBytes(d) == BodyBytes(d)
  {
    if i > 0 {
      BodyBytesFirstError(d[1..], i - 1);
    }
  }

  lemma {:induction false} BodyBytesOk(d: D)
    ensures BodyBytes(d).Ok? <==> forall j :: 0 <= j < |d| ==> ElementBytes(d[j].name, d[j].value).failure.None?
  {
    if d != [] {
      BodyBytesOk(d[1..]);
      assert forall j :: 1 <= j < |d| ==> d[j] == d[1..][j - 1];
    }
  }

  /** Appending an element that writes cleanly appends its bytes to the body. */
  lemma {:induction false} BodyBytesAppend(d: D, e: Element)
    requires BodyBytes(d).Ok?
    requires ElementBytes(e.name, e.value).failure.None?
    ensures BodyBytes(d + [e]) == Ok(BodyBytes(d).value + ElementBytes(e.name, e.value).bytes)
  {
    if d == [] {
      var b := ElementBytes(e.name, e.value).bytes;
      assert [] + [e] == [e];
      assert [e][1..] == [];
      assert BodyBytes([e]) == Ok(b + []);
      assert b + [] == [] + b;
    } else {
      assert (d + [e])[0] == d[0];
      assert (d + [e])[1..] == d[1..] + [e];
      BodyBytesAppend(d[1..], e);
      var head := ElementBytes(d[0].name, d[0].value).bytes;
      assert BodyBytes(d).value == head + BodyBytes(d[1..]).value;
      assert head + (BodyBytes(d[1..]).value + ElementBytes(e.name, e.value).bytes)
          == head + BodyBytes(d[1..]).value + ElementBytes(e.name, e.value).bytes;
    }
  }

  /** WriteDocument output is int32(|body|), the body and a zero: the
      prefix counts the body alone, so the whole is |body| + 5 bytes. */
  lemma DocumentFraming(d: D)
    ensures DocumentBytes(d).Ok? <==> BodyBytes(d).Ok? && |BodyBytes(d).value| < MaxInt32
    ensures DocumentBytes(d).Ok? ==>
              var body := BodyBytes(d).value;
              DocumentBytes(d).value == Int32Bytes(|body|) + body + [0] &&
              |DocumentBytes(d).value| == |body| + 5
    ensures BodyBytes(d).Ok? && |BodyBytes(d).value| >= MaxInt32 ==> DocumentBytes(d) == Err(TooLargeDocument)
  {
  }

  /** DocumentFraming for a body already known. */
  lemma DocumentOfKnownBody(d: D, body: seq<byte>)
    requires BodyBytes(d) == Ok(body) && |body| < MaxInt32
    ensures DocumentBytes(d) == Ok(Int32Bytes(|body|) + body + [0])
  {
    DocumentFraming(d);
  }

  lemma {:induction false} ArrayBodyIsIndexedBody(a: seq<Value>, k: nat)
    ensures ArrayBodyBytes(a, k) == BodyBytes(IndexedFrom(a, k))
  {
    if a != [] {
      ArrayBodyIsIndexedBody(a[1..], k + 1);
      assert IndexedFrom(a, k)[1..] == IndexedFrom(a[1..], k + 1);
    }
  }

  /** WriteArray (flushed) writes exactly what WriteDocument writes for
      FromArray of the same values. */
  lemma ArrayBytesIsDocumentBytes(a: seq<Value>)
    ensures ArrayBytes(a) == DocumentBytes(Indexed(a))
  {
    ArrayBodyIsIndexedBody(a, 0);
  }

  /** A small non-negative int32 is its own low byte followed by three zeros. */
  lemma Int32BytesOfByte(n: int32)
    requires 0 <= n < 256
    ensures Int32Bytes(n) == [n as byte, 0, 0, 0]
  {
    assert LittleEndian(0, 3) == [0, 0, 0];
  }

  /** {a, int32(1)} is written as 0x10 'a' 0x00 01 00 00 00. */
  lemma ExampleInt32Element()
    ensures ElementBytes([0x61], Int32(1)) == Output([0x10, 0x61, 0, 1, 0, 0, 0], None)
  {
    Int32Layout([0x61], 1);
    Int32BytesOfByte(1);
    assert [0x10] + [0x61] + [0] + [1, 0, 0, 0] == [0x10, 0x61, 0, 1, 0, 0, 0];
  }

  /** {b, "hi"} is written as 0x02 'b' 0x00 03 00 00 00 'h' 'i' 0x00: the
      length counts the terminator. */
  lemma ExampleStringElement()
    ensures ElementBytes([0x62], Str([0x68, 0x69])) == Output([0x02, 0x62, 0, 3, 0, 0, 0, 0x68, 0x69, 0], None)
  {
    var s: seq<byte> := [0x68, 0x69];
    assert StringBytes(s) == Ok([3, 0, 0, 0, 0x68, 0x69, 0]) by {
      Int32BytesOfByte(3);
      assert [3, 0, 0, 0] + (s + [0]) == [3, 0, 0, 0, 0x68, 0x69, 0];
    }
    ElementLayout([0x62], Str(s));
    assert [0x02] + [0x62] + [0] + [3, 0, 0, 0, 0x68, 0x69, 0] == [0x02, 0x62, 0, 3, 0, 0, 0, 0x68, 0x69, 0];
  }

  /** {c, nil} is written as 0x0A 'c' 0x00. */
  lemma ExampleNullElement()
    ensures ElementBytes([0x63], Null) == Output([0x0A, 0x63, 0], None)
  {
    NullLayout([0x63]);
  }

  /** A document body starting with an element that writes cleanly. */
  lemma BodyBytesCons(e: Element, rest: D)
    requires ElementBytes(e.name, e.value).failure.None?
    ensures BodyBytes([e] + rest) == Prepend(ElementBytes(e.name, e.value).bytes, BodyBytes(rest))
  {
    assert ([e] + rest)[0] == e && ([e] + rest)[1..] == rest;
  }

  /** The body of {a: int32(1), b: "hi", c: nil}: the three elements in
      order, each as WriteElement writes it. */
  lemma ExampleBody()
    ensures BodyBytes([E([0x61], Int32(1)), E([0x62], Str([0x68, 0x69])), E([0x63], Null)]) ==
            Ok([0x10, 0x61, 0, 1, 0, 0, 0] +
               [0x02, 0x62, 0, 3, 0, 0, 0, 0x68, 0x69, 0] +
               [0x0A, 0x63, 0])
  {
    var a, b, c := E([0x61], Int32(1)), E([0x62], Str([0x68, 0x69])), E([0x63], Null);
    var ea: seq<byte> := [0x10, 0x61, 0, 1, 0, 0, 0];
    var eb: seq<byte> := [0x02, 0x62, 0, 3, 0, 0, 0, 0x68, 0x69, 0];
    var ec: seq<byte> := [0x0A, 0x63, 0];
    assert BodyBytes([c]) == Ok(ec) by {
      ExampleNullElement();
      BodyBytesCons(c, []);
      assert [c] + [] == [c] && ec + [] == ec;
    }
    assert BodyBytes([b, c]) == Ok(eb + ec) by {
      ExampleStringElement();
      BodyBytesCons(b, [c]);
      assert [b] + [c] == [b, c];
    }
    ExampleInt32Element();
    BodyBytesCons(a, [b, c]);
    assert [a] + [b, c] == [a, b, c];
    assert ea + (eb + ec) == ea + eb + ec;
  }

  /** Regrouping a framed body of three parts. */
  lemma ConcatFive(p: seq<byte>, x: seq<byte>, y: seq<byte>, z: seq<byte>, q: seq<byte>)
    ensures p + (x + y + z) + q == p + x + y + z + q
  {
  }

  /** The document {a: int32(1), b: "hi", c: nil}: the prefix 20 (the
      body alone), the three elements in order, and a closing zero. */
  lemma ExampleDocument()
    ensures DocumentBytes([E([0x61], Int32(1)), E([0x62], Str([0x68, 0x69])), E([0x63], Null)]) ==
            Ok([20, 0, 0, 0] +
               [0x10, 0x61, 0, 1, 0, 0, 0] +
               [0x02, 0x62, 0, 3, 0, 0, 0, 0x68, 0x69, 0] +
               [0x0A, 0x63, 0] +
               [0])
  {
    var d := [E([0x61], Int32(1)), E([0x62], Str([0x68, 0x69])), E([0x63], Null)];
    var body: seq<byte> := [0x10, 0x61, 0, 1, 0, 0, 0] +
                           [0x02, 0x62, 0, 3, 0, 0, 0, 0x68, 0x69, 0] +
                           [0x0A, 0x63, 0];
    var pre: seq<byte> := [20, 0, 0, 0];
    assert DocumentBytes(d) == Ok(pre + body + [0]) by {
      ExampleBody();
      assert |body| == 20;
      DocumentOfKnownBody(d, body);
      Int32BytesOfByte(20);
    }
    ConcatFive(pre, [0x10, 0x61, 0, 1, 0, 0, 0], [0x02, 0x62, 0, 3, 0, 0, 0, 0x68, 0x69, 0], [0x0A, 0x63, 0], [0]);
  }
}
