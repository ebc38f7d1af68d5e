/** The writer of the bson package (encode.go) and D.MarshalBinary.
    Go's writers append to a bufio.Writer; here the writer's output is a
    byte sequence, and each writer is described by the bytes it appends. */
module Encode {
  import opened Wire
  import opened Document

  /** What WriteElement appends to its destination, and the error that
      stopped it, if any. On an error `bytes` holds what was already
      written: the tag, and the name when the payload failed. */
  datatype Output = Output(bytes: seq<byte>, failure: Option<Error>)

  /** WriteInt32: four little-endian bytes of the two's-complement image. */
  function Int32Bytes(n: int32): (r: seq<byte>)
    ensures |r| == 4 && FromLittleEndian(r) == Uint32Of(n)
  {
    Pow256Widths();
    FromLittleEndianOfLittleEndian(Uint32Of(n), 4);
    LittleEndian(Uint32Of(n), 4)
  }

  /** WriteInt64: eight little-endian bytes of the two's-complement image. */
  function Int64Bytes(n: int64): (r: seq<byte>)
    ensures |r| == 8 && FromLittleEndian(r) == Uint64Of(n)
  {
    Pow256Widths();
    FromLittleEndianOfLittleEndian(Uint64Of(n), 8);
    LittleEndian(Uint64Of(n), 8)
  }

  /** writeCString: the bytes and a terminating zero; zero bytes inside
      `s` are not rejected. */
  function CStringBytes(s: seq<byte>): (r: Result<seq<byte>>)
    ensures r.Ok? <==> |s| < MaxInt32
    ensures r.Err? ==> r.error == TooLargeCString
  {
    if |s| >= MaxInt32 then Err(TooLargeCString) else Ok(s + [0])
  }

  /** WriteString: int32(len + 1), the bytes, a zero. */
  function StringBytes(s: seq<byte>): (r: Result<seq<byte>>)
    ensures r.Ok? <==> |s| < MaxInt32
    ensures r.Err? ==> r.error == TooLargeString
    ensures r.Ok? ==> |r.value| == |s| + 5 && FromLittleEndian(r.value[..4]) == |s| + 1
  {
    if |s| >= MaxInt32 then Err(TooLargeString)
    else
      var len := Int32Bytes(|s| + 1);
      var cs := s + [0];
      assert (len + cs)[..4] == len;
      assert (len + cs)[4..|s| + 4] == s;
      Ok(len + cs)
  }

  /** WriteBool: one byte, 1 for true and 0 for false. */
  function BoolBytes(b: bool): (r: seq<byte>)
    ensures |r| == 1 && (r[0] == 1 <==> b) && (r[0] == 0 <==> !b)
  {
    if b then [1] else [0]
  }

  /** WriteBinary: int32(len) (no terminator is counted), the subtype
      byte, then the bytes. */
  function BinaryBytes(bin: seq<byte>, subtype: byte): (r: Result<seq<byte>>)
    ensures r.Ok? <==> |bin| < MaxInt32
    ensures r.Err? ==> r.error == TooLargeBinary
    ensures r.Ok? ==> |r.value| == |bin| + 5 && FromLittleEndian(r.value[..4]) == |bin|
  {
    if |bin| >= MaxInt32 then Err(TooLargeBinary)
    else
      var len := Int32Bytes(|bin|);
      assert (len + [subtype] + bin)[..4] == len;
      assert (len + [subtype] + bin)[5..] == bin;
      Ok(len + [subtype] + bin)
  }

  /** The subtype WriteElement always passes (SubtypeGenericBinary). */
  const SubtypeGenericBinary: byte := 0x00

  /** The writer's side of the type dispatch table. It never emits 0x06
      (undefined), and int and int64 share 0x12. */
  function TagOf(v: Value): (t: byte)
    requires !v.Unsupported?
  {
    match v
    case Str(_) => TagString
    case Doc(_) => TagDocument
    case Arr(_) => TagArray
    case Bin(_) => TagBinary
    case ObjectId(_) => TagObjectId
    case Bool(_) => TagBool
    case Time(_) => TagTime
    case Null => TagNull
    case Int32(_) => TagInt32
    case Int64(_) => TagInt64
    case NativeInt(_) => TagInt64
  }

  /** The length prefix, body and trailing zero WriteDocument and WriteArray
      emit once the body is known. The prefix is the body's length only. */
  function Framed(body: seq<byte>): (r: Result<seq<byte>>)
    ensures r.Ok? <==> |body| < MaxInt32
    ensures r.Err? ==> r.error == TooLargeDocument
    ensures r.Ok? ==> |r.value| == |body| + 5 && FromLittleEndian(r.value[..4]) == |body|
  {
    if |body| >= MaxInt32 then Err(TooLargeDocument)
    else
      var len := Int32Bytes(|body|);
      assert (len + body + [0])[..4] == len;
      assert (len + body + [0])[4..|body| + 4] == body;
      Ok(len + body + [0])
  }

  /** The payload WriteElement emits after the tag and the name. Only the
      length-prefixed payloads can fail; the others have a fixed width. */
  function PayloadBytes(v: Value): (r: Result<seq<byte>>)
    requires !v.Unsupported?
    decreases ValueSize(v), 2
  {
    match v
    case Str(s) => StringBytes(s)
    case Doc(d) => DocumentBytes(d)
    case Arr(a) => ArrayBytes(a)
    case Bin(b) => BinaryBytes(b, SubtypeGenericBinary)
    case ObjectId(id) => Ok(id)
    case Bool(b) => Ok(BoolBytes(b))
    case Time(ms) => Ok(Int64Bytes(ms))
    case Null => Ok([])
    case Int32(n) => Ok(Int32Bytes(n))
    case Int64(n) => Ok(Int64Bytes(n))
    case NativeInt(n) => Ok(Int64Bytes(n))
  }

  /** WriteElement: tag byte, zero-terminated name, payload. It succeeds
      exactly when the type is known and the name and the payload fit;
      an unknown type writes nothing, a known one at least its tag. */
  function ElementBytes(name: seq<byte>, v: Value): (o: Output)
    decreases ValueSize(v), 3
  {
    if v.Unsupported? then Output([], Some(UnsupportedType(v.typeName)))
    else
      var tag := [TagOf(v)];
      match CStringBytes(name)
      case Err(e) => Output(tag, Some(e))
      case Ok(cs) =>
        match PayloadBytes(v)
        case Err(e) => Output(tag + cs, Some(e))
        case Ok(p) => Output(tag + cs + p, None)
  }

  /** The element stream of a document: every element in order, or the
      first element error. */
  function BodyBytes(d: D): (r: Result<seq<byte>>)
    decreases DocSize(d), 0
  {
    if d == [] then Ok([])
    else
      ElementValueSmaller(d, 0);
      assert d[0..] == d;
      var out := ElementBytes(d[0].name, d[0].value);
      if out.failure.Some? then Err(out.failure.value)
      else Prepend(out.bytes, BodyBytes(d[1..]))
  }

  /** WriteDocument: nothing is written when an element or the size check
      fails. */
  function DocumentBytes(d: D): (r: Result<seq<byte>>)
    decreases DocSize(d), 1
  {
    var body :- BodyBytes(d);
    Framed(body)
  }

  /** The element stream WriteArray writes: item i named strconv.Itoa(k + i). */
  function ArrayBodyBytes(a: seq<Value>, k: nat): (r: Result<seq<byte>>)
    decreases ListSize(a), 0
  {
    if a == [] then Ok([])
    else
      var out := ElementBytes(Itoa(k), a[0]);
      if out.failure.Some? then Err(out.failure.value)
      else Prepend(out.bytes, ArrayBodyBytes(a[1..], k + 1))
  }

  /** WriteArray with its scratch buffer flushed before it is measured, as
      WriteDocument does (encode.go:46). */
  function ArrayBytes(a: seq<Value>): (r: Result<seq<byte>>)
    decreases ListSize(a), 1
  {
    var body :- ArrayBodyBytes(a, 0);
    Framed(body)
  }

  /** WriteArray as encode.go:63-84 has it: the scratch bufio.Writer is not
      flushed before b.Len() is read, so the prefix counts only the bytes
      bufio has already passed on. While the body fits in bufio's buffer
      that is none of them, and the body is lost. Larger bodies depend on
      bufio's flushing schedule, and so do the errors of nested arrays and
      documents: neither is described. */
  function WriteArrayAsWritten(a: seq<Value>): (r: Result<seq<byte>>)
    requires ArrayBodyBytes(a, 0).Ok? && |ArrayBodyBytes(a, 0).value| <= BufioDefaultSize
    ensures r == Ok([0, 0, 0, 0, 0])
  {
    assert Uint32Of(0) == 0;
    assert LittleEndian(0, 4) == [0, 0, 0, 0] by {
      assert LittleEndian(0, 1) == [0];
      assert LittleEndian(0, 2) == [0, 0];
      assert LittleEndian(0, 3) == [0, 0, 0];
    }
    assert Int32Bytes(0) == LittleEndian(Uint32Of(0), 4);
    assert Int32Bytes(0) + [0] == [0, 0, 0, 0, 0];
    Ok(Int32Bytes(0) + [0])
  }

  // The writers as Go runs them: each appends to a destination.

  method WriteElement(dst: seq<byte>, name: seq<byte>, v: Value) returns (out: seq<byte>, err: Option<Error>)
    ensures out == dst + ElementBytes(name, v).bytes
    ensures err == ElementBytes(name, v).failure
    decreases ValueSize(v), 2
  {
    if v.Unsupported? {
      return dst, Some(UnsupportedType(v.typeName));
    }
    var tag := [TagOf(v)];
    var cs := CStringBytes(name);
    if cs.Err? {
      return dst + tag, Some(cs.error);
    }
    var head := dst + tag + cs.value;
    out, err := WritePayload(head, v);
    if err == None {
      assert out == dst + (tag + cs.value + PayloadBytes(v).value);
    }
  }

  /** The type switch of WriteElement after the tag and the name: nested
      documents and arrays go through their own writers. */
  method WritePayload(dst: seq<byte>, v: Value) returns (out: seq<byte>, err: Option<Error>)
    requires !v.Unsupported?
    ensures PayloadBytes(v).Ok? ==> err == None && out == dst + PayloadBytes(v).value
    ensures PayloadBytes(v).Err? ==> err == Some(PayloadBytes(v).error) && out == dst
    decreases ValueSize(v), 1
  {
    if v.Doc? {
      out, err := WriteDocument(dst, v.doc);
    } else if v.Arr? {
      out, err := WriteArray(dst, v.items);
    } else {
      var payload := PayloadBytes(v);
      if payload.Err? {
        return dst, Some(payload.error);
      }
      return dst + payload.value, None;
    }
  }

  method WriteDocument(dst: seq<byte>, doc: D) returns (out: seq<byte>, err: Option<Error>)
    ensures DocumentBytes(doc).Ok? ==> err == None && out == dst + DocumentBytes(doc).value
    ensures DocumentBytes(doc).Err? ==> err == Some(DocumentBytes(doc).error) && out == dst
    decreases DocSize(doc), 0
  {
    var body: seq<byte> := [];
    var i := 0;
    while i < |doc|
      invariant 0 <= i <= |doc|
      invariant BodyBytes(doc) == Prepend(body, BodyBytes(doc[i..]))
    {
      ElementValueSmaller(doc, i);
      assert doc[i..][0] == doc[i] && doc[i..][1..] == doc[i + 1..];
      var written, e := WriteElement(body, doc[i].name, doc[i].value);
      if e.Some? {
        return dst, e;
      }
      PrependTwice(body, written[|body|..], BodyBytes(doc[i + 1..]));
      assert body + written[|body|..] == written;
      body := written;
      i := i + 1;
    }
    assert body + [] == body;
    if |body| >= MaxInt32 {
      return dst, Some(TooLargeDocument);
    }
    out := dst + Int32Bytes(|body|) + body + [0];
    err := None;
  }

  method WriteArray(dst: seq<byte>, arr: seq<Value>) returns (out: seq<byte>, err: Option<Error>)
    ensures ArrayBytes(arr).Ok? ==> err == None && out == dst + ArrayBytes(arr).value
    ensures ArrayBytes(arr).Err? ==> err == Some(ArrayBytes(arr).error) && out == dst
    decreases ListSize(arr), 0
  {
    var body: seq<byte> := [];
    var i := 0;
    while i < |arr|
      invariant 0 <= i <= |arr|
      invariant ArrayBodyBytes(arr, 0) == Prepend(body, ArrayBodyBytes(arr[i..], i))
    {
      ListItemSmaller(arr, i);
      assert arr[i..][0] == arr[i] && arr[i..][1..] == arr[i + 1..];
      var written, e := WriteElement(body, Itoa(i), arr[i]);
      if e.Some? {
        return dst, e;
      }
      PrependTwice(body, written[|body|..], ArrayBodyBytes(arr[i + 1..], i + 1));
      assert body + written[|body|..] == written;
      body := written;
      i := i + 1;
    }
    assert body + [] == body;
    if |body| >= MaxInt32 {
      return dst, Some(TooLargeDocument);
    }
    out := dst + Int32Bytes(|body|) + body + [0];
    err := None;
  }

  /** D.MarshalBinary: WriteDocument into a fresh buffer. */
  method MarshalBinary(doc: D) returns (r: Result<seq<byte>>)
    ensures r == DocumentBytes(doc)
  {
    var out, err := WriteDocument([], doc);
    if err.Some? {
      return Err(err.value);
    }
    assert [] + DocumentBytes(doc).value == DocumentBytes(doc).value;
    return Ok(out);
  }
}
