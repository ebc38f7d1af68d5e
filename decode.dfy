/** The reader of the bson package (decode.go). Go's readers pull bytes from
    a bufio.Reader; here the input is a byte sequence and a cursor, and each
    reader returns what it read together with the cursor after it. Only the
    error a reader returns is modelled, not what it consumed before failing. */
module Decode {
  import opened Wire
  import opened Document

  // The stream primitives of bufio and io the readers rely on.

  /** bufio.Reader.ReadByte: the next byte, or EOF at the end of input. */
  function ReadByte(data: seq<byte>, pos: nat): (r: Result<Step<byte>>)
    requires pos <= |data|
    ensures r.Ok? <==> pos < |data|
    ensures r.Ok? ==> r.value == Step(data[pos], pos + 1)
    ensures r.Err? ==> r.error == EOF
  {
    if pos == |data| then Err(EOF) else Ok(Step(data[pos], pos + 1))
  }

  /** io.ReadFull of n bytes: nothing to read always succeeds; nothing left
      gives EOF; fewer than n bytes left gives UnexpectedEOF. */
  function ReadFull(data: seq<byte>, pos: nat, n: nat): (r: Result<Step<seq<byte>>>)
    requires pos <= |data|
    ensures r.Ok? <==> pos + n <= |data|
    ensures r.Err? ==> r.error == (if pos == |data| then EOF else UnexpectedEOF)
  {
    if n == 0 then Ok(Step(data[pos..pos], pos))
    else if pos == |data| then Err(EOF)
    else if pos + n > |data| then Err(UnexpectedEOF)
    else Ok(Step(data[pos..pos + n], pos + n))
  }

  /** The index of the first zero byte at or after pos, if any. */
  function ZeroFrom(data: seq<byte>, pos: nat): (r: Option<nat>)
    requires pos <= |data|
    ensures r.Some? ==> pos <= r.value < |data| && data[r.value] == 0
    ensures r.Some? ==> forall i :: pos <= i < r.value ==> data[i] != 0
    ensures r.None? ==> forall i :: pos <= i < |data| ==> data[i] != 0
    decreases |data| - pos
  {
    if pos == |data| then None
    else if data[pos] == 0 then Some(pos)
    else ZeroFrom(data, pos + 1)
  }

  // The readers of decode.go.

  /** readCString: bufio's ReadString(0) with the terminator cut off. */
  function ReadCString(data: seq<byte>, pos: nat): (r: Result<Step<seq<byte>>>)
    requires pos <= |data|
    ensures r.Ok? ==> 0 !in r.value.item && r.value.next == pos + |r.value.item| + 1 <= |data|
    ensures r.Err? ==> r.error == EOF
  {
    match ZeroFrom(data, pos)
    case None =>
      assert forall i :: 0 <= i < |data[pos..]| ==> data[pos..][i] == data[pos + i];
      Err(EOF)
    case Some(z) =>
      assert data[pos..][z - pos] == 0;
      var name := data[pos..z];
      assert forall i :: 0 <= i < |name| ==> name[i] == data[pos + i];
      Ok(Step(name, z + 1))
  }

  /** ReadInt32: the int32 whose little-endian two's-complement image is
      the next four bytes. */
  function ReadInt32(data: seq<byte>, pos: nat): (r: Result<Step<int32>>)
    requires pos <= |data|
    ensures r.Ok? <==> pos + 4 <= |data|
    ensures r.Err? ==> r.error == (if pos == |data| then EOF else UnexpectedEOF)
  {
    var b :- ReadFull(data, pos, 4);
    Pow256Widths();
    Ok(Step(Int32Of(FromLittleEndian(b.item)), b.next))
  }

  /** ReadInt64: the same over the next eight bytes. */
  function ReadInt64(data: seq<byte>, pos: nat): (r: Result<Step<int64>>)
    requires pos <= |data|
    ensures r.Ok? <==> pos + 8 <= |data|
    ensures r.Err? ==> r.error == (if pos == |data| then EOF else UnexpectedEOF)
  {
    var b :- ReadFull(data, pos, 8);
    Pow256Widths();
    Ok(Step(Int64Of(FromLittleEndian(b.item)), b.next))
  }

  /** SkipZero: one byte that must be zero. */
  function SkipZero(data: seq<byte>, pos: nat): (r: Result<nat>)
    requires pos <= |data|
    ensures r.Ok? <==> pos < |data| && data[pos] == 0
    ensures r.Ok? ==> r.value == pos + 1
    ensures r.Err? ==> r.error == (if pos == |data| then EOF else NotZero)
  {
    var b :- ReadByte(data, pos);
    if b.item != 0 then Err(NotZero) else Ok(b.next)
  }

  /** ReadObjectID: io.ReadFull of twelve bytes. */
  function ReadObjectID(data: seq<byte>, pos: nat): (r: Result<Step<ObjectIdBytes>>)
    requires pos <= |data|
    ensures r.Ok? <==> pos + 12 <= |data|
    ensures r.Err? ==> r.error == (if pos == |data| then EOF else UnexpectedEOF)
  {
    var b :- ReadFull(data, pos, 12);
    Ok(Step(b.item, b.next))
  }

  /** ReadBool: any non-zero byte is true. */
  function ReadBool(data: seq<byte>, pos: nat): (r: Result<Step<bool>>)
    requires pos <= |data|
    ensures r.Ok? <==> pos < |data|
    ensures r.Ok? ==> r.value == Step(data[pos] != 0, pos + 1)
    ensures r.Err? ==> r.error == EOF
  {
    var b :- ReadByte(data, pos);
    Ok(Step(b.item != 0, b.next))
  }

  /** Go's int32 subtraction n - 1, which wraps at the bottom of the range. */
  function Int32Pred(n: int32): (r: int32)
    ensures n > -0x8000_0000 ==> r == n - 1
    ensures n == -0x8000_0000 ==> r == 0x7FFF_FFFF
  {
    Int32Of((n - 1) % 0x1_0000_0000)
  }

  /** ReadBinary: int32 length, subtype byte, then that many bytes. A
      negative length makes Go's make() panic; it is NegativeLength here. */
  function ReadBinary(data: seq<byte>, pos: nat): (r: Result<Step<(seq<byte>, byte)>>)
    requires pos <= |data|
    ensures r.Ok? ==> pos + 5 <= r.value.next <= |data|
    ensures r.Ok? ==> r.value.next == pos + 5 + |r.value.item.0|
  {
    var n :- ReadInt32(data, pos);
    var st :- ReadByte(data, n.next);
    if n.item < 0 then Err(NegativeLength)
    else
      var b :- ReadFull(data, st.next, n.item);
      Ok(Step((b.item, st.item), b.next))
  }

  /** ReadString: int32 n, then n - 1 bytes (int32 arithmetic), then a zero
      byte. The bytes themselves may contain zeros. */
  function ReadString(data: seq<byte>, pos: nat): (r: Result<Step<seq<byte>>>)
    requires pos <= |data|
    ensures r.Ok? ==> r.value.next == pos + 4 + |r.value.item| + 1 <= |data|
  {
    var n :- ReadInt32(data, pos);
    var len := Int32Pred(n.item);
    if len < 0 then Err(NegativeLength)
    else
      var b :- ReadFull(data, n.next, len);
      var end :- SkipZero(data, b.next);
      Ok(Step(b.item, end))
  }

  // ReadDocument and ReadElement as functions of the input.

  /** ReadDocument: int32 L, exactly L body bytes, a zero byte, then the
      elements of the body. The length prefix counts the body only. */
  function ParseDocument(data: seq<byte>, pos: nat): (r: Result<Step<D>>)
    requires pos <= |data|
    ensures r.Ok? ==> pos + 5 <= r.value.next <= |data|
    decreases |data| - pos, 0
  {
    var n :- ReadInt32(data, pos);
    if n.item < 0 then Err(NegativeLength)
    else
      var b :- ReadFull(data, n.next, n.item);
      var end :- SkipZero(data, b.next);
      var doc :- ParseBody(b.item, 0);
      Ok(Step(doc, end))
  }

  /** The loop of ReadDocument over the body: elements in wire order until
      the body's end, where an EOF from ReadElement ends the document
      without error; any other error is the document's error. */
  function ParseBody(body: seq<byte>, pos: nat): (r: Result<D>)
    requires pos <= |body|
    decreases |body| - pos, 3
  {
    match ParseElement(body, pos)
    case Err(EOF) => Ok([])
    case Err(e) => Err(e)
    case Ok(s) => Prepend([s.item], ParseBody(body, s.next))
  }

  /** ReadElement: tag, zero-terminated name, then the payload the tag
      selects. The name is read before the tag is examined. */
  function ParseElement(data: seq<byte>, pos: nat): (r: Result<Step<Element>>)
    requires pos <= |data|
    ensures r.Ok? ==> pos + 2 <= r.value.next <= |data|
    decreases |data| - pos, 2
  {
    var tag :- ReadByte(data, pos);
    var name :- ReadCString(data, tag.next);
    var v :- ParsePayload(data, tag.item, name.next);
    Ok(Step(E(name.item, v.item), v.next))
  }

  /** The type switch of ReadElement: the payload for tag t at q. Undefined
      and null have no payload; any tag outside the table is an error. */
  function ParsePayload(data: seq<byte>, t: byte, q: nat): (r: Result<Step<Value>>)
    requires q <= |data|
    ensures r.Ok? ==> q <= r.value.next <= |data|
    decreases |data| - q, 1
  {
    if t == TagString then
      var s :- ReadString(data, q);
      Ok(Step(Str(s.item), s.next))
    else if t == TagDocument then
      var s :- ParseDocument(data, q);
      Ok(Step(Doc(s.item), s.next))
    else if t == TagArray then
      var s :- ParseDocument(data, q);
      var arr :- ArrayOf(s.item);
      Ok(Step(Arr(arr), s.next))
    else if t == TagBinary then
      var s :- ReadBinary(data, q);
      Ok(Step(Bin(s.item.0), s.next))
    else if t == TagUndefined || t == TagNull then
      Ok(Step(Null, q))
    else if t == TagObjectId then
      var s :- ReadObjectID(data, q);
      Ok(Step(ObjectId(s.item), s.next))
    else if t == TagBool then
      var s :- ReadBool(data, q);
      Ok(Step(Bool(s.item), s.next))
    else if t == TagTime then
      var s :- ReadInt64(data, q);
      Ok(Step(Time(s.item), s.next))
    else if t == TagInt32 then
      var s :- ReadInt32(data, q);
      Ok(Step(Int32(s.item), s.next))
    else if t == TagInt64 then
      var s :- ReadInt64(data, q);
      Ok(Step(Int64(s.item), s.next))
    else
      Err(UnknownType(t))
  }

  // The readers as Go runs them: ReadDocument loops over a fresh reader on
  // the body, ReadElement dispatches on the tag.

  method ReadDocument(data: seq<byte>, pos: nat) returns (r: Result<Step<D>>)
    requires pos <= |data|
    ensures r == ParseDocument(data, pos)
    decreases |data| - pos, 0
  {
    var size := ReadInt32(data, pos);
    if size.Err? {
      return Err(size.error);
    }
    if size.value.item < 0 {
      return Err(NegativeLength);
    }
    var b := ReadFull(data, size.value.next, size.value.item);
    if b.Err? {
      return Err(b.error);
    }
    var end := SkipZero(data, b.value.next);
    if end.Err? {
      return Err(end.error);
    }
    var body := b.value.item;
    var doc: D := [];
    var p := 0;
    while true
      invariant p <= |body|
      invariant ParseBody(body, 0) == Prepend(doc, ParseBody(body, p))
      decreases |body| - p
    {
      var e := ReadElement(body, p);
      if e.Err? {
        if e.error == EOF {
          assert doc + [] == doc;
          return Ok(Step(doc, end.value));
        }
        return Err(e.error);
      }
      PrependTwice(doc, [e.value.item], ParseBody(body, e.value.next));
      doc := doc + [e.value.item];
      p := e.value.next;
    }
  }

  method ReadElement(data: seq<byte>, pos: nat) returns (r: Result<Step<Element>>)
    requires pos <= |data|
    ensures r == ParseElement(data, pos)
    decreases |data| - pos, 2
  {
    var tag := ReadByte(data, pos);
    if tag.Err? {
      return Err(tag.error);
    }
    var name := ReadCString(data, tag.value.next);
    if name.Err? {
      return Err(name.error);
    }
    var t, n, q := tag.value.item, name.value.item, name.value.next;
    if t == TagString {
      var s := ReadString(data, q);
      if s.Err? {
        return Err(s.error);
      }
      return Ok(Step(E(n, Str(s.value.item)), s.value.next));
    } else if t == TagDocument || t == TagArray {
      var s := ReadDocument(data, q);
      if s.Err? {
        return Err(s.error);
      }
      if t == TagDocument {
        return Ok(Step(E(n, Doc(s.value.item)), s.value.next));
      }
      var arr := ToArray(s.value.item);
      if arr.Err? {
        return Err(arr.error);
      }
      return Ok(Step(E(n, Arr(arr.value)), s.value.next));
    } else if t == TagBinary {
      var s := ReadBinary(data, q);
      if s.Err? {
        return Err(s.error);
      }
      return Ok(Step(E(n, Bin(s.value.item.0)), s.value.next));
    } else if t == TagUndefined || t == TagNull {
      return Ok(Step(E(n, Null), q));
    } else if t == TagObjectId {
      var s := ReadObjectID(data, q);
      if s.Err? {
        return Err(s.error);
      }
      return Ok(Step(E(n, ObjectId(s.value.item)), s.value.next));
    } else if t == TagBool {
      var s := ReadBool(data, q);
      if s.Err? {
        return Err(s.error);
      }
      return Ok(Step(E(n, Bool(s.value.item)), s.value.next));
    } else if t == TagTime {
      var s := ReadInt64(data, q);
      if s.Err? {
        return Err(s.error);
      }
      return Ok(Step(E(n, Time(s.value.item)), s.value.next));
    } else if t == TagInt32 {
      var s := ReadInt32(data, q);
      if s.Err? {
        return Err(s.error);
      }
      return Ok(Step(E(n, Int32(s.value.item)), s.value.next));
    } else if t == TagInt64 {
      var s := ReadInt64(data, q);
      if s.Err? {
        return Err(s.error);
      }
      return Ok(Step(E(n, Int64(s.value.item)), s.value.next));
    }
    return Err(UnknownType(t));
  }
}
