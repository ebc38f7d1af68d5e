/** WriteArray as written next to WriteArray as intended: without the flush
    of its scratch writer, a small array loses its items. */
module Findings {
  import opened Wire
  import opened Document
  import opened Encode
  import opened Decode

  /** A body that writes cleanly and holds at least one element is not
      empty: each element is at least its tag and the name's terminator. */
  lemma NonEmptyArrayBody(a: seq<Value>)
    requires a != [] && ArrayBodyBytes(a, 0).Ok?
    ensures |ArrayBodyBytes(a, 0).value| >= 2
  {
    var out := ElementBytes(Itoa(0), a[0]);
    assert out.failure.None?;
    assert |out.bytes| >= 2;
  }

  /** The five bytes the unflushed WriteArray emits read back as an empty
      array. */
  lemma EmptyFrameReadsEmpty()
    ensures ParsePayload([0, 0, 0, 0, 0], TagArray, 0) == Ok(Step(Arr([]), 5))
  {
    var data: seq<byte> := [0, 0, 0, 0, 0];
    Pow256Widths();
    assert data[0..4] == [0, 0, 0, 0];
    assert FromLittleEndian([0, 0, 0, 0]) == 0;
    assert ReadInt32(data, 0) == Ok(Step(0, 4));
    assert ParseBody([], 0) == Ok([]);
    assert ParseDocument(data, 0) == Ok(Step([], 5));
  }

  /** For every non-empty array whose body fits in bufio's buffer, the
      unflushed writer emits other bytes than the flushed one, and a reader
      gets an empty array back where the items were. */
  lemma UnflushedArrayLosesItems(a: seq<Value>)
    requires a != [] && ArrayBodyBytes(a, 0).Ok? && |ArrayBodyBytes(a, 0).value| <= BufioDefaultSize
    ensures WriteArrayAsWritten(a).Ok? && ArrayBytes(a).Ok?
    ensures WriteArrayAsWritten(a) != ArrayBytes(a)
    ensures ParsePayload(WriteArrayAsWritten(a).value, TagArray, 0) == Ok(Step(Arr([]), 5))
  {
    NonEmptyArrayBody(a);
    EmptyFrameReadsEmpty();
  }
}
