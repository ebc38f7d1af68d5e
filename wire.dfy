/** Machine integers, little-endian images, errors and the tag table shared
    by the writer and the reader of the bson package. */
module Wire {

  type byte = x: int | 0 <= x < 256
  type int32 = x: int | -0x8000_0000 <= x < 0x8000_0000
  type int64 = x: int | -0x8000_0000_0000_0000 <= x < 0x8000_0000_0000_0000

  /** Go's math.MaxInt32: every length field must stay below it. */
  const MaxInt32: int := 0x7FFF_FFFF

  /** The size of bufio's default buffer (bufio.NewWriter). */
  const BufioDefaultSize: nat := 4096

  // The type dispatch table: one tag byte per wire variant.
  const TagString: byte := 0x02
  const TagDocument: byte := 0x03
  const TagArray: byte := 0x04
  const TagBinary: byte := 0x05
  const TagUndefined: byte := 0x06
  const TagObjectId: byte := 0x07
  const TagBool: byte := 0x08
  const TagTime: byte := 0x09
  const TagNull: byte := 0x0A
  const TagInt32: byte := 0x10
  const TagInt64: byte := 0x12

  /** The errors the codec can return. NegativeLength stands for the
      run-time panic Go raises when make() is given a negative size. */
  datatype Error =
    | TooLargeCString
    | TooLargeString
    | TooLargeBinary
    | TooLargeDocument
    | UnsupportedType(typeName: string)
    | EOF
    | UnexpectedEOF
    | NotZero
    | UnknownType(tag: byte)
    | InvalidArray
    | NegativeLength

  datatype Option<+T> = None | Some(value: T)

  datatype Result<+T> = Ok(value: T) | Err(error: Error) {
    predicate IsFailure() { Err? }
    function PropagateFailure<U>(): Result<U> requires Err? { Err(error) }
    function Extract(): T requires Ok? { value }
  }

  /** prefix placed before a successful list result; failures pass through. */
  function Prepend<T>(prefix: seq<T>, r: Result<seq<T>>): (p: Result<seq<T>>)
    ensures p.Ok? <==> r.Ok?
    ensures p.Ok? ==> |p.value| == |prefix| + |r.value|
    ensures p.Ok? ==> p.value[..|prefix|] == prefix && p.value[|prefix|..] == r.value
    ensures p.Err? ==> p == r
  {
    if r.Ok? then Ok(prefix + r.value) else r
  }

  lemma PrependTwice<T>(a: seq<T>, b: seq<T>, r: Result<seq<T>>)
    ensures Prepend(a, Prepend(b, r)) == Prepend(a + b, r)
  {
    if r.Ok? {
      assert a + (b + r.value) == (a + b) + r.value;
    }
  }

  /** A value read from an input together with the cursor after it. */
  datatype Step<+T> = Step(item: T, next: nat)

  function Pow256(k: nat): (r: nat)
    ensures r >= 1
  {
    if k == 0 then 1 else 256 * Pow256(k - 1)
  }

  lemma Pow256Widths()
    ensures Pow256(4) == 0x1_0000_0000
    ensures Pow256(8) == 0x1_0000_0000_0000_0000
  {
    assert Pow256(1) == 256;
    assert Pow256(2) == 0x1_0000;
    assert Pow256(3) == 0x100_0000;
    assert Pow256(5) == 0x100_0000_0000;
    assert Pow256(6) == 0x1_0000_0000_0000;
    assert Pow256(7) == 0x100_0000_0000_0000;
  }

  /** The k low-order bytes of u, least significant first
      (encoding/binary's LittleEndian.PutUint32/PutUint64). */
  function LittleEndian(u: nat, k: nat): (r: seq<byte>)
    ensures |r| == k
  {
    if k == 0 then [] else [u % 256] + LittleEndian(u / 256, k - 1)
  }

  /** The unsigned number whose little-endian image is s
      (LittleEndian.Uint32/Uint64). */
  function FromLittleEndian(s: seq<byte>): (u: nat)
    ensures u < Pow256(|s|)
  {
    if s == [] then 0 else s[0] + 256 * FromLittleEndian(s[1..])
  }

  lemma {:induction false} FromLittleEndianOfLittleEndian(u: nat, k: nat)
    requires u < Pow256(k)
    ensures FromLittleEndian(LittleEndian(u, k)) == u
  {
    if k > 0 {
      FromLittleEndianOfLittleEndian(u / 256, k - 1);
      var s := LittleEndian(u, k);
      assert s[1..] == LittleEndian(u / 256, k - 1);
    }
  }

  lemma {:induction false} LittleEndianOfFromLittleEndian(s: seq<byte>)
    ensures LittleEndian(FromLittleEndian(s), |s|) == s
  {
    if s != [] {
      var u := FromLittleEndian(s);
      var t := FromLittleEndian(s[1..]);
      assert u == s[0] + 256 * t;
      assert u % 256 == s[0] && u / 256 == t;
      LittleEndianOfFromLittleEndian(s[1..]);
    }
  }

  /** Go's uint32(n): the two's-complement bit pattern of n. */
  function Uint32Of(n: int32): (u: nat)
    ensures u < 0x1_0000_0000
    ensures u % 0x1_0000_0000 == n % 0x1_0000_0000
  {
    if n < 0 then n + 0x1_0000_0000 else n
  }

  /** Go's int32(u) for a 32-bit pattern u. */
  function Int32Of(u: nat): (n: int32)
    requires u < 0x1_0000_0000
    ensures n % 0x1_0000_0000 == u
  {
    if u < 0x8000_0000 then u else u - 0x1_0000_0000
  }

  function Uint64Of(n: int64): (u: nat)
    ensures u < 0x1_0000_0000_0000_0000
    ensures u % 0x1_0000_0000_0000_0000 == n % 0x1_0000_0000_0000_0000
  {
    if n < 0 then n + 0x1_0000_0000_0000_0000 else n
  }

  function Int64Of(u: nat): (n: int64)
    requires u < 0x1_0000_0000_0000_0000
    ensures n % 0x1_0000_0000_0000_0000 == u
  {
    if u < 0x8000_0000_0000_0000 then u else u - 0x1_0000_0000_0000_0000
  }

  lemma Int32OfUint32Of(n: int32)
    ensures Int32Of(Uint32Of(n)) == n
  {
  }

  lemma Int64OfUint64Of(n: int64)
    ensures Int64Of(Uint64Of(n)) == n
  {
  }

  /** s is found in data at position pos. */
  ghost predicate At(data: seq<byte>, pos: nat, s: seq<byte>)
  {
    pos + |s| <= |data| && data[pos..pos + |s|] == s
  }

  lemma AtSplit(data: seq<byte>, pos: nat, a: seq<byte>, b: seq<byte>)
    requires At(data, pos, a + b)
    ensures At(data, pos, a) && At(data, pos + |a|, b)
  {
    assert data[pos..pos + |a|] == (a + b)[..|a|];
    assert data[pos + |a|..pos + |a| + |b|] == (a + b)[|a|..];
  }
}
