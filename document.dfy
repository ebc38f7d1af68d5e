/** The value model of the bson package (document.go): elements, ordered
    documents, and the helpers that convert between documents, positional
    lists and name-keyed maps. */
module Document {
  import opened Wire

  /** Twelve raw bytes: Go's [12]byte. */
  type ObjectIdBytes = s: seq<byte> | |s| == 12 witness [0, 0, 0, 0, 0, 0, 0, 0, 0, 0, 0, 0]

  /** The dynamic types a Go `any` element value can hold, closed over the
      cases the writer's type switch knows, plus one case for every other
      type. A timestamp is kept as its Unix milliseconds. */
  datatype Value =
    | Str(text: seq<byte>)
    | Doc(doc: seq<Element>)
    | Arr(items: seq<Value>)
    | Bin(data: seq<byte>)
    | ObjectId(id: ObjectIdBytes)
    | Bool(flag: bool)
    | Time(millis: int64)
    | Null
    | Int32(n32: int32)
    | Int64(n64: int64)
    | NativeInt(n: int64)
    | Unsupported(typeName: string)

  /** E: a name and a value. Names are Go strings, that is, bytes. */
  datatype Element = E(name: seq<byte>, value: Value)

  /** D: an ordered list of elements; names may repeat. */
  type D = seq<Element>

  // Size measures. They give the mutual recursions over values, documents
  // and lists a common decreasing quantity.

  function ValueSize(v: Value): (r: nat)
    ensures r >= 1
    decreases v, 1
  {
    match v
    case Doc(d) => 1 + DocSize(d)
    case Arr(a) => 1 + ListSize(a)
    case _ => 1
  }

  function ElementSize(e: Element): nat
    decreases e, 0
  {
    1 + ValueSize(e.value)
  }

  function DocSize(d: D): nat
    decreases d, 0
  {
    if d == [] then 0 else ElementSize(d[0]) + DocSize(d[1..])
  }

  function ListSize(a: seq<Value>): nat
    decreases a, 0
  {
    if a == [] then 0 else 1 + ValueSize(a[0]) + ListSize(a[1..])
  }

  lemma {:induction false} ElementValueSmaller(d: D, i: nat)
    requires i < |d|
    ensures ValueSize(d[i].value) < DocSize(d)
    ensures DocSize(d[i + 1..]) < DocSize(d[i..])
  {
    if i > 0 {
      ElementValueSmaller(d[1..], i - 1);
      assert d[1..][i - 1] == d[i];
      assert d[1..][i - 1..] == d[i..];
      assert d[1..][i..] == d[i + 1..];
    } else {
      assert d[0..] == d;
    }
  }

  lemma {:induction false} ListItemSmaller(a: seq<Value>, i: nat)
    requires i < |a|
    ensures ValueSize(a[i]) < ListSize(a)
  {
    if i > 0 {
      ListItemSmaller(a[1..], i - 1);
      assert a[1..][i - 1] == a[i];
    }
  }

  // strconv.Itoa for the non-negative indices WriteArray and ToArray use.

  function Itoa(n: nat): (s: seq<byte>)
    ensures |s| >= 1
    ensures forall k :: 0 <= k < |s| ==> 0x30 <= s[k] <= 0x39
    ensures n > 0 ==> s[0] != 0x30
    decreases n
  {
    if n < 10 then [0x30 + n] else Itoa(n / 10) + [0x30 + n % 10]
  }

  /** The number a string of decimal digits denotes. */
  function ParseDecimal(s: seq<byte>): int
  {
    if s == [] then 0 else 10 * ParseDecimal(s[..|s| - 1]) + (s[|s| - 1] as int - 0x30)
  }

  lemma {:induction false} ParseDecimalItoa(n: nat)
    ensures ParseDecimal(Itoa(n)) == n
    decreases n
  {
    var s := Itoa(n);
    if n >= 10 {
      ParseDecimalItoa(n / 10);
      assert s[..|s| - 1] == Itoa(n / 10);
    }
  }

  lemma ItoaInjective(i: nat, j: nat)
    requires Itoa(i) == Itoa(j)
    ensures i == j
  {
    ParseDecimalItoa(i);
    ParseDecimalItoa(j);
  }

  // D.Get: the first element with a given name.

  /** The value and index of the first element named `name`, or (nil, -1). */
  function Lookup(doc: D, name: seq<byte>): (r: (Value, int))
    ensures -1 <= r.1 < |doc|
    ensures r.1 == -1 ==> r.0 == Null
    ensures r.1 >= 0 ==> doc[r.1].name == name && r.0 == doc[r.1].value
  {
    if doc == [] then (Null, -1)
    else if doc[0].name == name then (doc[0].value, 0)
    else
      var r := Lookup(doc[1..], name);
      if r.1 < 0 then (Null, -1) else (r.0, r.1 + 1)
  }

  /** Lookup finds nothing exactly when no element has the name, and
      otherwise the element it finds is the first one with that name. */
  lemma {:induction false} LookupFirst(doc: D, name: seq<byte>)
    ensures Lookup(doc, name).1 == -1 <==> forall j :: 0 <= j < |doc| ==> doc[j].name != name
    ensures Lookup(doc, name).1 >= 0 ==> forall j :: 0 <= j < Lookup(doc, name).1 ==> doc[j].name != name
  {
    if doc != [] && doc[0].name != name {
      LookupFirst(doc[1..], name);
      assert forall j :: 1 <= j < |doc| ==> doc[j] == doc[1..][j - 1];
    }
  }

  method Get(doc: D, name: seq<byte>) returns (v: Value, index: int)
    ensures (v, index) == Lookup(doc, name)
  {
    LookupFirst(doc, name);
    if |doc| == 0 {
      return Null, -1;
    }
    var i := 0;
    while i < |doc|
      invariant 0 <= i <= |doc|
      invariant forall j :: 0 <= j < i ==> doc[j].name != name
    {
      if doc[i].name == name {
        return doc[i].value, i;
      }
      i := i + 1;
    }
    return Null, -1;
  }

  // FromArray: positional values to a document named "0".."n-1".

  /** The document whose elements are named by the decimal strings
      k, k+1, ... and hold the values of `values` in order. */
  function IndexedFrom(values: seq<Value>, k: nat): (d: D)
    ensures |d| == |values|
    ensures forall i :: 0 <= i < |d| ==> d[i] == E(Itoa(k + i), values[i])
  {
    if values == [] then []
    else [E(Itoa(k), values[0])] + IndexedFrom(values[1..], k + 1)
  }

  function Indexed(values: seq<Value>): D
  {
    IndexedFrom(values, 0)
  }

  method FromArray(values: seq<Value>) returns (doc: D)
    ensures |doc| == |values|
    ensures forall i :: 0 <= i < |doc| ==> doc[i].name == Itoa(i) && doc[i].value == values[i]
    ensures doc == Indexed(values)
  {
    doc := [];
    for i := 0 to |values|
      invariant |doc| == i
      invariant forall j :: 0 <= j < i ==> doc[j] == E(Itoa(j), values[j])
    {
      doc := doc + [E(Itoa(i), values[i])];
    }
  }

  lemma {:induction false} IndexedFromSize(values: seq<Value>, k: nat)
    ensures DocSize(IndexedFrom(values, k)) == ListSize(values)
  {
    if values != [] {
      IndexedFromSize(values[1..], k + 1);
      assert IndexedFrom(values, k)[1..] == IndexedFrom(values[1..], k + 1);
    }
  }

  // D.ToArray: a document named "0".."n-1" back to positional values.

  /** The values of the first elements named i, i+1, ..., |doc|-1, or
      InvalidArray when one of those names is missing. */
  function ArrayFrom(doc: D, i: nat): (r: Result<seq<Value>>)
    requires i <= |doc|
    decreases |doc| - i
  {
    if i == |doc| then Ok([])
    else
      var found := Lookup(doc, Itoa(i));
      if found.1 < 0 then Err(InvalidArray)
      else
        var rest :- ArrayFrom(doc, i + 1);
        Ok([found.0] + rest)
  }

  function ArrayOf(doc: D): Result<seq<Value>>
  {
    if |doc| == 0 then Ok([]) else ArrayFrom(doc, 0)
  }

  /** ToArray fails, with InvalidArray, exactly when some index in
      [i, n) names no element. */
  lemma {:induction false} ArrayFromFails(doc: D, i: nat)
    requires i <= |doc|
    ensures ArrayFrom(doc, i).Err? <==> exists k :: i <= k < |doc| && Lookup(doc, Itoa(k)).1 < 0
    ensures ArrayFrom(doc, i).Err? ==> ArrayFrom(doc, i).error == InvalidArray
    decreases |doc| - i
  {
    if i < |doc| {
      ArrayFromFails(doc, i + 1);
      if Lookup(doc, Itoa(i)).1 < 0 {
        assert i <= i < |doc| && Lookup(doc, Itoa(i)).1 < 0;
      }
    }
  }

  lemma {:induction false} ArrayFromLength(doc: D, i: nat)
    requires i <= |doc|
    requires ArrayFrom(doc, i).Ok?
    ensures |ArrayFrom(doc, i).value| == |doc| - i
    decreases |doc| - i
  {
    if i < |doc| {
      ArrayFromLength(doc, i + 1);
    }
  }

  /** On success item k - i is the value of the first element named k. */
  lemma {:induction false} ArrayFromItem(doc: D, i: nat, k: nat)
    requires i <= k < |doc|
    requires ArrayFrom(doc, i).Ok?
    ensures |ArrayFrom(doc, i).value| == |doc| - i
    ensures ArrayFrom(doc, i).value[k - i] == Lookup(doc, Itoa(k)).0
    decreases k - i
  {
    ArrayFromLength(doc, i);
    var rest := ArrayFrom(doc, i + 1);
    assert ArrayFrom(doc, i).value == [Lookup(doc, Itoa(i)).0] + rest.value;
    if k > i {
      ArrayFromItem(doc, i + 1, k);
    }
  }

  lemma ToArrayMeaning(doc: D)
    ensures ArrayOf(doc).Err? <==> exists k :: 0 <= k < |doc| && Lookup(doc, Itoa(k)).1 < 0
    ensures ArrayOf(doc).Err? ==> ArrayOf(doc).error == InvalidArray
    ensures ArrayOf(doc).Ok? ==>
              |ArrayOf(doc).value| == |doc| &&
              forall k :: 0 <= k < |doc| ==> ArrayOf(doc).value[k] == Lookup(doc, Itoa(k)).0
  {
    ArrayFromFails(doc, 0);
    if ArrayOf(doc).Ok? && |doc| > 0 {
      ArrayFromLength(doc, 0);
      forall k | 0 <= k < |doc| ensures ArrayOf(doc).value[k] == Lookup(doc, Itoa(k)).0 {
        ArrayFromItem(doc, 0, k);
      }
    }
  }

  method ToArray(doc: D) returns (r: Result<seq<Value>>)
    ensures r == ArrayOf(doc)
  {
    if |doc| == 0 {
      return Ok([]);
    }
    var arr: seq<Value> := [];
    var i := 0;
    while i < |doc|
      invariant 0 <= i <= |doc| && |arr| == i
      invariant ArrayFrom(doc, 0) == Prepend(arr, ArrayFrom(doc, i))
    {
      var val, index := Get(doc, Itoa(i));
      if index < 0 {
        return Err(InvalidArray);
      }
      assert ArrayFrom(doc, i) == Prepend([val], ArrayFrom(doc, i + 1));
      PrependTwice(arr, [val], ArrayFrom(doc, i + 1));
      arr := arr + [val];
      i := i + 1;
    }
    assert arr + [] == arr;
    return Ok(arr);
  }

  /** Names are looked up first-match, so the elements of an array-shaped
      document may come in any order. */
  lemma ToArrayIgnoresOrder(a: Value, b: Value)
    ensures ArrayOf([E(Itoa(1), a), E(Itoa(0), b)]) == Ok([b, a])
  {
    var d := [E(Itoa(1), a), E(Itoa(0), b)];
    assert Itoa(1) == [0x31] && Itoa(0) == [0x30];
    LookupFirst(d, Itoa(0));
    assert Lookup(d, Itoa(0)) == (b, 1);
    assert Lookup(d, Itoa(1)) == (a, 0);
    ToArrayMeaning(d);
    assert ArrayOf(d).value == [b, a];
  }

  lemma {:induction false} LookupIndexed(values: seq<Value>, i: nat)
    requires i < |values|
    ensures Lookup(Indexed(values), Itoa(i)) == (values[i], i)
  {
    var d := Indexed(values);
    LookupFirst(d, Itoa(i));
    forall j | 0 <= j < i ensures d[j].name != Itoa(i) {
      if d[j].name == Itoa(i) { ItoaInjective(j, i); }
    }
  }

  /** ToArray(FromArray(v...)) gives back v. */
  lemma ToArrayFromArray(values: seq<Value>)
    ensures ArrayOf(Indexed(values)) == Ok(values)
  {
    var d := Indexed(values);
    ToArrayMeaning(d);
    forall k | 0 <= k < |d| ensures Lookup(d, Itoa(k)) == (values[k], k) {
      LookupIndexed(values, k);
    }
    if ArrayOf(d).Ok? {
      assert ArrayOf(d).value == values;
    }
  }

  // D.Normalize: native ints become int64, in place, at the top level only.

  /** The element with its name kept and a native int made an int64. */
  function NormalizedElement(e: Element): (r: Element)
    ensures r.name == e.name && !r.value.NativeInt?
    ensures e.value.NativeInt? ==> r.value == Int64(e.value.n)
  {
    if e.value.NativeInt? then E(e.name, Int64(e.value.n)) else e
  }

  function Normalized(d: D): (r: D)
    ensures |r| == |d|
  {
    seq(|d|, i requires 0 <= i < |d| => NormalizedElement(d[i]))
  }

  method Normalize(doc: array<Element>)
    modifies doc
    ensures doc[..] == Normalized(old(doc[..]))
  {
    for i := 0 to doc.Length
      invariant forall j :: 0 <= j < i ==> doc[j] == NormalizedElement(old(doc[j]))
      invariant forall j :: i <= j < doc.Length ==> doc[j] == old(doc[j])
    {
      if doc[i].value.NativeInt? {
        doc[i] := doc[i].(value := Int64(doc[i].value.n));
      }
    }
  }

  /** Normalize keeps length and names, turns each top-level native int
      into an int64 of the same value, and touches nothing else. */
  lemma NormalizedMeaning(d: D)
    ensures |Normalized(d)| == |d|
    ensures forall i :: 0 <= i < |d| ==> Normalized(d)[i].name == d[i].name
    ensures forall i :: 0 <= i < |d| && d[i].value.NativeInt? ==>
              Normalized(d)[i].value == Int64(d[i].value.n)
    ensures forall i :: 0 <= i < |d| && !d[i].value.NativeInt? ==> Normalized(d)[i] == d[i]
    ensures forall i :: 0 <= i < |d| ==> !Normalized(d)[i].value.NativeInt?
    ensures Normalized(Normalized(d)) == Normalized(d)
  {
  }

  // D.ToMap: names to values, nested documents converted recursively.

  /** A value of the map ToMap builds: a nested document becomes a map,
      every other value (arrays included) is kept as it is. */
  datatype MapValue = Plain(v: Value) | Nested(m: map<seq<byte>, MapValue>)

  function MapOf(doc: D): (m: map<seq<byte>, MapValue>)
    decreases DocSize(doc), 1
  {
    if doc == [] then map[]
    else
      ElementValueSmaller(doc, |doc| - 1);
      PrefixSmaller(doc);
      MapOf(doc[..|doc| - 1])[doc[|doc| - 1].name := EntryOf(doc[|doc| - 1].value)]
  }

  /** A nested document becomes a map, anything else stays a value. */
  function EntryOf(v: Value): (r: MapValue)
    ensures r.Nested? <==> v.Doc?
    ensures r.Plain? ==> r.v == v
    decreases ValueSize(v), 0
  {
    if v.Doc? then Nested(MapOf(v.doc)) else Plain(v)
  }

  lemma {:induction false} PrefixSmaller(d: D)
    requires d != []
    ensures DocSize(d[..|d| - 1]) < DocSize(d)
  {
    if |d| > 1 {
      PrefixSmaller(d[1..]);
      assert d[..|d| - 1][1..] == d[1..][..|d[1..]| - 1];
    }
  }

  /** The index of the last element named `name`, or -1. */
  function LastIndex(doc: D, name: seq<byte>): (r: int)
    ensures -1 <= r < |doc|
    ensures r >= 0 ==> doc[r].name == name
    ensures forall j :: r < j < |doc| ==> doc[j].name != name
  {
    if doc == [] then -1
    else if doc[|doc| - 1].name == name then |doc| - 1
    else LastIndex(doc[..|doc| - 1], name)
  }

  /** ToMap holds one key per distinct name; for a repeated name the last
      element wins. */
  lemma {:induction false} MapOfMeaning(doc: D)
    ensures forall k :: k in MapOf(doc) <==> LastIndex(doc, k) >= 0
    ensures forall k :: k in MapOf(doc) ==> MapOf(doc)[k] == EntryOf(doc[LastIndex(doc, k)].value)
    decreases |doc|
  {
    if doc != [] {
      MapOfMeaning(doc[..|doc| - 1]);
    }
  }

  method ToMap(doc: D) returns (m: map<seq<byte>, MapValue>)
    ensures m == MapOf(doc)
    decreases DocSize(doc)
  {
    m := map[];
    for i := 0 to |doc|
      invariant m == MapOf(doc[..i])
    {
      assert doc[..i + 1][..i] == doc[..i];
      ElementValueSmaller(doc, i);
      if doc[i].value.Doc? {
        var nested := ToMap(doc[i].value.doc);
        m := m[doc[i].name := Nested(nested)];
      } else {
        m := m[doc[i].name := Plain(doc[i].value)];
      }
    }
    assert doc[..|doc|] == doc;
  }
}
