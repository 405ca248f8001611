/** MySQL's binary JSON: the C++ parser in use and the Python parser it replaces. */
module JsonBinary {
  import opened Framing
  import opened ByteOrder

  datatype Result<+T> = Ok(value: T) | Error

  /** A document. Doubles are kept as their eight bytes, the members of an object in the order they are stored. */
  datatype Json =
    | Null
    | Bool(b: bool)
    | Number(i: int)
    | Double(raw: Bytes)
    | String(s: Bytes)
    | Array(elements: seq<Json>)
    | Object(keys: seq<Bytes>, values: seq<Json>)

  const SMALL_OBJECT: Byte := 0x0
  const LARGE_OBJECT: Byte := 0x1
  const SMALL_ARRAY: Byte := 0x2
  const LARGE_ARRAY: Byte := 0x3
  const LITERAL: Byte := 0x4
  const INT16: Byte := 0x5
  const UINT16: Byte := 0x6
  const INT32: Byte := 0x7
  const UINT32: Byte := 0x8
  const INT64: Byte := 0x9
  const UINT64: Byte := 0xA
  const DOUBLE: Byte := 0xB
  const STRING: Byte := 0xC
  const OPAQUE: Byte := 0xF

  const MAX_UINT32: nat := 0xFFFF_FFFF
  const MAX_SIZE: nat := 0x7FFF_FFFF_FFFF_FFFF

  function Pow128(n: nat): nat {
    if n == 0 then 1 else 128 * Pow128(n - 1)
  }

  /** Two's complement. */
  function Signed(b: Bytes): int
    requires b != []
  {
    if b[|b| - 1] as int < 128 then LittleEndian(b) else LittleEndian(b) - Pow256(|b|)
  }

  // ---- The layout of containers

  function OffsetSize(large: bool): nat { if large then 4 else 2 }
  function KeyEntrySize(large: bool): nat { 2 + OffsetSize(large) }
  function ValueEntrySize(large: bool): nat { 1 + OffsetSize(large) }

  function KeyEntryOffset(i: nat, large: bool): nat {
    2 * OffsetSize(large) + KeyEntrySize(large) * i
  }

  function ValueEntryOffset(i: nat, isObject: bool, large: bool, count: nat): nat {
    2 * OffsetSize(large) + (if isObject then count * KeyEntrySize(large) else 0) + ValueEntrySize(large) * i
  }

  function HeaderSize(isObject: bool, large: bool, count: nat): nat {
    2 * OffsetSize(large) + (if isObject then count * KeyEntrySize(large) else 0) + count * ValueEntrySize(large)
  }

  predicate Inlined(kind: Byte, large: bool) {
    kind == LITERAL || kind == INT16 || kind == UINT16 || (large && (kind == INT32 || kind == UINT32))
  }

  predicate IsContainer(kind: Byte) {
    kind == SMALL_OBJECT || kind == LARGE_OBJECT || kind == SMALL_ARRAY || kind == LARGE_ARRAY
  }

  function ReadOffset(data: Bytes, at: nat, large: bool): nat
    requires at + OffsetSize(large) <= |data|
  {
    LittleEndian(data[at..at + OffsetSize(large)])
  }

  /** Entries lie within the header. */
  lemma EntryInHeader(i: nat, isObject: bool, large: bool, count: nat)
    requires i < count
    ensures ValueEntryOffset(i, isObject, large, count) + ValueEntrySize(large) <= HeaderSize(isObject, large, count)
    ensures isObject ==> KeyEntryOffset(i, large) + KeyEntrySize(large) <= ValueEntryOffset(0, isObject, large, count)
  {
  }

  // ---- Lengths of strings: seven bits a byte, lowest first, in at most five bytes

  function VarLength(data: Bytes, i: nat, length: nat): Result<(nat, nat)>
    decreases |data| - i
  {
    if i >= 5 || i >= |data| then Error
    else
      var sum := length + data[i] as int % 128 * Pow128(i);
      if data[i] as int < 128 then Ok((sum, i + 1)) else VarLength(data, i + 1, sum)
  }

  lemma {:induction false} VarLengthPrefix(data: Bytes, longer: Bytes, i: nat, length: nat)
    requires data <= longer && VarLength(data, i, length).Ok?
    ensures VarLength(longer, i, length) == VarLength(data, i, length)
    ensures i < VarLength(data, i, length).value.1 <= |data|
    decreases |data| - i
  {
    if data[i] as int >= 128 {
      VarLengthPrefix(data, longer, i + 1, length + data[i] as int % 128 * Pow128(i));
    }
  }

  /** read_variable_length, which refuses lengths beyond 32 bits. */
  method ReadVariableLength(data: Bytes) returns (r: Result<(nat, nat)>)
    ensures r == CppLength(data)
  {
    var length: nat := 0;
    for i := 0 to if |data| < 5 then |data| else 5
      invariant VarLength(data, 0, 0) == VarLength(data, i, length)
    {
      length := length + data[i] as int % 128 * Pow128(i);
      if data[i] as int < 128 {
        return if length > MAX_UINT32 then Error else Ok((length, i + 1));
      }
    }
    return Error;
  }

  function CppLength(data: Bytes): Result<(nat, nat)> {
    var r := VarLength(data, 0, 0);
    if r.Ok? && r.value.0 > MAX_UINT32 then Error else r
  }

  /** decode_variable_length, which answers (0, 0) when there is no length. */
  method DecodeVariableLength(data: Bytes) returns (length: nat, n: nat)
    ensures (length, n) == PyLength(data)
  {
    length, n := 0, 0;
    var count := if |data| < 5 then |data| else 5;
    for i := 0 to count
      invariant n == i && VarLength(data, 0, 0) == VarLength(data, i, length)
    {
      var v := data[n];
      length := length + v as int % 128 * Pow128(n);
      n := n + 1;
      if v as int < 128 {
        if length > MAX_SIZE - 1 {
          return 0, 0;
        }
        return;
      }
    }
    return 0, 0;
  }

  function PyLength(data: Bytes): (nat, nat) {
    var r := VarLength(data, 0, 0);
    if r.Error? || r.value.0 > MAX_SIZE - 1 then (0, 0) else r.value
  }

  // ---- The C++ parser

  function CppScalar(kind: Byte, data: Bytes): Result<Json> {
    if kind == LITERAL then
      if |data| < 1 then Error else Literal(data[0])
    else if kind == INT16 then
      if |data| < 2 then Error else Ok(Number(Signed(data[..2])))
    else if kind == INT32 then
      if |data| < 4 then Error else Ok(Number(Signed(data[..4])))
    else if kind == INT64 then
      if |data| < 8 then Error else Ok(Number(Signed(data[..8])))
    else if kind == UINT16 then
      if |data| < 2 then Error else Ok(Number(LittleEndian(data[..2])))
    else if kind == UINT32 then
      if |data| < 4 then Error else Ok(Number(LittleEndian(data[..4])))
    else if kind == UINT64 then
      if |data| < 8 then Error else Ok(Number(LittleEndian(data[..8])))
    else if kind == DOUBLE then
      if |data| < 8 then Error else Ok(Double(data[..8]))
    else if kind == STRING then
      var length := CppLength(data);
      if length.Error? || |data| < length.value.1 + length.value.0 then Error
      else Ok(String(data[length.value.1..length.value.1 + length.value.0]))
    else Error
  }

  function Literal(b: Byte): Result<Json> {
    if b == 0x0 then Ok(Null) else if b == 0x1 then Ok(Bool(true)) else if b == 0x2 then Ok(Bool(false)) else Error
  }

  /** parse_value. Nested calls are on strictly shorter slices, and every read is inside the slice. */
  function CppValue(kind: Byte, data: Bytes): Result<Json>
    decreases |data|, 2, 0
  {
    if kind == SMALL_OBJECT then CppContainer(true, data, false)
    else if kind == LARGE_OBJECT then CppContainer(true, data, true)
    else if kind == SMALL_ARRAY then CppContainer(false, data, false)
    else if kind == LARGE_ARRAY then CppContainer(false, data, true)
    else CppScalar(kind, data)
  }

  /** The first `bytes` bytes of a container, and how many elements it has. */
  function CppHeader(isObject: bool, data: Bytes, large: bool): (r: Result<(nat, nat)>)
    ensures r.Ok? ==> HeaderSize(isObject, large, r.value.0) <= r.value.1 <= |data|
  {
    if |data| < 2 * OffsetSize(large) then Error
    else
      var count, bytes := ReadOffset(data, 0, large), ReadOffset(data, OffsetSize(large), large);
      if bytes > |data| || HeaderSize(isObject, large, count) > bytes then Error else Ok((count, bytes))
  }

  function CppContainer(isObject: bool, data: Bytes, large: bool): Result<Json>
    decreases |data|, 1, 0
  {
    var header := CppHeader(isObject, data, large);
    if header.Error? then Error
    else
      var count, slice := header.value.0, data[..header.value.1];
      var values := CppValues(isObject, slice, large, count, 0);
      if values.Error? then Error
      else if !isObject then Ok(Array(values.value))
      else
        var keys := CppKeys(slice, large, count, 0);
        if keys.Error? then Error else Ok(Object(keys.value, values.value))
  }

  /** The elements from the i-th on. */
  function CppValues(isObject: bool, data: Bytes, large: bool, count: nat, i: nat): Result<seq<Json>>
    requires i <= count && HeaderSize(isObject, large, count) <= |data|
    decreases |data|, 0, count - i
  {
    if i == count then Ok([])
    else
      var first, later := CppElement(isObject, data, large, count, i), CppValues(isObject, data, large, count, i + 1);
      if first.Ok? && later.Ok? then Ok([first.value] + later.value) else Error
  }

  /** get_element */
  function CppElement(isObject: bool, data: Bytes, large: bool, count: nat, i: nat): Result<Json>
    requires i < count && HeaderSize(isObject, large, count) <= |data|
    decreases |data|, 0, 0
  {
    EntryInHeader(i, isObject, large, count);
    var entry := ValueEntryOffset(i, isObject, large, count);
    var end, kind := entry + ValueEntrySize(large), data[entry];
    if Inlined(kind, large) then CppScalar(kind, data[entry + 1..end])
    else
      var offset := ReadOffset(data, entry + 1, large);
      if |data| < offset || offset < end then Error else CppValue(kind, data[offset..])
  }

  /** get_key */
  function CppKey(data: Bytes, large: bool, count: nat, i: nat): Result<Bytes>
    requires i < count && HeaderSize(true, large, count) <= |data|
  {
    EntryInHeader(i, true, large, count);
    var entry := KeyEntryOffset(i, large);
    var offset, length := ReadOffset(data, entry, large), ReadOffset(data, entry + OffsetSize(large), false);
    if offset < entry + (count - i) * KeyEntrySize(large) + count * ValueEntrySize(large)
        || |data| < offset + length then Error
    else Ok(data[offset..offset + length])
  }

  function CppKeys(data: Bytes, large: bool, count: nat, i: nat): Result<seq<Bytes>>
    requires i <= count && HeaderSize(true, large, count) <= |data|
    decreases count - i
  {
    if i == count then Ok([])
    else
      var first, later := CppKey(data, large, count, i), CppKeys(data, large, count, i + 1);
      if first.Ok? && later.Ok? then Ok([first.value] + later.value) else Error
  }

  function Prepend<T>(front: seq<T>, later: Result<seq<T>>): Result<seq<T>> {
    if later.Ok? then Ok(front + later.value) else Error
  }

  lemma Prepending<T>(front: seq<T>, first: T, later: Result<seq<T>>)
    ensures Prepend([], later) == later
    ensures later.Ok? ==> Prepend(front, Ok([first] + later.value)) == Prepend(front + [first], later)
    ensures Prepend(front, Ok([])) == Ok(front)
  {
    if later.Ok? {
      assert [] + later.value == later.value;
      assert front + ([first] + later.value) == front + [first] + later.value;
    }
    assert front + [] == front;
  }

  /** The values and keys of the first elements, in front of those still to be read. */
  ghost predicate SoFar(isObject: bool, data: Bytes, large: bool, count: nat, i: nat, values: seq<Json>,
                        keys: seq<Bytes>)
    requires i <= count && HeaderSize(isObject, large, count) <= |data|
  {
    && CppValues(isObject, data, large, count, 0) == Prepend(values, CppValues(isObject, data, large, count, i))
    && (isObject ==> CppKeys(data, large, count, 0) == Prepend(keys, CppKeys(data, large, count, i)))
  }

  lemma SoFarNext(isObject: bool, data: Bytes, large: bool, count: nat, i: nat, values: seq<Json>, keys: seq<Bytes>,
                  value: Json, key: Bytes)
    requires i < count && HeaderSize(isObject, large, count) <= |data|
             && SoFar(isObject, data, large, count, i, values, keys)
    requires CppElement(isObject, data, large, count, i) == Ok(value)
             && (isObject ==> CppKey(data, large, count, i) == Ok(key))
    ensures SoFar(isObject, data, large, count, i + 1, values + [value], keys + [key])
  {
    Prepending(values, value, CppValues(isObject, data, large, count, i + 1));
    if isObject {
      Prepending(keys, key, CppKeys(data, large, count, i + 1));
    }
  }

  /** parse_array_or_object: element by element, each with its key. */
  method ParseArrayOrObject(isObject: bool, data: Bytes, large: bool) returns (r: Result<Json>)
    ensures r == CppContainer(isObject, data, large)
  {
    var header := CppHeader(isObject, data, large);
    if header.Error? {
      return Error;
    }
    var count, slice := header.value.0, data[..header.value.1];
    var values: seq<Json>, keys: seq<Bytes> := [], [];
    Prepending([], Null, CppValues(isObject, slice, large, count, 0));
    if isObject {
      Prepending([], [], CppKeys(slice, large, count, 0));
    }
    for i := 0 to count
      invariant SoFar(isObject, slice, large, count, i, values, keys)
    {
      var element := CppElement(isObject, slice, large, count, i);
      if element.Error? {
        return Error;
      }
      var key := if isObject then CppKey(slice, large, count, i) else Ok([]);
      if key.Error? {
        return Error;
      }
      SoFarNext(isObject, slice, large, count, i, values, keys, element.value, key.value);
      values, keys := values + [element.value], keys + [key.value];
    }
    Prepending(keys, [], Error);
    Prepending(values, Null, Error);
    r := Ok(if isObject then Object(keys, values) else Array(values));
  }

  // ---- The Python parser

  /** The decoders of opaque values. */
  type Decoder = Bytes -> Result<Json>

  function PyScalar(kind: Byte, data: Bytes, opaqueValue: Decoder): Result<Json> {
    if kind == LITERAL then
      if |data| < 1 then Error else Literal(data[0])
    else if kind == INT16 then
      if |data| < 2 then Error else Ok(Number(Signed(data[..2])))
    else if kind == UINT16 then
      if |data| < 2 then Error else Ok(Number(LittleEndian(data[..2])))
    else if kind == INT32 then
      if |data| < 4 then Error else Ok(Number(Signed(data[..4])))
    else if kind == UINT32 then
      if |data| < 4 then Error else Ok(Number(LittleEndian(data[..4])))
    else if kind == INT64 then
      if |data| < 8 then Error else Ok(Number(Signed(data[..8])))
    else if kind == UINT64 then
      if |data| < 8 then Error else Ok(Number(LittleEndian(data[..8])))
    else if kind == DOUBLE then
      if |data| < 8 then Error else Ok(Double(data[..8]))
    else if kind == STRING then
      var length := PyLength(data);
      Ok(String(Slice(data, length.1, length.1 + length.0)))
    else if kind == OPAQUE then opaqueValue(data)
    else Error
  }

  /** data[from:end], where both ends may lie beyond the data. */
  function Slice(data: Bytes, from: nat, end: nat): Bytes
    requires from <= end
  {
    if |data| <= from then [] else if |data| < end then data[from..] else data[from..end]
  }

  /** parse_json, within a limit on the depth of recursion; beyond it an exception is raised. */
  function PyValue(fuel: nat, kind: Byte, data: Bytes, opaqueValue: Decoder): Result<Json>
    decreases fuel, 0, 0
  {
    if fuel == 0 then Error
    else if kind == SMALL_OBJECT then PyContainer(fuel - 1, true, data, false, opaqueValue)
    else if kind == LARGE_OBJECT then PyContainer(fuel - 1, true, data, true, opaqueValue)
    else if kind == SMALL_ARRAY then PyContainer(fuel - 1, false, data, false, opaqueValue)
    else if kind == LARGE_ARRAY then PyContainer(fuel - 1, false, data, true, opaqueValue)
    else PyScalar(kind, data, opaqueValue)
  }

  function PyHeader(isObject: bool, data: Bytes, large: bool): (r: Result<nat>)
    ensures r.Ok? ==> HeaderSize(isObject, large, r.value) <= |data|
  {
    if |data| < 2 * OffsetSize(large) then Error
    else
      var count, size := ReadOffset(data, 0, large), ReadOffset(data, OffsetSize(large), large);
      if |data| < size || HeaderSize(isObject, large, count) > size then Error else Ok(count)
  }

  /** All the elements, or an offset beyond the data, which makes the whole container a null, or an exception. */
  datatype Elements = All(values: seq<Json>) | Short | Raised

  function PyContainer(fuel: nat, isObject: bool, data: Bytes, large: bool, opaqueValue: Decoder): Result<Json>
    decreases fuel, 2, 0
  {
    var count := PyHeader(isObject, data, large);
    if count.Error? then Error
    else
      match PyValues(fuel, isObject, data, large, count.value, 0, opaqueValue)
      case Raised => Error
      case Short => Ok(Null)
      case All(values) => Ok(if isObject then Object(PyKeys(data, large, count.value, 0), values) else Array(values))
  }

  function PyValues(fuel: nat, isObject: bool, data: Bytes, large: bool, count: nat, i: nat,
                    opaqueValue: Decoder): Elements
    requires i <= count && HeaderSize(isObject, large, count) <= |data|
    decreases fuel, 1, count - i
  {
    if i == count then All([])
    else
      match PyElement(fuel, isObject, data, large, count, i, opaqueValue)
      case Raised => Raised
      case Short => Short
      case All(first) =>
        match PyValues(fuel, isObject, data, large, count, i + 1, opaqueValue)
        case All(later) => All(first + later)
        case other => other
  }

  function PyElement(fuel: nat, isObject: bool, data: Bytes, large: bool, count: nat, i: nat,
                     opaqueValue: Decoder): Elements
    requires i < count && HeaderSize(isObject, large, count) <= |data|
    decreases fuel, 1, 0
  {
    EntryInHeader(i, isObject, large, count);
    var entry := ValueEntryOffset(i, isObject, large, count);
    var kind := data[entry];
    if Inlined(kind, large) then One(PyValue(fuel, kind, data[entry + 1..entry + ValueEntrySize(large)], opaqueValue))
    else
      var offset := ReadOffset(data, entry + 1, large);
      if |data| < offset then Short else One(PyValue(fuel, kind, data[offset..], opaqueValue))
  }

  function One(r: Result<Json>): Elements {
    if r.Ok? then All([r.value]) else Raised
  }

  function PyKey(data: Bytes, large: bool, count: nat, i: nat): Bytes
    requires i < count && HeaderSize(true, large, count) <= |data|
  {
    EntryInHeader(i, true, large, count);
    var entry := KeyEntryOffset(i, large);
    var offset, length := ReadOffset(data, entry, large), ReadOffset(data, entry + OffsetSize(large), false);
    Slice(data, offset, offset + length)
  }

  function PyKeys(data: Bytes, large: bool, count: nat, i: nat): seq<Bytes>
    requires i <= count && HeaderSize(true, large, count) <= |data|
    decreases count - i
  {
    if i == count then [] else [PyKey(data, large, count, i)] + PyKeys(data, large, count, i + 1)
  }

  function Extend(front: seq<Json>, later: Elements): Elements {
    if later.All? then All(front + later.values) else later
  }

  /** parse_json_object_or_array: all the keys first, then all the values. */
  method ParseJsonObjectOrArray(fuel: nat, isObject: bool, data: Bytes, large: bool, opaqueValue: Decoder)
    returns (r: Result<Json>)
    ensures r == PyContainer(fuel, isObject, data, large, opaqueValue)
  {
    var header := PyHeader(isObject, data, large);
    if header.Error? {
      return Error;
    }
    var count := header.value;
    var keys: seq<Bytes> := [];
    if isObject {
      keys := ReadKeys(data, large, count);
    }
    var values := ReadValues(fuel, isObject, data, large, count, opaqueValue);
    match values
    case Raised => return Error;
    case Short => return Ok(Null);
    case All(elements) => return Ok(if isObject then Object(keys, elements) else Array(elements));
  }

  /** The loop over the values, which an exception or a short offset ends. */
  method ReadValues(fuel: nat, isObject: bool, data: Bytes, large: bool, count: nat, opaqueValue: Decoder)
    returns (r: Elements)
    requires HeaderSize(isObject, large, count) <= |data|
    ensures r == PyValues(fuel, isObject, data, large, count, 0, opaqueValue)
  {
    var values: seq<Json> := [];
    ExtendNothing(PyValues(fuel, isObject, data, large, count, 0, opaqueValue));
    for i := 0 to count
      invariant PyValues(fuel, isObject, data, large, count, 0, opaqueValue) ==
                Extend(values, PyValues(fuel, isObject, data, large, count, i, opaqueValue))
    {
      var element := PyElement(fuel, isObject, data, large, count, i, opaqueValue);
      if !element.All? {
        return element;
      }
      ExtendMore(values, element.values, PyValues(fuel, isObject, data, large, count, i + 1, opaqueValue));
      values := values + element.values;
    }
    assert values + [] == values;
    r := All(values);
  }

  lemma ExtendNothing(later: Elements)
    ensures Extend([], later) == later
  {
  }

  lemma ExtendMore(front: seq<Json>, more: seq<Json>, later: Elements)
    ensures Extend(front, Extend(more, later)) == Extend(front + more, later)
  {
    if later.All? {
      assert front + (more + later.values) == front + more + later.values;
    }
  }

  method ReadKeys(data: Bytes, large: bool, count: nat) returns (keys: seq<Bytes>)
    requires HeaderSize(true, large, count) <= |data|
    ensures keys == PyKeys(data, large, count, 0)
  {
    keys := [];
    for i := 0 to count
      invariant PyKeys(data, large, count, 0) == keys + PyKeys(data, large, count, i)
    {
      keys := keys + [PyKey(data, large, count, i)];
    }
    assert keys + [] == keys;
  }

  // ---- Agreement

  lemma PrefixSlice(slice: Bytes, longer: Bytes, from: nat, end: nat)
    requires slice <= longer && from <= end <= |slice|
    ensures slice[from..end] == longer[from..end]
  {
  }

  lemma PrefixSuffix(slice: Bytes, longer: Bytes, from: nat)
    requires slice <= longer && from <= |slice|
    ensures slice[from..] <= longer[from..]
  {
  }

  lemma ScalarsAgree(kind: Byte, slice: Bytes, longer: Bytes, opaqueValue: Decoder)
    requires slice <= longer && !IsContainer(kind) && CppScalar(kind, slice).Ok?
    ensures PyScalar(kind, longer, opaqueValue) == CppScalar(kind, slice)
  {
    assert |slice| >= 2 ==> slice[..2] == longer[..2];
    assert |slice| >= 4 ==> slice[..4] == longer[..4];
    assert |slice| >= 8 ==> slice[..8] == longer[..8];
    if kind == STRING {
      VarLengthPrefix(slice, longer, 0, 0);
      var length := CppLength(slice).value;
      PrefixSlice(slice, longer, length.1, length.1 + length.0);
    }
  }

  lemma KeyAgrees(slice: Bytes, longer: Bytes, large: bool, count: nat, i: nat)
    requires slice <= longer && i < count && HeaderSize(true, large, count) <= |slice|
             && CppKey(slice, large, count, i).Ok?
    ensures PyKey(longer, large, count, i) == CppKey(slice, large, count, i).value
  {
    EntryInHeader(i, true, large, count);
    var entry, size := KeyEntryOffset(i, large), OffsetSize(large);
    PrefixSlice(slice, longer, entry, entry + size);
    PrefixSlice(slice, longer, entry + size, entry + size + 2);
    var offset, length := ReadOffset(slice, entry, large), ReadOffset(slice, entry + size, false);
    PrefixSlice(slice, longer, offset, offset + length);
  }

  lemma {:induction false} KeysAgree(slice: Bytes, longer: Bytes, large: bool, count: nat, i: nat)
    requires slice <= longer && i <= count && HeaderSize(true, large, count) <= |slice|
             && CppKeys(slice, large, count, i).Ok?
    ensures PyKeys(longer, large, count, i) == CppKeys(slice, large, count, i).value
    decreases count - i
  {
    if i < count {
      KeyAgrees(slice, longer, large, count, i);
      KeysAgree(slice, longer, large, count, i + 1);
    }
  }

  /** How deeply a document is nested; a scalar has depth one. */
  function Depth(j: Json): nat {
    match j
    case Array(elements) => 1 + MaxDepth(elements)
    case Object(_, values) => 1 + MaxDepth(values)
    case _ => 1
  }

  function MaxDepth(s: seq<Json>): nat {
    if s == [] then 0 else
      var first, later := Depth(s[0]), MaxDepth(s[1..]);
      if first < later then later else first
  }

  lemma ScalarDepth(kind: Byte, slice: Bytes)
    requires CppScalar(kind, slice).Ok?
    ensures Depth(CppScalar(kind, slice).value) == 1
  {
  }

  /** Whenever the C++ parser accepts a slice, the Python parser, given the same bytes and whatever follows them,
      builds the same document if that is nested no deeper than the recursion limit, and raises otherwise. */
  lemma {:induction false} ParsersAgree(fuel: nat, kind: Byte, slice: Bytes, longer: Bytes, opaqueValue: Decoder)
    requires slice <= longer && CppValue(kind, slice).Ok?
    ensures PyValue(fuel, kind, longer, opaqueValue) ==
            if Depth(CppValue(kind, slice).value) <= fuel then CppValue(kind, slice) else Error
    decreases |slice|, 2, 0
  {
    if IsContainer(kind) {
      var isObject, large := kind == SMALL_OBJECT || kind == LARGE_OBJECT, kind == LARGE_OBJECT || kind == LARGE_ARRAY;
      assert CppValue(kind, slice) == CppContainer(isObject, slice, large);
      if fuel > 0 {
        ContainersAgree(fuel - 1, isObject, slice, longer, large, opaqueValue);
      }
    } else {
      ScalarsAgree(kind, slice, longer, opaqueValue);
      ScalarDepth(kind, slice);
    }
  }

  lemma {:induction false} ContainersAgree(fuel: nat, isObject: bool, slice: Bytes, longer: Bytes, large: bool,
                                           opaqueValue: Decoder)
    requires slice <= longer && CppContainer(isObject, slice, large).Ok?
    ensures PyContainer(fuel, isObject, longer, large, opaqueValue) ==
            if Depth(CppContainer(isObject, slice, large).value) <= fuel + 1 then CppContainer(isObject, slice, large)
                else Error
    decreases |slice|, 1, 0
  {
    var size := OffsetSize(large);
    PrefixSlice(slice, longer, 0, size);
    PrefixSlice(slice, longer, size, 2 * size);
    var header := CppHeader(isObject, slice, large).value;
    var inner := slice[..header.1];
    assert inner <= longer;
    ElementsAgree(fuel, isObject, inner, longer, large, header.0, 0, opaqueValue);
    if isObject {
      KeysAgree(inner, longer, large, header.0, 0);
    }
  }

  lemma {:induction false} ElementsAgree(fuel: nat, isObject: bool, slice: Bytes, longer: Bytes, large: bool,
                                         count: nat, i: nat, opaqueValue: Decoder)
    requires slice <= longer && i <= count && HeaderSize(isObject, large, count) <= |slice|
    requires CppValues(isObject, slice, large, count, i).Ok?
    ensures var values := CppValues(isObject, slice, large, count, i).value;
            PyValues(fuel, isObject, longer, large, count, i, opaqueValue) ==
                if MaxDepth(values) <= fuel then All(values) else Raised
    decreases |slice|, 0, count - i
  {
    if i < count {
      ElementAgrees(fuel, isObject, slice, longer, large, count, i, opaqueValue);
      ElementsAgree(fuel, isObject, slice, longer, large, count, i + 1, opaqueValue);
      var first, later :=
          CppElement(isObject, slice, large, count, i).value, CppValues(isObject, slice, large, count, i + 1).value;
      assert ([first] + later)[1..] == later;
    }
  }

  lemma {:induction false} ElementAgrees(fuel: nat, isObject: bool, slice: Bytes, longer: Bytes, large: bool,
                                         count: nat, i: nat, opaqueValue: Decoder)
    requires slice <= longer && i < count && HeaderSize(isObject, large, count) <= |slice|
    requires CppElement(isObject, slice, large, count, i).Ok?
    ensures var value := CppElement(isObject, slice, large, count, i).value;
            PyElement(fuel, isObject, longer, large, count, i, opaqueValue) == if Depth(value) <= fuel then All([value])
                else Raised
    decreases |slice|, 0, 0
  {
    EntryInHeader(i, isObject, large, count);
    var entry := ValueEntryOffset(i, isObject, large, count);
    var end, kind := entry + ValueEntrySize(large), slice[entry];
    PrefixSlice(slice, longer, entry + 1, end);
    if Inlined(kind, large) {
      ScalarsAgree(kind, slice[entry + 1..end], longer[entry + 1..end], opaqueValue);
      ScalarDepth(kind, slice[entry + 1..end]);
    } else {
      var offset := ReadOffset(slice, entry + 1, large);
      PrefixSuffix(slice, longer, offset);
      ParsersAgree(fuel, kind, slice[offset..], longer[offset..], opaqueValue);
    }
  }

  /** Only one of the parsers needs a limit: an array whose element points back at the array itself makes the Python
      parser recurse to whatever limit there is, while the C++ parser refuses it. */
  lemma {:induction false} SelfReference(fuel: nat, opaqueValue: Decoder)
    ensures var data: Bytes := [1, 0, 7, 0, SMALL_ARRAY, 0, 0];
            PyValue(fuel, SMALL_ARRAY, data, opaqueValue) == Error && CppValue(SMALL_ARRAY, data) == Error
  {
    var data: Bytes := [1, 0, 7, 0, SMALL_ARRAY, 0, 0];
    assert data[0..2] == [1, 0] && data[2..4] == [7, 0] && data[5..7] == [0, 0] && data[..7] == data
           && data[0..] == data;
    Small(1);
    Small(7);
    Small(0);
    EntryInHeader(0, false, false, 1);
    if fuel > 0 {
      SelfReference(fuel - 1, opaqueValue);
      assert PyHeader(false, data, false) == Ok(1);
      assert PyElement(fuel - 1, false, data, false, 1, 0, opaqueValue) == Raised;
      assert PyValues(fuel - 1, false, data, false, 1, 0, opaqueValue) == Raised;
      assert PyContainer(fuel - 1, false, data, false, opaqueValue) == Error;
    }
    assert CppHeader(false, data, false) == Ok((1, 7));
    assert CppElement(false, data, false, 1, 0) == Error;
    assert CppValues(false, data, false, 1, 0) == Error;
    assert CppContainer(false, data, false) == Error;
  }

  lemma Small(b: Byte)
    ensures LittleEndian([b, 0]) == b as int
  {
    var low: Bytes, high: Bytes := [b, 0], [0];
    assert low[1..] == high && high[1..] == [];
    assert LittleEndian(high) == 0;
  }
}
