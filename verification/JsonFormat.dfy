/** MySQL's binary JSON from the side of the writer: what a document looks like in bytes, in all the forms there are
    for it. Both parsers read it back. */
module JsonFormat {
  import opened Framing
  import opened ByteOrder
  import opened JsonBinary

  /** A document with the choices a writer has: how wide an integer is, and whether it has a sign; and whether a
      container has small offsets, of two bytes, or large ones, of four. */
  datatype Stored =
    | Nothing
    | Truth(b: bool)
    | Integer(i: int, size: nat, signed: bool)
    | Real(raw: Bytes)
    | Text(s: Bytes)
    | List(elements: seq<Stored>, large: bool)
    | Record(keys: seq<Bytes>, values: seq<Stored>, large: bool)

  /** The document that is stored. */
  function Meaning(s: Stored): Json {
    match s
    case Nothing => Null
    case Truth(b) => Bool(b)
    case Integer(i, _, _) => Number(i)
    case Real(raw) => Double(raw)
    case Text(t) => String(t)
    case List(elements, _) => Array(Meanings(elements))
    case Record(keys, values, _) => Object(keys, Meanings(values))
  }

  function Meanings(s: seq<Stored>): seq<Json> {
    if s == [] then [] else [Meaning(s[0])] + Meanings(s[1..])
  }

  /** The byte that says what kind of value follows. */
  function Kind(s: Stored): Byte {
    match s
    case Record(_, _, large) => if large then 1 else 0
    case List(_, large) => if large then 3 else 2
    case Nothing => 4
    case Truth(_) => 4
    case Integer(_, size, signed) =>
      if size == 2 then (if signed then 5 else 6)
      else if size == 4 then (if signed then 7 else 8)
      else if signed then 9
      else 10
    case Real(_) => 11
    case Text(_) => 12
  }

  function Width(large: bool): nat { if large then 4 else 2 }

  /** The two numbers at the front, and the entries of keys and values. */
  function HeaderLength(keys: nat, values: nat, large: bool): nat {
    if large then 8 + 6 * keys + 5 * values else 4 + 4 * keys + 3 * values
  }

  /** Seven bits a byte, lowest first; all bytes but the last have the highest bit set. */
  function LengthPrefix(n: nat): Bytes {
    if n < 128 then [n] else [128 + n % 128] + LengthPrefix(n / 128)
  }

  /** Literals and short integers are written into their entry. */
  predicate InEntry(s: Stored, large: bool) {
    s.Nothing? || s.Truth? || (s.Integer? && (s.size == 2 || (s.size == 4 && large)))
  }

  /** A value in its entry is extended to the width of an offset, an integer with its sign. */
  function Extension(s: Stored, size: nat): Bytes {
    seq(size, _ => if s.Integer? && s.i < 0 then 255 else 0)
  }

  /** The bytes of a value: a literal is one byte, an integer has its low byte first and is in two's complement, and a
      container is the number of its elements, its size, the entries of its keys, which give the place and the length
      of each, the entries of its values, which give the kind and the place of each, the keys, and the values. */
  function Written(s: Stored): Bytes
    decreases s, 0
  {
    match s
    case Nothing => [0]
    case Truth(b) => if b then [1] else [2]
    case Integer(i, size, _) => ToLittleEndian(i % Pow256(size), size)
    case Real(raw) => raw
    case Text(t) => LengthPrefix(|t|) + t
    case List(elements, large) =>
      var offset, bodies := HeaderLength(0, |elements|, large), Bodies(elements, large);
      Front(|elements|, offset + |bodies|, large) + Entries(elements, large, offset) + bodies
    case Record(keys, values, large) =>
      var offset, texts, bodies := HeaderLength(|keys|, |values|, large), Flat(keys), Bodies(values, large);
      Front(|values|, offset + |texts| + |bodies|, large) + KeyEntries(keys, large, offset)
      + Entries(values, large, offset + |texts|) + texts + bodies
  }

  function Front(count: nat, size: nat, large: bool): Bytes {
    ToLittleEndian(count, Width(large)) + ToLittleEndian(size, Width(large))
  }

  function Entry(s: Stored, large: bool, offset: nat): Bytes
    decreases s, 1
  {
    [Kind(s)] +
      if InEntry(s, large) && |Written(s)| <= Width(large) then Written(s) + Extension(s, Width(large) - |Written(s)|)
      else ToLittleEndian(offset, Width(large))
  }

  function Entries(values: seq<Stored>, large: bool, offset: nat): Bytes
    decreases values, 0
  {
    if values == [] then []
    else Entry(values[0], large, offset) + Entries(values[1..], large, offset + |Body(values[0], large)|)
  }

  function Body(s: Stored, large: bool): Bytes
    decreases s, 1
  {
    if InEntry(s, large) then [] else Written(s)
  }

  function Bodies(values: seq<Stored>, large: bool): Bytes
    decreases values, 0
  {
    if values == [] then [] else Body(values[0], large) + Bodies(values[1..], large)
  }

  function KeyEntries(keys: seq<Bytes>, large: bool, offset: nat): Bytes {
    if keys == [] then []
    else
      ToLittleEndian(offset, Width(large)) + ToLittleEndian(|keys[0]|, 2)
      + KeyEntries(keys[1..], large, offset + |keys[0]|)
  }

  function Flat(keys: seq<Bytes>): Bytes {
    if keys == [] then [] else keys[0] + Flat(keys[1..])
  }

  /** Integers are in the range of their type, and counts, sizes, offsets and lengths in that of theirs. */
  predicate Fits(s: Stored) {
    match s
    case Nothing => true
    case Truth(_) => true
    case Integer(i, size, signed) =>
      && (size == 2 || size == 4 || size == 8)
      && if signed then -128 * Pow256(size - 1) <= i < 128 * Pow256(size - 1) else 0 <= i < Pow256(size)
    case Real(raw) => |raw| == 8
    case Text(t) => |t| < 0x1_0000_0000
    case List(elements, large) => |Written(s)| < Pow256(Width(large)) && forall e :: e in elements ==> Fits(e)
    case Record(keys, values, large) =>
      && |keys| == |values| && |Written(s)| < Pow256(Width(large))
      && (forall k :: k in keys ==> |k| < 0x1_0000) && (forall v :: v in values ==> Fits(v))
  }

  // ---- Integers and lengths

  /** The highest bit of an integer is in its last byte. */
  lemma {:induction false} LastByte(n: nat, size: nat)
    requires size > 0 && n < Pow256(size)
    ensures ToLittleEndian(n, size)[size - 1] as int < 128 <==> n < 128 * Pow256(size - 1)
  {
    if size > 1 {
      LastByte(n / 256, size - 1);
    } else {
      assert Pow256(0) == 1;
    }
  }

  lemma SignedReads(i: int, size: nat)
    requires size == 2 || size == 4 || size == 8
    requires -128 * Pow256(size - 1) <= i < 128 * Pow256(size - 1)
    ensures Signed(ToLittleEndian(i % Pow256(size), size)) == i
  {
    PowersOf256();
    var n := i % Pow256(size);
    assert n == if i < 0 then i + Pow256(size) else i;
    LastByte(n, size);
    LittleEndianReadBack(n, size);
  }

  /** A length of a string takes at most five bytes. */
  lemma {:induction false} LengthReads(front: Bytes, n: nat, rest: Bytes, length: nat)
    requires |front| < 5 && n < Pow128(5 - |front|)
    ensures VarLength(front + LengthPrefix(n) + rest, |front|, length) ==
            Ok((length + n * Pow128(|front|), |front| + |LengthPrefix(n)|))
    decreases n
  {
    var i, data := |front|, front + LengthPrefix(n) + rest;
    assert data[i] == LengthPrefix(n)[0];
    if n >= 128 {
      assert Pow128(1) == 128 * Pow128(0);
      assert i < 4;
      var next := front + [128 + n % 128];
      assert next + LengthPrefix(n / 128) + rest == data;
      LengthReads(next, n / 128, rest, length + n % 128 * Pow128(i));
      Regroup(n, Pow128(i));
    }
  }

  lemma Regroup(n: nat, p: nat)
    ensures n % 128 * p + n / 128 * (128 * p) == n * p
  {
    assert n == n % 128 + 128 * (n / 128);
  }

  lemma Takes(data: Bytes, front: Bytes, part: Bytes, rest: Bytes)
    requires data == front + part + rest
    ensures data[|front|..|front| + |part|] == part && data[|front|..] == part + rest
    ensures part != [] ==> data[|front|] == part[0]
  {
  }

  // ---- Values

  lemma FiveBytes()
    ensures Pow128(0) == 1 && Pow128(5) == 0x8_0000_0000
  {
    assert Pow128(2) == 0x4000;
    assert Pow128(4) == 128 * Pow128(3) == 0x1000_0000;
  }

  lemma SmallModulo(n: nat, m: nat)
    requires n < m
    ensures n % m == n
  {
  }

  lemma UnsignedReads(i: nat, size: nat)
    requires i < Pow256(size)
    ensures LittleEndian(ToLittleEndian(i % Pow256(size), size)) == i
  {
    SmallModulo(i, Pow256(size));
    LittleEndianReadBack(i, size);
  }

  lemma IntegerReads(s: Stored, rest: Bytes)
    requires Fits(s) && s.Integer?
    ensures CppScalar(Kind(s), Written(s) + rest) == Ok(Number(s.i))
  {
    var written := ToLittleEndian(s.i % Pow256(s.size), s.size);
    if s.signed {
      SignedReads(s.i, s.size);
    } else {
      UnsignedReads(s.i, s.size);
    }
    NumberReads(s.size, s.signed, written, rest);
  }

  lemma NumberReads(size: nat, signed: bool, written: Bytes, rest: Bytes)
    requires (size == 2 || size == 4 || size == 8) && |written| == size
    ensures CppScalar(Kind(Integer(0, size, signed)), written + rest) ==
            Ok(Number(if signed then Signed(written) else LittleEndian(written)))
  {
    assert (written + rest)[..size] == written;
  }

  lemma PrefixReads(n: nat, rest: Bytes)
    requires n < 0x1_0000_0000
    ensures CppLength(LengthPrefix(n) + rest) == Ok((n, |LengthPrefix(n)|))
  {
    FiveBytes();
    LengthReads([], n, rest, 0);
    assert [] + LengthPrefix(n) + rest == LengthPrefix(n) + rest;
  }

  /** Lengths beyond 32 bits, of which five bytes could hold some, are refused by the one parser alone. */
  lemma LongLength(n: nat, rest: Bytes)
    requires 0x1_0000_0000 <= n < 0x8_0000_0000
    ensures CppLength(LengthPrefix(n) + rest) == Error
    ensures PyLength(LengthPrefix(n) + rest) == (n, |LengthPrefix(n)|)
  {
    FiveBytes();
    LengthReads([], n, rest, 0);
    assert [] + LengthPrefix(n) + rest == LengthPrefix(n) + rest;
  }

  lemma TextReads(prefix: Bytes, t: Bytes, rest: Bytes)
    requires CppLength(prefix + (t + rest)) == Ok((|t|, |prefix|))
    ensures CppScalar(12, prefix + t + rest) == Ok(String(t))
  {
    assert prefix + t + rest == prefix + (t + rest);
    Takes(prefix + t + rest, prefix, t, rest);
  }

  lemma ScalarReads(s: Stored, rest: Bytes)
    requires Fits(s) && !s.List? && !s.Record?
    ensures CppScalar(Kind(s), Written(s) + rest) == Ok(Meaning(s))
  {
    match s
    case Nothing =>
    case Truth(_) =>
    case Integer(_, _, _) => IntegerReads(s, rest);
    case Real(raw) => Takes(raw + rest, [], raw, rest);
    case Text(t) =>
      PrefixReads(|t|, t + rest);
      TextReads(LengthPrefix(|t|), t, rest);
  }

  // ---- Containers

  /** `part` is in the data at this place. */
  predicate At(data: Bytes, place: nat, part: Bytes) {
    place + |part| <= |data| && data[place..place + |part|] == part
  }

  lemma AtBoth(data: Bytes, place: nat, a: Bytes, b: Bytes)
    ensures At(data, place, a + b) <==> At(data, place, a) && At(data, place + |a|, b)
  {
    if At(data, place, a) && At(data, place + |a|, b) {
      assert data[place..place + |a + b|] == data[place..place + |a|] + data[place + |a|..place + |a| + |b|];
    }
    if At(data, place, a + b) {
      assert data[place..place + |a|] == (a + b)[..|a|] && data[place + |a|..place + |a| + |b|] == (a + b)[|a|..];
    }
  }

  lemma NumberAt(data: Bytes, place: nat, n: nat, large: bool)
    requires At(data, place, ToLittleEndian(n, Width(large))) && n < Pow256(Width(large))
    ensures place + OffsetSize(large) <= |data| && ReadOffset(data, place, large) == n
  {
    LittleEndianReadBack(n, Width(large));
  }

  lemma {:induction false} EntriesLength(values: seq<Stored>, large: bool, offset: nat)
    ensures |Entries(values, large, offset)| == if large then 5 * |values| else 3 * |values|
  {
    if values != [] {
      EntriesLength(values[1..], large, offset + |Body(values[0], large)|);
      assert |Entry(values[0], large, offset)| == 1 + Width(large);
    }
  }

  lemma {:induction false} KeyEntriesLength(keys: seq<Bytes>, large: bool, offset: nat)
    ensures |KeyEntries(keys, large, offset)| == if large then 6 * |keys| else 4 * |keys|
  {
    if keys != [] {
      KeyEntriesLength(keys[1..], large, offset + |keys[0]|);
    }
  }

  /** Where the parsers look for the entries. */
  lemma Places(isObject: bool, large: bool, count: nat, i: nat)
    requires i <= count
    ensures ValueEntryOffset(i, isObject, large, count) == HeaderLength(if isObject then count else 0, i, large)
    ensures HeaderSize(isObject, large, count) == HeaderLength(if isObject then count else 0, count, large)
    ensures KeyEntryOffset(i, large) == HeaderLength(i, 0, large)
    ensures KeyEntryOffset(i, large) + (count - i) * KeyEntrySize(large) + count * ValueEntrySize(large) ==
            HeaderLength(count, count, large)
  {
    if large {
      assert KeyEntrySize(large) == 6 && ValueEntrySize(large) == 5;
    } else {
      assert KeyEntrySize(large) == 4 && ValueEntrySize(large) == 3;
    }
  }

  /** The bytes of a document are read as the document, whatever follows them. */
  lemma {:induction false} CppReads(s: Stored, rest: Bytes)
    requires Fits(s)
    ensures CppValue(Kind(s), Written(s) + rest) == Ok(Meaning(s))
    decreases s, 0
  {
    match s
    case List(elements, large) => ListReads(elements, large, rest);
    case Record(keys, values, large) => RecordReads(keys, values, large, rest);
    case _ => ScalarReads(s, rest);
  }

  lemma FrontAt(data: Bytes, count: nat, size: nat, large: bool)
    requires At(data, 0, Front(count, size, large))
    requires count < Pow256(Width(large)) && size < Pow256(Width(large))
    ensures 2 * OffsetSize(large) <= |data|
    ensures ReadOffset(data, 0, large) == count && ReadOffset(data, OffsetSize(large), large) == size
  {
    var w := Width(large);
    AtBoth(data, 0, ToLittleEndian(count, w), ToLittleEndian(size, w));
    NumberAt(data, 0, count, large);
    NumberAt(data, w, size, large);
  }

  /** A container is read once its front, its elements and its keys are. */
  lemma ContainerReads(isObject: bool, large: bool, data: Bytes, rest: Bytes, count: nat, keys: seq<Bytes>,
                       values: seq<Json>)
    requires HeaderSize(isObject, large, count) <= |data| < Pow256(Width(large)) && count <= |data|
    requires At(data, 0, Front(count, |data|, large))
    requires CppValues(isObject, data, large, count, 0) == Ok(values)
    requires isObject ==> CppKeys(data, large, count, 0) == Ok(keys)
    ensures CppContainer(isObject, data + rest, large) == Ok(if isObject then Object(keys, values) else Array(values))
  {
    assert (data + rest)[..|data|] == data;
    assert At(data + rest, 0, Front(count, |data|, large));
    FrontAt(data + rest, count, |data|, large);
  }

  lemma ListLayout(elements: seq<Stored>, large: bool)
    ensures var offset, bodies := HeaderLength(0, |elements|, large), Bodies(elements, large);
            var front, entries := Front(|elements|, offset + |bodies|, large), Entries(elements, large, offset);
            && Written(List(elements, large)) == front + entries + bodies
            && |front| == HeaderLength(0, 0, large) && |front| + |entries| == offset
  {
    EntriesLength(elements, large, HeaderLength(0, |elements|, large));
  }

  lemma ThreeParts(data: Bytes, a: Bytes, b: Bytes, c: Bytes, second: nat, third: nat)
    requires data == a + b + c && second == |a| && third == |a| + |b|
    ensures At(data, 0, a) && At(data, second, b) && At(data, third, c) && |data| == third + |c|
  {
    AtBoth(data, 0, a + b, c);
    AtBoth(data, 0, a, b);
  }

  lemma ListPlaces(elements: seq<Stored>, large: bool) returns (place: nat, offset: nat)
    ensures var data := Written(List(elements, large));
            && place == ValueEntryOffset(0, false, large, |elements|)
            && HeaderSize(false, large, |elements|) <= offset <= |data| && At(data, 0, Front(|elements|, |data|, large))
            && At(data, place, Entries(elements, large, offset)) && At(data, offset, Bodies(elements, large))
  {
    var bodies := Bodies(elements, large);
    place, offset := HeaderLength(0, 0, large), HeaderLength(0, |elements|, large);
    ListLayout(elements, large);
    ThreeParts(Written(List(elements, large)), Front(|elements|, offset + |bodies|, large),
               Entries(elements, large, offset), bodies, place, offset);
    Places(false, large, |elements|, 0);
  }

  lemma {:induction false} ListReads(elements: seq<Stored>, large: bool, rest: Bytes)
    requires Fits(List(elements, large))
    ensures CppContainer(false, Written(List(elements, large)) + rest, large) == Ok(Array(Meanings(elements)))
    decreases elements, 1
  {
    var data := Written(List(elements, large));
    var place, offset := ListPlaces(elements, large);
    Counted(false, large, |elements|, |data|);
    ValuesRead(false, large, data, |elements|, 0, place, elements, offset);
    ContainerReads(false, large, data, rest, |elements|, [], Meanings(elements));
  }

  lemma Counted(isObject: bool, large: bool, count: nat, size: nat)
    requires HeaderSize(isObject, large, count) <= size
    ensures count <= size
  {
    Places(isObject, large, count, count);
  }

  /** The elements are read if the entries of those from the i-th on are in their place, and their bodies where the
      entries say. */
  lemma {:induction false} ValuesRead(isObject: bool, large: bool, data: Bytes, count: nat, i: nat, place: nat,
                                      values: seq<Stored>, offset: nat)
    requires i + |values| == count && place == ValueEntryOffset(i, isObject, large, count)
    requires HeaderSize(isObject, large, count) <= offset && HeaderSize(isObject, large, count) <= |data|
    requires |data| < Pow256(Width(large)) && forall v :: v in values ==> Fits(v)
    requires At(data, place, Entries(values, large, offset)) && At(data, offset, Bodies(values, large))
    ensures CppValues(isObject, data, large, count, i) == Ok(Meanings(values))
    decreases values, 0
  {
    if values != [] {
      var next := FirstValue(large, data, place, values, offset);
      NextEntry(i, isObject, large, count);
      ElementReads(isObject, large, data, count, i, place, values[0], offset);
      ValuesRead(isObject, large, data, count, i + 1, place + 1 + Width(large), values[1..], next);
      NextValue(isObject, large, data, count, i, Meaning(values[0]), Meanings(values[1..]));
    } else {
      NoValues(isObject, large, data, count);
    }
  }

  lemma NextEntry(i: nat, isObject: bool, large: bool, count: nat)
    ensures ValueEntryOffset(i + 1, isObject, large, count) ==
            ValueEntryOffset(i, isObject, large, count) + 1 + Width(large)
  {
  }

  lemma NoValues(isObject: bool, large: bool, data: Bytes, count: nat)
    requires HeaderSize(isObject, large, count) <= |data|
    ensures CppValues(isObject, data, large, count, count) == Ok([])
  {
  }

  lemma FirstValue(large: bool, data: Bytes, place: nat, values: seq<Stored>, offset: nat) returns (next: nat)
    requires values != []
    requires At(data, place, Entries(values, large, offset)) && At(data, offset, Bodies(values, large))
    ensures At(data, place, Entry(values[0], large, offset)) && At(data, offset, Body(values[0], large))
    ensures offset <= next && At(data, place + 1 + Width(large), Entries(values[1..], large, next))
    ensures At(data, next, Bodies(values[1..], large))
  {
    var entry, body := Entry(values[0], large, offset), Body(values[0], large);
    AtBoth(data, place, entry, Entries(values[1..], large, offset + |body|));
    AtBoth(data, offset, body, Bodies(values[1..], large));
    next := offset + |body|;
  }

  lemma NextValue(isObject: bool, large: bool, data: Bytes, count: nat, i: nat, first: Json, later: seq<Json>)
    requires i < count && HeaderSize(isObject, large, count) <= |data|
    requires CppElement(isObject, data, large, count, i) == Ok(first)
    requires CppValues(isObject, data, large, count, i + 1) == Ok(later)
    ensures CppValues(isObject, data, large, count, i) == Ok([first] + later)
  {
  }

  lemma {:induction false} ElementReads(isObject: bool, large: bool, data: Bytes, count: nat, i: nat, place: nat,
                                        v: Stored, offset: nat)
    requires i < count && place == ValueEntryOffset(i, isObject, large, count)
    requires HeaderSize(isObject, large, count) <= offset && HeaderSize(isObject, large, count) <= |data|
    requires |data| < Pow256(Width(large)) && Fits(v)
    requires At(data, place, Entry(v, large, offset)) && At(data, offset, Body(v, large))
    ensures CppElement(isObject, data, large, count, i) == Ok(Meaning(v))
    decreases v, 1
  {
    KindInEntry(v, large);
    if InEntry(v, large) {
      ElementHere(isObject, large, data, count, i, v, offset);
    } else {
      var written := Written(v);
      ElementThere(isObject, large, data, count, i, Kind(v), offset);
      assert data[offset..] == written + data[offset + |written|..];
      CppReads(v, data[offset + |written|..]);
    }
  }

  lemma KindInEntry(s: Stored, large: bool)
    requires Fits(s)
    ensures InEntry(s, large) <==> Inlined(Kind(s), large)
    ensures InEntry(s, large) ==> |Written(s)| <= Width(large)
  {
  }

  lemma ElementHere(isObject: bool, large: bool, data: Bytes, count: nat, i: nat, v: Stored, offset: nat)
    requires i < count && HeaderSize(isObject, large, count) <= |data|
    requires Fits(v) && InEntry(v, large) && Inlined(Kind(v), large) && |Written(v)| <= Width(large)
    requires At(data, ValueEntryOffset(i, isObject, large, count), Entry(v, large, offset))
    ensures CppElement(isObject, data, large, count, i) == Ok(Meaning(v))
  {
    var place, extension := ValueEntryOffset(i, isObject, large, count), Extension(v, Width(large) - |Written(v)|);
    AtBoth(data, place, [Kind(v)], Written(v) + extension);
    ScalarReads(v, extension);
    ValueHere(isObject, large, data, count, i, place, Kind(v), Written(v) + extension);
  }

  lemma ValueHere(isObject: bool, large: bool, data: Bytes, count: nat, i: nat, entry: nat, kind: Byte, value: Bytes)
    requires i < count && HeaderSize(isObject, large, count) <= |data|
    requires entry == ValueEntryOffset(i, isObject, large, count) && |value| == OffsetSize(large)
    requires Inlined(kind, large) && At(data, entry, [kind]) && At(data, entry + 1, value)
    ensures CppElement(isObject, data, large, count, i) == CppScalar(kind, value)
  {
    assert data[entry] == kind;
  }

  lemma ElementThere(isObject: bool, large: bool, data: Bytes, count: nat, i: nat, kind: Byte, offset: nat)
    requires i < count && HeaderSize(isObject, large, count) <= offset <= |data| < Pow256(Width(large))
    requires !Inlined(kind, large)
    requires At(data, ValueEntryOffset(i, isObject, large, count), [kind] + ToLittleEndian(offset, Width(large)))
    ensures CppElement(isObject, data, large, count, i) == CppValue(kind, data[offset..])
  {
    var entry := ValueEntryOffset(i, isObject, large, count);
    EntryInHeader(i, isObject, large, count);
    AtBoth(data, entry, [kind], ToLittleEndian(offset, Width(large)));
    NumberAt(data, entry + 1, offset, large);
    assert data[entry] == kind;
    ValueThere(isObject, large, data, count, i, entry, offset);
  }

  lemma ValueThere(isObject: bool, large: bool, data: Bytes, count: nat, i: nat, entry: nat, offset: nat)
    requires i < count && HeaderSize(isObject, large, count) <= |data|
    requires entry == ValueEntryOffset(i, isObject, large, count) && entry + ValueEntrySize(large) <= offset <= |data|
    requires !Inlined(data[entry], large) && ReadOffset(data, entry + 1, large) == offset
    ensures CppElement(isObject, data, large, count, i) == CppValue(data[entry], data[offset..])
  {
  }

  lemma RecordLayout(keys: seq<Bytes>, values: seq<Stored>, large: bool)
    requires |keys| == |values|
    ensures var n, texts, bodies := |keys|, Flat(keys), Bodies(values, large);
            var offset := HeaderLength(n, n, large);
            var front, keyEntries := Front(n, offset + |texts| + |bodies|, large), KeyEntries(keys, large, offset);
            var entries := Entries(values, large, offset + |texts|);
            && Written(Record(keys, values, large)) == front + keyEntries + entries + texts + bodies
            && |front| == HeaderLength(0, 0, large) && |front| + |keyEntries| == HeaderLength(n, 0, large)
            && |front| + |keyEntries| + |entries| == offset
  {
    var offset := HeaderLength(|keys|, |keys|, large);
    KeyEntriesLength(keys, large, offset);
    EntriesLength(values, large, offset + |Flat(keys)|);
  }

  lemma FiveParts(data: Bytes, a: Bytes, b: Bytes, c: Bytes, d: Bytes, e: Bytes, second: nat, third: nat, fourth: nat)
    requires data == a + b + c + d + e
    requires second == |a| && third == |a| + |b| && fourth == |a| + |b| + |c|
    ensures At(data, 0, a) && At(data, second, b) && At(data, third, c) && At(data, fourth, d)
    ensures At(data, fourth + |d|, e) && |data| == fourth + |d| + |e|
  {
    AtBoth(data, 0, a + b + c + d, e);
    AtBoth(data, 0, a + b + c, d);
    AtBoth(data, 0, a + b, c);
    AtBoth(data, 0, a, b);
  }

  lemma RecordPlaces(keys: seq<Bytes>, values: seq<Stored>, large: bool)
    returns (keyPlace: nat, place: nat, keyOffset: nat, offset: nat)
    requires |keys| == |values|
    ensures var data, count := Written(Record(keys, values, large)), |keys|;
            && keyPlace == KeyEntryOffset(0, large) && place == ValueEntryOffset(0, true, large, count)
            && HeaderSize(true, large, count) <= keyOffset <= offset <= |data|
            && At(data, 0, Front(count, |data|, large))
            && At(data, keyPlace, KeyEntries(keys, large, keyOffset)) && At(data, keyOffset, Flat(keys))
            && At(data, place, Entries(values, large, offset)) && At(data, offset, Bodies(values, large))
  {
    var count, texts, bodies := |keys|, Flat(keys), Bodies(values, large);
    keyPlace, place := HeaderLength(0, 0, large), HeaderLength(count, 0, large);
    keyOffset := HeaderLength(count, count, large);
    offset := keyOffset + |texts|;
    RecordLayout(keys, values, large);
    FiveParts(Written(Record(keys, values, large)), Front(count, offset + |bodies|, large),
              KeyEntries(keys, large, keyOffset), Entries(values, large, offset), texts, bodies,
              keyPlace, place, keyOffset);
    Places(true, large, count, 0);
  }

  lemma {:induction false} RecordReads(keys: seq<Bytes>, values: seq<Stored>, large: bool, rest: Bytes)
    requires Fits(Record(keys, values, large))
    ensures CppContainer(true, Written(Record(keys, values, large)) + rest, large) ==
            Ok(Object(keys, Meanings(values)))
    decreases values, 1
  {
    var data := Written(Record(keys, values, large));
    var keyPlace, place, keyOffset, offset := RecordPlaces(keys, values, large);
    Counted(true, large, |keys|, |data|);
    ValuesRead(true, large, data, |keys|, 0, place, values, offset);
    KeysRead(large, data, |keys|, 0, keyPlace, keys, keyOffset);
    ContainerReads(true, large, data, rest, |keys|, keys, Meanings(values));
  }

  lemma {:induction false} KeysRead(large: bool, data: Bytes, count: nat, i: nat, place: nat, keys: seq<Bytes>,
                                    offset: nat)
    requires i + |keys| == count && place == KeyEntryOffset(i, large)
    requires HeaderSize(true, large, count) <= offset && HeaderSize(true, large, count) <= |data|
    requires |data| < Pow256(Width(large)) && forall k :: k in keys ==> |k| < 0x1_0000
    requires At(data, place, KeyEntries(keys, large, offset)) && At(data, offset, Flat(keys))
    ensures CppKeys(data, large, count, i) == Ok(keys)
    decreases |keys|
  {
    if keys != [] {
      var next := FirstKey(large, data, place, keys, offset);
      NextKeyEntry(i, large);
      KeyReads(large, data, count, i, place, keys[0], offset);
      KeysRead(large, data, count, i + 1, place + Width(large) + 2, keys[1..], next);
      NextKey(large, data, count, i, keys);
    } else {
      NoKeys(large, data, count);
    }
  }

  lemma NextKeyEntry(i: nat, large: bool)
    ensures KeyEntryOffset(i + 1, large) == KeyEntryOffset(i, large) + Width(large) + 2
  {
  }

  lemma FirstKey(large: bool, data: Bytes, place: nat, keys: seq<Bytes>, offset: nat) returns (next: nat)
    requires keys != [] && |data| < Pow256(Width(large)) && |keys[0]| < 0x1_0000
    requires At(data, place, KeyEntries(keys, large, offset)) && At(data, offset, Flat(keys))
    ensures place + Width(large) + 2 <= |data| && At(data, offset, keys[0])
    ensures ReadOffset(data, place, large) == offset && ReadOffset(data, place + Width(large), false) == |keys[0]|
    ensures offset <= next && At(data, place + Width(large) + 2, KeyEntries(keys[1..], large, next))
    ensures At(data, next, Flat(keys[1..]))
  {
    var key := keys[0];
    var start, length := ToLittleEndian(offset, Width(large)), ToLittleEndian(|key|, 2);
    next := offset + |key|;
    AtBoth(data, place, start + length, KeyEntries(keys[1..], large, next));
    AtBoth(data, offset, key, Flat(keys[1..]));
    KeyEntryReads(large, data, place, offset, |key|);
  }

  lemma KeyEntryReads(large: bool, data: Bytes, place: nat, offset: nat, length: nat)
    requires offset < Pow256(Width(large)) && length < 0x1_0000
    requires At(data, place, ToLittleEndian(offset, Width(large)) + ToLittleEndian(length, 2))
    ensures place + Width(large) + 2 <= |data|
    ensures ReadOffset(data, place, large) == offset && ReadOffset(data, place + Width(large), false) == length
  {
    PowersOf256();
    AtBoth(data, place, ToLittleEndian(offset, Width(large)), ToLittleEndian(length, 2));
    NumberAt(data, place, offset, large);
    NumberAt(data, place + Width(large), length, false);
  }

  lemma NoKeys(large: bool, data: Bytes, count: nat)
    requires HeaderSize(true, large, count) <= |data|
    ensures CppKeys(data, large, count, count) == Ok([])
  {
  }

  lemma NextKey(large: bool, data: Bytes, count: nat, i: nat, keys: seq<Bytes>)
    requires i < count && keys != [] && HeaderSize(true, large, count) <= |data|
    requires CppKey(data, large, count, i) == Ok(keys[0]) && CppKeys(data, large, count, i + 1) == Ok(keys[1..])
    ensures CppKeys(data, large, count, i) == Ok(keys)
  {
    assert keys == [keys[0]] + keys[1..];
  }

  lemma KeyReads(large: bool, data: Bytes, count: nat, i: nat, place: nat, key: Bytes, offset: nat)
    requires i < count && place == KeyEntryOffset(i, large)
    requires HeaderSize(true, large, count) <= offset && HeaderSize(true, large, count) <= |data|
    requires place + Width(large) + 2 <= |data| && At(data, offset, key)
    requires ReadOffset(data, place, large) == offset && ReadOffset(data, place + Width(large), false) == |key|
    ensures CppKey(data, large, count, i) == Ok(key)
  {
    EntryInHeader(i, true, large, count);
    Places(true, large, count, i);
  }

  /** The parser it replaced reads it as well, if it is nested no deeper than the recursion limit. */
  lemma PyReads(fuel: nat, s: Stored, rest: Bytes, opaqueValue: Decoder)
    requires Fits(s)
    ensures PyValue(fuel, Kind(s), Written(s) + rest, opaqueValue) ==
            if Depth(Meaning(s)) <= fuel then Ok(Meaning(s)) else Error
  {
    CppReads(s, rest);
    ParsersAgree(fuel, Kind(s), Written(s) + rest, Written(s) + rest, opaqueValue);
  }

  // ---- Documents

  /** Integers fit 64 bits, with a sign or without, doubles have eight bytes, strings have a 32-bit length, and every
      member of an object has a key, of a 16-bit length. */
  predicate Storable(j: Json) {
    match j
    case Null => true
    case Bool(_) => true
    case Number(i) => -0x8000_0000_0000_0000 <= i <= 0xFFFF_FFFF_FFFF_FFFF
    case Double(raw) => |raw| == 8
    case String(t) => |t| < 0x1_0000_0000
    case Array(elements) => forall e :: e in elements ==> Storable(e)
    case Object(keys, values) =>
      && |keys| == |values| && (forall k :: k in keys ==> |k| < 0x1_0000)
      && (forall v :: v in values ==> Storable(v))
  }

  /** A document as it is stored: integers as short as can be, and containers all small or all large. */
  function Form(j: Json, large: bool): Stored {
    match j
    case Null => Nothing
    case Bool(b) => Truth(b)
    case Number(i) =>
      if -0x8000 <= i < 0x8000 then Integer(i, 2, true)
      else if 0 <= i < 0x1_0000 then Integer(i, 2, false)
      else if -0x8000_0000 <= i < 0x8000_0000 then Integer(i, 4, true)
      else if 0 <= i < 0x1_0000_0000 then Integer(i, 4, false)
      else if i < 0x8000_0000_0000_0000 then Integer(i, 8, true)
      else Integer(i, 8, false)
    case Double(raw) => Real(raw)
    case String(t) => Text(t)
    case Array(elements) => List(Forms(elements, large), large)
    case Object(keys, values) => Record(keys, Forms(values, large), large)
  }

  function Forms(s: seq<Json>, large: bool): seq<Stored> {
    if s == [] then [] else [Form(s[0], large)] + Forms(s[1..], large)
  }

  lemma {:induction false} FormFits(j: Json, large: bool)
    requires Storable(j)
    requires j.Array? || j.Object? ==> |Written(Form(j, large))| < Pow256(Width(large))
    ensures Fits(Form(j, large)) && Meaning(Form(j, large)) == j
    decreases j, 0
  {
    match j
    case Number(_) => PowersOf256();
    case Array(elements) =>
      ListLayout(Forms(elements, large), large);
      FormsFit(elements, large);
    case Object(keys, values) =>
      FormsLength(values, large);
      RecordLayout(keys, Forms(values, large), large);
      FormsFit(values, large);
    case _ =>
  }

  lemma {:induction false} FormsLength(s: seq<Json>, large: bool)
    ensures |Forms(s, large)| == |s|
  {
    if s != [] {
      FormsLength(s[1..], large);
    }
  }

  lemma {:induction false} FormsFit(s: seq<Json>, large: bool)
    requires |Bodies(Forms(s, large), large)| < Pow256(Width(large)) && forall j :: j in s ==> Storable(j)
    ensures (forall f :: f in Forms(s, large) ==> Fits(f)) && Meanings(Forms(s, large)) == s
    decreases s, 0
  {
    if s != [] {
      var first, later := Form(s[0], large), Forms(s[1..], large);
      assert Forms(s, large)[0] == first && Forms(s, large)[1..] == later;
      assert |Bodies(Forms(s, large), large)| == |Body(first, large)| + |Bodies(later, large)|;
      FormFits(s[0], large);
      FormsFit(s[1..], large);
    }
  }

  /** Every document is read back from its bytes, by both parsers, in the small layout if it fits that and in the large
      one if it fits that. */
  lemma DocumentReads(j: Json, large: bool, rest: Bytes, fuel: nat, opaqueValue: Decoder)
    requires Storable(j)
    requires j.Array? || j.Object? ==> |Written(Form(j, large))| < Pow256(Width(large))
    ensures var kind, data := Kind(Form(j, large)), Written(Form(j, large)) + rest;
            && CppValue(kind, data) == Ok(j)
            && PyValue(fuel, kind, data, opaqueValue) == if Depth(j) <= fuel then Ok(j) else Error
  {
    FormFits(j, large);
    CppReads(Form(j, large), rest);
    PyReads(fuel, Form(j, large), rest, opaqueValue);
  }
}
