/** The two decoders of packed decimals: one reads from a packet, the other from a buffer. */
module DecimalDecoders {
  import opened Events
  import opened Sequences
  import opened Framing
  import opened ByteOrder
  import opened Digits
  import opened PackedDecimal

  /** An integer read from a packet, Python's None, or an exception. */
  datatype IntRead = Value(value: int) | NoValue | Raises

  /** A binlog packet that is read from the front; bytes may be pushed back. */
  class Packet {
    const data: Bytes
    var pos: nat
    var dataBuffer: Bytes
    var readBytes: int

    constructor (data: Bytes)
      ensures Valid() && this.data == data && Pending() == data && dataBuffer == [] && readBytes == 0
    {
      this.data := data;
      pos, dataBuffer, readBytes := 0, [], 0;
    }

    predicate Valid()
      reads this
    {
      pos <= |data|
    }

    /** What is still to be read. */
    function Pending(): Bytes
      requires Valid()
      reads this
    {
      dataBuffer + data[pos..]
    }

    /** Reading past the end raises. */
    method Read(size: nat) returns (r: Option<Bytes>)
      requires Valid()
      modifies this
      ensures Valid()
      ensures r.Some? <==> size <= |old(Pending())|
      ensures r.Some? ==> r.value == old(Pending())[..size] && Pending() == old(Pending())[size..]
      ensures readBytes == old(readBytes) + size
      ensures r.Some? ==> dataBuffer == if size <= |old(dataBuffer)| then old(dataBuffer)[size..] else []
    {
      ghost var all := Pending();
      readBytes := readBytes + size;
      var front: Bytes := [];
      if |dataBuffer| > 0 {
        if size <= |dataBuffer| {
          front := dataBuffer[..size];
          dataBuffer := dataBuffer[size..];
          assert all[..size] == front && Pending() == all[size..];
          return Some(front);
        }
        front := dataBuffer;
        dataBuffer := [];
      }
      var more := size - |front|;
      if |data| < pos + more {
        return None;
      }
      r := Some(front + data[pos..pos + more]);
      pos := pos + more;
      assert all[..size] == r.value && [] + data[pos..] == all[size..];
    }

    /** Pushes bytes back behind those pushed back before. */
    method Unread(bytes: Bytes)
      requires Valid()
      modifies this
      ensures Valid() && dataBuffer == old(dataBuffer) + bytes && pos == old(pos)
      ensures readBytes == old(readBytes) - |bytes|
    {
      readBytes := readBytes - |bytes|;
      dataBuffer := dataBuffer + bytes;
    }

    /** A big-endian integer: signed up to four bytes, unsigned for five. Eight bytes are unpacked with a format for
        four, which raises; for any other size nothing is read and there is no value. */
    method ReadIntBeBySize(size: nat) returns (r: IntRead)
      requires Valid()
      modifies this
      ensures Valid() && readBytes == old(readBytes) + if 1 <= size <= 5 || size == 8 then size else 0
      ensures r.Value? <==> 1 <= size <= 5 && size <= |old(Pending())|
      ensures r.Value? ==> Pending() == old(Pending())[size..]
      ensures r.Value? && size <= 4 ==> r.value == SignedBytes(old(Pending())[..size])
      ensures r.Value? && size == 5 ==> r.value == FromBytes(old(Pending())[..size])
      ensures r.Value? ==> dataBuffer == if size <= |old(dataBuffer)| then old(dataBuffer)[size..] else []
      ensures r.NoValue? <==> size !in {1, 2, 3, 4, 5, 8}
      ensures r.NoValue? ==> Pending() == old(Pending())
    {
      if size !in {1, 2, 3, 4, 5, 8} {
        return NoValue;
      }
      var bytes := Read(size);
      if bytes.None? || size == 8 {
        return Raises;
      }
      var b := bytes.value;
      if size == 3 {
        Three(b);
        var v := b[0] as int * 65536 + b[1] as int * 256 + b[2] as int;
        return Value(if v >= 0x80_0000 then v - 0x100_0000 else v);
      }
      if size == 5 {
        return Value(b[4] as int + FromBytes(b[..4]) * 256);
      }
      return Value(SignedBytes(b));
    }

    /** The loop over groups of nine digits. */
    method ReadGroups(count: nat, negative: bool) returns (r: Option<string>)
      requires Valid()
      modifies this
      ensures Valid()
      ensures r.Some? <==> 4 * count <= |old(Pending())|
      ensures r.Some? ==>
                r.value == GroupsText(old(Pending())[..4 * count], negative) && Pending() == old(Pending())[4 * count..]
      ensures r.Some? ==> readBytes == old(readBytes) + 4 * count
      ensures r.Some? && count > 0 && |old(dataBuffer)| <= 1 ==> dataBuffer == []
      ensures r.Some? && count == 0 ==> dataBuffer == old(dataBuffer)
    {
      var text := "";
      var b := Pending();
      for i := 0 to count
        invariant Valid() && 4 * i <= |b| && Pending() == b[4 * i..] && text == GroupsText(b[..4 * i], negative)
        invariant readBytes == old(readBytes) + 4 * i
        invariant i == 0 ==> dataBuffer == old(dataBuffer)
        invariant i > 0 && |old(dataBuffer)| <= 1 ==> dataBuffer == []
      {
        var value := ReadIntBeBySize(4);
        if !value.Value? {
          return None;
        }
        NextGroup(b, i, negative);
        text := text + PadInt(XorMask(value.value, negative), 9);
      }
      r := Some(text);
    }

    /** The first and the last group, of fewer than nine digits. */
    method ReadCompressed(digits: nat, negative: bool) returns (r: Option<int>)
      requires Valid() && 0 < digits < 10
      modifies this
      ensures Valid()
      ensures r.Some? <==> CompressedBytes(digits) <= |old(Pending())|
      ensures r.Some? ==> r.value == XorMask(SignedBytes(old(Pending())[..CompressedBytes(digits)]), negative)
      ensures r.Some? ==> Pending() == old(Pending())[CompressedBytes(digits)..]
      ensures r.Some? ==> readBytes == old(readBytes) + CompressedBytes(digits)
      ensures r.Some? && |old(dataBuffer)| <= 1 ==> dataBuffer == []
    {
      var value := ReadIntBeBySize(CompressedBytes(digits));
      r := if value.Value? then Some(XorMask(value.value, negative)) else None;
    }
  }

  lemma Three(b: Bytes)
    requires |b| == 3
    ensures FromBytes(b) == b[0] as int * 65536 + b[1] as int * 256 + b[2] as int
    ensures Pow256(3) == 0x100_0000 && (b[0] as int < 128 <==> FromBytes(b) < 0x80_0000)
  {
    assert b[..2][..1] == b[..1] && b[..1][..0] == [];
    assert FromBytes(b[..1]) == b[0] as int;
    assert FromBytes(b[..2]) == b[0] as int * 256 + b[1] as int;
    assert Pow256(1) == 256 && Pow256(2) == 65536;
  }

  lemma NextGroup(b: Bytes, i: nat, negative: bool)
    requires 4 * i + 4 <= |b|
    ensures GroupsText(b[..4 * i + 4], negative) ==
            GroupsText(b[..4 * i], negative) + PadInt(XorMask(SignedBytes(b[4 * i..][..4]), negative), 9)
  {
    var c := b[..4 * i + 4];
    assert c[..|c| - 4] == b[..4 * i] && c[|c| - 4..] == b[4 * i..][..4];
  }

  /** The sign bit is set for positive numbers. */
  predicate IsNegative(b: Bytes)
    requires b != []
  {
    b[0] as int < 128
  }

  /** Takes the sign off the first byte and pushes the byte back. */
  method ReadSign(packet: Packet) returns (negative: bool)
    requires packet.Valid() && packet.dataBuffer == [] && packet.Pending() != []
    modifies packet
    ensures packet.Valid() && packet.Pending() == FlipFirst(old(packet.Pending())) && |packet.dataBuffer| == 1
    ensures negative == IsNegative(old(packet.Pending())) && packet.readBytes == old(packet.readBytes)
  {
    ghost var all := packet.Pending();
    var first := packet.Read(1);
    var value := first.value[0] as int;
    negative := value < 128;
    packet.Unread([if value < 128 then value + 128 else value - 128]);
    assert packet.Pending() == FlipFirst(all);
  }

  /** The digits before the point. */
  method ReadWhole(packet: Packet, layout: Layout, negative: bool) returns (r: Option<string>)
    requires packet.Valid() && |packet.dataBuffer| <= 1
    modifies packet
    ensures packet.Valid()
    ensures r.Some? <==> layout.FractionalAt() <= |old(packet.Pending())|
    ensures r.Some? ==> r.value == StreamWhole(layout, old(packet.Pending()), negative)
    ensures r.Some? ==> packet.Pending() == old(packet.Pending())[layout.FractionalAt()..]
    ensures r.Some? ==> packet.readBytes == old(packet.readBytes) + layout.FractionalAt()
    ensures r.Some? ==> |packet.dataBuffer| <= 1 && (layout.integral > 0 ==> packet.dataBuffer == [])
  {
    ghost var b := packet.Pending();
    var text := "";
    if layout.FirstDigits() > 0 {
      var value := packet.ReadCompressed(layout.FirstDigits(), negative);
      if value.None? {
        return None;
      }
      text := StrInt(value.value);
    }
    ghost var at := layout.IntegralAt();
    assert packet.Pending() == b[at..];
    var groups := packet.ReadGroups(layout.IntegralGroups(), negative);
    if groups.None? {
      return None;
    }
    SliceOfSuffix(b, at, layout.FractionalAt());
    r := Some(text + groups.value);
  }

  /** The digits after the point. */
  method ReadFraction(packet: Packet, layout: Layout, negative: bool) returns (r: Option<string>)
    requires packet.Valid() && |packet.dataBuffer| <= 1
    modifies packet
    ensures packet.Valid()
    ensures r.Some? <==> layout.Size() - layout.FractionalAt() <= |old(packet.Pending())|
    ensures r.Some? ==> r.value == StreamFraction(layout, old(packet.Pending()), negative)
    ensures r.Some? ==> packet.Pending() == old(packet.Pending())[layout.Size() - layout.FractionalAt()..]
    ensures r.Some? ==> packet.readBytes == old(packet.readBytes) + layout.Size() - layout.FractionalAt()
    ensures r.Some? && (layout.fractional > 0 || old(packet.dataBuffer) == []) ==> packet.dataBuffer == []
  {
    ghost var b := packet.Pending();
    var groups := packet.ReadGroups(layout.FractionalGroups(), negative);
    if groups.None? {
      return None;
    }
    var last := ReadLast(packet, layout, negative);
    if last.None? {
      return None;
    }
    SliceOfSuffix(b, 4 * layout.FractionalGroups(), layout.Size() - layout.FractionalAt());
    r := Some(groups.value + last.value);
  }

  method ReadLast(packet: Packet, layout: Layout, negative: bool) returns (r: Option<string>)
    requires packet.Valid() && |packet.dataBuffer| <= 1
    modifies packet
    ensures packet.Valid()
    ensures r.Some? <==> CompressedBytes(layout.LastDigits()) <= |old(packet.Pending())|
    ensures r.Some? ==> r.value == StreamLast(layout, old(packet.Pending()), negative)
    ensures r.Some? ==> packet.Pending() == old(packet.Pending())[CompressedBytes(layout.LastDigits())..]
    ensures r.Some? ==> packet.readBytes == old(packet.readBytes) + CompressedBytes(layout.LastDigits())
    ensures r.Some? && (layout.LastDigits() > 0 || old(packet.dataBuffer) == []) ==> packet.dataBuffer == []
  {
    if layout.LastDigits() == 0 {
      return Some("");
    }
    var value := packet.ReadCompressed(layout.LastDigits(), negative);
    r := if value.None? then None else Some(PadInt(value.value, layout.LastDigits()));
  }

  /** The streaming decoder: it consumes exactly the bytes of the decimal; None is an exception. */
  method ReadNewDecimal(packet: Packet, precision: nat, decimals: nat) returns (r: Option<Decimal>)
    requires packet.Valid() && packet.dataBuffer == [] && decimals <= precision && precision > 0
    modifies packet
    ensures packet.Valid()
    ensures var layout, b := Layout(precision - decimals, decimals), old(packet.Pending());
            if |b| < layout.Size() then r == None
            else
              && r == ParseDecimal(StreamText(layout, FlipFirst(b), IsNegative(b)))
              && packet.Pending() == b[layout.Size()..] && packet.dataBuffer == []
              && packet.readBytes == old(packet.readBytes) + layout.Size()
  {
    var layout := Layout(precision - decimals, decimals);
    SizeIsPositive(layout);
    ghost var stored := packet.Pending();
    if |packet.Pending()| == 0 {
      return None;
    }
    var negative := ReadSign(packet);
    assert layout.Size() <= |stored| ==> packet.Pending()[layout.Size()..] == stored[layout.Size()..];
    var text := ReadText(packet, layout, negative);
    if text.None? {
      return None;
    }
    r := ParseDecimal(text.value);
  }

  /** The text of a decimal, read from a packet whose first byte has been pushed back. */
  method ReadText(packet: Packet, layout: Layout, negative: bool) returns (r: Option<string>)
    requires packet.Valid() && |packet.dataBuffer| <= 1 && layout.integral + layout.fractional > 0
    modifies packet
    ensures packet.Valid()
    ensures r.Some? <==> layout.Size() <= |old(packet.Pending())|
    ensures r.Some? ==> r.value == StreamText(layout, old(packet.Pending()), negative)
    ensures r.Some? ==> packet.Pending() == old(packet.Pending())[layout.Size()..] && packet.dataBuffer == []
    ensures r.Some? ==> packet.readBytes == old(packet.readBytes) + layout.Size()
  {
    ghost var b := packet.Pending();
    var whole := ReadWhole(packet, layout, negative);
    if whole.None? {
      return None;
    }
    var fraction := ReadFraction(packet, layout, negative);
    if fraction.None? {
      return None;
    }
    SliceOfSuffix(b, layout.FractionalAt(), layout.Size());
    r := Some(SignText(negative) + whole.value + "." + fraction.value);
  }

  /** The loop over groups of nine digits, in a buffer; None is an exception. */
  method DecodeGroups(b: Bytes, count: nat, negative: bool) returns (r: Option<string>)
    ensures r.Some? <==> 4 * count <= |b|
    ensures r.Some? ==> r.value == GroupsText(b[..4 * count], negative)
  {
    var text, pointer := "", 0;
    for i := 0 to count
      invariant pointer == 4 * i <= |b| && text == GroupsText(b[..4 * i], negative)
    {
      if |b| < pointer + 4 {
        return None;
      }
      NextGroup(b, i, negative);
      text := text + PadInt(XorMask(SignedBytes(b[pointer..][..4]), negative), 9);
      pointer := pointer + 4;
    }
    r := Some(text);
  }

  /** The number in the first bytes, complemented if the decimal is negative. */
  method DecompressValue(digits: nat, b: Bytes, negative: bool) returns (r: Option<nat>)
    requires digits < 10
    ensures r.Some? <==> CompressedBytes(digits) <= |b|
    ensures r.Some? ==> r.value == FromBytes(Masked(b[..CompressedBytes(digits)], negative))
  {
    var size := CompressedBytes(digits);
    if |b| < size {
      return None;
    }
    var buffer: Bytes := b[..size];
    for i := 0 to size
      invariant |buffer| == size
      invariant forall j :: 0 <= j < i ==> buffer[j] == Masked(b[..size], negative)[j]
      invariant forall j :: i <= j < size ==> buffer[j] == b[j]
    {
      buffer := buffer[i := if negative then 255 - buffer[i] as int else buffer[i] as int];
    }
    assert buffer == Masked(b[..size], negative);
    r := Some(FromBytes(buffer));
  }

  /** The buffer decoder; None is an exception. */
  method ParseDecimalFromBytes(raw: Bytes, precision: nat, decimals: nat) returns (r: Option<Decimal>)
    requires decimals <= precision && precision > 0
    ensures var layout := Layout(precision - decimals, decimals);
            if |raw| < layout.Size() then r == None
            else r == ParseDecimal(BufferText(layout, FlipFirst(raw), IsNegative(raw)))
  {
    var layout := Layout(precision - decimals, decimals);
    SizeIsPositive(layout);
    if |raw| == 0 {
      return None;
    }
    var negative, b := IsNegative(raw), FlipFirst(raw);
    var whole := DecodeWhole(layout, b, negative);
    if whole.None? {
      return None;
    }
    var fraction := DecodeFraction(layout, b[layout.FractionalAt()..], negative);
    if fraction.None? {
      return None;
    }
    var text := SignText(negative) + whole.value + "." + fraction.value;
    assert text == BufferText(layout, b, negative);
    r := ParseDecimal(text);
  }

  method DecodeWhole(layout: Layout, b: Bytes, negative: bool) returns (r: Option<string>)
    ensures r.Some? <==> layout.FractionalAt() <= |b|
    ensures r.Some? ==> r.value == BufferWhole(layout, b, negative)
  {
    var first := DecompressValue(layout.FirstDigits(), b, negative);
    if first.None? {
      return None;
    }
    var groups := DecodeGroups(b[layout.IntegralAt()..], layout.IntegralGroups(), negative);
    if groups.None? {
      return None;
    }
    SliceOfSuffix(b, layout.IntegralAt(), layout.FractionalAt());
    r := Some(ToText(first.value) + groups.value);
  }

  method DecodeFraction(layout: Layout, b: Bytes, negative: bool) returns (r: Option<string>)
    ensures r.Some? <==> layout.Size() - layout.FractionalAt() <= |b|
    ensures r.Some? ==> r.value == BufferFraction(layout, b, negative)
  {
    var groups := DecodeGroups(b, layout.FractionalGroups(), negative);
    if groups.None? {
      return None;
    }
    var at := 4 * layout.FractionalGroups();
    var last := DecompressValue(layout.LastDigits(), b[at..], negative);
    if last.None? {
      return None;
    }
    r := Some(groups.value + if layout.LastDigits() == 0 then "" else Pad(last.value, layout.LastDigits()));
  }

  /** The bytes begin with a decimal: what either decoder writes for them reads as that decimal. */
  ghost predicate BeginsWith(stored: Bytes, layout: Layout, number: Decimal) {
    && stored != [] && layout.Size() <= |stored|
    && Reads(StreamText(layout, FlipFirst(stored), IsNegative(stored)), number)
    && Reads(BufferText(layout, FlipFirst(stored), IsNegative(stored)), number)
  }

  /** Every stored decimal is one, whatever follows it. */
  lemma StoredReads(layout: Layout, negative: bool, whole: nat, fraction: nat, following: Bytes, number: Decimal)
    requires layout.integral + layout.fractional > 0
    requires whole < Pow10(layout.integral) && fraction < Pow10(layout.fractional)
    requires number == Decimal(negative, Shift(whole, layout.fractional) + fraction, layout.fractional)
    ensures BeginsWith(Encode(layout, negative, whole, fraction) + following, layout, number)
    ensures (Encode(layout, negative, whole, fraction) + following)[layout.Size()..] == following
  {
    EncodedSign(layout, negative, whole, fraction, following);
    DecodersInvert(layout, negative, whole, fraction, following, number);
  }

  /** The streaming decoder gives the decimal the packet begins with, and leaves just what follows it. */
  method DecodeFromPacket(packet: Packet, layout: Layout, ghost number: Decimal) returns (r: Option<Decimal>)
    requires layout.integral + layout.fractional > 0 && packet.Valid() && packet.dataBuffer == []
    requires BeginsWith(packet.Pending(), layout, number)
    modifies packet
    ensures r == Some(number)
    ensures packet.Valid() && packet.Pending() == old(packet.Pending())[layout.Size()..]
    ensures packet.readBytes == old(packet.readBytes) + layout.Size()
  {
    r := ReadNewDecimal(packet, layout.integral + layout.fractional, layout.fractional);
  }

  /** The buffer decoder gives the decimal the buffer begins with. */
  method DecodeFromBuffer(stored: Bytes, layout: Layout, ghost number: Decimal) returns (r: Option<Decimal>)
    requires layout.integral + layout.fractional > 0 && BeginsWith(stored, layout, number)
    ensures r == Some(number)
  {
    r := ParseDecimalFromBytes(stored, layout.integral + layout.fractional, layout.fractional);
  }

  /** The sign bit tells the sign: the first byte of the first group has its top bit free. */
  lemma EncodedSign(layout: Layout, negative: bool, whole: nat, fraction: nat, following: Bytes)
    requires layout.integral + layout.fractional > 0
    requires whole < Pow10(layout.integral) && fraction < Pow10(layout.fractional)
    ensures var b := Encode(layout, negative, whole, fraction) + following;
            && b != [] && IsNegative(b) == negative
               && FlipFirst(b) == Body(layout, negative, whole, fraction) + following
            && layout.Size() <= |b| && b[layout.Size()..] == following
  {
    SizeIsPositive(layout);
    TopBitFree(layout, negative, whole, fraction);
    FlipTwice(Body(layout, negative, whole, fraction), following);
  }

  lemma FlipTwice(body: Bytes, following: Bytes)
    requires body != []
    ensures var b := FlipFirst(body) + following;
            FlipFirst(b) == body + following && b[|body|..] == following
                && (b[0] as int < 128 <==> body[0] as int >= 128)
  {
  }

  /** A piece of a stored decimal begins with a bit that tells the sign, unless it is empty. */
  ghost predicate TellsSign(piece: Bytes, negative: bool) {
    piece != [] ==> (piece[0] as int < 128 <==> !negative)
  }

  lemma FirstByte(a: Bytes, b: Bytes, c: Bytes, d: Bytes, negative: bool)
    requires TellsSign(a, negative) && TellsSign(b, negative) && TellsSign(c, negative) && TellsSign(d, negative)
    ensures TellsSign(a + b + c + d, negative)
  {
  }

  lemma TopBitFree(layout: Layout, negative: bool, whole: nat, fraction: nat)
    requires layout.integral + layout.fractional > 0
    requires whole < Pow10(layout.integral) && fraction < Pow10(layout.fractional)
    ensures TellsSign(Body(layout, negative, whole, fraction), negative)
  {
    var high, low := HighDigits(whole, 9 * layout.IntegralGroups()), LowDigits(fraction, layout.LastDigits());
    HighIsBelow(whole, 9 * layout.IntegralGroups(), layout.FirstDigits());
    CompressedTellsSign(high, layout.FirstDigits(), negative);
    CompressedTellsSign(low, layout.LastDigits(), negative);
    FirstGroup(Groups(whole, layout.IntegralGroups()), negative);
    FirstGroup(Groups(HighDigits(fraction, layout.LastDigits()), layout.FractionalGroups()), negative);
    FirstByte(FirstBytes(layout, negative, whole), GroupBytes(Groups(whole, layout.IntegralGroups()), negative),
              GroupBytes(Groups(HighDigits(fraction, layout.LastDigits()), layout.FractionalGroups()), negative),
              LastBytes(layout, negative, fraction), negative);
  }

  lemma CompressedTellsSign(n: nat, digits: nat, negative: bool)
    requires digits < 10 && n < Pow10(digits)
    ensures TellsSign(Masked(ToBytes(n, CompressedBytes(digits)), negative), negative)
  {
    if digits > 0 {
      FitsCompressed(n, digits);
      TopBitOf(n, CompressedBytes(digits), negative);
    }
  }

  lemma TopBitOf(n: nat, size: nat, negative: bool)
    requires size > 0 && 2 * n < Pow256(size)
    ensures Masked(ToBytes(n, size), negative)[0] as int < 128 <==> !negative
  {
  }

  lemma {:induction false} FirstGroup(groups: seq<nat>, negative: bool)
    requires forall i :: 0 <= i < |groups| ==> groups[i] < Pow10(9)
    ensures TellsSign(GroupBytes(groups, negative), negative)
  {
    if groups != [] {
      var m := |groups| - 1;
      CompressedTellsSign(groups[m], 9, negative);
      FirstGroup(groups[..m], negative);
    }
  }
}
