/** MySQL's packed decimals: groups of nine digits, big-endian, complemented when negative, sign bit flipped. */
module PackedDecimal {
  import opened Events
  import opened Framing
  import opened ByteOrder
  import opened Digits

  // ---- Big-endian integers

  /** Two's complement. */
  function SignedBytes(b: Bytes): int
    requires b != []
  {
    if b[0] as int < 128 then FromBytes(b) else FromBytes(b) - Pow256(|b|)
  }

  function Complement(b: Bytes): Bytes {
    seq(|b|, i requires 0 <= i < |b| => 255 - b[i] as int)
  }

  lemma {:induction false} ComplementValue(b: Bytes)
    ensures FromBytes(Complement(b)) == Pow256(|b|) - 1 - FromBytes(b)
  {
    if b != [] {
      var m := |b| - 1;
      ComplementValue(b[..m]);
      assert Complement(b)[..m] == Complement(b[..m]);
    }
  }

  lemma {:induction false} TopBit(b: Bytes)
    requires b != []
    ensures b[0] as int < 128 <==> 2 * FromBytes(b) < Pow256(|b|)
    ensures Pow256(|b|) % 2 == 0
  {
    var m := |b| - 1;
    if m == 0 {
      assert b[..m] == [] && FromBytes(b[..m]) == 0 && Pow256(0) == 1;
    } else {
      TopBit(b[..m]);
    }
  }

  // ---- The format

  const DIGITS_PER_INTEGER: nat := 9

  /** Bytes needed for a number of leftover digits. */
  function CompressedBytes(digits: nat): (r: nat)
    requires digits < 10
    ensures r <= 4 && (r == 0 <==> digits == 0)
  {
    [0, 1, 1, 2, 2, 3, 3, 4, 4, 4][digits]
  }

  /** They are just so many that twice the numbers of that many digits fit. */
  lemma CompressedBytesIsLeast(digits: nat)
    requires 0 < digits < 10
    ensures 2 * Pow10(digits) <= Pow256(CompressedBytes(digits))
    ensures forall r: nat :: r < CompressedBytes(digits) ==> Pow256(r) < 2 * Pow10(digits)
  {
    PowersOf10();
    PowersOf256();
    forall r: nat | r < CompressedBytes(digits) ensures Pow256(r) < 2 * Pow10(digits) {
      assert r == 0 || r == 1 || r == 2 || r == 3;
    }
  }

  /** The bytes as stored for a sign, before the sign bit is flipped; doing it twice changes nothing. */
  function Masked(b: Bytes, negative: bool): (r: Bytes)
    ensures |r| == |b|
  {
    if negative then Complement(b) else b
  }

  function XorMask(v: int, negative: bool): int {
    if negative then -v - 1 else v
  }

  function FlipFirst(b: Bytes): Bytes
    requires b != []
  {
    [if b[0] as int < 128 then b[0] as int + 128 else b[0] as int - 128] + b[1..]
  }

  /** The last `count` groups of nine digits of a number, highest first. */
  function Groups(n: nat, count: nat): (r: seq<nat>)
    ensures |r| == count && forall i :: 0 <= i < count ==> r[i] < Pow10(9)
    decreases count
  {
    if count == 0 then [] else Groups(HighDigits(n, 9), count - 1) + [LowDigits(n, 9)]
  }

  function GroupBytes(groups: seq<nat>, negative: bool): (b: Bytes)
    ensures |b| == 4 * |groups|
  {
    if groups == [] then []
        else GroupBytes(groups[..|groups| - 1], negative) + Masked(ToBytes(groups[|groups| - 1], 4), negative)
  }

  /** How a column of some precision and scale divides its digits. */
  datatype Layout = Layout(integral: nat, fractional: nat)
  {
    function FirstDigits(): nat { integral % DIGITS_PER_INTEGER }
    function IntegralGroups(): nat { integral / DIGITS_PER_INTEGER }
    function FractionalGroups(): nat { fractional / DIGITS_PER_INTEGER }
    function LastDigits(): nat { fractional % DIGITS_PER_INTEGER }
    /** Where the groups of the integral part begin, those of the fractional part, the last digits, and the end. */
    function IntegralAt(): nat { CompressedBytes(FirstDigits()) }
    function FractionalAt(): nat { IntegralAt() + 4 * IntegralGroups() }
    function LastAt(): nat { FractionalAt() + 4 * FractionalGroups() }
    function Size(): nat { LastAt() + CompressedBytes(LastDigits()) }
  }

  lemma SizeIsPositive(layout: Layout)
    requires layout.integral + layout.fractional > 0
    ensures layout.Size() > 0
  {
  }

  /** The digits before the point are some leftover ones and then groups of nine; those after it are groups of nine and
      then leftover ones. */
  lemma LayoutParts(layout: Layout)
    ensures layout.FirstDigits() < 9 && layout.integral == layout.FirstDigits() + 9 * layout.IntegralGroups()
    ensures layout.LastDigits() < 9 && layout.fractional == 9 * layout.FractionalGroups() + layout.LastDigits()
  {
  }

  /** The stored form of a decimal, given the digits before and after its point as numbers. */
  function Encode(layout: Layout, negative: bool, whole: nat, fraction: nat): (b: Bytes)
    requires layout.integral + layout.fractional > 0
    ensures |b| == layout.Size()
  {
    SizeIsPositive(layout);
    FlipFirst(Body(layout, negative, whole, fraction))
  }

  function FirstBytes(layout: Layout, negative: bool, whole: nat): (b: Bytes)
    ensures |b| == layout.IntegralAt()
  {
    Masked(ToBytes(HighDigits(whole, 9 * layout.IntegralGroups()), layout.IntegralAt()), negative)
  }

  function LastBytes(layout: Layout, negative: bool, fraction: nat): (b: Bytes)
    ensures |b| == layout.Size() - layout.LastAt()
  {
    Masked(ToBytes(LowDigits(fraction, layout.LastDigits()), CompressedBytes(layout.LastDigits())), negative)
  }

  function Body(layout: Layout, negative: bool, whole: nat, fraction: nat): (b: Bytes)
    ensures |b| == layout.Size()
  {
    var first, last := FirstBytes(layout, negative, whole), LastBytes(layout, negative, fraction);
    var integral := GroupBytes(Groups(whole, layout.IntegralGroups()), negative);
    var fractional :=
        GroupBytes(Groups(HighDigits(fraction, layout.LastDigits()), layout.FractionalGroups()), negative);
    first + integral + fractional + last
  }

  // ---- What decimal.Decimal makes of text

  datatype Decimal = Decimal(negative: bool, coefficient: nat, scale: nat)

  function DotIn(s: string): (r: nat)
    ensures r <= |s| && (r < |s| ==> s[r] == '.') && forall i :: 0 <= i < r ==> s[i] != '.'
  {
    if s == "" || s[0] == '.' then 0 else 1 + DotIn(s[1..])
  }

  /** A sign, digits, a point and digits; None is an exception. */
  function ParseDecimal(text: string): Option<Decimal> {
    var negative := text != "" && text[0] == '-';
    var digits := if negative then text[1..] else text;
    var dot := DotIn(digits);
    if dot == |digits| then None
    else
      var whole, fraction := digits[..dot], digits[dot + 1..];
      if AllDigits(whole) && AllDigits(fraction) && whole + fraction != "" then
        assert AllDigits(whole + fraction);
        Some(Decimal(negative, ValueOf(whole + fraction), |fraction|))
      else None
  }

  function SignText(negative: bool): string { if negative then "-" else "" }

  lemma {:induction false} DotAfter(whole: string, fraction: string)
    requires AllDigits(whole)
    ensures DotIn(whole + "." + fraction) == |whole|
  {
    if whole != "" {
      assert (whole + "." + fraction)[1..] == whole[1..] + "." + fraction;
      DotAfter(whole[1..], fraction);
    }
  }

  lemma ParseUnsigned(text: string, whole: string, fraction: string)
    requires AllDigits(whole) && AllDigits(fraction) && whole + fraction != "" && text == whole + "." + fraction
    ensures AllDigits(whole + fraction)
    ensures ParseDecimal(text) == Some(Decimal(false, ValueOf(whole + fraction), |fraction|))
    ensures ParseDecimal("-" + text) == Some(Decimal(true, ValueOf(whole + fraction), |fraction|))
  {
    DotAfter(whole, fraction);
    assert text[..|whole|] == whole && text[|whole| + 1..] == fraction;
    assert text[0] == (whole + ".")[0] != '-';
    assert ("-" + text)[1..] == text;
  }

  /** What decimal.Decimal makes of the text is the number. */
  ghost predicate Reads(text: string, number: Decimal) {
    ParseDecimal(text) == Some(number)
  }

  lemma ParseParts(text: string, negative: bool, whole: string, fraction: string)
    requires AllDigits(whole) && AllDigits(fraction) && whole + fraction != ""
    requires text == SignText(negative) + (whole + "." + fraction)
    ensures AllDigits(whole + fraction)
    ensures Reads(text, Decimal(negative, ValueOf(whole + fraction), |fraction|))
  {
    ParseUnsigned(whole + "." + fraction, whole, fraction);
    if !negative {
      assert text == whole + "." + fraction;
    }
  }

  // ---- The text of a stored decimal

  /** f"{v:0{width}}" */
  function PadInt(v: int, width: nat): string {
    if v >= 0 then Pad(v, width) else "-" + Pad(-v, if width == 0 then 0 else width - 1)
  }

  function StrInt(v: int): string {
    PadInt(v, 0)
  }

  /** The text of groups of four bytes. */
  function GroupsText(b: Bytes, negative: bool): string
    requires |b| % 4 == 0
  {
    if b == [] then ""
    else
      var m := |b| - 4;
      GroupsText(b[..m], negative) + PadInt(XorMask(SignedBytes(b[m..]), negative), 9)
  }

  /** What the streaming decoder writes before the point. */
  function StreamWhole(layout: Layout, b: Bytes, negative: bool): string
    requires layout.FractionalAt() <= |b|
  {
    (if layout.FirstDigits() == 0 then "" else StrInt(XorMask(SignedBytes(b[..layout.IntegralAt()]), negative))) +
    GroupsText(b[layout.IntegralAt()..layout.FractionalAt()], negative)
  }

  /** And what it writes after it, from the bytes that follow. */
  function StreamFraction(layout: Layout, b: Bytes, negative: bool): string
    requires layout.Size() - layout.FractionalAt() <= |b|
  {
    var groups := 4 * layout.FractionalGroups();
    GroupsText(b[..groups], negative) + StreamLast(layout, b[groups..], negative)
  }

  function StreamLast(layout: Layout, b: Bytes, negative: bool): string
    requires CompressedBytes(layout.LastDigits()) <= |b|
  {
    if layout.LastDigits() == 0 then ""
    else PadInt(XorMask(SignedBytes(b[..CompressedBytes(layout.LastDigits())]), negative), layout.LastDigits())
  }

  /** The text the streaming decoder makes of the bytes, with the sign bit flipped back. */
  function StreamText(layout: Layout, b: Bytes, negative: bool): string
    requires layout.Size() <= |b|
  {
    SignText(negative) + StreamWhole(layout, b, negative) + "." +
        StreamFraction(layout, b[layout.FractionalAt()..], negative)
  }

  /** The text the buffer decoder makes of them. */
  function BufferWhole(layout: Layout, b: Bytes, negative: bool): string
    requires layout.FractionalAt() <= |b|
  {
    ToText(FromBytes(Masked(b[..layout.IntegralAt()], negative))) +
        GroupsText(b[layout.IntegralAt()..layout.FractionalAt()], negative)
  }

  function BufferFraction(layout: Layout, b: Bytes, negative: bool): string
    requires layout.Size() - layout.FractionalAt() <= |b|
  {
    var groups := 4 * layout.FractionalGroups();
    GroupsText(b[..groups], negative) + BufferLast(layout, b[groups..], negative)
  }

  function BufferLast(layout: Layout, b: Bytes, negative: bool): string
    requires CompressedBytes(layout.LastDigits()) <= |b|
  {
    if layout.LastDigits() == 0 then ""
    else Pad(FromBytes(Masked(b[..CompressedBytes(layout.LastDigits())], negative)), layout.LastDigits())
  }

  function BufferText(layout: Layout, b: Bytes, negative: bool): string
    requires layout.Size() <= |b|
  {
    SignText(negative) + BufferWhole(layout, b, negative) + "." +
        BufferFraction(layout, b[layout.FractionalAt()..], negative)
  }

  // ---- Both invert the format

  /** A group fits its bytes with a bit to spare. */
  lemma GroupReadBack(n: nat, size: nat, negative: bool)
    requires size > 0 && 2 * n < Pow256(size)
    ensures |Masked(ToBytes(n, size), negative)| == size
    ensures XorMask(SignedBytes(Masked(ToBytes(n, size), negative)), negative) == n
    ensures FromBytes(Masked(Masked(ToBytes(n, size), negative), negative)) == n
  {
    var b := ToBytes(n, size);
    BytesReadBack(n, size);
    TopBit(b);
    if negative {
      ComplementValue(b);
      TopBit(Complement(b));
      assert Complement(Complement(b)) == b;
    }
  }

  lemma FitsCompressed(n: nat, digits: nat)
    requires 0 < digits < 10 && n < Pow10(digits)
    ensures 2 * n < Pow256(CompressedBytes(digits))
  {
    CompressedBytesIsLeast(digits);
  }

  /** Groups, each written with nine digits. */
  function PadAll(groups: seq<nat>): (s: string)
    ensures AllDigits(s)
  {
    if groups == [] then "" else PadAll(groups[..|groups| - 1]) + Pad(groups[|groups| - 1], 9)
  }

  lemma NineDigits(n: nat, negative: bool)
    requires n < Pow10(9)
    ensures XorMask(SignedBytes(Masked(ToBytes(n, 4), negative)), negative) == n
    ensures |Pad(n, 9)| == 9 && ValueOf(Pad(n, 9)) == n
  {
    FitsCompressed(n, 9);
    GroupReadBack(n, 4, negative);
    Padded(n, 9);
  }

  lemma {:induction false} GroupsReadBack(groups: seq<nat>, negative: bool)
    requires forall i :: 0 <= i < |groups| ==> groups[i] < Pow10(9)
    ensures GroupsText(GroupBytes(groups, negative), negative) == PadAll(groups)
  {
    if groups != [] {
      var m := |groups| - 1;
      var b := GroupBytes(groups, negative);
      NineDigits(groups[m], negative);
      assert b[..|b| - 4] == GroupBytes(groups[..m], negative)
             && b[|b| - 4..] == Masked(ToBytes(groups[m], 4), negative);
      GroupsReadBack(groups[..m], negative);
    }
  }

  lemma NineMoreDigits(front: string, n: nat, digits: nat)
    requires AllDigits(front) && |front| == digits && ValueOf(front) == LowDigits(HighDigits(n, 9), digits)
    ensures var text := front + Pad(LowDigits(n, 9), 9);
            AllDigits(text) && |text| == digits + 9 && ValueOf(text) == LowDigits(n, digits + 9)
  {
    NineDigits(LowDigits(n, 9), false);
    ValueOfConcat(front, Pad(LowDigits(n, 9), 9));
    LowSplit(n, 9, digits);
  }

  /** The groups of a number, written out, are its last digits. */
  lemma {:induction false} PadAllValue(n: nat, count: nat)
    ensures |PadAll(Groups(n, count))| == 9 * count
    ensures ValueOf(PadAll(Groups(n, count))) == LowDigits(n, 9 * count)
    decreases count
  {
    if count > 0 {
      var groups, front := Groups(n, count), PadAll(Groups(HighDigits(n, 9), count - 1));
      PadAllValue(HighDigits(n, 9), count - 1);
      assert groups[..count - 1] == Groups(HighDigits(n, 9), count - 1);
      NineMoreDigits(front, n, 9 * (count - 1));
    }
  }

  /** The text of the digits before the point, whether or not an absent first group is written as a zero. */
  lemma WholeText(layout: Layout, whole: nat, first: string)
    requires whole < Pow10(layout.integral)
    requires first == ToText(HighDigits(whole, 9 * layout.IntegralGroups()))
             || (first == "" && layout.FirstDigits() == 0)
    ensures var text := first + PadAll(Groups(whole, layout.IntegralGroups()));
            AllDigits(text) && ValueOf(text) == whole
    ensures HighDigits(whole, 9 * layout.IntegralGroups()) < Pow10(layout.FirstDigits())
  {
    var count := layout.IntegralGroups();
    var high := HighDigits(whole, 9 * count);
    HighIsBelow(whole, 9 * count, layout.FirstDigits());
    HighAndLow(whole, 9 * count);
    PadAllValue(whole, count);
    ReadBack(high);
    assert first == "" ==> high == 0;
    ValueOfConcat(first, PadAll(Groups(whole, count)));
  }

  function LastText(layout: Layout, fraction: nat): (s: string)
    ensures AllDigits(s)
  {
    if layout.LastDigits() == 0 then "" else Pad(LowDigits(fraction, layout.LastDigits()), layout.LastDigits())
  }

  /** The text of the digits after the point: all of them, and their value. */
  lemma FractionText(layout: Layout, fraction: nat)
    requires fraction < Pow10(layout.fractional)
    ensures var text :=
            PadAll(Groups(HighDigits(fraction, layout.LastDigits()), layout.FractionalGroups())) +
            LastText(layout, fraction);
            AllDigits(text) && |text| == layout.fractional && ValueOf(text) == fraction
  {
    var last, count := layout.LastDigits(), layout.FractionalGroups();
    var high, low := HighDigits(fraction, last), LowDigits(fraction, last);
    HighIsBelow(fraction, last, 9 * count);
    HighAndLow(fraction, last);
    LowOfFew(high, 9 * count);
    PadAllValue(high, count);
    Padded(low, last);
    ValueOfConcat(PadAll(Groups(high, count)), LastText(layout, fraction));
  }

  lemma Cut(first: Bytes, integral: Bytes, fractional: Bytes, last: Bytes, following: Bytes)
    ensures var b, at, more := first + integral + fractional + last + following, |first| + |integral|, |fractional|;
            && b[..|first|] == first && b[|first|..at] == integral
            && b[at..][..more] == fractional && b[at..][more..][..|last|] == last
  {
  }

  /** The parts of the stored form, cut where the decoders cut them; other bytes may follow. */
  lemma BodyParts(layout: Layout, negative: bool, whole: nat, fraction: nat, following: Bytes)
    ensures var b := Body(layout, negative, whole, fraction) + following;
            var rest, groups := b[layout.FractionalAt()..], 4 * layout.FractionalGroups();
            && b[..layout.IntegralAt()] == FirstBytes(layout, negative, whole)
            && b[layout.IntegralAt()..layout.FractionalAt()] ==
               GroupBytes(Groups(whole, layout.IntegralGroups()), negative)
            && rest[..groups] ==
               GroupBytes(Groups(HighDigits(fraction, layout.LastDigits()), layout.FractionalGroups()), negative)
            && rest[groups..][..CompressedBytes(layout.LastDigits())] == LastBytes(layout, negative, fraction)
  {
    Cut(FirstBytes(layout, negative, whole), GroupBytes(Groups(whole, layout.IntegralGroups()), negative),
        GroupBytes(Groups(HighDigits(fraction, layout.LastDigits()), layout.FractionalGroups()), negative),
        LastBytes(layout, negative, fraction), following);
  }

  /** What the two decoders read from the first group. */
  lemma FirstReadBack(layout: Layout, negative: bool, whole: nat)
    requires whole < Pow10(layout.integral)
    ensures var first, high := FirstBytes(layout, negative, whole), HighDigits(whole, 9 * layout.IntegralGroups());
            && FromBytes(Masked(first, negative)) == high
            && (layout.FirstDigits() != 0 ==> XorMask(SignedBytes(first), negative) == high)
  {
    var high := HighDigits(whole, 9 * layout.IntegralGroups());
    HighIsBelow(whole, 9 * layout.IntegralGroups(), layout.FirstDigits());
    if layout.FirstDigits() != 0 {
      FitsCompressed(high, layout.FirstDigits());
      GroupReadBack(high, layout.IntegralAt(), negative);
    }
  }

  /** And from the last one. */
  lemma LastReadBack(layout: Layout, negative: bool, fraction: nat, b: Bytes)
    requires CompressedBytes(layout.LastDigits()) <= |b|
    requires b[..CompressedBytes(layout.LastDigits())] == LastBytes(layout, negative, fraction)
    ensures StreamLast(layout, b, negative) == LastText(layout, fraction) == BufferLast(layout, b, negative)
  {
    if layout.LastDigits() != 0 {
      var low := LowDigits(fraction, layout.LastDigits());
      FitsCompressed(low, layout.LastDigits());
      GroupReadBack(low, CompressedBytes(layout.LastDigits()), negative);
    }
  }

  /** Digits before the point and digits after it, in two pieces each, and the numbers they are. */
  ghost predicate Readable(first: string, groups: string, more: string, last: string, whole: nat, fraction: nat,
                           scale: nat) {
    && AllDigits(first + groups) && ValueOf(first + groups) == whole
    && AllDigits(more + last) && ValueOf(more + last) == fraction && |more + last| == scale
    && |first + groups| + scale > 0
  }

  /** A sign, digits before the point and digits after it, piece by piece. */
  function Written(negative: bool, first: string, groups: string, more: string, last: string): string {
    SignText(negative) + (first + groups) + "." + (more + last)
  }

  lemma WrittenIs(negative: bool, first: string, groups: string, more: string, last: string)
    ensures Written(negative, first, groups, more, last) ==
            SignText(negative) + ((first + groups) + "." + (more + last))
  {
  }

  lemma ReadBackPieces(text: string, negative: bool, first: string, groups: string, more: string, last: string,
                       whole: nat, fraction: nat, scale: nat, number: Decimal)
    requires Readable(first, groups, more, last, whole, fraction, scale)
             && text == Written(negative, first, groups, more, last)
    requires number == Decimal(negative, Shift(whole, scale) + fraction, scale)
    ensures Reads(text, number)
  {
    WrittenIs(negative, first, groups, more, last);
    ValueOfConcat(first + groups, more + last);
    assert number == Decimal(negative, ValueOf(first + groups + (more + last)), |more + last|);
    ParseParts(text, negative, first + groups, more + last);
  }

  /** What the decoders read before the point; only an absent first group is written differently. */
  lemma StoredWhole(layout: Layout, negative: bool, whole: nat, b: Bytes)
    requires whole < Pow10(layout.integral) && layout.FractionalAt() <= |b|
    requires b[..layout.IntegralAt()] == FirstBytes(layout, negative, whole)
    requires b[layout.IntegralAt()..layout.FractionalAt()] ==
             GroupBytes(Groups(whole, layout.IntegralGroups()), negative)
    ensures var high, groups :=
            ToText(HighDigits(whole, 9 * layout.IntegralGroups())), PadAll(Groups(whole, layout.IntegralGroups()));
            && StreamWhole(layout, b, negative) == (if layout.FirstDigits() == 0 then "" else high) + groups
            && BufferWhole(layout, b, negative) == high + groups
  {
    FirstReadBack(layout, negative, whole);
    GroupsReadBack(Groups(whole, layout.IntegralGroups()), negative);
  }

  /** And after the point. */
  lemma StoredFraction(layout: Layout, negative: bool, fraction: nat, rest: Bytes)
    requires layout.Size() - layout.FractionalAt() <= |rest|
    requires rest[..4 * layout.FractionalGroups()] ==
             GroupBytes(Groups(HighDigits(fraction, layout.LastDigits()), layout.FractionalGroups()), negative)
    requires rest[4 * layout.FractionalGroups()..][..CompressedBytes(layout.LastDigits())] ==
             LastBytes(layout, negative, fraction)
    ensures var text :=
            PadAll(Groups(HighDigits(fraction, layout.LastDigits()), layout.FractionalGroups())) +
            LastText(layout, fraction);
            StreamFraction(layout, rest, negative) == text == BufferFraction(layout, rest, negative)
  {
    LastReadBack(layout, negative, fraction, rest[4 * layout.FractionalGroups()..]);
    GroupsReadBack(Groups(HighDigits(fraction, layout.LastDigits()), layout.FractionalGroups()), negative);
  }

  lemma StoredText(layout: Layout, negative: bool, whole: nat, fraction: nat, following: Bytes)
    requires whole < Pow10(layout.integral)
    ensures var b, high :=
            Body(layout, negative, whole, fraction) + following, ToText(HighDigits(whole, 9 * layout.IntegralGroups()));
            var groups := PadAll(Groups(whole, layout.IntegralGroups()));
            var more := PadAll(Groups(HighDigits(fraction, layout.LastDigits()), layout.FractionalGroups()));
            && StreamText(layout, b, negative) ==
               Written(negative, if layout.FirstDigits() == 0 then ""
                       else high, groups, more, LastText(layout, fraction))
            && BufferText(layout, b, negative) == Written(negative, high, groups, more, LastText(layout, fraction))
  {
    var b := Body(layout, negative, whole, fraction) + following;
    BodyParts(layout, negative, whole, fraction, following);
    StoredWhole(layout, negative, whole, b);
    StoredFraction(layout, negative, fraction, b[layout.FractionalAt()..]);
  }

  /** Text that is written in the pieces of a decimal reads as that decimal. */
  lemma PiecesInvert(text: string, layout: Layout, negative: bool, first: string, whole: nat, fraction: nat,
                     number: Decimal)
    requires layout.integral + layout.fractional > 0
    requires whole < Pow10(layout.integral) && fraction < Pow10(layout.fractional)
    requires number == Decimal(negative, Shift(whole, layout.fractional) + fraction, layout.fractional)
    requires first == ToText(HighDigits(whole, 9 * layout.IntegralGroups()))
             || (first == "" && layout.FirstDigits() == 0)
    requires text == Written(negative, first, PadAll(Groups(whole, layout.IntegralGroups())),
                             PadAll(Groups(HighDigits(fraction, layout.LastDigits()), layout.FractionalGroups())),
                                 LastText(layout, fraction))
    ensures Reads(text, number)
  {
    TextIsReadable(layout, first, whole, fraction);
    ReadBackPieces(text, negative, first, PadAll(Groups(whole, layout.IntegralGroups())),
                   PadAll(Groups(HighDigits(fraction, layout.LastDigits()), layout.FractionalGroups())),
                       LastText(layout, fraction),
                   whole, fraction, layout.fractional, number);
  }

  /** Both decoders invert the format: for every precision and scale, each sign, all digits, whatever bytes follow. */
  lemma DecodersInvert(layout: Layout, negative: bool, whole: nat, fraction: nat, following: Bytes, number: Decimal)
    requires layout.integral + layout.fractional > 0
    requires whole < Pow10(layout.integral) && fraction < Pow10(layout.fractional)
    requires number == Decimal(negative, Shift(whole, layout.fractional) + fraction, layout.fractional)
    ensures var b := Body(layout, negative, whole, fraction) + following;
            Reads(StreamText(layout, b, negative), number) && Reads(BufferText(layout, b, negative), number)
  {
    var b, high :=
        Body(layout, negative, whole, fraction) + following, ToText(HighDigits(whole, 9 * layout.IntegralGroups()));
    StoredText(layout, negative, whole, fraction, following);
    PiecesInvert(StreamText(layout, b, negative), layout, negative, if layout.FirstDigits() == 0 then ""
                 else high, whole, fraction, number);
    PiecesInvert(BufferText(layout, b, negative), layout, negative, high, whole, fraction, number);
  }

  lemma TextIsReadable(layout: Layout, first: string, whole: nat, fraction: nat)
    requires layout.integral + layout.fractional > 0
    requires whole < Pow10(layout.integral) && fraction < Pow10(layout.fractional)
    requires first == ToText(HighDigits(whole, 9 * layout.IntegralGroups()))
             || (first == "" && layout.FirstDigits() == 0)
    ensures Readable(first, PadAll(Groups(whole, layout.IntegralGroups())),
                     PadAll(Groups(HighDigits(fraction, layout.LastDigits()), layout.FractionalGroups())),
                         LastText(layout, fraction),
                     whole, fraction, layout.fractional)
  {
    WholeText(layout, whole, first);
    FractionText(layout, fraction);
    PadAllValue(whole, layout.IntegralGroups());
  }

  // ---- A number and its bytes

  lemma KnownBytes()
    ensures ToBytes(1, 1) == [1] && ToBytes(1234, 2) == [0x04, 0xD2]
    ensures ToBytes(2_3456_7890, 4) == [0x0D, 0xFB, 0x38, 0xD2]
  {
    assert ToBytes(0x0D, 1) == [0x0D] && ToBytes(0x0DFB, 2) == [0x0D, 0xFB]
           && ToBytes(0x0DFB38, 3) == [0x0D, 0xFB, 0x38];
  }

  lemma KnownParts(negative: bool)
    ensures var layout := Layout(10, 4);
            && FirstBytes(layout, negative, 12_3456_7890) == Masked([1], negative)
            && Groups(12_3456_7890, 1) == [2_3456_7890] && Groups(HighDigits(1234, 4), 0) == []
            && LastBytes(layout, negative, 1234) == Masked([0x04, 0xD2], negative)
  {
    PowersOf10();
    HighIsQuotient(12_3456_7890, 9);
    LowIsRemainder(12_3456_7890, 9);
    LowOfFew(1234, 4);
    KnownBytes();
    assert Groups(HighDigits(12_3456_7890, 9), 0) == [];
  }

  lemma KnownGroup(negative: bool)
    ensures GroupBytes([2_3456_7890], negative) == Masked([0x0D, 0xFB, 0x38, 0xD2], negative)
    ensures GroupBytes([], negative) == []
  {
    KnownBytes();
    assert [2_3456_7890][..0] == [];
  }

  /** DECIMAL(14, 4): one digit in a byte, nine in four bytes, and the last four in two. */
  lemma KnownDecimal()
    ensures Encode(Layout(10, 4), false, 12_3456_7890, 1234) == [0x81, 0x0D, 0xFB, 0x38, 0xD2, 0x04, 0xD2]
    ensures Encode(Layout(10, 4), true, 12_3456_7890, 1234) == [0x7E, 0xF2, 0x04, 0xC7, 0x2D, 0xFB, 0x2D]
  {
    KnownParts(false);
    KnownGroup(false);
    assert Body(Layout(10, 4), false, 12_3456_7890, 1234) == [1] + [0x0D, 0xFB, 0x38, 0xD2] + [] + [0x04, 0xD2];
    KnownParts(true);
    KnownGroup(true);
    assert Body(Layout(10, 4), true, 12_3456_7890, 1234) == [0xFE] + [0xF2, 0x04, 0xC7, 0x2D] + [] + [0xFB, 0x2D];
  }
}
