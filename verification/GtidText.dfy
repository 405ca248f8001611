/** The textual and the binary form of GTIDs. */
module GtidText {
  import opened Events
  import opened Sequences
  import opened Framing
  import opened ByteOrder
  import opened Digits
  import opened GtidIntervals
  import opened Gtids

  /** The value of a Gtid object. */
  datatype GtidValue = GtidValue(sid: string, intervals: seq<Interval>)

  predicate IsHex(c: char) { IsDigit(c) || 'a' <= c <= 'f' || 'A' <= c <= 'F' }

  predicate IsLowerHex(c: char) { IsDigit(c) || 'a' <= c <= 'f' }

  predicate IsDashAt(i: nat) { i == 8 || i == 13 || i == 18 || i == 23 }

  /** 8-4-4-4-12 hexadecimal digits. */
  predicate SidShape(s: string) {
    |s| == 36 && forall i :: 0 <= i < 36 ==> if IsDashAt(i) then s[i] == '-' else IsHex(s[i])
  }

  // ---- Text

  /** The first occurrence of a character, or the length. */
  function Find(s: string, c: char): (r: nat)
    ensures r <= |s| && (r < |s| ==> s[r] == c) && forall i :: 0 <= i < r ==> s[i] != c
  {
    if s == "" || s[0] == c then 0 else 1 + Find(s[1..], c)
  }

  predicate IsNumber(s: string) { s != "" && AllDigits(s) }

  /** A number, or two with a dash between them; None is a ValueError. */
  function ParseInterval(s: string): Option<Interval> {
    var dash := Find(s, '-');
    if dash == |s| then
      if IsNumber(s) then Some(Interval(ValueOf(s), ValueOf(s) + 1)) else None
    else if IsNumber(s[..dash]) && IsNumber(s[dash + 1..]) then
      Some(Interval(ValueOf(s[..dash]), ValueOf(s[dash + 1..]) + 1))
    else None
  }

  function Split(s: string): seq<string> {
    var colon := Find(s, ':');
    if colon == |s| then [s] else [s[..colon]] + Split(s[colon + 1..])
  }

  function Join(parts: seq<string>): string {
    if parts == [] then "" else if |parts| == 1 then parts[0] else parts[0] + ":" + Join(parts[1..])
  }

  function ParseAll(parts: seq<string>): Option<seq<Interval>> {
    if parts == [] then Some([])
    else
      var first, later := ParseInterval(parts[0]), ParseAll(parts[1..]);
      if first.Some? && later.Some? then Some([first.value] + later.value) else None
  }

  /** The sid and the intervals of a text, as they are written. */
  function Parse(text: string): Option<GtidValue> {
    if |text| < 37 || !SidShape(text[..36]) || text[36] != ':' then None
    else
      var intervals := ParseAll(Split(text[37..]));
      if intervals.None? then None else Some(GtidValue(text[..36], intervals.value))
  }

  /** Gtid(text): the intervals are added one by one. */
  function FromText(text: string): Option<GtidValue> {
    var parsed := Parse(text);
    if parsed.None? then None
    else
      var intervals := AddAll([], parsed.value.intervals);
      if intervals.None? then None else Some(parsed.value.(intervals := intervals.value))
  }

  function RangeText(first: nat, last: nat): string {
    ToText(first) + "-" + ToText(last)
  }

  function FormatInterval(t: Interval): string
    requires t.hi > 0
  {
    if t.lo + 1 != t.hi then RangeText(t.lo, t.hi - 1) else ToText(t.lo)
  }

  function FormatAll(s: seq<Interval>): (r: seq<string>)
    requires forall i :: 0 <= i < |s| ==> s[i].hi > 0
    ensures |r| == |s| && forall i :: 0 <= i < |s| ==> r[i] == FormatInterval(s[i])
  {
    seq(|s|, i requires 0 <= i < |s| => FormatInterval(s[i]))
  }

  /** str(gtid) */
  function ToString(g: GtidValue): string
    requires forall i :: 0 <= i < |g.intervals| ==> g.intervals[i].hi > 0
  {
    g.sid + ":" + Join(FormatAll(g.intervals))
  }

  lemma {:induction false} FindIn(a: string, c: char, b: string)
    requires forall i :: 0 <= i < |a| ==> a[i] != c
    ensures Find(a + [c] + b, c) == |a| && Find(a, c) == |a|
  {
    if a != "" {
      assert (a + [c] + b)[1..] == a[1..] + [c] + b;
      FindIn(a[1..], c, b);
    }
  }

  lemma ParseRange(first: nat, last: nat)
    ensures ParseInterval(RangeText(first, last)) == Some(Interval(first, last + 1))
    ensures forall i :: 0 <= i < |RangeText(first, last)| ==> RangeText(first, last)[i] != ':'
  {
    var a, b := ToText(first), ToText(last);
    FindIn(a, '-', b);
    assert RangeText(first, last)[..|a|] == a && RangeText(first, last)[|a| + 1..] == b;
    ReadBack(first);
    ReadBack(last);
  }

  lemma ParseFormatted(t: Interval)
    requires t.lo < t.hi
    ensures ParseInterval(FormatInterval(t)) == Some(t)
    ensures forall i :: 0 <= i < |FormatInterval(t)| ==> FormatInterval(t)[i] != ':'
  {
    if t.lo + 1 != t.hi {
      ParseRange(t.lo, t.hi - 1);
    } else {
      FindIn(ToText(t.lo), '-', "");
      ReadBack(t.lo);
    }
  }

  lemma {:induction false} SplitJoined(parts: seq<string>)
    requires parts != [] && forall i :: 0 <= i < |parts| ==> ':' !in parts[i]
    ensures Split(Join(parts)) == parts
  {
    if |parts| == 1 {
      FindIn(parts[0], ':', "");
    } else {
      var rest := Join(parts[1..]);
      FindIn(parts[0], ':', rest);
      Colon(Join(parts), parts[0], rest);
      SplitJoined(parts[1..]);
    }
  }

  lemma {:induction false} ParseAllOf(parts: seq<string>, s: seq<Interval>)
    requires |parts| == |s| && forall i :: 0 <= i < |s| ==> ParseInterval(parts[i]) == Some(s[i])
    ensures ParseAll(parts) == Some(s)
  {
    if s != [] {
      ParseAllOf(parts[1..], s[1..]);
      assert s == [s[0]] + s[1..];
    }
  }

  /** A canonical list is rebuilt when its intervals are added one by one. */
  lemma Rebuilt(s: seq<Interval>)
    requires Canonical(s)
    ensures AddAll([], s) == Some(s)
  {
    assert Canonical([]);
    AddAllIsUnion([], s);
    SameSetSameList(AddAll([], s).value, s);
  }

  /** Text made of a sid and the texts of canonical intervals gives the Gtid. */
  lemma FromParts(sid: string, parts: seq<string>, s: seq<Interval>)
    requires SidShape(sid) && Canonical(s) && s != [] && |parts| == |s|
    requires forall i :: 0 <= i < |s| ==> ParseInterval(parts[i]) == Some(s[i]) && ':' !in parts[i]
    ensures FromText(sid + ":" + Join(parts)) == Some(GtidValue(sid, s))
  {
    ParseJoined(sid + ":" + Join(parts), sid, parts, s);
    Rebuilt(s);
  }

  lemma ParseJoined(text: string, sid: string, parts: seq<string>, s: seq<Interval>)
    requires SidShape(sid) && s != [] && |parts| == |s| && text == sid + ":" + Join(parts)
    requires forall i :: 0 <= i < |s| ==> ParseInterval(parts[i]) == Some(s[i]) && ':' !in parts[i]
    ensures Parse(text) == Some(GtidValue(sid, s))
  {
    Colon(text, sid, Join(parts));
    SplitJoined(parts);
    ParseAllOf(parts, s);
  }

  lemma Colon(text: string, a: string, b: string)
    requires text == a + ":" + b
    ensures text[..|a|] == a && text[|a|] == ':' && text[|a| + 1..] == b
  {
  }

  /** An interval is printed with its first and its last number. */
  lemma IntervalText(first: nat, last: nat)
    requires first <= last
    ensures FormatInterval(Interval(first, last + 1)) ==
            if first == last then ToText(first) else ToText(first) + "-" + ToText(last)
  {
  }

  /** Parsing the printed text gives the same value if and only if the sid is well-formed and there is an interval. */
  lemma TextRoundTrip(g: GtidValue)
    requires Canonical(g.intervals)
    ensures FromText(ToString(g)) == Some(g) <==> SidShape(g.sid) && g.intervals != []
  {
    if SidShape(g.sid) && g.intervals != [] {
      forall i | 0 <= i < |g.intervals|
        ensures ParseInterval(FormatInterval(g.intervals[i])) == Some(g.intervals[i])
                && ':' !in FormatInterval(g.intervals[i])
      {
        ParseFormatted(g.intervals[i]);
      }
      FromParts(g.sid, FormatAll(g.intervals), g.intervals);
    } else if SidShape(g.sid) {
      NoIntervals(g.sid);
    }
  }

  lemma NoIntervals(sid: string)
    requires SidShape(sid)
    ensures FromText(sid + ":" + Join([])) == None
  {
    var text := sid + ":" + Join([]);
    assert text[37..] == "" && Split("") == [""] && ParseInterval("").None?;
    assert [""][0] == "" && ParseAll([""]).None?;
  }

  // ---- Binary

  function HexValue(c: char): (n: nat)
    requires IsHex(c)
    ensures n < 16
  {
    if IsDigit(c) then (c - '0') as int
    else if 'a' <= c <= 'f' then (c - 'a') as int + 10
    else (c - 'A') as int + 10
  }

  /** The digits in their order, in either case. */
  lemma HexDigits(n: nat)
    requires n < 16
    ensures IsHex("0123456789abcdef"[n]) && HexValue("0123456789abcdef"[n]) == n
    ensures IsHex("0123456789ABCDEF"[n]) && HexValue("0123456789ABCDEF"[n]) == n
  {
  }

  function HexDigit(n: nat): (c: char)
    requires n < 16
    ensures IsLowerHex(c) && HexValue(c) == n
  {
    if n < 10 then '0' + n as char else 'a' + (n - 10) as char
  }

  /** unhexlify, for pairs of hexadecimal digits. */
  function Unhexlify(s: string): (b: Bytes)
    requires |s| % 2 == 0 && forall i :: 0 <= i < |s| ==> IsHex(s[i])
    ensures |b| == |s| / 2
  {
    if s == "" then [] else [16 * HexValue(s[0]) + HexValue(s[1])] + Unhexlify(s[2..])
  }

  function Hexlify(b: Bytes): (s: string)
    ensures |s| == 2 * |b|
  {
    if b == [] then "" else [HexDigit(b[0] as int / 16), HexDigit(b[0] as int % 16)] + Hexlify(b[1..])
  }

  /** The byte of two digits has the value of the first in its higher half. */
  lemma {:induction false} UnhexlifyAt(s: string, i: nat)
    requires HexPairs(s) && i < |s| / 2
    ensures Unhexlify(s)[i] as int == 16 * HexValue(s[2 * i]) + HexValue(s[2 * i + 1])
  {
    if i > 0 {
      UnhexlifyAt(s[2..], i - 1);
    }
  }

  lemma HexPair(c: char, d: char)
    requires IsLowerHex(c) && IsLowerHex(d)
    ensures var b := 16 * HexValue(c) + HexValue(d); HexDigit(b / 16) == c && HexDigit(b % 16) == d
  {
  }

  lemma {:induction false} HexReadBack(s: string)
    requires |s| % 2 == 0 && (forall i :: 0 <= i < |s| ==> IsHex(s[i])) && LowerCase(s)
    ensures Hexlify(Unhexlify(s)) == s
  {
    if s != "" {
      HexReadBack(s[2..]);
      var b := Unhexlify(s);
      assert b[1..] == Unhexlify(s[2..]);
      HexPair(s[0], s[1]);
      assert s == [s[0], s[1]] + s[2..];
    }
  }

  lemma {:induction false} HexlifyConcat(a: Bytes, b: Bytes)
    ensures Hexlify(a + b) == Hexlify(a) + Hexlify(b)
  {
    if a == [] {
      assert a + b == b;
    } else {
      assert (a + b)[1..] == a[1..] + b;
      HexlifyConcat(a[1..], b);
    }
  }

  /** sid.replace("-", "") */
  function Dashless(sid: string): (s: string) {
    if sid == "" then "" else (if sid[0] == '-' then "" else [sid[0]]) + Dashless(sid[1..])
  }

  predicate AllHex(s: string) {
    forall i :: 0 <= i < |s| ==> IsHex(s[i])
  }

  /** What unhexlify accepts. */
  predicate HexPairs(s: string) {
    |s| % 2 == 0 && AllHex(s)
  }

  lemma {:induction false} DashlessConcat(a: string, b: string)
    ensures Dashless(a + b) == Dashless(a) + Dashless(b)
  {
    if a == "" {
      assert a + b == b;
    } else {
      assert (a + b)[1..] == a[1..] + b;
      DashlessConcat(a[1..], b);
    }
  }

  lemma {:induction false} DashlessHex(s: string)
    requires AllHex(s)
    ensures Dashless(s) == s
  {
    if s != "" {
      DashlessHex(s[1..]);
      assert s == [s[0]] + s[1..];
    }
  }

  lemma DashlessPiece(a: string, b: string)
    requires AllHex(a)
    ensures Dashless(a + "-" + b) == a + Dashless(b)
  {
    DashlessHex(a);
    DashlessConcat(a + "-", b);
    DashlessConcat(a, "-");
    assert "-"[1..] == "" && Dashless("-") == "" + Dashless("") == "";
    assert a + "" == a;
  }

  /** The digits of a well-formed sid. */
  lemma DashlessSid(sid: string)
    requires SidShape(sid)
    ensures Dashless(sid) == sid[..8] + (sid[9..13] + (sid[14..18] + (sid[19..23] + sid[24..])))
    ensures |Dashless(sid)| == 32 && HexPairs(Dashless(sid))
  {
    assert sid == sid[..8] + "-" + sid[9..];
    DashlessPiece(sid[..8], sid[9..]);
    assert sid[9..] == sid[9..13] + "-" + sid[14..];
    DashlessPiece(sid[9..13], sid[14..]);
    assert sid[14..] == sid[14..18] + "-" + sid[19..];
    DashlessPiece(sid[14..18], sid[19..]);
    assert sid[19..] == sid[19..23] + "-" + sid[24..];
    DashlessPiece(sid[19..23], sid[24..]);
    DashlessHex(sid[24..]);
  }

  function SidOf(b: Bytes): string
    requires |b| == 16
  {
    Hexlify(b[..4]) + "-" + Hexlify(b[4..6]) + "-" + Hexlify(b[6..8]) + "-" + Hexlify(b[8..10]) + "-" + Hexlify(b[10..])
  }

  ghost predicate LowerCase(sid: string) {
    forall i :: 0 <= i < |sid| ==> !('A' <= sid[i] <= 'F')
  }

  const U64: nat := 0x1_0000_0000_0000_0000

  /** The bounds fit the binary form. */
  predicate Fits(s: seq<Interval>) {
    |s| < U64 && forall i :: 0 <= i < |s| ==> s[i].lo < U64 && s[i].hi < U64
  }

  function PairBytes(t: Interval): (b: Bytes)
    ensures |b| == 16
  {
    ToLittleEndian(t.lo, 8) + ToLittleEndian(t.hi, 8)
  }

  function PairsBytes(s: seq<Interval>): (b: Bytes)
    ensures |b| == 16 * |s|
  {
    if s == [] then [] else PairsBytes(s[..|s| - 1]) + PairBytes(s[|s| - 1])
  }

  function EncodedLength(g: GtidValue): nat {
    16 + 8 + 2 * 8 * |g.intervals|
  }

  /** The binary form: sid, number of intervals, and their bounds. The shape of the sid is not looked at: it is as long
      as announced if and only if the sid has 32 digits. */
  function Encoded(g: GtidValue): (b: Bytes)
    requires HexPairs(Dashless(g.sid))
    ensures |b| == EncodedLength(g) <==> |Dashless(g.sid)| == 32
  {
    Unhexlify(Dashless(g.sid)) + ToLittleEndian(|g.intervals|, 8) + PairsBytes(g.intervals)
  }

  /** encode; None is an exception, for a number beyond 64 bits or digits that are no bytes. */
  method Encode(g: GtidValue) returns (r: Option<Bytes>)
    ensures r == if HexPairs(Dashless(g.sid)) && Fits(g.intervals) then Some(Encoded(g)) else None
  {
    if !HexPairs(Dashless(g.sid)) || |g.intervals| >= U64 {
      return None;
    }
    var pairs := EncodePairs(g.intervals);
    if pairs.None? {
      return None;
    }
    r := Some(Unhexlify(Dashless(g.sid)) + ToLittleEndian(|g.intervals|, 8) + pairs.value);
  }

  /** The loop over the intervals. */
  method EncodePairs(s: seq<Interval>) returns (r: Option<Bytes>)
    ensures r == if forall i :: 0 <= i < |s| ==> s[i].lo < U64 && s[i].hi < U64 then Some(PairsBytes(s)) else None
  {
    var buffer: Bytes := [];
    for i := 0 to |s|
      invariant buffer == PairsBytes(s[..i])
      invariant forall j :: 0 <= j < i ==> s[j].lo < U64 && s[j].hi < U64
    {
      if s[i].lo >= U64 || s[i].hi >= U64 {
        return None;
      }
      assert s[..i + 1][..i] == s[..i];
      buffer := buffer + (ToLittleEndian(s[i].lo, 8) + ToLittleEndian(s[i].hi, 8));
    }
    assert s[..|s|] == s;
    r := Some(buffer);
  }

  /** The text of the bounds read from the binary form; an end of zero makes text that does not parse. */
  function BoundsText(b: Bytes): string
    requires |b| == 16
  {
    var start, end := LittleEndian(b[..8]), LittleEndian(b[8..]);
    if end == 0 then ToText(start) + "--1" else RangeText(start, end - 1)
  }

  function BoundsTexts(b: Bytes, count: nat): (r: seq<string>)
    requires 16 * count <= |b|
    ensures |r| == count
  {
    if count == 0 then [] else BoundsTexts(b, count - 1) + [BoundsText(b[16 * (count - 1)..16 * count])]
  }

  /** What decoding from the front of some bytes gives: the Gtid, by way of text, and how much of the bytes is used. */
  function Decoded(b: Bytes): Option<(GtidValue, nat)> {
    if |b| < 24 then None
    else
      var count := LittleEndian(b[16..24]);
      if |b| < 24 + 16 * count then None
      else
        var g := FromText(SidOf(b[..16]) + ":" + Join(BoundsTexts(b[24..], count)));
        if g.None? then None else Some((g.value, 24 + 16 * count))
  }

  /** decode; None is an exception. */
  method Decode(payload: Bytes) returns (r: Option<(GtidValue, nat)>)
    ensures r == Decoded(payload)
  {
    if |payload| < 24 {
      return None;
    }
    var sid, count := SidOf(payload[..16]), LittleEndian(payload[16..24]);
    var texts := ReadBounds(payload[24..], count);
    if texts.None? {
      return None;
    }
    assert texts.value == BoundsTexts(payload[24..], count);
    var g := FromText(sid + ":" + Join(texts.value));
    r := if g.None? then None else Some((g.value, 24 + 16 * count));
  }

  method ReadBounds(bounds: Bytes, count: nat) returns (r: Option<seq<string>>)
    ensures r == if 16 * count <= |bounds| then Some(BoundsTexts(bounds, count)) else None
  {
    var texts: seq<string> := [];
    for i := 0 to count
      invariant 16 * i <= |bounds| && texts == BoundsTexts(bounds, i)
    {
      if |bounds| < 16 * (i + 1) {
        return None;
      }
      texts := texts + [BoundsText(bounds[16 * i..16 * (i + 1)])];
    }
    r := Some(texts);
  }

  lemma EightBytes()
    ensures Pow256(8) == U64
  {
  }

  lemma SidReadBack(sid: string)
    requires SidShape(sid) && LowerCase(sid)
    ensures HexPairs(Dashless(sid)) && |Dashless(sid)| == 32 && SidOf(Unhexlify(Dashless(sid))) == sid
  {
    var s := Dashless(sid);
    DashlessSid(sid);
    HexReadBack(s);
    HexSlices(Unhexlify(s), s);
    DashlessPieces(sid, s);
    SidPieces(sid);
  }

  lemma DashlessPieces(sid: string, s: string)
    requires SidShape(sid) && s == sid[..8] + (sid[9..13] + (sid[14..18] + (sid[19..23] + sid[24..])))
    ensures s[..8] == sid[..8] && s[8..12] == sid[9..13] && s[12..16] == sid[14..18] && s[16..20] == sid[19..23]
            && s[20..] == sid[24..]
  {
  }

  lemma SidPieces(sid: string)
    requires SidShape(sid)
    ensures sid == sid[..8] + "-" + sid[9..13] + "-" + sid[14..18] + "-" + sid[19..23] + "-" + sid[24..]
  {
  }

  lemma HexSlice(b: Bytes, i: nat, j: nat)
    requires i <= j <= |b|
    ensures Hexlify(b)[2 * i..2 * j] == Hexlify(b[i..j])
  {
    assert b == b[..i] + b[i..j] + b[j..];
    HexlifyConcat(b[..i] + b[i..j], b[j..]);
    HexlifyConcat(b[..i], b[i..j]);
  }

  lemma HexSlices(b: Bytes, s: string)
    requires |b| == 16 && Hexlify(b) == s
    ensures Hexlify(b[..4]) == s[..8] && Hexlify(b[4..6]) == s[8..12] && Hexlify(b[6..8]) == s[12..16]
    ensures Hexlify(b[8..10]) == s[16..20] && Hexlify(b[10..]) == s[20..]
  {
    HexSlice(b, 0, 4);
    HexSlice(b, 4, 6);
    HexSlice(b, 6, 8);
    HexSlice(b, 8, 10);
    HexSlice(b, 10, 16);
    assert b[0..4] == b[..4] && b[10..16] == b[10..] && s[0..8] == s[..8] && s[20..32] == s[20..];
  }

  lemma BoundsReadBack(t: Interval)
    requires t.lo < t.hi < U64
    ensures ParseInterval(BoundsText(PairBytes(t))) == Some(t) && ':' !in BoundsText(PairBytes(t))
  {
    EightBytes();
    LittleEndianReadBack(t.lo, 8);
    LittleEndianReadBack(t.hi, 8);
    assert PairBytes(t)[..8] == ToLittleEndian(t.lo, 8) && PairBytes(t)[8..] == ToLittleEndian(t.hi, 8);
    ParseRange(t.lo, t.hi - 1);
  }

  lemma {:induction false} PairAt(s: seq<Interval>, following: Bytes, i: nat)
    requires i < |s|
    ensures (PairsBytes(s) + following)[16 * i..16 * (i + 1)] == PairBytes(s[i])
  {
    var m := |s| - 1;
    if i < m {
      PairAt(s[..m], PairBytes(s[m]) + following, i);
      Associative(PairsBytes(s[..m]), PairBytes(s[m]), following);
    }
  }

  lemma {:induction false} BoundsTextsAre(s: seq<Interval>, following: Bytes, count: nat)
    requires count <= |s|
    ensures 16 * count <= |PairsBytes(s) + following|
    ensures BoundsTexts(PairsBytes(s) + following, count) ==
            seq(count, i requires 0 <= i < count => BoundsText(PairBytes(s[i])))
  {
    if count > 0 {
      BoundsTextsAre(s, following, count - 1);
      PairAt(s, following, count - 1);
    }
  }

  /** The three parts of the binary form. */
  lemma EncodedParts(g: GtidValue, following: Bytes)
    requires HexPairs(Dashless(g.sid)) && |Dashless(g.sid)| == 32 && Fits(g.intervals)
    ensures var b := Encoded(g) + following;
            && |b| == EncodedLength(g) + |following|
            && b[..16] == Unhexlify(Dashless(g.sid)) && LittleEndian(b[16..24]) == |g.intervals|
            && b[24..] == PairsBytes(g.intervals) + following
  {
    CutThree(Unhexlify(Dashless(g.sid)), ToLittleEndian(|g.intervals|, 8), PairsBytes(g.intervals), following);
    EightBytes();
    LittleEndianReadBack(|g.intervals|, 8);
  }

  /** Where everything is in the binary form: sixteen bytes of the sid, eight of the number of intervals, and for each
      interval eight of its first number and eight of the one behind its last; the lowest byte comes first. */
  lemma EncodedBytes(g: GtidValue, i: nat, k: nat)
    requires HexPairs(Dashless(g.sid)) && |Dashless(g.sid)| == 32 && i < |g.intervals| && k < 8
    ensures var b, sid, t := Encoded(g), Dashless(g.sid), g.intervals[i];
            && |b| == 24 + 16 * |g.intervals|
            && (forall j :: 0 <= j < 16 ==> b[j] as int == 16 * HexValue(sid[2 * j]) + HexValue(sid[2 * j + 1]))
            && b[16 + k] as int == |g.intervals| / Pow256(k) % 256
            && b[24 + 16 * i + k] as int == t.lo / Pow256(k) % 256
            && b[24 + 16 * i + 8 + k] as int == t.hi / Pow256(k) % 256
  {
    var sid, count, pairs := Unhexlify(Dashless(g.sid)), ToLittleEndian(|g.intervals|, 8), PairsBytes(g.intervals);
    forall j | 0 <= j < 16
      ensures sid[j] as int == 16 * HexValue(Dashless(g.sid)[2 * j]) + HexValue(Dashless(g.sid)[2 * j + 1])
    {
      UnhexlifyAt(Dashless(g.sid), j);
    }
    LittleEndianByte(|g.intervals|, 8, k);
    PairByte(g.intervals, i, k);
    ThreePieces(sid, count, pairs, k, 16 * i + k);
    ThreePieces(sid, count, pairs, k, 16 * i + 8 + k);
  }

  lemma ThreePieces(a: Bytes, b: Bytes, c: Bytes, i: nat, j: nat)
    requires i < |b| && j < |c|
    ensures (forall k :: 0 <= k < |a| ==> (a + b + c)[k] == a[k])
    ensures (a + b + c)[|a| + i] == b[i] && (a + b + c)[|a| + |b| + j] == c[j]
  {
  }

  lemma PairByte(s: seq<Interval>, i: nat, k: nat)
    requires i < |s| && k < 8
    ensures PairsBytes(s)[16 * i + k] as int == s[i].lo / Pow256(k) % 256
    ensures PairsBytes(s)[16 * i + 8 + k] as int == s[i].hi / Pow256(k) % 256
  {
    PairAt(s, [], i);
    assert PairsBytes(s) + [] == PairsBytes(s);
    var pair := PairsBytes(s)[16 * i..16 * (i + 1)];
    assert pair[k] == PairsBytes(s)[16 * i + k] && pair[8 + k] == PairsBytes(s)[16 * i + 8 + k];
    LittleEndianByte(s[i].lo, 8, k);
    LittleEndianByte(s[i].hi, 8, k);
  }

  lemma BoundsTextsReadBack(s: seq<Interval>, following: Bytes)
    requires Canonical(s) && Fits(s)
    ensures 16 * |s| <= |PairsBytes(s) + following|
    ensures forall i :: 0 <= i < |s| ==>
              var part := BoundsTexts(PairsBytes(s) + following, |s|)[i];
              ParseInterval(part) == Some(s[i]) && ':' !in part
  {
    BoundsTextsAre(s, following, |s|);
    forall i | 0 <= i < |s|
      ensures var part := BoundsTexts(PairsBytes(s) + following, |s|)[i];
              ParseInterval(part) == Some(s[i]) && ':' !in part
    {
      BoundsReadBack(s[i]);
    }
  }

  lemma {:induction false} HexlifyLower(b: Bytes)
    ensures LowerCase(Hexlify(b))
  {
    if b != [] {
      HexlifyLower(b[1..]);
    }
  }

  lemma SidOfLower(b: Bytes)
    requires |b| == 16
    ensures LowerCase(SidOf(b))
  {
    HexlifyLower(b[..4]);
    HexlifyLower(b[4..6]);
    HexlifyLower(b[6..8]);
    HexlifyLower(b[8..10]);
    HexlifyLower(b[10..]);
  }

  /** Whatever decoding gives has a sid in lower case and an interval at least. */
  lemma DecodedLower(b: Bytes)
    requires Decoded(b).Some?
    ensures LowerCase(Decoded(b).value.0.sid) && LittleEndian(b[16..24]) > 0
  {
    var sid, count := SidOf(b[..16]), LittleEndian(b[16..24]);
    SidOfLower(b[..16]);
    var text := sid + ":" + Join(BoundsTexts(b[24..], count));
    assert text[..36] == sid;
  }

  lemma ReadBackEncoded(g: GtidValue, following: Bytes)
    requires SidShape(g.sid) && Canonical(g.intervals) && Fits(g.intervals) && LowerCase(g.sid) && g.intervals != []
    requires HexPairs(Dashless(g.sid)) && |Dashless(g.sid)| == 32
    ensures Decoded(Encoded(g) + following) == Some((g, EncodedLength(g)))
  {
    EncodedParts(g, following);
    SidReadBack(g.sid);
    BoundsTextsReadBack(g.intervals, following);
    FromParts(g.sid, BoundsTexts(PairsBytes(g.intervals) + following, |g.intervals|), g.intervals);
  }

  /** Decoding what was encoded gives the same value and uses just those bytes if and only if the sid is in lower case
      and there is an interval. */
  lemma BinaryRoundTrip(g: GtidValue, following: Bytes)
    requires SidShape(g.sid) && Canonical(g.intervals) && Fits(g.intervals)
    ensures HexPairs(Dashless(g.sid))
    ensures Decoded(Encoded(g) + following) == Some((g, EncodedLength(g))) <==> LowerCase(g.sid) && g.intervals != []
  {
    DashlessSid(g.sid);
    if LowerCase(g.sid) && g.intervals != [] {
      ReadBackEncoded(g, following);
    } else if Decoded(Encoded(g) + following).Some? {
      EncodedParts(g, following);
      DecodedLower(Encoded(g) + following);
    }
  }
}
