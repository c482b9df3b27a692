/** What the decoder makes of the bit stream inside a symbol, as functions of the bits still to be
    read, and the proof that it inverts the encoder's segments. */
module Payload {
  import opened Segments

  const MAX_PAYLOAD := 8896

  datatype Error = DataOverflow | DataUnderflow

  /** The text of a run of tuples and the bits after it, or a stream that is too short. */
  datatype Piece = Piece(text: string, rest: seq<bool>) | Short

  /** take_bits stops at the end of the stream. */
  function Taken(b: seq<bool>, n: nat): nat {
    if |b| < n then |b| else n
  }

  function Prepend(t: string, p: Piece): Piece {
    if p.Short? then Short else Piece(t + p.text, p.rest)
  }

  // ----- tuples

  /** The last n decimal digits of v. */
  function Digits(v: nat, n: nat): (s: string)
    ensures |s| == n
  {
    if n == 0 then "" else Digits(v / 10, n - 1) + [('0' as int + v % 10) as char]
  }

  function NumericPiece(b: seq<bool>, count: nat): Piece
    decreases count
  {
    if count >= 3 then
      if |b| < 10 then Short else Prepend(Digits(Value(b[..10]), 3), NumericPiece(b[10..], count - 3))
    else if count >= 2 then
      if |b| < 7 then Short else Piece(Digits(Value(b[..7]), 2), b[7..])
    else if count == 1 then
      if |b| < 4 then Short else Piece(Digits(Value(b[..4]), 1), b[4..])
    else Piece("", b)
  }

  /** The last n digits of v in base 45, in the alphanumeric alphabet. */
  function AlphaDigits(v: nat, n: nat): (s: string)
    ensures |s| == n
  {
    if n == 0 then "" else AlphaDigits(v / 45, n - 1) + [AlphaChar(v % 45)]
  }

  function AlphaPiece(b: seq<bool>, count: nat): Piece
    decreases count
  {
    if count >= 2 then
      if |b| < 11 then Short else Prepend(AlphaDigits(Value(b[..11]), 2), AlphaPiece(b[11..], count - 2))
    else if count == 1 then
      if |b| < 6 then Short else Piece(AlphaDigits(Value(b[..6]), 1), b[6..])
    else Piece("", b)
  }

  function ByteText(b: seq<bool>, count: nat): (s: string)
    requires 8 * count <= |b|
    ensures |s| == count
    decreases count
  {
    if count == 0 then ""
    else
      ByteValue(b[..8]);
      [Value(b[..8]) as char] + ByteText(b[8..], count - 1)
  }

  lemma ByteValue(b: seq<bool>)
    requires |b| == 8
    ensures Value(b) < 256
  {
    ValueBound(b);
    SmallPowers();
  }

  /** The Shift-JIS code of a 13-bit Kanji value. */
  function KanjiCode(d: nat): nat {
    var intermediate := (d / 0xc0) * 256 + d % 0xc0;
    if intermediate + 0x8140 <= 0x9ffc then intermediate + 0x8140 else intermediate + 0xc140
  }

  /** How a Shift-JIS code is packed into 13 bits. */
  function KanjiPacked(code: nat): int {
    var i := code - (if code <= 0x9ffc then 0x8140 else 0xc140);
    (i / 256) * 0xc0 + i % 256
  }

  /** Reading a packed code gives it back, for all double-byte codes of the two ranges, whose second byte is
      between 0x40 and 0xfc. */
  lemma KanjiUnpacks(code: nat)
    requires 0x8140 <= code <= 0x9ffc || 0xe040 <= code <= 0xebbf
    requires 0x40 <= code % 256 <= 0xfc
    ensures 0 <= KanjiPacked(code) < 0x2000 && KanjiCode(KanjiPacked(code)) == code
  {
    var i := code - (if code <= 0x9ffc then 0x8140 else 0xc140);
    var q, r := i / 256, i % 256;
    assert i == 256 * q + r && r < 0xc0;
    var d := q * 0xc0 + r;
    assert d / 0xc0 == q && d % 0xc0 == r;
  }

  /** And every 13-bit value is read as a code that is packed into that value. */
  lemma KanjiPacks(d: nat)
    requires d < 0x2000
    ensures KanjiPacked(KanjiCode(d)) == d
  {
    var q, r := d / 0xc0, d % 0xc0;
    assert d == 0xc0 * q + r && q <= 42;
    var i := q * 256 + r;
    assert i / 256 == q && i % 256 == r;
  }

  lemma KanjiRange(b: seq<bool>)
    requires |b| == 13
    ensures KanjiCode(Value(b)) < 65536
  {
    ValueBound(b);
    SmallPowers();
    assert Pow2(13) == 8192 by { assert Pow2(13) == 2 * (2 * Pow2(11)); }
  }

  function KanjiText(b: seq<bool>, count: nat): (s: string)
    requires 13 * count <= |b|
    ensures |s| == 2 * count
    decreases count
  {
    if count == 0 then ""
    else
      KanjiRange(b[..13]);
      var sjw := KanjiCode(Value(b[..13]));
      [(sjw / 256) as char, (sjw % 256) as char] + KanjiText(b[13..], count - 1)
  }

  // ----- segments

  /** What decode_payload has gathered: text, ECI assignment and highest data type. */
  datatype Gathered = Gathered(text: string, eci: nat, dataType: nat)

  datatype Step = Next(state: Gathered, rest: seq<bool>) | Failed(error: Error)

  function NumericCount(version: int): nat {
    if version < 10 then 10 else if version < 27 then 12 else 14
  }

  function AlphaCount(version: int): nat {
    if version < 10 then 9 else if version < 27 then 11 else 13
  }

  function ByteCount(version: int): nat {
    if version < 10 then 8 else 16
  }

  function KanjiCount(version: int): nat {
    if version < 10 then 8 else if version < 27 then 10 else 12
  }

  function WithText(g: Gathered, p: Piece): Step {
    if p.Short? then Failed(DataUnderflow) else Next(g.(text := g.text + p.text), p.rest)
  }

  function NumericStep(b: seq<bool>, version: int, g: Gathered): Step {
    var n := Taken(b, NumericCount(version));
    var count := Value(b[..n]);
    if |g.text| + count + 1 > MAX_PAYLOAD then Failed(DataOverflow)
    else WithText(g, NumericPiece(b[n..], count))
  }

  function AlphaStep(b: seq<bool>, version: int, g: Gathered): Step {
    var n := Taken(b, AlphaCount(version));
    var count := Value(b[..n]);
    if |g.text| + count + 1 > MAX_PAYLOAD then Failed(DataOverflow)
    else WithText(g, AlphaPiece(b[n..], count))
  }

  function ByteStep(b: seq<bool>, version: int, g: Gathered): Step {
    var n := Taken(b, ByteCount(version));
    var count := Value(b[..n]);
    if |g.text| + count + 1 > MAX_PAYLOAD then Failed(DataOverflow)
    else if |b| - n < count * 8 then Failed(DataUnderflow)
    else Next(g.(text := g.text + ByteText(b[n..], count)), b[n + 8 * count..])
  }

  function KanjiStep(b: seq<bool>, version: int, g: Gathered): Step {
    var n := Taken(b, KanjiCount(version));
    var count := Value(b[..n]);
    if |g.text| + count * 2 + 1 > MAX_PAYLOAD then Failed(DataOverflow)
    else if |b| - n < count * 13 then Failed(DataUnderflow)
    else Next(g.(text := g.text + KanjiText(b[n..], count)), b[n + 13 * count..])
  }

  function EciStep(b: seq<bool>, g: Gathered): Step {
    if |b| < 8 then Failed(DataUnderflow)
    else
      var e := Value(b[..8]);
      if 128 <= e < 192 then
        if |b| < 16 then Failed(DataUnderflow) else Next(g.(eci := e * 256 + Value(b[8..16])), b[16..])
      else if 192 <= e < 224 then
        if |b| < 24 then Failed(DataUnderflow) else Next(g.(eci := e * 65536 + Value(b[8..24])), b[24..])
      else Next(g.(eci := e), b[8..])
  }

  predicate IsSegmentType(t: nat) {
    t == 1 || t == 2 || t == 4 || t == 7 || t == 8
  }

  /** One segment, after its mode bits. */
  function SegmentStep(t: nat, b: seq<bool>, version: int, g: Gathered): (s: Step)
    requires IsSegmentType(t)
    ensures s.Next? ==> |s.rest| <= |b|
  {
    if t == 1 then PieceShrinks(b, Value(b[..Taken(b, NumericCount(version))]), NumericCount(version)); NumericStep(b, version, g)
    else if t == 2 then PieceShrinks(b, Value(b[..Taken(b, AlphaCount(version))]), AlphaCount(version)); AlphaStep(b, version, g)
    else if t == 4 then ByteStep(b, version, g)
    else if t == 8 then KanjiStep(b, version, g)
    else EciStep(b, g)
  }

  lemma PieceShrinks(b: seq<bool>, count: nat, bits: nat)
    ensures var r := b[Taken(b, bits)..];
      && (NumericPiece(r, count).Piece? ==> |NumericPiece(r, count).rest| <= |b|)
      && (AlphaPiece(r, count).Piece? ==> |AlphaPiece(r, count).rest| <= |b|)
  {
    NumericShrinks(b[Taken(b, bits)..], count);
    AlphaShrinks(b[Taken(b, bits)..], count);
  }

  lemma {:induction false} NumericShrinks(b: seq<bool>, count: nat)
    ensures NumericPiece(b, count).Piece? ==>
      |NumericPiece(b, count).rest| <= |b| && |NumericPiece(b, count).text| == count
    decreases count
  {
    if count >= 3 && |b| >= 10 {
      NumericShrinks(b[10..], count - 3);
    }
  }

  lemma {:induction false} AlphaShrinks(b: seq<bool>, count: nat)
    ensures AlphaPiece(b, count).Piece? ==>
      |AlphaPiece(b, count).rest| <= |b| && |AlphaPiece(b, count).text| == count
    decreases count
  {
    if count >= 2 && |b| >= 11 {
      AlphaShrinks(b[11..], count - 2);
    }
  }

  /** decode_payload: segments until fewer than four bits are left or a mode is unknown. */
  function Decode(b: seq<bool>, version: int, g: Gathered): Step
    decreases |b|
  {
    if |b| < 4 then Next(g, b)
    else
      var t := Value(b[..4]);
      if !IsSegmentType(t) then Next(g, b[4..])
      else
        var s := SegmentStep(t, b[4..], version, g);
        if s.Failed? then s
        else Decode(s.rest, version, s.state.(dataType := if t != 7 && t > g.dataType then t else g.dataType))
  }

  // ----- the encoder's groups read back

  lemma {:induction false} DigitsOfDecimal(s: string)
    requires AllDigits(s)
    ensures Digits(Decimal(s), |s|) == s
  {
    if s != [] {
      var t, c := s[..|s| - 1], s[|s| - 1];
      DigitsOfDecimal(t);
      assert Decimal(s) / 10 == Decimal(t) && Decimal(s) % 10 == DigitValue(c);
      assert s == t + [c];
    }
  }

  lemma {:induction false} NumericRoundTrip(s: string, rest: seq<bool>)
    requires AllDigits(s)
    ensures NumericPiece(NumericBits(s) + rest, |s|) == Piece(s, rest)
  {
    hide Bits, Value, Pow2, Digits, Decimal;
    SmallPowers();
    if |s| >= 3 {
      var b := NumericBits(s) + rest;
      NumericRoundTrip(s[3..], rest);
      DecimalBound(s[..3]);
      ValueOfBits(Decimal(s[..3]), 10);
      DigitsOfDecimal(s[..3]);
      assert b[..10] == Bits(Decimal(s[..3]), 10) && b[10..] == NumericBits(s[3..]) + rest;
      assert s == s[..3] + s[3..];
    } else if s != [] {
      var b := NumericBits(s) + rest;
      DecimalBound(s);
      ValueOfBits(Decimal(s), 3 * |s| + 1);
      DigitsOfDecimal(s);
      assert b[..3 * |s| + 1] == NumericBits(s) && b[3 * |s| + 1..] == rest;
    } else {
      assert [] + rest == rest;
    }
  }

  lemma AlphaPair(a: char, b: char)
    requires AlphaIndex(a) >= 0 && AlphaIndex(b) >= 0
    ensures AlphaIndex(a) * 45 + AlphaIndex(b) < 2025
    ensures AlphaDigits(AlphaIndex(a) * 45 + AlphaIndex(b), 2) == [a, b]
    ensures AlphaIndex(a) < 45 && AlphaDigits(AlphaIndex(a), 1) == [a]
  {
    hide AlphaIndex, AlphaChar;
    AlphaRoundTrip(a);
    AlphaRoundTrip(b);
    var v := AlphaIndex(a) * 45 + AlphaIndex(b);
    assert v / 45 == AlphaIndex(a) && v % 45 == AlphaIndex(b);
    assert AlphaDigits(v, 2) == AlphaDigits(AlphaIndex(a), 1) + [b];
    assert AlphaDigits(AlphaIndex(a), 1) == AlphaDigits(AlphaIndex(a) / 45, 0) + [a];
  }

  lemma {:induction false} AlphaTextRoundTrip(s: string, rest: seq<bool>)
    requires AllAlpha(s)
    ensures AlphaPiece(AlphaBits(s) + rest, |s|) == Piece(s, rest)
  {
    hide Bits, Value, Pow2, AlphaDigits, AlphaIndex;
    SmallPowers();
    if |s| >= 2 {
      var b := AlphaBits(s) + rest;
      AlphaTextRoundTrip(s[2..], rest);
      AlphaPair(s[0], s[1]);
      ValueOfBits(AlphaIndex(s[0]) * 45 + AlphaIndex(s[1]), 11);
      assert b[..11] == Bits(AlphaIndex(s[0]) * 45 + AlphaIndex(s[1]), 11) && b[11..] == AlphaBits(s[2..]) + rest;
      assert s == [s[0], s[1]] + s[2..];
    } else if s != [] {
      var b := AlphaBits(s) + rest;
      AlphaPair(s[0], s[0]);
      ValueOfBits(AlphaIndex(s[0]), 6);
      assert b[..6] == AlphaBits(s) && b[6..] == rest;
    } else {
      assert [] + rest == rest;
    }
  }

  lemma {:induction false} ByteRoundTrip(s: string, rest: seq<bool>)
    requires AllBytes(s)
    ensures |ByteBits(s)| == 8 * |s| && ByteText(ByteBits(s) + rest, |s|) == s
  {
    hide Bits, Value, Pow2;
    SmallPowers();
    if s != [] {
      var b := ByteBits(s) + rest;
      ByteRoundTrip(s[1..], rest);
      ValueOfBits(s[0] as int, 8);
      assert b[..8] == Bits(s[0] as int, 8) && b[8..] == ByteBits(s[1..]) + rest;
      assert s == [s[0]] + s[1..];
    }
  }

  // ----- whole segments

  /** What a segment can be made of. */
  datatype Content = NumericText(text: string) | AlphaText(text: string) | ByteString(text: string) | EciValue(v: nat)

  predicate ValidContent(c: Content) {
    match c
    case NumericText(t) => AllDigits(t)
    case AlphaText(t) => AllAlpha(t)
    case ByteString(t) => AllBytes(t)
    case EciValue(v) => v < 1000000
  }

  /** The segment that makeNumeric, makeAlphanumeric, makeBytes or makeEci builds. */
  function SegmentFor(c: Content): Segment
    requires ValidContent(c)
  {
    match c
    case NumericText(t) => Segment(Numeric, |t|, NumericBits(t))
    case AlphaText(t) => Segment(Alphanumeric, |t|, AlphaBits(t))
    case ByteString(t) => Segment(Byte, |t|, ByteBits(t))
    case EciValue(v) => Segment(Eci, 0, EciBits(v))
  }

  function TextOf(c: Content): string {
    if c.EciValue? then "" else c.text
  }

  /** The bits of one segment: mode, count and data. */
  function SegmentBits(seg: Segment, version: int): seq<bool> {
    Bits(ModeBits(seg.mode), 4) + Bits(seg.numChars, CountBits(seg.mode, version)) + seg.data
  }

  function AllBits(segs: seq<Segment>, version: int): seq<bool> {
    if segs == [] then [] else SegmentBits(segs[0], version) + AllBits(segs[1..], version)
  }

  function SegmentsFor(cs: seq<Content>): (segs: seq<Segment>)
    requires forall i :: 0 <= i < |cs| ==> ValidContent(cs[i])
    ensures |segs| == |cs|
  {
    if cs == [] then [] else [SegmentFor(cs[0])] + SegmentsFor(cs[1..])
  }

  function AllText(cs: seq<Content>): string {
    if cs == [] then "" else TextOf(cs[0]) + AllText(cs[1..])
  }

  /** The ECI value that the decoder reports: the prefix bits of the longer forms stay in. */
  function EciReported(v: nat): nat {
    if v < 128 then v else if v < 16384 then 0x8000 + v else 0xc00000 + v
  }

  lemma CountFieldsAgree(version: int)
    requires 1 <= version <= 40
    ensures CountBits(Numeric, version) == NumericCount(version)
    ensures CountBits(Alphanumeric, version) == AlphaCount(version)
    ensures CountBits(Byte, version) == ByteCount(version)
  {}

  /** The count field reads back, and the data follows it. */
  lemma CountField(n: nat, width: nat, rest: seq<bool>)
    requires n < Pow2(width)
    ensures var b := Bits(n, width) + rest;
      Taken(b, width) == width && Value(b[..width]) == n && b[width..] == rest
  {
    ValueOfBits(n, width);
    var b := Bits(n, width) + rest;
    assert b[..width] == Bits(n, width);
  }

  lemma {:induction false} ValueConcat(a: seq<bool>, b: seq<bool>)
    ensures Value(a + b) == Value(a) * Pow2(|b|) + Value(b)
    decreases |b|
  {
    if b == [] {
      assert a + b == a;
    } else {
      var b' := b[..|b| - 1];
      ValueConcat(a, b');
      assert (a + b)[..|a + b| - 1] == a + b';
      assert Value(a) * Pow2(|b|) == 2 * (Value(a) * Pow2(|b'|));
    }
  }

  /** The longer ECI forms, taken apart at the first byte. */
  lemma EciBytes(v: nat)
    requires v < 1000000
    ensures var b := EciBits(v);
      && (v < 128 ==> |b| == 8 && Value(b) == v)
      && (128 <= v < 16384 ==> |b| == 16 && 128 <= Value(b[..8]) < 192 && Value(b[..8]) * 256 + Value(b[8..16]) == 0x8000 + v)
      && (16384 <= v ==> |b| == 24 && 192 <= Value(b[..8]) < 224 && Value(b[..8]) * 65536 + Value(b[8..24]) == 0xc00000 + v)
  {
    hide Pow2;
    var b := EciBits(v);
    SmallPowers();
    if v < 128 {
      ValueOfBits(v, 8);
    } else if v < 16384 {
      EciForm(b, Bits(2, 2), Bits(v, 14), 2, v);
    } else {
      EciForm(b, Bits(6, 3), Bits(v, 21), 6, v);
    }
  }

  lemma EciForm(b: seq<bool>, prefix: seq<bool>, low: seq<bool>, p: nat, v: nat)
    requires b == prefix + low && p < Pow2(|prefix|) && v < Pow2(|low|)
    requires prefix == Bits(p, |prefix|) && low == Bits(v, |low|)
    requires (|b| == 16 && |prefix| == 2 && p == 2) || (|b| == 24 && |prefix| == 3 && p == 6)
    ensures |b| == 16 ==> 128 <= Value(b[..8]) < 192 && Value(b[..8]) * 256 + Value(b[8..16]) == 0x8000 + v
    ensures |b| == 24 ==> 192 <= Value(b[..8]) < 224 && Value(b[..8]) * 65536 + Value(b[8..24]) == 0xc00000 + v
  {
    hide Bits, Pow2;
    SmallPowers();
    PowersMore();
    ValueOfBits(p, |prefix|);
    ValueOfBits(v, |low|);
    ValueConcat(prefix, low);
    var head, tail := b[..8], b[8..];
    assert b == head + tail;
    ValueConcat(head, tail);
    var low' := low[..8 - |prefix|];
    assert head == prefix + low';
    ValueConcat(prefix, low');
    ValueBound(low');
    ValueBound(tail);
    assert b[8..|b|] == tail;
  }

  lemma PowersMore()
    ensures Pow2(5) == 32 && Pow2(16) == 65536
  {
    assert Pow2(8) == 256;
    assert Pow2(12) == 4096;
  }

  /** What the decoder has gathered after reading the segment of c. */
  function After(g: Gathered, c: Content): Gathered {
    match c
    case EciValue(v) => g.(eci := EciReported(v))
    case _ =>
      var t := if c.NumericText? then 1 else if c.AlphaText? then 2 else 4;
      Gathered(g.text + c.text, g.eci, if t > g.dataType then t else g.dataType)
  }

  function AfterAll(g: Gathered, cs: seq<Content>): Gathered
    decreases |cs|
  {
    if cs == [] then g else AfterAll(After(g, cs[0]), cs[1..])
  }

  lemma EciRoundTrip(v: nat, rest: seq<bool>, g: Gathered)
    requires v < 1000000
    ensures EciStep(EciBits(v) + rest, g) == Next(g.(eci := EciReported(v)), rest)
  {
    hide Value, Bits;
    EciBytes(v);
    var e := EciBits(v);
    var b := e + rest;
    assert b[..8] == e[..8];
    if |e| == 8 {
      assert e[..8] == e && b[8..] == rest;
    } else if |e| == 16 {
      assert b[8..16] == e[8..16] && b[16..] == rest;
    } else {
      assert b[8..24] == e[8..24] && b[24..] == rest;
    }
  }

  /** One segment is read back: its text is appended, its ECI value is reported. */
  lemma SegmentRoundTrip(c: Content, version: int, rest: seq<bool>, g: Gathered)
    requires 1 <= version <= 40 && ValidContent(c)
    requires SegmentFor(c).numChars < Pow2(CountBits(SegmentFor(c).mode, version))
    requires |g.text| + |TextOf(c)| + 1 <= MAX_PAYLOAD
    ensures var seg := SegmentFor(c);
      var s := SegmentStep(ModeBits(seg.mode), Bits(seg.numChars, CountBits(seg.mode, version)) + (seg.data + rest), version, g);
      s.Next? && s.rest == rest && s.state.text == g.text + TextOf(c) && s.state.dataType == g.dataType
      && s.state.eci == if c.EciValue? then EciReported(c.v) else g.eci
  {
    hide Bits, Value, Pow2, NumericPiece, AlphaPiece, ByteText, NumericBits, AlphaBits, ByteBits, EciStep;
    var seg := SegmentFor(c);
    CountFieldsAgree(version);
    CountField(seg.numChars, CountBits(seg.mode, version), seg.data + rest);
    match c
    case NumericText(t) => NumericRoundTrip(t, rest);
    case AlphaText(t) => AlphaTextRoundTrip(t, rest);
    case ByteString(t) =>
      ByteRoundTrip(t, rest);
      var n := ByteCount(version);
      var b := Bits(seg.numChars, n) + (seg.data + rest);
      assert b[n + 8 * |t|..] == b[n..][8 * |t|..] == (seg.data + rest)[8 * |t|..] == rest;
    case EciValue(v) =>
      EciRoundTrip(v, rest, g);
      assert Bits(0, 0) + (seg.data + rest) == seg.data + rest;
      assert g.text + "" == g.text;
  }

  /** Every character costs at least ten thirds of a bit. */
  lemma {:induction false} TextFits(c: Content)
    requires ValidContent(c)
    ensures 10 * |TextOf(c)| <= 3 * |SegmentFor(c).data|
  {
    match c
    case NumericText(t) => NumericFits(t);
    case AlphaText(t) => AlphaFits(t);
    case ByteString(t) => ByteRoundTrip(t, []);
    case EciValue(v) =>
  }

  lemma {:induction false} NumericFits(t: string)
    requires AllDigits(t)
    ensures 10 * |t| <= 3 * |NumericBits(t)|
  {
    if |t| >= 3 {
      NumericFits(t[3..]);
    }
  }

  lemma {:induction false} AlphaFits(t: string)
    requires AllAlpha(t)
    ensures 10 * |t| <= 3 * |AlphaBits(t)|
  {
    if |t| >= 2 {
      AlphaFits(t[2..]);
    }
  }

  /** Nothing more to read: too few bits for a mode, or the terminator. */
  predicate EndsPayload(tail: seq<bool>) {
    |tail| < 4 || Value(tail[..4]) == 0
  }

  /** Reading one whole segment leaves the decoder before the next one. */
  lemma DecodeFirst(c: Content, version: int, rest: seq<bool>, g: Gathered)
    requires 1 <= version <= 40 && ValidContent(c)
    requires SegmentFor(c).numChars < Pow2(CountBits(SegmentFor(c).mode, version))
    requires |g.text| + |TextOf(c)| + 1 <= MAX_PAYLOAD
    ensures Decode(SegmentBits(SegmentFor(c), version) + rest, version, g) == Decode(rest, version, After(g, c))
  {
    hide Bits, Value, Pow2, SegmentStep, SegmentFor, CountBits;
    var seg := SegmentFor(c);
    var body := Bits(seg.numChars, CountBits(seg.mode, version)) + (seg.data + rest);
    var b := SegmentBits(seg, version) + rest;
    assert b == Bits(ModeBits(seg.mode), 4) + body;
    assert b[..4] == Bits(ModeBits(seg.mode), 4) && b[4..] == body;
    ModeField(c);
    SegmentRoundTrip(c, version, rest, g);
    assert g.text + "" == g.text;
  }

  /** The bits of any list of segments whose counts fit their fields, followed by a terminator or by
      fewer than four bits, decode to exactly the text they were made of, in order, and to the ECI
      value as the decoder reports it. */
  lemma {:induction false} PayloadRoundTrip(cs: seq<Content>, version: int, tail: seq<bool>, g: Gathered)
    requires 1 <= version <= 40 && EndsPayload(tail)
    requires forall i :: 0 <= i < |cs| ==> ValidContent(cs[i])
    requires forall i :: 0 <= i < |cs| ==>
      SegmentFor(cs[i]).numChars < Pow2(CountBits(SegmentFor(cs[i]).mode, version))
    requires 10 * |g.text| + 3 * |AllBits(SegmentsFor(cs), version)| <= 10 * (MAX_PAYLOAD - 1)
    ensures var d := Decode(AllBits(SegmentsFor(cs), version) + tail, version, g);
      d.Next? && d.state == AfterAll(g, cs)
    decreases |cs|
  {
    hide Pow2, SegmentFor, CountBits, SegmentBits, Bits;
    if cs == [] {
      assert [] + tail == tail;
      Finished(tail, version, g);
    } else {
      hide Decode;
      var c, seg := cs[0], SegmentFor(cs[0]);
      var more := AllBits(SegmentsFor(cs[1..]), version);
      assert SegmentsFor(cs)[1..] == SegmentsFor(cs[1..]);
      assert AllBits(SegmentsFor(cs), version) + tail == SegmentBits(seg, version) + (more + tail);
      TextFits(c);
      assert |seg.data| <= |SegmentBits(seg, version)| by { SegmentLength(seg, version); }
      DecodeFirst(c, version, more + tail, g);
      PayloadRoundTrip(cs[1..], version, tail, After(g, c));
    }
  }

  lemma SegmentLength(seg: Segment, version: int)
    ensures |SegmentBits(seg, version)| == 4 + CountBits(seg.mode, version) + |seg.data|
  {}

  lemma Finished(tail: seq<bool>, version: int, g: Gathered)
    requires EndsPayload(tail)
    ensures Decode(tail, version, g).Next? && Decode(tail, version, g).state == g
  {}

  lemma ModeField(c: Content)
    requires ValidContent(c)
    ensures var t := ModeBits(SegmentFor(c).mode);
      IsSegmentType(t) && Value(Bits(t, 4)) == t && t == (match c case NumericText(_) => 1 case AlphaText(_) => 2 case ByteString(_) => 4 case EciValue(_) => 7)
  {
    SmallPowers();
    ValueOfBits(ModeBits(SegmentFor(c).mode), 4);
  }

  /** The text that comes back is the concatenation of the segments' texts. */
  lemma {:induction false} AfterAllText(g: Gathered, cs: seq<Content>)
    ensures AfterAll(g, cs).text == g.text + AllText(cs)
    decreases |cs|
  {
    if cs == [] {
      assert g.text + "" == g.text;
    } else {
      AfterAllText(After(g, cs[0]), cs[1..]);
      assert g.text + "" == g.text;
      assert g.text + TextOf(cs[0]) + AllText(cs[1..]) == g.text + (TextOf(cs[0]) + AllText(cs[1..]));
    }
  }

  /** An ECI assignment survives the round trip exactly when it fits the one-byte form. */
  lemma EciExactly(v: nat)
    requires v < 1000000
    ensures EciReported(v) == v <==> v < 128
  {}

  // ----- how reading a segment can fail

  /** The bits of so many digits: ten for three, seven for two left over, four for one. */
  function NumericLength(count: nat): nat {
    10 * (count / 3) + if count % 3 == 2 then 7 else if count % 3 == 1 then 4 else 0
  }

  function AlphaLength(count: nat): nat {
    11 * (count / 2) + if count % 2 == 1 then 6 else 0
  }

  lemma {:induction false} NumericRest(b: seq<bool>, count: nat)
    ensures NumericPiece(b, count).Short? <==> |b| < NumericLength(count)
    ensures |b| >= NumericLength(count) ==> NumericPiece(b, count).rest == b[NumericLength(count)..]
    decreases count
  {
    hide Digits, Value;
    if count >= 3 {
      assert NumericLength(count) == 10 + NumericLength(count - 3);
      if |b| >= 10 {
        NumericRest(b[10..], count - 3);
        if |b| >= NumericLength(count) { assert b[10..][NumericLength(count - 3)..] == b[NumericLength(count)..]; }
      }
    }
  }

  lemma {:induction false} AlphaRest(b: seq<bool>, count: nat)
    ensures AlphaPiece(b, count).Short? <==> |b| < AlphaLength(count)
    ensures |b| >= AlphaLength(count) ==> AlphaPiece(b, count).rest == b[AlphaLength(count)..]
    decreases count
  {
    hide AlphaDigits, Value;
    if count >= 2 {
      assert AlphaLength(count) == 11 + AlphaLength(count - 2);
      if |b| >= 11 {
        AlphaRest(b[11..], count - 2);
        if |b| >= AlphaLength(count) { assert b[11..][AlphaLength(count - 2)..] == b[AlphaLength(count)..]; }
      }
    }
  }

  /** The width of the count field of a segment that has text. */
  function FieldWidth(t: nat, version: int): nat {
    match t
    case 1 => if version < 10 then 10 else if version < 27 then 12 else 14
    case 2 => if version < 10 then 9 else if version < 27 then 11 else 13
    case 4 => if version < 10 then 8 else 16
    case _ => if version < 10 then 8 else if version < 27 then 10 else 12
  }

  function LengthOf(t: nat, count: nat): nat {
    match t
    case 1 => NumericLength(count)
    case 2 => AlphaLength(count)
    case 4 => 8 * count
    case _ => 13 * count
  }

  /** A segment with text overflows exactly if its text and a final zero do not fit the buffer; otherwise it
      underflows exactly if the stream is too short for its characters, and leaves what is behind them. */
  ghost predicate StepsAs(s: Step, t: nat, count: nat, rest: seq<bool>, g: Gathered) {
    var chars := if t == 8 then 2 * count else count;
    && (s == Failed(DataOverflow) <==> |g.text| + chars + 1 > MAX_PAYLOAD)
    && (s == Failed(DataUnderflow) <==> |g.text| + chars + 1 <= MAX_PAYLOAD && |rest| < LengthOf(t, count))
    && (s.Next? ==> |rest| >= LengthOf(t, count) && s.rest == rest[LengthOf(t, count)..])
    && (s.Next? ==> |s.state.text| == |g.text| + chars && g.text <= s.state.text)
  }

  /** The text of a piece is appended. */
  lemma PieceOutcome(g: Gathered, p: Piece, t: nat, count: nat, rest: seq<bool>)
    requires t in {1, 2} && |g.text| + count + 1 <= MAX_PAYLOAD
    requires p.Short? <==> |rest| < LengthOf(t, count)
    requires p.Piece? ==> p.rest == rest[LengthOf(t, count)..] && |p.text| == count
    ensures StepsAs(WithText(g, p), t, count, rest, g)
  {
    hide LengthOf;
  }

  lemma OverflowOutcome(g: Gathered, t: nat, count: nat, rest: seq<bool>)
    requires t in {1, 2} && |g.text| + count + 1 > MAX_PAYLOAD
    ensures StepsAs(Failed(DataOverflow), t, count, rest, g)
  {
    hide LengthOf;
  }

  lemma NumericOutcome(b: seq<bool>, version: int, g: Gathered)
    ensures var n := Taken(b, FieldWidth(1, version)); StepsAs(NumericStep(b, version, g), 1, Value(b[..n]), b[n..], g)
  {
    hide Value, NumericPiece, NumericLength, StepsAs, WithText;
    var n := Taken(b, FieldWidth(1, version));
    var count, rest := Value(b[..n]), b[n..];
    if |g.text| + count + 1 > MAX_PAYLOAD {
      OverflowOutcome(g, 1, count, rest);
    } else {
      NumericRest(rest, count);
      NumericShrinks(rest, count);
      PieceOutcome(g, NumericPiece(rest, count), 1, count, rest);
    }
  }

  lemma AlphaOutcome(b: seq<bool>, version: int, g: Gathered)
    ensures var n := Taken(b, FieldWidth(2, version)); StepsAs(AlphaStep(b, version, g), 2, Value(b[..n]), b[n..], g)
  {
    hide Value, AlphaPiece, AlphaLength, StepsAs, WithText;
    var n := Taken(b, FieldWidth(2, version));
    var count, rest := Value(b[..n]), b[n..];
    if |g.text| + count + 1 > MAX_PAYLOAD {
      OverflowOutcome(g, 2, count, rest);
    } else {
      AlphaRest(rest, count);
      AlphaShrinks(rest, count);
      PieceOutcome(g, AlphaPiece(rest, count), 2, count, rest);
    }
  }

  lemma DropTwice(b: seq<bool>, n: nat, m: nat)
    ensures n + m <= |b| ==> b[n..][m..] == b[n + m..]
  {}

  lemma ByteOutcome(b: seq<bool>, version: int, g: Gathered)
    ensures var n := Taken(b, FieldWidth(4, version)); StepsAs(ByteStep(b, version, g), 4, Value(b[..n]), b[n..], g)
  {
    hide Value, ByteText;
    var n := Taken(b, FieldWidth(4, version));
    DropTwice(b, n, 8 * Value(b[..n]));
  }

  lemma KanjiOutcome(b: seq<bool>, version: int, g: Gathered)
    ensures var n := Taken(b, FieldWidth(8, version)); StepsAs(KanjiStep(b, version, g), 8, Value(b[..n]), b[n..], g)
  {
    hide Value, KanjiText;
    var n := Taken(b, FieldWidth(8, version));
    DropTwice(b, n, 13 * Value(b[..n]));
  }

  lemma StepOutcome(t: nat, b: seq<bool>, version: int, g: Gathered)
    requires t in {1, 2, 4, 8}
    ensures var n := if |b| < FieldWidth(t, version) then |b| else FieldWidth(t, version);
      StepsAs(SegmentStep(t, b, version, g), t, Value(b[..n]), b[n..], g)
  {
    hide Value, StepsAs, NumericStep, AlphaStep, ByteStep, KanjiStep, FieldWidth;
    NumericOutcome(b, version, g);
    AlphaOutcome(b, version, g);
    ByteOutcome(b, version, g);
    KanjiOutcome(b, version, g);
  }

  /** An ECI segment underflows exactly if its one, two or three bytes are not there. */
  lemma EciOutcome(b: seq<bool>, g: Gathered)
    ensures var s := EciStep(b, g);
      && s != Failed(DataOverflow)
      && (s == Failed(DataUnderflow) <==>
          |b| < 8 || (b[0] && !b[1] && |b| < 16) || (b[0] && b[1] && !b[2] && |b| < 24))
      && (s.Next? ==> s.state.text == g.text)
  {
    if |b| >= 8 {
      FirstBits(b[..8]);
    }
    hide Value;
  }

  lemma FirstBits(b: seq<bool>)
    requires |b| == 8
    ensures 128 <= Value(b) < 192 <==> b[0] && !b[1]
    ensures 192 <= Value(b) < 224 <==> b[0] && b[1] && !b[2]
  {
    hide Value, Pow2;
    SmallPowers();
    PowersMore();
    var tail := b[3..];
    assert b == b[..3] + tail;
    ValueConcat(b[..3], tail);
    ValueBound(tail);
    ThreeBits(b[..3]);
  }

  lemma ThreeBits(b: seq<bool>)
    requires |b| == 3
    ensures Value(b) == (if b[0] then 4 else 0) + (if b[1] then 2 else 0) + (if b[2] then 1 else 0)
  {
    assert b[..2][..1] == b[..1] && b[..1][..0] == [];
    assert Value(b[..1]) == if b[0] then 1 else 0;
    assert Value(b[..2]) == 2 * Value(b[..1]) + if b[1] then 1 else 0;
  }

  // ----- the data type and the ECI value gathered

  function TypeOf(c: Content): nat {
    match c
    case NumericText(_) => 1
    case AlphaText(_) => 2
    case ByteString(_) => 4
    case EciValue(_) => 0
  }

  /** The data type gathered is the highest one of the segments. */
  lemma {:induction false} AfterAllType(g: Gathered, cs: seq<Content>)
    ensures var t := AfterAll(g, cs).dataType;
      && t >= g.dataType && (forall i :: 0 <= i < |cs| ==> TypeOf(cs[i]) <= t)
      && (t == g.dataType || exists i :: 0 <= i < |cs| && TypeOf(cs[i]) == t)
    decreases |cs|
  {
    if cs != [] {
      var g', more := After(g, cs[0]), cs[1..];
      AfterAllType(g', more);
      var t := AfterAll(g, cs).dataType;
      if t != g'.dataType {
        var i :| 0 <= i < |more| && TypeOf(more[i]) == t;
        assert cs[i + 1] == more[i];
      } else if t != g.dataType {
        assert TypeOf(cs[0]) == t;
      }
      forall i | 0 <= i < |cs| ensures TypeOf(cs[i]) <= t {
        if i > 0 { assert cs[i] == more[i - 1]; }
      }
    }
  }

  /** The ECI value gathered is the last segment's. */
  lemma {:induction false} AfterAllEci(g: Gathered, cs: seq<Content>, k: nat)
    requires k <= |cs| && forall i :: k <= i < |cs| ==> !cs[i].EciValue?
    requires k > 0 ==> cs[k - 1].EciValue?
    ensures AfterAll(g, cs).eci == if k > 0 then EciReported(cs[k - 1].v) else g.eci
    decreases |cs|
  {
    hide EciReported;
    if cs != [] {
      AfterAllEci(After(g, cs[0]), cs[1..], if k > 0 then k - 1 else 0);
    }
  }
}
