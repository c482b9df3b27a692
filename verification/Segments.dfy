/** The bit stream inside a QR symbol: segments of text, as 3rdparty/qrcodegen.cpp encodes them. */
module Segments {

  // ----- numbers as bits, most significant first

  function Pow2(n: nat): (p: nat)
    ensures p > 0
  {
    if n == 0 then 1 else 2 * Pow2(n - 1)
  }

  /** v shifted right by n places. */
  function Shr(v: nat, n: nat): nat {
    if n == 0 then v else Shr(v, n - 1) / 2
  }

  /** The low len bits of v. */
  function Bits(v: nat, len: nat): (b: seq<bool>)
    ensures |b| == len
  {
    if len == 0 then [] else Bits(v / 2, len - 1) + [v % 2 == 1]
  }

  function Value(b: seq<bool>): nat {
    if b == [] then 0 else 2 * Value(b[..|b| - 1]) + if b[|b| - 1] then 1 else 0
  }

  lemma {:induction false} ValueOfBits(v: nat, len: nat)
    requires v < Pow2(len)
    ensures Value(Bits(v, len)) == v
  {
    if len > 0 {
      ValueOfBits(v / 2, len - 1);
      assert Bits(v, len)[..len - 1] == Bits(v / 2, len - 1);
    }
  }

  lemma {:induction false} ValueBound(b: seq<bool>)
    ensures Value(b) < Pow2(|b|)
  {
    if b != [] {
      ValueBound(b[..|b| - 1]);
    }
  }

  lemma ValueAppend(b: seq<bool>, v: bool)
    ensures Value(b + [v]) == 2 * Value(b) + if v then 1 else 0
  {
    assert (b + [v])[..|b|] == b;
  }

  lemma SmallPowers()
    ensures Pow2(4) == 16 && Pow2(6) == 64 && Pow2(7) == 128 && Pow2(8) == 256 && Pow2(10) == 1024 && Pow2(11) == 2048
    ensures Pow2(2) == 4 && Pow2(3) == 8 && Pow2(14) == 16384 && Pow2(21) == 2097152
  {
    assert Pow2(4) == 16;
    assert Pow2(8) == 256;
    assert Pow2(12) == 4096;
    assert Pow2(16) == 65536;
    assert Pow2(20) == 1048576;
  }

  // ----- BitBuffer

  lemma {:induction false} ShrHalf(v: nat, n: nat)
    requires n > 0
    ensures Shr(v, n) == Shr(v / 2, n - 1)
  {
    if n > 1 {
      ShrHalf(v, n - 1);
    }
  }

  lemma {:induction false} FitsIffShr(v: nat, n: nat)
    ensures Shr(v, n) == 0 <==> v < Pow2(n)
  {
    if n > 0 {
      ShrHalf(v, n);
      FitsIffShr(v / 2, n - 1);
    }
  }

  /** BitBuffer::appendBits: refuses values that do not fit in len bits. */
  method AppendBits(bb: seq<bool>, val: nat, len: int) returns (ok: bool, r: seq<bool>)
    ensures ok <==> 0 <= len <= 31 && val < Pow2(len)
    ensures r == if ok then bb + Bits(val, len) else bb
  {
    r := bb;
    if len < 0 || len > 31 {
      return false, bb;
    }
    FitsIffShr(val, len);
    if Shr(val, len) != 0 {
      return false, bb;
    }
    var i := len - 1;
    while i >= 0
      invariant -1 <= i < len
      invariant r == bb + Bits(Shr(val, i + 1), len - 1 - i)
    {
      assert Shr(val, i + 1) == Shr(val, i) / 2;
      r := r + [Shr(val, i) % 2 == 1];
      i := i - 1;
    }
    ok := true;
  }

  // ----- text as bits

  predicate IsDigit(c: char) {
    '0' <= c <= '9'
  }

  predicate AllDigits(s: string) {
    forall i :: 0 <= i < |s| ==> IsDigit(s[i])
  }

  function DigitValue(c: char): nat
    requires IsDigit(c)
  {
    c as int - '0' as int
  }

  /** The value of a string of digits. */
  function Decimal(s: string): nat
    requires AllDigits(s)
  {
    if s == [] then 0 else 10 * Decimal(s[..|s| - 1]) + DigitValue(s[|s| - 1])
  }

  /** Digits in groups of three, two or one, in 10, 7 or 4 bits. */
  function NumericBits(s: string): seq<bool>
    requires AllDigits(s)
  {
    if s == [] then []
    else if |s| < 3 then Bits(Decimal(s), 3 * |s| + 1)
    else Bits(Decimal(s[..3]), 10) + NumericBits(s[3..])
  }

  /** The index of a character in "0123456789ABCDEFGHIJKLMNOPQRSTUVWXYZ $%*+-./:", or -1. */
  function AlphaIndex(c: char): int {
    if '0' <= c <= '9' then c as int - '0' as int
    else if 'A' <= c <= 'Z' then c as int - 'A' as int + 10
    else if c == ' ' then 36
    else if c == '$' then 37
    else if c == '%' then 38
    else if c == '*' then 39
    else if c == '+' then 40
    else if c == '-' then 41
    else if c == '.' then 42
    else if c == '/' then 43
    else if c == ':' then 44
    else -1
  }

  /** The character at an index of the same alphabet. */
  function AlphaChar(i: int): (c: char)
    requires 0 <= i < 45
    ensures AlphaIndex(c) == i
  {
    if i < 10 then ('0' as int + i) as char
    else if i < 36 then ('A' as int + (i - 10)) as char
    else if i == 36 then ' '
    else if i == 37 then '$'
    else if i == 38 then '%'
    else if i == 39 then '*'
    else if i == 40 then '+'
    else if i == 41 then '-'
    else if i == 42 then '.'
    else if i == 43 then '/'
    else ':'
  }

  lemma AlphaRoundTrip(c: char)
    requires AlphaIndex(c) >= 0
    ensures AlphaIndex(c) < 45 && AlphaChar(AlphaIndex(c)) == c
  {}

  predicate AllAlpha(s: string) {
    forall i :: 0 <= i < |s| ==> AlphaIndex(s[i]) >= 0
  }

  /** Characters in pairs of 11 bits; a last single one in 6. */
  function AlphaBits(s: string): seq<bool>
    requires AllAlpha(s)
  {
    if s == [] then []
    else if |s| == 1 then Bits(AlphaIndex(s[0]), 6)
    else Bits(AlphaIndex(s[0]) * 45 + AlphaIndex(s[1]), 11) + AlphaBits(s[2..])
  }

  predicate AllBytes(s: string) {
    forall i :: 0 <= i < |s| ==> s[i] as int < 256
  }

  function ByteBits(s: string): seq<bool> {
    if s == [] then [] else Bits(s[0] as int, 8) + ByteBits(s[1..])
  }

  // ----- segments

  datatype Mode = Numeric | Alphanumeric | Byte | Eci

  function ModeBits(m: Mode): nat {
    match m
    case Numeric => 1
    case Alphanumeric => 2
    case Byte => 4
    case Eci => 7
  }

  /** numCharCountBits: the width of the count field, by version range. */
  function CountBits(m: Mode, version: int): nat {
    var range := (version + 7) / 17;
    match m
    case Numeric => if range == 0 then 10 else if range == 1 then 12 else 14
    case Alphanumeric => if range == 0 then 9 else if range == 1 then 11 else 13
    case Byte => if range == 0 then 8 else 16
    case Eci => 0
  }

  datatype Segment = Segment(mode: Mode, numChars: nat, data: seq<bool>)

  datatype Option<T> = None | Some(value: T)

  lemma {:induction false} NumericSplit(a: string, b: string)
    requires AllDigits(a) && AllDigits(b) && |a| % 3 == 0
    ensures AllDigits(a + b) && NumericBits(a + b) == NumericBits(a) + NumericBits(b)
  {
    if a == [] {
      assert a + b == b;
    } else {
      assert (a + b)[..3] == a[..3] && (a + b)[3..] == a[3..] + b;
      NumericSplit(a[3..], b);
    }
  }

  lemma DecimalAppend(s: string, c: char)
    requires AllDigits(s) && IsDigit(c)
    ensures Decimal(s + [c]) == 10 * Decimal(s) + DigitValue(c)
  {
    assert (s + [c])[..|s|] == s;
  }

  lemma {:induction false} DecimalBound(s: string)
    requires AllDigits(s) && |s| <= 3
    ensures Decimal(s) < if |s| == 0 then 1 else if |s| == 1 then 10 else if |s| == 2 then 100 else 1000
  {
    if s != [] {
      DecimalBound(s[..|s| - 1]);
    }
  }

  /** What makeNumeric's loop has done before character i. */
  ghost predicate NumericState(s: string, i: nat, bb: seq<bool>, acc: nat, count: nat) {
    && i <= |s| && count < 3 && count <= i && (i - count) % 3 == 0 && AllDigits(s[..i])
    && bb == NumericBits(s[..i - count]) && acc == Decimal(s[i - count..i])
  }

  lemma NumericStep(s: string, i: nat, bb: seq<bool>, acc: nat, count: nat)
    requires i < |s| && NumericState(s, i, bb, acc, count) && IsDigit(s[i])
    ensures var acc' := acc * 10 + DigitValue(s[i]);
      && (count < 2 ==> NumericState(s, i + 1, bb, acc', count + 1))
      && (count == 2 ==> acc' < 1000 && NumericState(s, i + 1, bb + Bits(acc', 10), 0, 0))
  {
    hide Bits, Decimal, NumericBits, DigitValue;
    var group := s[i - count..i];
    assert s[i - count..i + 1] == group + [s[i]];
    DecimalAppend(group, s[i]);
    assert AllDigits(s[..i + 1]);
    if count == 2 {
      DecimalBound(s[i - 2..i + 1]);
      NumericTriple(s, i);
      NoDigits(s[i + 1..i + 1]);
      assert (i - 2) % 3 == 0 ==> (i + 1) % 3 == 0;
    }
  }

  /** Three more digits are ten more bits. */
  lemma NumericTriple(s: string, i: nat)
    requires 2 <= i < |s| && AllDigits(s[..i + 1]) && (i - 2) % 3 == 0
    ensures NumericBits(s[..i + 1]) == NumericBits(s[..i - 2]) + Bits(Decimal(s[i - 2..i + 1]), 10)
  {
    hide Bits, Decimal, IsDigit;
    var g := s[i - 2..i + 1];
    NumericSplit(s[..i - 2], g);
    assert s[..i - 2] + g == s[..i + 1];
    assert g[..3] == g && NumericBits(g[3..]) == [];
  }

  lemma NoDigits(s: string)
    requires s == []
    ensures Decimal(s) == 0
  {}

  lemma NumericEnd(s: string, bb: seq<bool>, acc: nat, count: nat)
    requires NumericState(s, |s|, bb, acc, count)
    ensures AllDigits(s) && acc < 100 && (count == 1 ==> acc < 10)
    ensures NumericBits(s) == bb + if count > 0 then Bits(acc, count * 3 + 1) else []
  {
    assert s[..|s|] == s;
    var last := s[|s| - count..];
    assert s[|s| - count..|s|] == last;
    NumericSplit(s[..|s| - count], last);
    assert s[..|s| - count] + last == s;
    DecimalBound(last);
  }

  /** makeNumeric: refuses anything but digits. */
  method MakeNumeric(digits: string) returns (r: Option<Segment>)
    ensures r == if AllDigits(digits) then Some(Segment(Numeric, |digits|, NumericBits(digits))) else None
  {
    hide NumericState, NumericBits, Bits, Pow2, Decimal;
    var bb: seq<bool> := [];
    var accumData: nat, accumCount: nat := 0, 0;
    SmallPowers();
    assert NumericState(digits, 0, bb, 0, 0) by { NumericBegin(digits); }
    for i := 0 to |digits|
      invariant accumCount < 3
      invariant NumericState(digits, i, bb, accumData, accumCount)
    {
      var c := digits[i];
      if !IsDigit(c) {
        return None;
      }
      NumericStep(digits, i, bb, accumData, accumCount);
      accumData := accumData * 10 + DigitValue(c);
      accumCount := accumCount + 1;
      if accumCount == 3 {
        var ok;
        ok, bb := AppendBits(bb, accumData, 10);
        accumData := 0;
        accumCount := 0;
      }
    }
    NumericEnd(digits, bb, accumData, accumCount);
    assert bb + [] == bb;
    if accumCount > 0 {
      var ok;
      assert accumCount == 1 || accumCount == 2;
      ok, bb := AppendBits(bb, accumData, accumCount * 3 + 1);
    }
    r := Some(Segment(Numeric, |digits|, bb));
  }

  lemma NumericBegin(s: string)
    ensures NumericState(s, 0, [], 0, 0)
  {}

  lemma {:induction false} AlphaSplit(a: string, b: string)
    requires AllAlpha(a) && AllAlpha(b) && |a| % 2 == 0
    ensures AllAlpha(a + b) && AlphaBits(a + b) == AlphaBits(a) + AlphaBits(b)
  {
    hide AlphaIndex, Bits;
    if a == [] {
      assert a + b == b;
    } else {
      assert (a + b)[2..] == a[2..] + b;
      AlphaSplit(a[2..], b);
    }
  }

  /** What makeAlphanumeric's loop has done before character i. */
  ghost predicate AlphaState(s: string, i: nat, bb: seq<bool>, acc: nat, count: nat) {
    && i <= |s| && count < 2 && count <= i && (i - count) % 2 == 0 && AllAlpha(s[..i])
    && bb == AlphaBits(s[..i - count]) && acc == if count == 0 then 0 else AlphaIndex(s[i - 1])
  }

  lemma AlphaStep(s: string, i: nat, bb: seq<bool>, acc: nat, count: nat)
    requires i < |s| && AlphaState(s, i, bb, acc, count) && AlphaIndex(s[i]) >= 0
    ensures var acc' := acc * 45 + AlphaIndex(s[i]);
      && (count == 0 ==> AlphaState(s, i + 1, bb, acc', 1))
      && (count == 1 ==> acc' < 2025 && AlphaState(s, i + 1, bb + Bits(acc', 11), 0, 0))
  {
    hide AlphaIndex, AlphaBits, Bits, AlphaChar;
    AlphaRoundTrip(s[i]);
    assert AllAlpha(s[..i + 1]);
    if count == 1 {
      AlphaRoundTrip(s[i - 1]);
      AlphaPair(s, i);
    }
  }

  /** Two more characters are eleven more bits. */
  lemma AlphaPair(s: string, i: nat)
    requires 0 < i < |s| && AllAlpha(s[..i + 1]) && (i - 1) % 2 == 0
    ensures AlphaBits(s[..i + 1]) == AlphaBits(s[..i - 1]) + Bits(AlphaIndex(s[i - 1]) * 45 + AlphaIndex(s[i]), 11)
  {
    hide AlphaIndex, Bits;
    var g := s[i - 1..i + 1];
    AlphaSplit(s[..i - 1], g);
    assert s[..i - 1] + g == s[..i + 1];
    assert g[2..] == [] && g[0] == s[i - 1] && g[1] == s[i];
  }

  lemma AlphaEnd(s: string, bb: seq<bool>, acc: nat, count: nat)
    requires AlphaState(s, |s|, bb, acc, count)
    ensures AllAlpha(s) && acc < 45
    ensures AlphaBits(s) == bb + if count > 0 then Bits(acc, 6) else []
  {
    hide AlphaIndex;
    assert s[..|s|] == s;
    var last := s[|s| - count..];
    AlphaSplit(s[..|s| - count], last);
    assert s[..|s| - count] + last == s;
    if count > 0 {
      AlphaRoundTrip(s[|s| - 1]);
    }
  }

  /** makeAlphanumeric: refuses characters outside the alphabet. */
  method MakeAlphanumeric(text: string) returns (r: Option<Segment>)
    ensures r == if AllAlpha(text) then Some(Segment(Alphanumeric, |text|, AlphaBits(text))) else None
  {
    hide AlphaIndex, AlphaState, AlphaBits, Bits, Pow2;
    var bb: seq<bool> := [];
    var accumData: nat, accumCount: nat := 0, 0;
    SmallPowers();
    AlphaBegin(text);
    for i := 0 to |text|
      invariant accumCount < 2
      invariant AlphaState(text, i, bb, accumData, accumCount)
    {
      var v := AlphaIndex(text[i]);
      if v < 0 {
        return None;
      }
      AlphaStep(text, i, bb, accumData, accumCount);
      accumData := accumData * 45 + v;
      accumCount := accumCount + 1;
      if accumCount == 2 {
        var ok;
        ok, bb := AppendBits(bb, accumData, 11);
        accumData := 0;
        accumCount := 0;
      }
    }
    AlphaEnd(text, bb, accumData, accumCount);
    assert bb + [] == bb;
    if accumCount > 0 {
      var ok;
      ok, bb := AppendBits(bb, accumData, 6);
    }
    r := Some(Segment(Alphanumeric, |text|, bb));
  }

  lemma AlphaBegin(s: string)
    ensures AlphaState(s, 0, [], 0, 0)
  {}

  lemma {:induction false} BytesSplit(a: string, b: string)
    ensures ByteBits(a + b) == ByteBits(a) + ByteBits(b)
  {
    if a == [] {
      assert a + b == b;
    } else {
      assert (a + b)[1..] == a[1..] + b;
      BytesSplit(a[1..], b);
    }
  }

  /** makeBytes. */
  method MakeBytes(data: string) returns (r: Segment)
    requires AllBytes(data)
    ensures r == Segment(Byte, |data|, ByteBits(data))
  {
    var bb: seq<bool> := [];
    SmallPowers();
    for i := 0 to |data|
      invariant bb == ByteBits(data[..i])
    {
      BytesSplit(data[..i], [data[i]]);
      assert data[..i] + [data[i]] == data[..i + 1];
      assert [data[i]][1..] == [] && ByteBits([]) == [];
      var ok;
      ok, bb := AppendBits(bb, data[i] as int, 8);
    }
    assert data[..|data|] == data;
    r := Segment(Byte, |data|, bb);
  }

  /** The payload of an ECI segment: one, two or three bytes with a prefix. */
  function EciBits(v: nat): seq<bool>
    requires v < 1000000
  {
    if v < 128 then Bits(v, 8)
    else if v < 16384 then Bits(2, 2) + Bits(v, 14)
    else Bits(6, 3) + Bits(v, 21)
  }

  /** makeEci: refuses values out of range. */
  method MakeEci(assignVal: int) returns (r: Option<Segment>)
    ensures r == if 0 <= assignVal < 1000000 then Some(Segment(Eci, 0, EciBits(assignVal))) else None
  {
    hide Pow2, Bits, Value;
    SmallPowers();
    var bb: seq<bool> := [];
    var ok;
    if assignVal < 0 {
      return None;
    } else if assignVal < 128 {
      ok, bb := AppendBits(bb, assignVal, 8);
      assert bb == Bits(assignVal, 8);
    } else if assignVal < 16384 {
      ok, bb := AppendBits(bb, 2, 2);
      ok, bb := AppendBits(bb, assignVal, 14);
      assert bb == Bits(2, 2) + Bits(assignVal, 14);
    } else if assignVal < 1000000 {
      ok, bb := AppendBits(bb, 6, 3);
      ok, bb := AppendBits(bb, assignVal, 21);
      assert bb == Bits(6, 3) + Bits(assignVal, 21);
    } else {
      return None;
    }
    r := Some(Segment(Eci, 0, bb));
  }
}
