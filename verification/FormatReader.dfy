/** The encoder's format bits are format words of the decoder, and read_format finds them again. */
module FormatReader {
  import opened Gf256
  import opened Polynomials
  import opened GaloisField
  import opened FormatInfo
  import opened FunctionPatterns
  import opened Zigzag
  import opened SymbolReader
  import opened VersionTables
  import opened QrSymbol

  // ----- the low bits of a word

  function Odd(x: bv16): bool {
    x & 1 == 1
  }

  function Half(x: bv16): bv16 {
    x >> 1
  }

  function Twice16(x: bv16): bv16 {
    x << 1
  }

  function Xor(x: bv16, y: bv16): bv16 {
    x ^ y
  }

  /** The n lowest bits, lowest first. */
  function Bits(x: bv16, n: nat): (u: seq<bool>)
    ensures |u| == n
    decreases n
  {
    if n == 0 then [] else [Odd(x)] + Bits(Half(x), n - 1)
  }

  lemma LowXor(x: bv16, y: bv16)
    ensures Odd(Xor(x, y)) == (Odd(x) != Odd(y)) && Half(Xor(x, y)) == Xor(Half(x), Half(y))
  {}

  lemma DifferingCons(a: bool, u: seq<bool>, b: bool, v: seq<bool>)
    requires |u| == |v|
    ensures Differing([a] + u, [b] + v) == [a != b] + Differing(u, v)
  {}

  lemma {:induction false} BitsDiffer(x: bv16, y: bv16, n: nat)
    ensures Bits(Xor(x, y), n) == Differing(Bits(x, n), Bits(y, n))
    decreases n
  {
    hide Odd, Half, Xor;
    if n > 0 {
      LowXor(x, y);
      BitsDiffer(Half(x), Half(y), n - 1);
      DifferingCons(Odd(x), Bits(Half(x), n - 1), Odd(y), Bits(Half(y), n - 1));
    }
  }

  lemma ShiftBack(x: bv16)
    requires x < 0x8000
    ensures !Odd(Twice16(x)) && Half(Twice16(x)) == x
  {}

  lemma BitsShift(x: bv16, n: nat)
    requires x < 0x8000
    ensures Bits(Twice16(x), n + 1) == [false] + Bits(x, n)
  {
    ShiftBack(x);
    hide Odd, Half, Twice16;
  }

  lemma {:induction false} BitsPrefix(x: bv16, n: nat, m: nat)
    requires m <= n
    ensures Bits(x, n)[..m] == Bits(x, m)
    decreases n
  {
    hide Odd, Half;
    if m > 0 { BitsPrefix(Half(x), n - 1, m - 1); }
  }

  // ----- the generator polynomial

  const GENERATOR: bv16 := 0x537

  const GENERATOR_BITS := [true, true, true, false, true, true, false, false, true, false, true, false, false, false, false]

  lemma Halved(x: bv16, h: bv16, b: bool)
    requires x == Twice16(h) + (if b then 1 else 0) && h < 0x8000
    ensures Odd(x) == b && Half(x) == h
  {}

  lemma OneBit(x: bv16, h: bv16, b: bool, n: nat)
    requires x == Twice16(h) + (if b then 1 else 0) && h < 0x8000
    ensures Bits(x, n + 1) == [b] + Bits(h, n)
  {
    Halved(x, h, b);
    hide Odd, Half;
  }

  lemma NoBits(x: bv16)
    ensures Bits(x, 0) == []
  {}

  lemma GeneratorBits()
    ensures Bits(GENERATOR, FORMAT_BITS) == GENERATOR_BITS
  {
    hide Odd, Half, Bits;
    NoBits(0);
    OneBit(0x0, 0x0, false, 0);
    OneBit(0x0, 0x0, false, 1);
    OneBit(0x0, 0x0, false, 2);
    OneBit(0x0, 0x0, false, 3);
    OneBit(0x1, 0x0, true, 4);
    OneBit(0x2, 0x1, false, 5);
    OneBit(0x5, 0x2, true, 6);
    OneBit(0xa, 0x5, false, 7);
    OneBit(0x14, 0xa, false, 8);
    OneBit(0x29, 0x14, true, 9);
    OneBit(0x53, 0x29, true, 10);
    OneBit(0xa6, 0x53, false, 11);
    OneBit(0x14d, 0xa6, true, 12);
    OneBit(0x29b, 0x14d, true, 13);
    OneBit(0x537, 0x29b, true, 14);
  }

  /** The sums that format_syndromes computes, in GF(16). */
  function Sum16(u: seq<bool>, m: nat, n: nat): bv8
    requires m <= |u|
  {
    if m == 0 then 0
    else if u[m - 1] then Add(Sum16(u, m - 1, n), Exp16((n + 1) * (m - 1) % 15))
    else Sum16(u, m - 1, n)
  }

  lemma {:induction false} SumIsSyndrome(u: seq<bool>, m: nat, n: nat)
    requires m <= |u| == FORMAT_BITS
    ensures Elem(Gf16Field, Sum16(u, m, n)) && Image(Gf16Field, Sum16(u, m, n)) == Syndrome(Word(u, m), n)
  {
    hide Syndrome, Word, Exp16, Alpha, Add, Image;
    if m == 0 {
      NoWord(u, n);
      ImageOne(Gf16Field);
    } else {
      SumIsSyndrome(u, m - 1, n);
      WordStep(u, m - 1, n);
      AddPower(Sum16(u, m - 1, n), (n + 1) * (m - 1));
    }
  }

  function SumOf(a: bv8, b: bv8, c: bv8, d: bv8, e: bv8, f: bv8, g: bv8): bv8 {
    Add(Add(Add(Add(Add(Add(Add(0, a), b), c), d), e), f), g)
  }

  lemma Powers16()
    ensures Exp16(0) == 0x01
    ensures Exp16(1) == 0x02
    ensures Exp16(2) == 0x04
    ensures Exp16(3) == 0x08
    ensures Exp16(4) == 0x03
    ensures Exp16(5) == 0x06
    ensures Exp16(6) == 0x0c
    ensures Exp16(7) == 0x0b
    ensures Exp16(8) == 0x05
    ensures Exp16(9) == 0x0a
    ensures Exp16(10) == 0x07
    ensures Exp16(11) == 0x0e
    ensures Exp16(12) == 0x0f
    ensures Exp16(13) == 0x0d
    ensures Exp16(14) == 0x09
  {}

  function GeneratorTerms(n: nat): bv8 {
    SumOf(Exp16((n + 1) * 0 % 15), Exp16((n + 1) * 1 % 15), Exp16((n + 1) * 2 % 15), Exp16((n + 1) * 4 % 15), Exp16((n + 1) * 5 % 15), Exp16((n + 1) * 8 % 15), Exp16((n + 1) * 10 % 15))
  }

  lemma Cancellations()
    ensures SumOf(0x1, 0x2, 0x4, 0x3, 0x6, 0x5, 0x7) == 0
    ensures SumOf(0x1, 0x4, 0x3, 0x5, 0x7, 0x2, 0x6) == 0
    ensures SumOf(0x1, 0x8, 0xc, 0xf, 0x1, 0xa, 0x1) == 0
    ensures SumOf(0x1, 0x3, 0x5, 0x2, 0x6, 0x4, 0x7) == 0
    ensures SumOf(0x1, 0x6, 0x7, 0x6, 0x7, 0x7, 0x6) == 0
    ensures SumOf(0x1, 0xc, 0xf, 0xa, 0x1, 0x8, 0x1) == 0
  {}

  lemma GeneratorVanishes(n: nat)
    requires n < FORMAT_SYNDROMES
    ensures GeneratorTerms(n) == 0
  {
    hide Exp16, SumOf;
    Powers16();
    Cancellations();
    if {
      case n == 0 =>
      case n == 1 =>
      case n == 2 =>
      case n == 3 =>
      case n == 4 =>
      case n == 5 =>
    }
  }

  lemma SumStep(u: seq<bool>, m: nat, n: nat)
    requires m < |u|
    ensures Sum16(u, m + 1, n) == if u[m] then Add(Sum16(u, m, n), Exp16((n + 1) * m % 15)) else Sum16(u, m, n)
  {
    hide Add, Exp16;
  }

  lemma NoSum(u: seq<bool>, n: nat)
    ensures Sum16(u, 0, n) == 0
  {}

  lemma GeneratorSum(n: nat)
    ensures Sum16(GENERATOR_BITS, FORMAT_BITS, n) == GeneratorTerms(n)
  {
    hide Add, Exp16, Sum16;
    var g := GENERATOR_BITS;
    NoSum(g, n);
    SumStep(g, 0, n);
    SumStep(g, 1, n);
    SumStep(g, 2, n);
    SumStep(g, 3, n);
    SumStep(g, 4, n);
    SumStep(g, 5, n);
    SumStep(g, 6, n);
    SumStep(g, 7, n);
    SumStep(g, 8, n);
    SumStep(g, 9, n);
    SumStep(g, 10, n);
    SumStep(g, 11, n);
    SumStep(g, 12, n);
    SumStep(g, 13, n);
    SumStep(g, 14, n);
  }

  lemma GeneratorIsFormat()
    ensures IsFormat(Bits(GENERATOR, FORMAT_BITS))
  {
    hide Syndrome, Word, Sum16, GeneratorTerms, Image;
    GeneratorBits();
    forall n | 0 <= n < FORMAT_SYNDROMES
      ensures Syndrome(Word(GENERATOR_BITS, FORMAT_BITS), n) == 0
    {
      GeneratorVanishes(n);
      GeneratorSum(n);
      SumIsSyndrome(GENERATOR_BITS, FORMAT_BITS, n);
      ImageOne(Gf16Field);
    }
  }

  // ----- format words are closed under addition and shifts

  lemma FormatsAdd(u: seq<bool>, v: seq<bool>)
    requires IsFormat(u) && IsFormat(v)
    ensures IsFormat(Differing(u, v))
  {
    hide Syndrome, Word;
    forall n | 0 <= n < FORMAT_SYNDROMES
      ensures Syndrome(Word(Differing(u, v), FORMAT_BITS), n) == 0
    {
      SyndromesOfError(u, v, n);
    }
  }

  lemma {:induction false} ShiftedSyndrome(u: seq<bool>, m: nat, n: nat)
    requires m + 1 <= FORMAT_BITS == |u|
    ensures Syndrome(Word([false] + u[..FORMAT_BITS - 1], m + 1), n) == Mul(Alpha(17 * (n + 1)), Syndrome(Word(u, m), n))
  {
    hide Syndrome, Word, Alpha, Add, Mul;
    var v, a := [false] + u[..FORMAT_BITS - 1], Alpha(17 * (n + 1));
    WordStep(v, m, n);
    if m == 0 {
      NoWord(u, n);
      NoWord(v, n);
      MulZero(a);
    } else {
      assert v[m] == u[m - 1];
      ShiftedSyndrome(u, m - 1, n);
      WordStep(u, m - 1, n);
      Distrib(a, Syndrome(Word(u, m - 1), n), Alpha(17 * ((n + 1) * (m - 1))));
      AlphaAdd(17 * (n + 1), 17 * ((n + 1) * (m - 1)));
      OneHigher(n, m);
    }
  }

  lemma OneHigher(n: nat, m: nat)
    ensures 17 * (n + 1) + 17 * ((n + 1) * (m - 1)) == 17 * ((n + 1) * m)
  {}

  lemma FormatsShift(u: seq<bool>)
    requires IsFormat(u) && !u[FORMAT_BITS - 1]
    ensures IsFormat([false] + u[..FORMAT_BITS - 1])
  {
    hide Syndrome, Word, Alpha, Add, Mul;
    var v := [false] + u[..FORMAT_BITS - 1];
    forall n | 0 <= n < FORMAT_SYNDROMES
      ensures Syndrome(Word(v, FORMAT_BITS), n) == 0
    {
      WordStep(u, FORMAT_BITS - 1, n);
      ShiftedSyndrome(u, FORMAT_BITS - 1, n);
      MulZero(Alpha(17 * (n + 1)));
    }
  }

  lemma FormatZero()
    ensures IsFormat(Bits(0, FORMAT_BITS))
  {
    hide Syndrome, Word;
    NoneSet(0, FORMAT_BITS);
    forall n | 0 <= n < FORMAT_SYNDROMES
      ensures Syndrome(Word(Bits(0, FORMAT_BITS), FORMAT_BITS), n) == 0
    {
      EmptyWord(Bits(0, FORMAT_BITS), FORMAT_BITS, n);
    }
  }

  lemma {:induction false} NoneSet(x: bv16, n: nat)
    requires x == 0
    ensures forall i :: 0 <= i < n ==> !Bits(x, n)[i]
    decreases n
  {
    if n > 0 {
      assert !Odd(x) && Half(x) == 0;
      NoneSet(Half(x), n - 1);
    }
  }

  lemma {:induction false} EmptyWord(u: seq<bool>, m: nat, n: nat)
    requires m <= |u| == FORMAT_BITS && forall i :: 0 <= i < |u| ==> !u[i]
    ensures Syndrome(Word(u, m), n) == 0
  {
    hide Syndrome, Word;
    if m == 0 {
      NoWord(u, n);
    } else {
      WordStep(u, m - 1, n);
      EmptyWord(u, m - 1, n);
    }
  }

  // ----- single bits

  lemma HalfGet(x: bv16, i: nat)
    requires 1 <= i < FORMAT_BITS
    ensures GetBit(Half(x), i - 1) == GetBit(x, i)
  {
    if {
      case i == 1 =>
      case i == 2 =>
      case i == 3 =>
      case i == 4 =>
      case i == 5 =>
      case i == 6 =>
      case i == 7 =>
      case i == 8 =>
      case i == 9 =>
      case i == 10 =>
      case i == 11 =>
      case i == 12 =>
      case i == 13 =>
      case i == 14 =>
    }
  }

  lemma Get0(x: bv16)
    ensures GetBit(x, 0) == Odd(x)
  {}

  lemma TopClear(x: bv16)
    requires x < 0x4000
    ensures !GetBit(x, 14)
  {}

  lemma {:induction false} BitAt(x: bv16, n: nat, i: nat)
    requires i < n <= FORMAT_BITS
    ensures Bits(x, n)[i] == GetBit(x, i)
    decreases i
  {
    hide Odd, Half, GetBit;
    if i == 0 {
      Get0(x);
    } else {
      BitAt(Half(x), n - 1, i - 1);
      HalfGet(x, i);
    }
  }

  // ----- the check bits

  /** One step of the division by the generator polynomial. */
  function NextRemainder(rem: bv16): bv16 {
    (rem << 1) ^ ((rem >> 9) * 0x537)
  }

  lemma NextIs(rem: bv16)
    requires rem < 0x400
    ensures NextRemainder(rem) < 0x400
    ensures NextRemainder(rem) == if rem < 0x200 then Twice16(rem) else Xor(Twice16(rem), GENERATOR)
  {}

  lemma TwiceXor(top: bv16, rem: bv16)
    ensures Twice16(Xor(top, rem)) == Xor(Twice16(top), Twice16(rem))
    ensures Xor(Twice16(top), Xor(Twice16(rem), GENERATOR)) == Xor(Xor(Twice16(top), Twice16(rem)), GENERATOR)
  {}

  lemma XorBelow(top: bv16, rem: bv16)
    requires top < 0x4000 && rem < 0x400
    ensures Xor(top, rem) < 0x4000
  {}

  /** A step keeps the data bits together with the remainder a format word. */
  lemma RemainderStep(top: bv16, rem: bv16)
    requires top < 0x4000 && rem < 0x400 && IsFormat(Bits(Xor(top, rem), FORMAT_BITS))
    ensures IsFormat(Bits(Xor(Twice16(top), NextRemainder(rem)), FORMAT_BITS))
  {
    hide IsFormat, Xor, Twice16, NextRemainder, Bits, GetBit;
    var x := Xor(top, rem);
    XorBelow(top, rem);
    TopClear(x);
    BitAt(x, FORMAT_BITS, 14);
    FormatsShift(Bits(x, FORMAT_BITS));
    BitsShift(x, 14);
    BitsPrefix(x, FORMAT_BITS, 14);
    TwiceXor(top, rem);
    NextIs(rem);
    if rem >= 0x200 {
      GeneratorIsFormat();
      FormatsAdd(Bits(Twice16(x), FORMAT_BITS), Bits(GENERATOR, FORMAT_BITS));
      BitsDiffer(Twice16(x), GENERATOR, FORMAT_BITS);
    }
  }

  /** k doublings. */
  function Raised(x: bv16, k: nat): bv16
    decreases k
  {
    if k == 0 then x else Raised(Twice16(x), k - 1)
  }

  predicate Room(bound: bv16, k: nat)
    decreases k
  {
    k == 0 || (bound <= 0x4000 && Room(Twice16(bound), k - 1))
  }

  lemma TwiceBelow(x: bv16, bound: bv16)
    requires x < bound <= 0x4000
    ensures Twice16(x) < Twice16(bound)
  {}

  lemma {:induction false} RemainderKeeps(top: bv16, bound: bv16, rem: bv16, k: nat)
    requires top < bound && Room(bound, k) && rem < 0x400 && IsFormat(Bits(Xor(top, rem), FORMAT_BITS))
    ensures FormatRemainder(rem, k) < 0x400
    ensures IsFormat(Bits(Xor(Raised(top, k), FormatRemainder(rem, k)), FORMAT_BITS))
    decreases k
  {
    hide IsFormat, Xor, Twice16, Bits;
    if k > 0 {
      RemainderStep(top, rem);
      NextIs(rem);
      TwiceBelow(top, bound);
      assert NextRemainder(rem) == (rem << 1) ^ ((rem >> 9) * 0x537);
      hide NextRemainder;
      RemainderKeeps(Twice16(top), Twice16(bound), NextRemainder(rem), k - 1);
    }
  }

  // ----- the encoder's format bits

  function DataBits(level: Level, msk: int): bv16
    requires 0 <= msk <= 7
  {
    (LevelBits(level) << 3) | (msk as bv16)
  }

  /** The format bits before they are masked. */
  function CodeWord(level: Level, msk: int): bv16
    requires 0 <= msk <= 7
  {
    var data := DataBits(level, msk);
    (data << 10) | FormatRemainder(data, 10)
  }

  const FORMAT_MASK: bv16 := 0x5412

  lemma FormatBitsAre(level: Level, msk: int)
    requires 0 <= msk <= 7
    ensures FormatBits(level, msk) == Xor(CodeWord(level, msk), FORMAT_MASK)
  {
    hide FormatRemainder, LevelBits;
  }

  lemma SmallMask(msk: int)
    requires 0 <= msk <= 7
    ensures (msk as bv16) < 8
    ensures msk == (if GetBit(msk as bv16, 0) then 1 else 0) + (if GetBit(msk as bv16, 1) then 2 else 0) + (if GetBit(msk as bv16, 2) then 4 else 0)
  {}

  lemma SmallData(l: bv16, m: bv16)
    requires l < 4 && m < 8
    ensures (l << 3) | m < 0x20
  {}

  lemma DataSmall(level: Level, msk: int)
    requires 0 <= msk <= 7
    ensures DataBits(level, msk) < 0x20
  {
    SmallMask(msk);
    SmallData(LevelBits(level), msk as bv16);
    hide GetBit;
  }

  lemma TenTwices(x: bv16)
    ensures Twice16(Twice16(Twice16(Twice16(Twice16(Twice16(Twice16(Twice16(Twice16(Twice16(x)))))))))) == x << 10
  {}

  lemma RaisedOnce(x: bv16, k: nat)
    ensures Raised(x, k + 1) == Raised(Twice16(x), k) && Raised(x, 0) == x
  {}

  lemma RaisedTen(x: bv16)
    ensures Raised(x, 10) == x << 10
  {
    hide Twice16, Raised;
    TenTwices(x);
    var x1 := Twice16(x);
    var x2 := Twice16(x1);
    var x3 := Twice16(x2);
    var x4 := Twice16(x3);
    var x5 := Twice16(x4);
    var x6 := Twice16(x5);
    var x7 := Twice16(x6);
    var x8 := Twice16(x7);
    var x9 := Twice16(x8);
    RaisedOnce(x, 9);
    RaisedOnce(x1, 8);
    RaisedOnce(x2, 7);
    RaisedOnce(x3, 6);
    RaisedOnce(x4, 5);
    RaisedOnce(x5, 4);
    RaisedOnce(x6, 3);
    RaisedOnce(x7, 2);
    RaisedOnce(x8, 1);
    RaisedOnce(x9, 0);
    RaisedOnce(Twice16(x9), 0);
  }

  lemma RoomStep(bound: bv16, next: bv16, k: nat)
    requires bound <= 0x4000 && next == Twice16(bound) && Room(next, k)
    ensures Room(bound, k + 1)
  {}

  lemma RoomForData()
    ensures Room(0x20, 10)
  {
    assert Room(0x8000, 0);
    RoomStep(0x4000, 0x8000, 0);
    RoomStep(0x2000, 0x4000, 1);
    RoomStep(0x1000, 0x2000, 2);
    RoomStep(0x800, 0x1000, 3);
    RoomStep(0x400, 0x800, 4);
    RoomStep(0x200, 0x400, 5);
    RoomStep(0x100, 0x200, 6);
    RoomStep(0x80, 0x100, 7);
    RoomStep(0x40, 0x80, 8);
    RoomStep(0x20, 0x40, 9);
  }

  lemma OrIsXor(d: bv16, r: bv16)
    requires r < 0x400
    ensures (d << 10) | r == Xor(d << 10, r)
  {}

  lemma XorSelf(x: bv16)
    ensures Xor(x, x) == 0
  {}

  /** Every format word of the encoder is one of the decoder. */
  lemma CodeWordIsFormat(level: Level, msk: int)
    requires 0 <= msk <= 7
    ensures IsFormat(Bits(CodeWord(level, msk), FORMAT_BITS)) && FormatRemainder(DataBits(level, msk), 10) < 0x400
  {
    hide IsFormat, Bits, Xor, FormatRemainder, DataBits, Raised, Room;
    var data := DataBits(level, msk);
    DataSmall(level, msk);
    RoomForData();
    XorSelf(data);
    FormatZero();
    SmallRemainder(data);
    RemainderKeeps(data, 0x20, data, 10);
    RaisedTen(data);
    OrIsXor(data, FormatRemainder(data, 10));
  }

  lemma SmallRemainder(data: bv16)
    requires data < 0x20
    ensures data < 0x400
  {}

  // ----- level and mask in a format word

  function LevelOf(u: seq<bool>): Level
    requires |u| == FORMAT_BITS
  {
    if u[14] then (if u[13] then Quartile else High) else (if u[13] then Low else Medium)
  }

  function MaskOf(u: seq<bool>): (m: int)
    requires |u| == FORMAT_BITS
    ensures 0 <= m <= 7
  {
    (if u[10] then 1 else 0) + (if u[11] then 2 else 0) + (if u[12] then 4 else 0)
  }

  lemma HighBitsOf(d: bv16, r: bv16)
    requires r < 0x400
    ensures GetBit((d << 10) | r, 10) == GetBit(d, 0) && GetBit((d << 10) | r, 11) == GetBit(d, 1) && GetBit((d << 10) | r, 12) == GetBit(d, 2)
    ensures GetBit((d << 10) | r, 13) == GetBit(d, 3) && GetBit((d << 10) | r, 14) == GetBit(d, 4)
  {}

  lemma FieldBits(l: bv16, m: bv16)
    requires l < 4 && m < 8
    ensures GetBit((l << 3) | m, 0) == GetBit(m, 0) && GetBit((l << 3) | m, 1) == GetBit(m, 1) && GetBit((l << 3) | m, 2) == GetBit(m, 2)
    ensures GetBit((l << 3) | m, 3) == GetBit(l, 0) && GetBit((l << 3) | m, 4) == GetBit(l, 1)
  {}

  lemma LevelFields(level: Level)
    ensures LevelBits(level) < 4
    ensures GetBit(LevelBits(level), 1) == (level.Quartile? || level.High?) && GetBit(LevelBits(level), 0) == (level.Quartile? || level.Low?)
  {}

  lemma DataGets(level: Level, msk: int)
    requires 0 <= msk <= 7
    ensures var d := DataBits(level, msk);
      && msk == (if GetBit(d, 0) then 1 else 0) + (if GetBit(d, 1) then 2 else 0) + (if GetBit(d, 2) then 4 else 0)
      && GetBit(d, 4) == (level.Quartile? || level.High?) && GetBit(d, 3) == (level.Quartile? || level.Low?)
  {
    hide GetBit, LevelBits;
    SmallMask(msk);
    LevelFields(level);
    FieldBits(LevelBits(level), msk as bv16);
  }

  lemma CodeGets(level: Level, msk: int)
    requires 0 <= msk <= 7
    ensures var d, w := DataBits(level, msk), CodeWord(level, msk);
      && GetBit(w, 10) == GetBit(d, 0) && GetBit(w, 11) == GetBit(d, 1) && GetBit(w, 12) == GetBit(d, 2)
      && GetBit(w, 13) == GetBit(d, 3) && GetBit(w, 14) == GetBit(d, 4)
  {
    hide GetBit, DataBits, FormatRemainder, IsFormat;
    CodeWordIsFormat(level, msk);
    HighBitsOf(DataBits(level, msk), FormatRemainder(DataBits(level, msk), 10));
  }

  /** The decoder finds the level and the mask in the word. */
  lemma FieldsOf(level: Level, msk: int)
    requires 0 <= msk <= 7
    ensures var c := Bits(CodeWord(level, msk), FORMAT_BITS); LevelOf(c) == level && MaskOf(c) == msk
  {
    hide GetBit, DataBits, CodeWord, Bits;
    var w := CodeWord(level, msk);
    DataGets(level, msk);
    CodeGets(level, msk);
    BitAt(w, FORMAT_BITS, 10);
    BitAt(w, FORMAT_BITS, 11);
    BitAt(w, FORMAT_BITS, 12);
    BitAt(w, FORMAT_BITS, 13);
    BitAt(w, FORMAT_BITS, 14);
  }

  // ----- reading it from a symbol

  /** What the format information tells: the level and the mask of the symbol. */
  datatype Format = Format(level: Level, mask: int)

  /** Where bit i of either copy is. */
  function CopyCell(size: int, second: bool, i: int): Cell {
    FormatCell(size, if second then 15 + i else i)
  }

  lemma CopyInGrid(size: int, second: bool, i: int)
    requires 21 <= size && 0 <= i < FORMAT_BITS
    ensures InGrid(size, CopyCell(size, second, i))
  {}

  /** The bits that a captured symbol shows in one copy, lowest first. */
  function Shown(code: QuircCode, second: bool): (u: seq<bool>)
    requires code.Complete() && 21 <= code.size
    ensures |u| == FORMAT_BITS
  {
    seq(FORMAT_BITS, i requires 0 <= i < FORMAT_BITS =>
      CopyInGrid(code.size, second, i);
      GridBit(code, CopyCell(code.size, second, i).x, CopyCell(code.size, second, i).y))
  }

  function Unmasked(u: seq<bool>): (v: seq<bool>)
    requires |u| == FORMAT_BITS
    ensures |v| == FORMAT_BITS
  {
    Differing(u, Bits(FORMAT_MASK, FORMAT_BITS))
  }

  const XS: seq<int> := [8, 8, 8, 8, 8, 8, 8, 8, 7, 5, 4, 3, 2, 1, 0]

  const YS: seq<int> := [0, 1, 2, 3, 4, 5, 7, 8, 8, 8, 8, 8, 8, 8, 8]

  lemma FirstCells(size: int, i: int)
    requires 0 <= i < FORMAT_BITS
    ensures CopyCell(size, false, i) == Cell(YS[i], XS[i])
  {}

  lemma SecondCells(size: int, i: int)
    ensures 0 <= i < 7 ==> CopyCell(size, true, FORMAT_BITS - 1 - i) == Cell(size - 1 - i, 8)
    ensures 0 <= i < 8 ==> CopyCell(size, true, 7 - i) == Cell(8, size - 8 + i)
  {}

  /** The loops of read_format: every bit read is shifted in from below. */
  method CollectFormat(code: QuircCode, second: bool) returns (format: seq<bool>)
    requires code.Complete() && 21 <= code.size
    ensures format == Shown(code, second)
  {
    hide GridBit, CopyCell;
    format := [];
    ghost var u := Shown(code, second);
    if second {
      for i := 0 to 7
        invariant format == u[FORMAT_BITS - i..]
      {
        CopyInGrid(code.size, true, FORMAT_BITS - 1 - i);
        SecondCells(code.size, i);
        format := [GridBit(code, 8, code.size - 1 - i)] + format;
      }
      for i := 0 to 8
        invariant format == u[8 - i..]
      {
        CopyInGrid(code.size, true, 7 - i);
        SecondCells(code.size, i);
        format := [GridBit(code, code.size - 8 + i, 8)] + format;
      }
    } else {
      for i := FORMAT_BITS downto 0
        invariant format == u[i..]
      {
        CopyInGrid(code.size, false, i);
        FirstCells(code.size, i);
        format := [GridBit(code, XS[i], YS[i])] + format;
      }
    }
  }

  /** The 15 bits of one copy, without the format mask. */
  function Copy(code: QuircCode, second: bool): (u: seq<bool>)
    requires code.Complete() && 21 <= code.size
    ensures |u| == FORMAT_BITS
  {
    Unmasked(Shown(code, second))
  }

  function FormatIn(word: seq<bool>): (f: Format)
    requires |word| == FORMAT_BITS
    ensures 0 <= f.mask <= 7
  {
    Format(LevelOf(word), MaskOf(word))
  }

  /** read_format: the level and the mask in what correct_format makes of the copy, if it accepts it. */
  method ReadFormat(code: QuircCode, second: bool) returns (ok: bool, format: Format)
    requires code.Complete() && 21 <= code.size
    ensures ok <==> Accepted(Copy(code, second))
    ensures format == FormatIn(Mended(Copy(code, second)))
  {
    hide Accepted, Mended, Bits, Shown;
    var u := CollectFormat(code, second);
    var f;
    ok, f := CorrectFormat(Unmasked(u));
    format := FormatIn(f);
  }

  /** The copy that decides: the first if it is accepted. */
  ghost predicate FirstDecides(code: QuircCode)
    requires code.Complete() && 21 <= code.size
  {
    Accepted(Copy(code, false))
  }

  /** The format word that the decoder settles on. */
  ghost function Settled(code: QuircCode): (word: seq<bool>)
    requires code.Complete() && 21 <= code.size
    ensures |word| == FORMAT_BITS
  {
    Mended(Copy(code, !FirstDecides(code)))
  }

  /** The two calls of quirc_decode: the second copy is read exactly if the first is not accepted. */
  method FindFormat(code: QuircCode) returns (ok: bool, format: Format)
    requires code.Complete() && 21 <= code.size
    ensures ok <==> Accepted(Copy(code, false)) || Accepted(Copy(code, true))
    ensures format == FormatIn(Settled(code))
  {
    hide Accepted, Mended, Copy;
    ok, format := ReadFormat(code, false);
    if !ok {
      ok, format := ReadFormat(code, true);
    }
  }

  /** The format word is found if the first copy is within three bits of it, or if the first copy is not
      accepted and the second is within three bits of it. */
  ghost predicate Legible(code: QuircCode, c: seq<bool>)
    requires code.Complete() && 21 <= code.size && |c| == FORMAT_BITS
  {
    Errors(Copy(code, false), c) <= 3 || (!FirstDecides(code) && Errors(Copy(code, true), c) <= 3)
  }

  lemma LegibleIsSettled(code: QuircCode, c: seq<bool>)
    requires code.Complete() && 21 <= code.size && |c| == FORMAT_BITS && IsFormat(c) && Legible(code, c)
    ensures Settled(code) == c && (Accepted(Copy(code, false)) || Accepted(Copy(code, true)))
  {
    hide Accepted, Mended, Copy, IsFormat;
    if Errors(Copy(code, false), c) <= 3 {
      MendedWithinThree(Copy(code, false), c);
    } else {
      MendedWithinThree(Copy(code, true), c);
    }
  }

  // ----- what the encoder drew

  /** A symbol whose modules include the encoder's format modules shows the format bits in both copies. */
  lemma ShownBits(code: QuircCode, level: Level, msk: int, second: bool)
    requires 0 <= msk <= 7 && code.Complete() && 21 <= code.size
    requires FormatDrawn(code, level, msk)
    ensures Copy(code, second) == Bits(CodeWord(level, msk), FORMAT_BITS)
  {
    hide GridBit, Bits, CodeWord, FormatBits, GetBit, Xor;
    var w, bits := CodeWord(level, msk), FormatBits(level, msk);
    FormatBitsAre(level, msk);
    BitsDiffer(w, FORMAT_MASK, FORMAT_BITS);
    forall i | 0 <= i < FORMAT_BITS
      ensures Shown(code, second)[i] == Bits(bits, FORMAT_BITS)[i]
    {
      CopyInGrid(code.size, second, i);
      BitAt(bits, FORMAT_BITS, i);
      assert CopyShows(code, second, i, GetBit(bits, i));
    }
  }

  /** The capture shows the format bits of the level and the mask at every place of either copy. */
  predicate FormatDrawn(code: QuircCode, level: Level, msk: int)
    requires 0 <= msk <= 7 && code.Complete() && 21 <= code.size
  {
    forall second, i :: 0 <= i < FORMAT_BITS ==>
      CopyShows(code, second, i, GetBit(FormatBits(level, msk), i))
  }

  predicate CopyShows(code: QuircCode, second: bool, i: int, b: bool)
    requires code.Complete() && 21 <= code.size && 0 <= i < FORMAT_BITS
  {
    CopyInGrid(code.size, second, i);
    GridBit(code, CopyCell(code.size, second, i).x, CopyCell(code.size, second, i).y) == b
  }
}
