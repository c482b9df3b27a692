/** GF(256) as the QR encoder and the QR decoder use it: addition is exclusive or, the decoder
    multiplies through its logarithm and exponent tables, the encoder by Russian peasant
    multiplication. The two multiplications are the same, and they form a field. */
module Gf256 {
  import Bytes
  import T = GaloisTables

  function Exp(i: int): bv8 {
    T.ExpTable(i) as bv8
  }

  function Log(v: bv8): int {
    T.LogTable(v as int)
  }

  /** The sum, which is also the difference. */
  function Add(a: bv8, b: bv8): bv8 {
    a ^ b
  }

  /** The decoder's product: zero operands are skipped, other operands add their logarithms. */
  function Mul(a: bv8, b: bv8): bv8 {
    if a == 0 || b == 0 then 0 else Exp((Log(a) + Log(b)) % 255)
  }

  /** The generator raised to any integer power. */
  function Alpha(i: int): bv8 {
    Exp(i % 255)
  }

  /** The decoder's quotient, as correct_block and berlekamp_massey write it. */
  function Div(b: bv8, a: bv8): bv8 {
    Exp((255 - Log(a) + Log(b)) % 255)
  }

  function Pow(x: bv8, n: nat): bv8 {
    if n == 0 then 1 else Mul(x, Pow(x, n - 1))
  }

  // ----- addition is a group in which every byte is its own negative

  lemma AddAssoc(a: bv8, b: bv8, c: bv8)
    ensures Add(Add(a, b), c) == Add(a, Add(b, c))
  {}

  lemma AddComm(a: bv8, b: bv8)
    ensures Add(a, b) == Add(b, a)
  {}

  lemma AddZero(a: bv8)
    ensures Add(a, 0) == a && Add(0, a) == a
  {}

  lemma AddCancel(a: bv8, b: bv8)
    ensures Add(a, Add(a, b)) == b && Add(Add(b, a), a) == b && Add(Add(a, b), a) == b
    ensures Add(a, b) == 0 <==> a == b
  {}

  /** The middle two of four summands change places. */
  lemma AddSwap(a: bv8, b: bv8, c: bv8, d: bv8)
    ensures Add(Add(a, b), Add(c, d)) == Add(Add(a, c), Add(b, d))
  {
    hide Add;
    AddAssoc(a, b, Add(c, d));
    AddAssoc(b, c, d);
    AddComm(b, c);
    AddAssoc(c, b, d);
    AddAssoc(a, c, Add(b, d));
  }

  // ----- table entries read as bytes

  lemma LogExp(v: bv8)
    requires v != 0
    ensures 1 <= Log(v) <= 255 && Exp(Log(v)) == v
  {
    hide T.ExpTable, T.LogTable;
    T.ExpOfLog(v as int);
    T.NonzeroEntries(v as int);
  }

  lemma ExpLog(k: int)
    requires 0 <= k < 256
    ensures Exp(k) != 0 && Log(Exp(k)) == if k == 0 then 255 else k
  {
    hide T.ExpTable, T.LogTable;
    Bytes.ByteOfInt(T.ExpTable(k));
    T.NonzeroEntries(k);
    T.EndPoints();
    if k != 0 {
      T.LogOfExp(k);
    }
  }

  lemma ExpEnds()
    ensures Exp(0) == 1 && Exp(1) == 2 && Exp(255) == 1
  {
    hide T.ExpTable, T.LogTable;
    T.EndPoints();
  }

  // ----- the powers of the generator

  lemma AlphaShift(i: int, k: int)
    ensures Alpha(i + 255 * k) == Alpha(i)
  {
    hide Exp;
    assert (i + 255 * k) % 255 == i % 255;
  }

  lemma AlphaNonzero(i: int)
    ensures Alpha(i) != 0
  {
    hide Exp, Log;
    ExpLog(i % 255);
  }

  lemma AlphaLog(v: bv8)
    requires v != 0
    ensures 1 <= Log(v) <= 255 && Alpha(Log(v)) == v
  {
    hide Exp, Log;
    LogExp(v);
    if Log(v) == 255 {
      ExpEnds();
    }
  }

  lemma LogAlpha(i: int)
    ensures Log(Alpha(i)) % 255 == i % 255
  {
    hide Exp, Log;
    ExpLog(i % 255);
  }

  lemma AlphaZeroOne()
    ensures Alpha(0) == 1 && Alpha(1) == 2
  {
    hide Exp;
    ExpEnds();
  }

  /** Distinct exponents below 255 give distinct powers. */
  lemma AlphaInjective(i: int, j: int)
    requires 0 <= i < 255 && 0 <= j < 255 && Alpha(i) == Alpha(j)
    ensures i == j
  {
    hide *;
    LogAlpha(i);
    LogAlpha(j);
  }

  lemma AlphaAdd(i: int, j: int)
    ensures Mul(Alpha(i), Alpha(j)) == Alpha(i + j)
  {
    hide Exp, Log;
    AlphaNonzero(i);
    AlphaNonzero(j);
    LogAlpha(i);
    LogAlpha(j);
    ModAdd(Log(Alpha(i)), i, Log(Alpha(j)), j);
  }

  lemma ModAdd(a: int, i: int, b: int, j: int)
    requires a % 255 == i % 255 && b % 255 == j % 255
    ensures (a + b) % 255 == (i + j) % 255
  {
    var k := (a / 255 - i / 255) + (b / 255 - j / 255);
    assert a + b == i + j + 255 * k;
  }

  lemma MulByLogs(a: bv8, b: bv8)
    requires a != 0 && b != 0
    ensures Mul(a, b) == Alpha(Log(a) + Log(b))
  {
    hide Exp, Log;
  }

  // ----- multiplication is a group on the nonzero bytes

  lemma MulZero(a: bv8)
    ensures Mul(a, 0) == 0 && Mul(0, a) == 0
  {
    hide Exp, Log;
  }

  lemma MulOne(a: bv8)
    ensures Mul(a, 1) == a && Mul(1, a) == a
  {
    hide Alpha, Exp, Log, Mul;
    if a == 0 {
      MulZero(1);
    } else {
      AlphaLog(a);
      AlphaZeroOne();
      AlphaAdd(Log(a), 0);
      AlphaAdd(0, Log(a));
    }
  }

  lemma MulComm(a: bv8, b: bv8)
    ensures Mul(a, b) == Mul(b, a)
  {
    hide Exp, Log;
  }

  lemma MulNonzero(a: bv8, b: bv8)
    ensures Mul(a, b) == 0 <==> a == 0 || b == 0
  {
    hide Exp, Log, Alpha;
    if a != 0 && b != 0 {
      MulByLogs(a, b);
      AlphaNonzero(Log(a) + Log(b));
    }
  }

  lemma MulAssoc(a: bv8, b: bv8, c: bv8)
    ensures Mul(Mul(a, b), c) == Mul(a, Mul(b, c))
  {
    hide Alpha, Exp, Log, Mul;
    if a == 0 || b == 0 || c == 0 {
      MulZero(a);
      MulZero(b);
      MulZero(c);
      MulZero(Mul(a, b));
      MulZero(Mul(b, c));
    } else {
      var i, j, k := Log(a), Log(b), Log(c);
      AlphaLog(a);
      AlphaLog(b);
      AlphaLog(c);
      AlphaAdd(i, j);
      AlphaAdd(j, k);
      AlphaAdd(i + j, k);
      AlphaAdd(i, j + k);
      assert (i + j) + k == i + (j + k);
    }
  }

  /** The quotient undoes the product. */
  lemma DivMul(b: bv8, a: bv8)
    requires a != 0 && b != 0
    ensures Mul(Div(b, a), a) == b && Div(b, a) != 0
  {
    hide Exp, Log, Mul, Div, Alpha;
    AlphaLog(a);
    AlphaLog(b);
    var q := 255 - Log(a) + Log(b);
    DivIsAlpha(b, a);
    AlphaNonzero(q);
    AlphaAdd(q, Log(a));
    AlphaShift(Log(b), 1);
    assert q + Log(a) == Log(b) + 255 * 1;
  }

  lemma DivIsAlpha(b: bv8, a: bv8)
    requires a != 0 && b != 0
    ensures Div(b, a) == Alpha(255 - Log(a) + Log(b))
  {
    hide Exp, Log;
  }

  lemma MulCancel(a: bv8, x: bv8, y: bv8)
    requires a != 0 && Mul(x, a) == Mul(y, a)
    ensures x == y
  {
    hide *;
    DivMul(1, a);
    var inv := Div(1, a);
    MulComm(inv, a);
    MulAssoc(x, a, inv);
    MulAssoc(y, a, inv);
    MulOne(x);
    MulOne(y);
  }

  // ----- distributivity, through doubling

  /** Multiplication by 2 on the bits of a byte: the generator polynomial is 0x11d. */
  function Twice(a: bv8): bv8 {
    if a & 0x80 == 0 then a << 1 else (a << 1) ^ 0x1d
  }

  lemma FlipBit4(a: bv8)
    ensures (a ^ 4) as int == T.FlipBit(a as int, 4)
  {}

  lemma FlipBit8(a: bv8)
    ensures (a ^ 8) as int == T.FlipBit(a as int, 8)
  {}

  lemma FlipBit16(a: bv8)
    ensures (a ^ 16) as int == T.FlipBit(a as int, 16)
  {}

  lemma SetBit1(a: bv8)
    requires a & 1 == 0
    ensures (a ^ 1) as int == a as int + 1
  {}

  lemma ShiftValue(a: bv8)
    ensures a & 0x80 == 0 ==> (a << 1) as int == 2 * (a as int) && a as int < 128
    ensures a & 0x80 != 0 ==> (a << 1) as int == 2 * (a as int) - 256 && 128 <= a as int
    ensures (a << 1) & 1 == 0
  {}

  lemma TwiceValue(a: bv8)
    ensures Twice(a) as int == T.Doubled(a as int)
  {
    hide T.FlipBit;
    ShiftValue(a);
    if a & 0x80 != 0 {
      var b := a << 1;
      SetBit1(b);
      FlipBit4(b ^ 1);
      FlipBit8(b ^ 1 ^ 4);
      FlipBit16(b ^ 1 ^ 4 ^ 8);
      assert Twice(a) == b ^ 1 ^ 4 ^ 8 ^ 16;
    }
  }

  lemma ShiftAdds(a: bv8, b: bv8)
    ensures (a ^ b) << 1 == (a << 1) ^ (b << 1)
    ensures (a ^ b) & 0x80 == (a & 0x80) ^ (b & 0x80)
  {}

  lemma TwiceAdds(a: bv8, b: bv8)
    ensures Twice(Add(a, b)) == Add(Twice(a), Twice(b))
  {
    ShiftAdds(a, b);
    assert a & 0x80 == 0x80 || a & 0x80 == 0;
    assert b & 0x80 == 0x80 || b & 0x80 == 0;
  }

  lemma TwiceAlpha(i: int)
    ensures Twice(Alpha(i)) == Alpha(i + 1)
  {
    hide T.ExpTable, T.LogTable, T.Doubled, Twice;
    var k := i % 255;
    T.ExpDoubles(k);
    TwiceValue(Exp(k));
    Bytes.ByteOfInt(T.ExpTable(k));
    Bytes.ByteOfInt(T.ExpTable(k + 1));
    ExpEnds();
    assert (i + 1) % 255 == if k == 254 then 0 else k + 1;
  }

  lemma MulTwice(a: bv8)
    ensures Mul(2, a) == Twice(a)
  {
    hide Mul, Alpha, Exp, Log;
    if a == 0 {
      MulZero(2);
    } else {
      AlphaLog(a);
      AlphaZeroOne();
      AlphaAdd(1, Log(a));
      TwiceAlpha(Log(a));
    }
  }

  lemma {:induction false} AlphaAdditive(n: nat, a: bv8, b: bv8)
    ensures Mul(Alpha(n), Add(a, b)) == Add(Mul(Alpha(n), a), Mul(Alpha(n), b))
  {
    hide *;
    AlphaZeroOne();
    if n == 0 {
      MulOne(a);
      MulOne(b);
      MulOne(Add(a, b));
    } else {
      var p := Alpha(n - 1);
      AlphaAdd(1, n - 1);
      AlphaAdditive(n - 1, a, b);
      MulAssoc(2, p, a);
      MulAssoc(2, p, b);
      MulAssoc(2, p, Add(a, b));
      MulTwice(Mul(p, a));
      MulTwice(Mul(p, b));
      MulTwice(Mul(p, Add(a, b)));
      TwiceAdds(Mul(p, a), Mul(p, b));
    }
  }

  /** Multiplication through the tables distributes over exclusive or. */
  lemma Distrib(c: bv8, a: bv8, b: bv8)
    ensures Mul(c, Add(a, b)) == Add(Mul(c, a), Mul(c, b))
    ensures Mul(Add(a, b), c) == Add(Mul(a, c), Mul(b, c))
  {
    hide *;
    if c == 0 {
      MulZero(a);
      MulZero(b);
      MulZero(Add(a, b));
      AddZero(0);
    } else {
      AlphaLog(c);
      AlphaAdditive(Log(c), a, b);
    }
    MulComm(c, a);
    MulComm(c, b);
    MulComm(c, Add(a, b));
  }

  // ----- powers

  lemma {:induction false} PowAlpha(i: int, n: nat)
    ensures Pow(Alpha(i), n) == Alpha(i * n)
  {
    hide Alpha, Exp, Log, Mul;
    if n == 0 {
      AlphaZeroOne();
    } else {
      PowAlpha(i, n - 1);
      AlphaAdd(i, i * (n - 1));
      assert i + i * (n - 1) == i * n;
    }
  }

  lemma {:induction false} PowAdd(x: bv8, m: nat, n: nat)
    ensures Pow(x, m + n) == Mul(Pow(x, m), Pow(x, n))
  {
    hide Mul;
    if m == 0 {
      MulOne(Pow(x, n));
    } else {
      PowAdd(x, m - 1, n);
      MulAssoc(x, Pow(x, m - 1), Pow(x, n));
    }
  }
}
