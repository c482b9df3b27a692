/** The two fields of 3rdparty/quirc/decode.c, as poly_add, poly_eval and berlekamp_massey take them: a
    table of powers and a table of logarithms. GF(16) is a part of GF(256), so what holds over GF(256) holds
    over both. */
module GaloisField {
  import opened Gf256
  import opened Polynomials
  import T = GaloisTables

  datatype Galois = Gf16Field | Gf256Field

  function Order(gf: Galois): (p: int)
    ensures p > 0
  {
    if gf.Gf16Field? then 15 else 255
  }

  function Exp16(i: int): bv8 {
    match i
    case 0 => 0x01 case 1 => 0x02 case 2 => 0x04 case 3 => 0x08
    case 4 => 0x03 case 5 => 0x06 case 6 => 0x0c case 7 => 0x0b
    case 8 => 0x05 case 9 => 0x0a case 10 => 0x07 case 11 => 0x0e
    case 12 => 0x0f case 13 => 0x0d case 14 => 0x09 case _ => 0x01
  }

  function Log16(v: bv8): int {
    match v
    case 0x00 => 0 case 0x01 => 15 case 0x02 => 1 case 0x03 => 4
    case 0x04 => 2 case 0x05 => 8 case 0x06 => 5 case 0x07 => 10
    case 0x08 => 3 case 0x09 => 14 case 0x0a => 9 case 0x0b => 7
    case 0x0c => 6 case 0x0d => 13 case 0x0e => 11 case _ => 12
  }

  function ExpOf(gf: Galois, i: int): bv8 {
    if gf.Gf16Field? then Exp16(i) else Exp(i)
  }

  function LogOf(gf: Galois, v: bv8): int {
    if gf.Gf16Field? then Log16(v) else Log(v)
  }

  /** The product through the tables, of non-zero elements. */
  function TableProduct(gf: Galois, a: bv8, b: bv8): bv8 {
    ExpOf(gf, (LogOf(gf, a) + LogOf(gf, b)) % Order(gf))
  }

  /** The quotient of berlekamp_massey. */
  function TableQuotient(gf: Galois, d: bv8, b: bv8): bv8 {
    ExpOf(gf, (Order(gf) - LogOf(gf, b) + LogOf(gf, d)) % Order(gf))
  }

  predicate Elem(gf: Galois, v: bv8) {
    gf.Gf16Field? ==> v < 16
  }

  predicate Elems(gf: Galois, s: seq<bv8>) {
    forall i :: 0 <= i < |s| ==> Elem(gf, s[i])
  }

  // ----- GF(16) inside GF(256)

  /** Where an element of GF(16) lies in GF(256): a primitive element goes to the 17th power of the other
      field's, which has the same minimal polynomial x^4 + x + 1. */
  function Inside(v: bv8): bv8 {
    (if v & 1 == 1 then 0x01 else 0) ^ (if v & 2 == 2 then 0x98 else 0)
    ^ (if v & 4 == 4 then 0x4e else 0) ^ (if v & 8 == 8 then 0x0a else 0)
  }

  function Image(gf: Galois, v: bv8): bv8 {
    if gf.Gf16Field? then Inside(v) else v
  }

  function Images(gf: Galois, s: seq<bv8>): (r: seq<bv8>)
    ensures |r| == |s| && forall i :: 0 <= i < |s| ==> r[i] == Image(gf, s[i])
  {
    seq(|s|, i requires 0 <= i < |s| => Image(gf, s[i]))
  }

  lemma SameInGf256(s: seq<bv8>)
    ensures Images(Gf256Field, s) == s && Elems(Gf256Field, s)
  {}

  lemma InsideAdds(a: bv8, b: bv8)
    ensures Inside(a ^ b) == Inside(a) ^ Inside(b)
  {}

  lemma InsideZero(a: bv8)
    requires a < 16
    ensures Inside(a) == 0 <==> a == 0
  {}

  lemma SmallAdds(a: bv8, b: bv8)
    requires a < 16 && b < 16
    ensures a ^ b < 16
  {}

  /** The powers of the primitive element of GF(16), inside GF(256). */
  function Seventeenth(i: int): int {
    match i
    case 0 => 0x01 case 1 => 0x98 case 2 => 0x4e case 3 => 0x0a case 4 => 0x99
    case 5 => 0xd6 case 6 => 0x44 case 7 => 0x93 case 8 => 0x4f case 9 => 0x92
    case 10 => 0xd7 case 11 => 0xdc case 12 => 0xdd case 13 => 0x45 case 14 => 0x0b
    case _ => 0x01
  }

  lemma LowSeventeenth(i: int, k: int)
    requires 0 <= i <= 7 && k == 17 * i
    ensures T.ExpTable(k) == Seventeenth(i)
  {}

  lemma HighSeventeenth(i: int, k: int)
    requires 8 <= i <= 14 && k == 17 * i
    ensures T.ExpTable(k) == Seventeenth(i)
  {}

  lemma SeventeenthIs(i: int)
    requires 0 <= i <= 15
    ensures T.ExpTable(17 * i % 255) == Seventeenth(i)
  {
    hide T.ExpTable;
    if i <= 7 { LowSeventeenth(i, 17 * i); }
    else if i <= 14 { HighSeventeenth(i, 17 * i); }
    else { LowSeventeenth(0, 0); }
  }

  lemma InsideIs(i: int)
    requires 0 <= i <= 15
    ensures 0 < Seventeenth(i) < 256 && Inside(Exp16(i)) == Seventeenth(i) as bv8
  {}

  lemma InsidePower(i: int)
    requires 0 <= i <= 15
    ensures Inside(Exp16(i)) == Alpha(17 * i)
  {
    hide Inside, Exp16, T.ExpTable, Seventeenth;
    SeventeenthIs(i);
    InsideIs(i);
  }

  lemma LogOfPower(i: int)
    requires 0 <= i <= 15
    ensures 0 < Exp16(i) < 16 && Log16(Exp16(i)) == if i == 0 then 15 else i
  {}

  lemma PowerOfLog(v: bv8)
    requires 0 < v < 16
    ensures 1 <= Log16(v) <= 15 && Exp16(Log16(v)) == v
  {}

  lemma LogRange(v: bv8)
    ensures 0 <= Log16(v) <= 15
  {}

  // ----- the tables act as the operations of GF(256)

  lemma ImageZero(gf: Galois, v: bv8)
    requires Elem(gf, v)
    ensures Image(gf, v) == 0 <==> v == 0
  {
    hide Inside;
    if gf.Gf16Field? { InsideZero(v); }
  }

  lemma ImageOne(gf: Galois)
    ensures Image(gf, 0) == 0 && Image(gf, 1) == 1 && Elem(gf, 0) && Elem(gf, 1)
  {}

  lemma ImageAdd(gf: Galois, a: bv8, b: bv8)
    requires Elem(gf, a) && Elem(gf, b)
    ensures Elem(gf, Add(a, b)) && Image(gf, Add(a, b)) == Add(Image(gf, a), Image(gf, b))
  {
    hide Inside;
    InsideAdds(a, b);
    if gf.Gf16Field? { SmallAdds(a, b); }
  }

  /** Any table power of GF(16), with its exponent reduced as the source does, is the power in GF(256). */
  lemma PowerInside(k: int)
    ensures Inside(Exp16(k % 15)) == Alpha(17 * k) && Exp16(k % 15) < 16
  {
    hide Inside, Exp16, Alpha;
    var r, q := k % 15, k / 15;
    InsidePower(r);
    LogOfPower(r);
    AlphaShift(17 * r, q);
    assert 17 * k == 17 * r + 255 * q;
  }

  lemma ImageByLog(v: bv8)
    requires 0 < v < 16
    ensures Inside(v) == Alpha(17 * Log16(v))
  {
    hide Inside, Exp16, Log16, Alpha;
    PowerOfLog(v);
    InsidePower(Log16(v));
  }

  lemma ImageProduct(gf: Galois, a: bv8, b: bv8)
    requires Elem(gf, a) && Elem(gf, b) && a != 0 && b != 0
    ensures Elem(gf, TableProduct(gf, a, b)) && Image(gf, TableProduct(gf, a, b)) == Mul(Image(gf, a), Image(gf, b))
  {
    hide Inside, Exp16, Log16, Alpha, Exp, Log;
    if gf.Gf16Field? {
      ImageByLog(a);
      ImageByLog(b);
      PowerInside(Log16(a) + Log16(b));
      AlphaAdd(17 * Log16(a), 17 * Log16(b));
      hide Mul;
    }
  }

  /** A table lookup with a logarithm that was multiplied by i. */
  lemma ImageTimesPower(gf: Galois, c: bv8, x: bv8, i: nat)
    requires Elem(gf, c) && Elem(gf, x) && c != 0 && x != 0
    ensures var r := ExpOf(gf, (LogOf(gf, c) + LogOf(gf, x) * i) % Order(gf));
      Elem(gf, r) && Image(gf, r) == Mul(Image(gf, c), Pow(Image(gf, x), i))
  {
    hide Inside, Exp16, Log16, Alpha, Exp, Log, Mul, Pow;
    if gf.Gf16Field? {
      ImageByLog(c);
      ImageByLog(x);
      PowerInside(Log16(c) + Log16(x) * i);
      PowAlpha(17 * Log16(x), i);
      AlphaAdd(17 * Log16(c), 17 * Log16(x) * i);
      Scaled(Log16(c), Log16(x), i);
    } else {
      AlphaLog(c);
      AlphaLog(x);
      PowAlpha(Log(x), i);
      AlphaAdd(Log(c), Log(x) * i);
      PlainPower(Log(c) + Log(x) * i);
    }
  }

  lemma PlainPower(k: int)
    ensures Exp(k % 255) == Alpha(k)
  {
    hide Exp;
  }

  lemma Scaled(a: int, b: int, i: int)
    ensures 17 * (a + b * i) == 17 * a + 17 * b * i
  {}

  lemma ImageQuotient(gf: Galois, d: bv8, b: bv8)
    requires Elem(gf, d) && Elem(gf, b) && d != 0 && b != 0
    ensures Elem(gf, TableQuotient(gf, d, b)) && Image(gf, TableQuotient(gf, d, b)) == Div(Image(gf, d), Image(gf, b))
  {
    hide Inside, Exp16, Log16, Alpha, Exp, Log, Mul, Div;
    if gf.Gf16Field? {
      var x, y, k := Inside(d), Inside(b), 15 - Log16(b) + Log16(d);
      ImageByLog(b);
      ImageByLog(d);
      InsideZero(d);
      InsideZero(b);
      PowerInside(k);
      AlphaAdd(17 * k, 17 * Log16(b));
      AlphaShift(17 * Log16(d), 1);
      assert 17 * k + 17 * Log16(b) == 17 * Log16(d) + 255;
      DivMul(x, y);
      MulCancel(y, Div(x, y), Alpha(17 * k));
    } else {
      PlainQuotient(d, b);
    }
  }

  lemma PlainQuotient(d: bv8, b: bv8)
    ensures TableQuotient(Gf256Field, d, b) == Div(d, b)
  {
    hide Exp, Log;
  }

  lemma ImagesAt(gf: Galois, s: seq<bv8>, i: int)
    ensures At(Images(gf, s), i) == Image(gf, At(s, i))
    ensures Elems(gf, s) ==> Elem(gf, At(s, i))
  {
    hide Inside;
    ImageOne(gf);
  }
}
