/** Where the format correction goes wrong: a word with four wrong bits that is near no format word is
    mended into another one, and then the second copy of the format information is never read. */
module FormatMisread {
  import opened Gf256
  import opened Polynomials
  import opened LinearRecurrence
  import opened GaloisField
  import opened ErrorLocator
  import opened FormatInfo
  import opened SymbolReader
  import opened VersionTables
  import R = FormatReader
  import Q = QrSymbol
  import opened FunctionPatterns
  import opened Zigzag
  import SymbolCodec

  // ----- sparse polynomials

  lemma {:induction false} ConvSet(p: seq<bv8>, k: nat, v: bv8, s: seq<bv8>, n: int)
    requires k < |p| && p[k] == 0
    ensures Conv(p[k := v], s, n) == Add(Conv(p, s, n), if k <= n then Mul(v, At(s, n - k)) else 0)
    decreases |p|
  {
    hide Mul, Add, At;
    var r := p[k := v];
    if n < 0 {
      AddZero(0);
    } else if k == 0 {
      assert r[1..] == p[1..];
      MulZero(At(s, n));
      AddZero(Conv(p[1..], s, n - 1));
      AddComm(Mul(v, At(s, n)), Conv(p[1..], s, n - 1));
    } else {
      assert r[1..] == p[1..][k - 1 := v];
      ConvSet(p[1..], k - 1, v, s, n - 1);
      AddAssoc(Mul(p[0], At(s, n)), Conv(p[1..], s, n - 1), if k <= n then Mul(v, At(s, n - k)) else 0);
    }
  }

  lemma {:induction false} EvalSet(p: seq<bv8>, k: nat, v: bv8, x: bv8)
    requires k < |p| && p[k] == 0
    ensures Eval(p[k := v], x) == Add(Eval(p, x), Mul(v, Pow(x, k)))
    decreases |p|
  {
    hide Mul, Add;
    var r, t := p[k := v], p[1..];
    if k == 0 {
      assert r[1..] == t;
      MulOne(v);
      AddZero(Mul(x, Eval(t, x)));
      AddComm(v, Mul(x, Eval(t, x)));
    } else {
      assert r[1..] == t[k - 1 := v];
      EvalSet(t, k - 1, v, x);
      Distrib(x, Eval(t, x), Mul(v, Pow(x, k - 1)));
      MulAssoc(x, v, Pow(x, k - 1));
      MulComm(x, v);
      MulAssoc(v, x, Pow(x, k - 1));
      AddAssoc(p[0], Mul(x, Eval(t, x)), Mul(v, Pow(x, k)));
    }
  }

  lemma UnitPolynomial(s: seq<bv8>, n: nat, x: bv8)
    ensures Conv(Unit(), s, n) == At(s, n) && Eval(Unit(), x) == 1
  {
    hide Mul, Add, At;
    var z := seq(MAX_POLY, _ => 0);
    assert z[0 := 1] == Unit();
    ConvSet(z, 0, 1, s, n);
    ConvVanish(z, s, n);
    EvalSet(z, 0, 1, x);
    EvalAllZero(z, x);
    MulOne(At(s, n));
    MulOne(1);
    AddZero(At(s, n));
    AddZero(1);
  }

  // ----- powers of the primitive element of GF(16)

  function Beta(k: int): bv8 {
    Alpha(17 * k)
  }

  lemma BetaMul(j: int, k: int)
    ensures Mul(Beta(j), Beta(k)) == Beta(j + k)
  {
    hide Alpha, Mul;
    AlphaAdd(17 * j, 17 * k);
  }

  lemma BetaPow(j: int, n: nat)
    ensures Pow(Beta(j), n) == Beta(j * n)
  {
    hide Alpha, Pow;
    PowAlpha(17 * j, n);
    assert 17 * j * n == 17 * (j * n);
  }

  lemma BetaCycle(k: int)
    ensures Beta(k + 15) == Beta(k) && Beta(k) != 0
  {
    hide Alpha;
    AlphaShift(17 * k, 1);
    AlphaNonzero(17 * k);
  }

  lemma BetaIs(k: int)
    ensures Beta(k) == Inside(Exp16(k % 15))
  {
    hide Alpha, Inside, Exp16;
    PowerInside(k);
  }

  lemma BetaDiv(j: int, k: int)
    ensures Div(Beta(j), Beta(k)) == Beta(j - k)
  {
    hide Alpha, Mul, Div;
    BetaCycle(j);
    BetaCycle(k);
    DivMul(Beta(j), Beta(k));
    BetaMul(j - k, k);
    MulCancel(Beta(k), Div(Beta(j), Beta(k)), Beta(j - k));
  }

  // ----- the word

  /** 0x00d1, the lowest bit first. */
  const RECEIVED_BITS := [true, false, false, false, true, false, true, true, false, false, false, false, false, false, false]

  /** Its syndromes are beta^8, beta, beta^9, beta^2, 0 and beta^3. */
  function ReceivedSyndrome(n: nat): bv8 {
    if n == 0 then Beta(8) else if n == 1 then Beta(1) else if n == 2 then Beta(9)
    else if n == 3 then Beta(2) else if n == 5 then Beta(3) else 0
  }

  function FourTerms(n: nat): bv8 {
    Add(Add(Add(Add(0, Exp16((n + 1) * 0 % 15)), Exp16((n + 1) * 4 % 15)), Exp16((n + 1) * 6 % 15)), Exp16((n + 1) * 7 % 15))
  }

  lemma ReceivedSum(n: nat)
    ensures R.Sum16(RECEIVED_BITS, FORMAT_BITS, n) == FourTerms(n)
  {
    hide Add, Exp16, R.Sum16;
    var g := RECEIVED_BITS;
    R.NoSum(g, n);
    R.SumStep(g, 0, n);
    R.SumStep(g, 1, n);
    R.SumStep(g, 2, n);
    R.SumStep(g, 3, n);
    R.SumStep(g, 4, n);
    R.SumStep(g, 5, n);
    R.SumStep(g, 6, n);
    R.SumStep(g, 7, n);
    R.SumStep(g, 8, n);
    R.SumStep(g, 9, n);
    R.SumStep(g, 10, n);
    R.SumStep(g, 11, n);
    R.SumStep(g, 12, n);
    R.SumStep(g, 13, n);
    R.SumStep(g, 14, n);
  }

  lemma FourTermsAre(n: nat)
    requires n < FORMAT_SYNDROMES
    ensures FourTerms(n) == if n == 0 then 5 else if n == 1 then 2 else if n == 2 then 10 else if n == 3 then 4 else if n == 4 then 0 else 8
  {
    R.Powers16();
    hide Exp16;
    if {
      case n == 0 =>
      case n == 1 =>
      case n == 2 =>
      case n == 3 =>
      case n == 4 =>
      case n == 5 =>
    }
  }

  lemma SyndromesAre(n: nat)
    requires n < FORMAT_SYNDROMES
    ensures Syndromes(RECEIVED_BITS)[n] == ReceivedSyndrome(n)
  {
    hide Syndrome, Word, R.Sum16, Inside, Beta, Exp16, FourTerms;
    R.SumIsSyndrome(RECEIVED_BITS, FORMAT_BITS, n);
    ReceivedSum(n);
    FourTermsAre(n);
    R.Powers16();
    BetaIs(8);
    BetaIs(1);
    BetaIs(9);
    BetaIs(2);
    BetaIs(3);
    ImageOne(Gf16Field);
  }

  // ----- the search on its syndromes

  function First(): (p: seq<bv8>)
    ensures |p| == MAX_POLY
  {
    Unit()[1 := Beta(8)]
  }

  function Second(): (p: seq<bv8>)
    ensures |p| == MAX_POLY
  {
    First()[4 := Beta(2)]
  }

  lemma ConvFirst(s: seq<bv8>, n: nat)
    ensures Conv(First(), s, n) == Add(At(s, n), if n >= 1 then Mul(Beta(8), At(s, n - 1)) else 0)
  {
    hide Mul, Add, At, Beta, Unit, Conv;
    UnitPolynomial(s, n, 0);
    ConvSet(Unit(), 1, Beta(8), s, n);
  }

  lemma ConvSecond(s: seq<bv8>, n: nat)
    requires n >= 4
    ensures Conv(Second(), s, n) == Add(Add(At(s, n), Mul(Beta(8), At(s, n - 1))), Mul(Beta(2), At(s, n - 4)))
  {
    hide Mul, Add, At, Beta, Unit, Conv;
    ConvFirst(s, n);
    ConvSet(First(), 4, Beta(2), s, n);
  }

  /** Adding a multiple of a shifted unit polynomial sets one coefficient. */
  lemma CorrectionSets(c: seq<bv8>, v: bv8, m: nat)
    requires |c| == MAX_POLY && m < MAX_POLY && c[m] == 0
    ensures Correction(c, Unit(), v, m) == c[m := v]
  {
    hide Mul, Add;
    MulOne(v);
    MulZero(v);
    AddZero(v);
    forall i | 0 <= i < MAX_POLY ensures Correction(c, Unit(), v, m)[i] == c[m := v][i] {
      AddZero(c[i]);
    }
  }

  lemma SyndromeAt(n: nat)
    requires n < FORMAT_SYNDROMES
    ensures At(Syndromes(RECEIVED_BITS), n) == ReceivedSyndrome(n)
  {
    hide Syndrome, Word, Beta;
    SyndromesAre(n);
  }

  lemma UnitFirsts()
    ensures Unit()[0] == 1 && Unit()[1] == 0 && Found([], 0) == Search(Unit(), Unit(), 0, 1, 1)
  {}

  lemma FirstStep(s: seq<bv8>)
    requires Conv(Unit(), s, 0) == Beta(8)
    ensures Advance(s, 0, Search(Unit(), Unit(), 0, 1, 1)) == Search(First(), Unit(), 1, 1, Beta(8))
  {
    hide Conv, Mul, Add, At, Beta, Div, Correction, Unit;
    BetaCycle(8);
    BetaZero();
    BetaDiv(8, 0);
    UnitFirsts();
    CorrectionSets(Unit(), Beta(8), 1);
  }

  lemma FoundOne()
    ensures Found(Syndromes(RECEIVED_BITS), 1) == Search(First(), Unit(), 1, 1, Beta(8))
  {
    hide Conv, Mul, Add, At, Beta, Div, Correction, Unit, Advance, First, Syndromes;
    var s := Syndromes(RECEIVED_BITS);
    SyndromeAt(0);
    UnitPolynomial(s, 0, 0);
    FirstStep(s);
    FoundNext(s, 0);
  }

  lemma BetaZero()
    ensures Beta(0) == 1
  {
    hide Alpha;
    AlphaZeroOne();
  }

  /** The next three terms are as predicted. */
  lemma FoundFour(n: nat)
    requires 1 <= n <= 4
    ensures Found(Syndromes(RECEIVED_BITS), n) == Search(First(), Unit(), 1, n, Beta(8))
    decreases n
  {
    hide Conv, Mul, Add, At, Beta, Div, Correction, Unit, First;
    if n == 1 {
      FoundOne();
    } else {
      FoundFour(n - 1);
      Predicted(n - 1);
      FoundNext(Syndromes(RECEIVED_BITS), n - 1);
    }
  }

  lemma Predicted(n: nat)
    requires 1 <= n <= 3
    ensures Conv(First(), Syndromes(RECEIVED_BITS), n) == 0
  {
    hide Conv, Mul, Add, At, Beta, First;
    var s := Syndromes(RECEIVED_BITS);
    SyndromeAt(n);
    SyndromeAt(n - 1);
    ConvFirst(s, n);
    BetaMul(8, 8);
    BetaMul(8, 1);
    BetaMul(8, 9);
    BetaCycle(1);
    BetaCycle(2);
    AddCancel(ReceivedSyndrome(n), ReceivedSyndrome(n));
  }

  lemma FoundFive()
    ensures Found(Syndromes(RECEIVED_BITS), 5) == Search(Second(), First(), 4, 1, Beta(10))
  {
    hide Conv, Mul, Add, At, Beta, Div, Correction;
    var s := Syndromes(RECEIVED_BITS);
    FoundFour(4);
    SyndromeAt(4);
    SyndromeAt(3);
    ConvFirst(s, 4);
    BetaMul(8, 2);
    AddZero(Beta(10));
    BetaCycle(10);
    BetaDiv(10, 8);
    CorrectionSets(First(), Beta(2), 4);
    FoundNext(s, 4);
  }

  lemma FoundSix()
    ensures Found(Syndromes(RECEIVED_BITS), FORMAT_SYNDROMES).c == Second()
  {
    hide Conv, Mul, Add, At, Beta, Div, Correction, First, Second;
    var s := Syndromes(RECEIVED_BITS);
    FoundFive();
    SyndromeAt(5);
    SyndromeAt(4);
    SyndromeAt(1);
    ConvSecond(s, 5);
    BetaMul(2, 1);
    MulZero(Beta(8));
    AddZero(Beta(3));
    AddCancel(Beta(3), Beta(3));
    FoundNext(s, 5);
  }

  // ----- its roots

  lemma EvalSecond(i: int)
    ensures Eval(Second(), Alpha(-17 * i)) == Add(Add(1, Beta(8 - i)), Beta(2 - 4 * i))
  {
    hide Mul, Add, Eval, Unit, Pow, Alpha;
    var x := Beta(-i);
    assert x == Alpha(-17 * i);
    UnitPolynomial([], 0, x);
    assert Unit()[1] == 0 && First()[4] == 0;
    hide Beta;
    EvalSet(Unit(), 1, Beta(8), x);
    EvalSet(First(), 4, Beta(2), x);
    BetaPow(-i, 1);
    BetaPow(-i, 4);
    BetaMul(8, -i);
    BetaMul(2, -4 * i);
  }

  lemma RootsOfSecond(i: nat)
    requires i in {0, 4, 6, 7}
    ensures Eval(Second(), Alpha(-17 * i)) == 0
  {
    hide Beta, Alpha, Eval, Second, Inside;
    EvalSecond(i);
    BetaIs(8 - i);
    BetaIs(2 - 4 * i);
    R.Powers16();
    TripleSums();
    hide Exp16, Add;
    if {
      case i == 0 =>
      case i == 4 =>
      case i == 6 =>
      case i == 7 =>
    }
  }

  lemma TripleSums()
    ensures Add(Add(1, Inside(5)), Inside(4)) == 0 && Add(Add(1, Inside(3)), Inside(2)) == 0
    ensures Add(Add(1, Inside(4)), Inside(5)) == 0 && Add(Add(1, Inside(2)), Inside(3)) == 0
  {}

  lemma RootAtSet(k: nat)
    requires k < 255 && Word(RECEIVED_BITS, FORMAT_BITS)[k] != 0
    ensures Eval(Second(), Inverse(Word(RECEIVED_BITS, FORMAT_BITS), k)) == 0
  {
    hide Alpha, Eval, Word, Second;
    WordEntry(RECEIVED_BITS, FORMAT_BITS, 254 - k);
    var j: nat := (254 - k) / 17;
    assert 254 - k == 17 * j;
    assert RECEIVED_BITS[j];
    RootsOfSecond(j);
  }

  /** The four bits are flipped and no other, and nothing is left. */
  lemma AllFlipped(i: nat)
    requires i < FORMAT_BITS
    ensures !Flipped(RECEIVED_BITS)[i]
  {
    hide Alpha, Eval, Word, Weight, Found, Beta;
    FoundSix();
    var sigma, w := Second(), Word(RECEIVED_BITS, FORMAT_BITS);
    forall k | 0 <= k < 255 && w[k] != 0 ensures Eval(sigma, Inverse(w, k)) == 0 {
      RootAtSet(k);
    }
    WordWeight(RECEIVED_BITS, FORMAT_BITS);
    FourSet();
    RootAt(RECEIVED_BITS, sigma, 4, i);
  }

  lemma FourSet()
    ensures Count(RECEIVED_BITS, FORMAT_BITS) == 4
  {
    hide Count;
    FiveMore(RECEIVED_BITS, 0, 0);
    FiveMore(RECEIVED_BITS, 5, 2);
    FiveMore(RECEIVED_BITS, 10, 4);
  }

  // ----- the word that was written

  /** 0x48f5, the lowest bit first. */
  const WRITTEN_BITS := [true, false, true, false, true, true, true, true, false, false, false, true, false, false, true]

  lemma RemainderNext(rem: bv16, next: bv16, n: nat)
    requires next == R.NextRemainder(rem)
    ensures Q.FormatRemainder(rem, n + 1) == Q.FormatRemainder(next, n)
  {
    assert R.NextRemainder(rem) == (rem << 1) ^ ((rem >> 9) * 0x537);
    hide R.NextRemainder;
  }

  lemma CodeWordIs()
    ensures R.CodeWord(High, 2) == 0x48f5
  {
    hide Q.FormatRemainder;
    RemainderNext(0x12, 0x24, 9);
    RemainderNext(0x24, 0x48, 8);
    RemainderNext(0x48, 0x90, 7);
    RemainderNext(0x90, 0x120, 6);
    RemainderNext(0x120, 0x240, 5);
    RemainderNext(0x240, 0x1b7, 4);
    RemainderNext(0x1b7, 0x36e, 3);
    RemainderNext(0x36e, 0x3eb, 2);
    RemainderNext(0x3eb, 0x2e1, 1);
    RemainderNext(0x2e1, 0xf5, 0);
    NoRemainder(0xf5);
    assert R.DataBits(High, 2) == 0x12;
  }

  lemma NoRemainder(rem: bv16)
    ensures Q.FormatRemainder(rem, 0) == rem
  {}

  lemma WrittenBits()
    ensures R.Bits(R.CodeWord(High, 2), FORMAT_BITS) == WRITTEN_BITS
  {
    hide R.Odd, R.Half, R.Bits, R.CodeWord;
    CodeWordIs();
    R.NoBits(0);
    R.OneBit(0x1, 0x0, true, 0);
    R.OneBit(0x2, 0x1, false, 1);
    R.OneBit(0x4, 0x2, false, 2);
    R.OneBit(0x9, 0x4, true, 3);
    R.OneBit(0x12, 0x9, false, 4);
    R.OneBit(0x24, 0x12, false, 5);
    R.OneBit(0x48, 0x24, false, 6);
    R.OneBit(0x91, 0x48, true, 7);
    R.OneBit(0x123, 0x91, true, 8);
    R.OneBit(0x247, 0x123, true, 9);
    R.OneBit(0x48f, 0x247, true, 10);
    R.OneBit(0x91e, 0x48f, false, 11);
    R.OneBit(0x123d, 0x91e, true, 12);
    R.OneBit(0x247a, 0x123d, false, 13);
    R.OneBit(0x48f5, 0x247a, true, 14);
  }

  const WRONG_BITS := [false, false, true, false, false, true, false, false, false, false, false, true, false, false, true]

  lemma FourCounted()
    ensures Count(WRONG_BITS, FORMAT_BITS) == 4
  {
    hide Count;
    FiveMore(WRONG_BITS, 0, 0);
    FiveMore(WRONG_BITS, 5, 1);
    FiveMore(WRONG_BITS, 10, 2);
  }

  lemma CountNext(e: seq<bool>, m: nat)
    requires m < |e|
    ensures Count(e, m + 1) == Count(e, m) + if e[m] then 1 else 0
  {}

  lemma FiveMore(e: seq<bool>, m: nat, n: nat)
    requires m + 5 <= |e| && (m == 0 || Count(e, m) == n) && (m == 0 ==> n == 0)
    ensures Count(e, m + 5) == n + (if e[m] then 1 else 0) + (if e[m + 1] then 1 else 0) + (if e[m + 2] then 1 else 0)
      + (if e[m + 3] then 1 else 0) + if e[m + 4] then 1 else 0
  {
    assert m == 0 ==> Count(e, m) == 0;
    hide Count;
    CountNext(e, m);
    CountNext(e, m + 1);
    CountNext(e, m + 2);
    CountNext(e, m + 3);
    CountNext(e, m + 4);
  }

  lemma DifferentAt(i: nat)
    requires i < FORMAT_BITS
    ensures (RECEIVED_BITS[i] != WRITTEN_BITS[i]) == WRONG_BITS[i]
  {
    if {
      case i == 0 =>
      case i == 1 =>
      case i == 2 =>
      case i == 3 =>
      case i == 4 =>
      case i == 5 =>
      case i == 6 =>
      case i == 7 =>
      case i == 8 =>
      case i == 9 =>
      case i == 10 =>
      case i == 11 =>
      case i == 12 =>
      case i == 13 =>
      case i == 14 =>
    }
  }

  lemma FourWrong()
    ensures Errors(RECEIVED_BITS, WRITTEN_BITS) == 4
  {
    hide Count;
    FourCounted();
    forall i | 0 <= i < FORMAT_BITS ensures Differing(RECEIVED_BITS, WRITTEN_BITS)[i] == WRONG_BITS[i] {
      DifferentAt(i);
    }
    assert Differing(RECEIVED_BITS, WRITTEN_BITS) == WRONG_BITS;
  }

  // ----- what is made of it

  const BLANK: seq<bool> := seq(FORMAT_BITS, _ => false)

  lemma BlankIsFormat()
    ensures IsFormat(BLANK)
  {
    hide Syndrome, Word;
    forall n | 0 <= n < FORMAT_SYNDROMES ensures Syndrome(Word(BLANK, FORMAT_BITS), n) == 0 {
      R.EmptyWord(BLANK, FORMAT_BITS, n);
    }
  }

  /** The word is mended into the zero word, and so it is accepted. */
  lemma MendedToBlank()
    ensures !IsFormat(RECEIVED_BITS) && Mended(RECEIVED_BITS) == BLANK && Accepted(RECEIVED_BITS)
  {
    hide Flipped, Syndrome, Word, Beta;
    SyndromesAre(0);
    BetaCycle(8);
    forall i | 0 <= i < FORMAT_BITS ensures Flipped(RECEIVED_BITS)[i] == BLANK[i] {
      AllFlipped(i);
    }
    assert Flipped(RECEIVED_BITS) == BLANK;
    BlankIsFormat();
  }

  /** The word is further than three bits from every format word. */
  lemma FarFromAll(c: seq<bool>)
    requires |c| == FORMAT_BITS && IsFormat(c)
    ensures Errors(RECEIVED_BITS, c) > 3
  {
    hide IsFormat, Mended, Accepted, Errors;
    MendedToBlank();
    if Errors(RECEIVED_BITS, c) <= 3 {
      MendedWithinThree(RECEIVED_BITS, c);
      BlankFar();
    }
  }

  lemma BlankFar()
    ensures Errors(RECEIVED_BITS, BLANK) == 4
  {
    FourSet();
    assert Differing(RECEIVED_BITS, BLANK) == RECEIVED_BITS;
  }

  /** The first copy shows the word and the second that of level High and mask 2: no format word is within
      three bits of the first copy, yet it is accepted, and the decoder goes on with level Medium and mask 0. */
  lemma IntactCopyIgnored(code: QuircCode)
    requires code.Complete() && 21 <= code.size
    requires R.Copy(code, false) == RECEIVED_BITS && R.Copy(code, true) == WRITTEN_BITS
    ensures forall c :: |c| == FORMAT_BITS && IsFormat(c) ==> Errors(R.Copy(code, false), c) > 3
    ensures R.FirstDecides(code) && SymbolCodec.FormatRead(code) == R.Format(Medium, 0)
  {
    hide IsFormat, Mended, Accepted, Errors, R.Copy;
    MendedToBlank();
    forall c | |c| == FORMAT_BITS && IsFormat(c) ensures Errors(R.Copy(code, false), c) > 3 {
      FarFromAll(c);
    }
  }

  // ----- a symbol with four wrong modules

  /** The modules of bits 2, 5, 11 and 14 of the first copy. */
  const WRONG_MODULES: set<Cell> := {Cell(2, 8), Cell(5, 8), Cell(8, 3), Cell(8, 0)}

  ghost function FourInverted(g: Modules): (h: Modules)
    ensures h.Keys == g.Keys && forall c :: c in g ==> h[c] == (g[c] != (c in WRONG_MODULES))
  {
    map c | c in g :: g[c] != (c in WRONG_MODULES)
  }

  lemma WrongCells(size: int, second: bool, i: int)
    requires 21 <= size && 0 <= i < FORMAT_BITS
    ensures R.CopyCell(size, second, i) in WRONG_MODULES <==> !second && WRONG_BITS[i]
  {}

  lemma CopyBit(code: QuircCode, second: bool, i: nat)
    requires code.Complete() && 21 <= code.size && i < FORMAT_BITS
    ensures R.Copy(code, second)[i] == (R.Shown(code, second)[i] != R.Bits(R.FORMAT_MASK, FORMAT_BITS)[i])
  {
    hide R.Shown, R.Bits;
  }

  lemma ShownBit(g: Modules, size: nat, second: bool, i: nat)
    requires 21 <= size && i < FORMAT_BITS && forall c :: InGrid(size, c) ==> c in g
    ensures R.CopyCell(size, second, i) in g && R.Shown(CaptureOf(g, size), second)[i] == g[R.CopyCell(size, second, i)]
  {
    hide R.CopyCell, GridBit, CaptureOf;
    R.CopyInGrid(size, second, i);
    CaptureShows(g, size);
  }

  lemma DamagedBit(g: Modules, size: nat, second: bool, i: nat)
    requires 21 <= size && i < FORMAT_BITS && forall c :: InGrid(size, c) ==> c in g
    ensures R.Copy(CaptureOf(FourInverted(g), size), second)[i] == (R.Copy(CaptureOf(g, size), second)[i] != (!second && WRONG_BITS[i]))
  {
    hide R.CopyCell, R.Shown, R.Bits, R.Copy, CaptureOf;
    CopyBit(CaptureOf(g, size), second, i);
    CopyBit(CaptureOf(FourInverted(g), size), second, i);
    ShownBit(g, size, second, i);
    ShownBit(FourInverted(g), size, second, i);
    WrongCells(size, second, i);
  }

  /** An exact capture of any symbol of level High under mask 2, but for four modules of the first copy: the
      second copy is the symbol's own format word, and the decoder goes by level Medium and mask 0. */
  lemma FourWrongModules(g: Modules, size: nat)
    requires 21 <= size && (forall c :: InGrid(size, c) ==> c in g) && SymbolCodec.FormatOn(g, size, R.Format(High, 2))
    ensures var code := CaptureOf(FourInverted(g), size);
      && R.Copy(code, true) == SymbolCodec.FormatWord(R.Format(High, 2))
      && SymbolCodec.FormatRead(code) == R.Format(Medium, 0)
  {
    hide R.Copy, CaptureOf, Shows, SymbolCodec.FormatRead, SymbolCodec.FormatOn, R.Bits, R.CodeWord, IsFormat;
    var code := CaptureOf(FourInverted(g), size);
    CaptureShows(g, size);
    SymbolCodec.FormatShown(CaptureOf(g, size), g, R.Format(High, 2));
    WrittenBits();
    forall second, i: nat | i < FORMAT_BITS
      ensures R.Copy(code, second)[i] == (if second then WRITTEN_BITS else RECEIVED_BITS)[i]
    {
      DamagedBit(g, size, second, i);
    }
    assert R.Copy(code, true) == WRITTEN_BITS;
    assert R.Copy(code, false) == RECEIVED_BITS;
    IntactCopyIgnored(code);
  }
}
