/** Error correction of one Reed-Solomon block, as 3rdparty/quirc/decode.c does it in place. */
module BlockDecoder {
  import opened Gf256
  import opened Polynomials
  import opened LinearRecurrence
  import opened GaloisField
  import opened ErrorLocator
  import F = Forney
  import V = ErrorValues

  /** A word is a codeword when its first npar syndromes vanish. */
  ghost predicate IsCodeword(d: seq<bv8>, npar: nat) {
    forall n :: 0 <= n < npar ==> Syndrome(d, n) == 0
  }

  /** The difference of two words of the same length. */
  function Difference(d: seq<bv8>, c: seq<bv8>): (e: seq<bv8>)
    requires |d| == |c|
    ensures |e| == |d| && forall k :: 0 <= k < |d| ==> e[k] == Add(d[k], c[k])
  {
    seq(|d|, k requires 0 <= k < |d| => Add(d[k], c[k]))
  }

  /** In how many places two words differ. */
  function Distance(d: seq<bv8>, c: seq<bv8>): nat
    requires |d| == |c|
  {
    Weight(Difference(d, c))
  }

  // ----- evaluating and multiplying polynomials in buffers

  /** poly_eval, over either field. */
  method PolyEval(gf: Galois, s: array<bv8>, x: bv8) returns (sum: bv8)
    requires s.Length == MAX_POLY && Elems(gf, s[..]) && Elem(gf, x)
    ensures Elem(gf, sum) && Image(gf, sum) == Eval(Images(gf, s[..]), Image(gf, x))
  {
    hide Mul, Add, Eval, Pow, LogOf, ExpOf, Image, Elem;
    ghost var p, z := Images(gf, s[..]), Image(gf, x);
    ImageOne(gf);
    if x == 0 {
      EvalAtZero(p);
      return s[0];
    }
    sum := 0;
    assert Eval(p[..0], z) == 0 by { EvalAllZero(p[..0], z); }
    var log_x := LogOf(gf, x);
    for i := 0 to MAX_POLY
      invariant Elem(gf, sum) && Image(gf, sum) == Eval(p[..i], z)
    {
      var c := s[i];
      assert p[..i + 1] == p[..i] + [p[i]];
      EvalAppend(p[..i], p[i], z);
      EvalTerm(gf, sum, c, x, i);
      if c != 0 {
        sum := Add(sum, ExpOf(gf, (LogOf(gf, c) + log_x * i) % Order(gf)));
      }
    }
    assert p[..MAX_POLY] == p;
  }

  lemma EvalTerm(gf: Galois, sum: bv8, c: bv8, x: bv8, i: nat)
    requires Elem(gf, sum) && Elem(gf, c) && Elem(gf, x) && x != 0
    ensures var r := if c != 0 then Add(sum, ExpOf(gf, (LogOf(gf, c) + LogOf(gf, x) * i) % Order(gf))) else sum;
      Elem(gf, r) && Image(gf, r) == Add(Image(gf, sum), Mul(Image(gf, c), Pow(Image(gf, x), i)))
  {
    hide Mul, Add, Pow, LogOf, ExpOf, Image, Elem;
    if c != 0 {
      ImageTimesPower(gf, c, x, i);
      ImageAdd(gf, sum, ExpOf(gf, (LogOf(gf, c) + LogOf(gf, x) * i) % Order(gf)));
    } else {
      ImageOne(gf);
      MulZero(Pow(Image(gf, x), i));
      AddZero(Image(gf, sum));
    }
  }

  /** poly_eval over GF(256). */
  method Evaluate(s: array<bv8>, x: bv8) returns (sum: bv8)
    requires s.Length == MAX_POLY
    ensures sum == Eval(s[..], x)
  {
    hide Eval;
    SameInGf256(s[..]);
    sum := PolyEval(Gf256Field, s, x);
  }

  lemma EvalAtZero(p: seq<bv8>)
    requires p != []
    ensures Eval(p, 0) == p[0]
  {
    hide Mul, Add;
    MulZero(Eval(p[1..], 0));
    AddZero(p[0]);
  }

  /** The table lookup that multiplies by a power given through a logarithm. */
  lemma TableShift(c: bv8, k: int)
    requires c != 0
    ensures Exp((Log(c) + k) % 255) == Mul(c, Alpha(k))
  {
    hide Exp, Log, Mul;
    AlphaLog(c);
    AlphaAdd(Log(c), k);
  }

  lemma ProductOfTables(v: bv8, c: bv8)
    requires v != 0 && c != 0
    ensures Exp((Log(v) + Log(c)) % 255) == Mul(v, c)
  {
    hide Exp, Log;
  }

  method ElocPoly(omega: array<bv8>, s: array<bv8>, sigma: array<bv8>, npar: nat)
    requires omega.Length == s.Length == sigma.Length == MAX_POLY && npar < MAX_POLY
    requires omega != s && omega != sigma
    modifies omega
    ensures forall u :: 0 <= u < MAX_POLY ==> omega[u] == if u < npar then Conv(sigma[..], s[1..], u) else 0
  {
    hide Mul, Add, Conv;
    ghost var c, x := sigma[..], s[1..];
    forall i | 0 <= i < MAX_POLY {
      omega[i] := 0;
    }
    assert forall u :: 0 <= u < npar ==> Conv(c[..0], x, u) == 0 by { ConvEmpty(x); }
    for i := 0 to npar
      invariant sigma[..] == c && s[1..] == x
      invariant forall u :: 0 <= u < MAX_POLY ==> omega[u] == if u < npar then Conv(c[..i], x, u) else 0
    {
      AddRow(omega, s, sigma[i], i, npar, c, x);
    }
    forall u | 0 <= u < npar
      ensures Conv(c, x, u) == Conv(c[..npar], x, u)
    {
      ConvTrim'(c, npar, x, u);
    }
  }

  lemma ConvEmpty(x: seq<bv8>)
    ensures forall u :: Conv([], x, u) == 0
  {}

  /** Coefficients beyond the degree asked for do not matter. */
  lemma {:induction false} ConvTrim'(a: seq<bv8>, k: nat, b: seq<bv8>, n: int)
    requires n < k <= |a|
    ensures Conv(a, b, n) == Conv(a[..k], b, n)
    decreases |a|
  {
    hide Mul, Add;
    if n >= 0 {
      assert a[..k][1..] == a[1..][..k - 1];
      ConvTrim'(a[1..], k - 1, b, n - 1);
    }
  }

  /** One pass of eloc_poly's outer loop: adds `a x^i` times the syndromes from the second on. */
  method AddRow(omega: array<bv8>, s: array<bv8>, a: bv8, i: nat, npar: nat, ghost c: seq<bv8>, ghost x: seq<bv8>)
    requires omega.Length == s.Length == MAX_POLY && omega != s && i < npar < MAX_POLY
    requires |c| == MAX_POLY && c[i] == a && x == s[1..]
    requires forall u :: 0 <= u < MAX_POLY ==> omega[u] == if u < npar then Conv(c[..i], x, u) else 0
    modifies omega
    ensures forall u :: 0 <= u < MAX_POLY ==> omega[u] == if u < npar then Conv(c[..i + 1], x, u) else 0
  {
    hide Mul, Add, Conv, Log, Exp;
    assert c[..i + 1] == c[..i] + [a];
    forall u | 0 <= u < npar
      ensures Conv(c[..i + 1], x, u) == Add(Conv(c[..i], x, u), if i <= u then Mul(a, At(x, u - i)) else 0)
    {
      ConvAppend(c[..i], a, x, u);
    }
    forall u | 0 <= u < npar && (u < i || a == 0 || At(x, u - i) == 0)
      ensures Conv(c[..i + 1], x, u) == Conv(c[..i], x, u)
    {
      MulZero(a);
      MulZero(At(x, u - i));
      AddZero(Conv(c[..i], x, u));
    }
    if a == 0 {
      return;
    }
    var log_a := Log(a);
    var j := 0;
    while j + 1 < MAX_POLY && i + j < npar
      invariant 0 <= j && i + j <= npar && s[1..] == x
      invariant forall u :: npar <= u < MAX_POLY ==> omega[u] == 0
      invariant forall u :: 0 <= u < i + j ==> omega[u] == Conv(c[..i + 1], x, u)
      invariant forall u :: i + j <= u < npar ==> omega[u] == Conv(c[..i], x, u)
    {
      var b := s[j + 1];
      assert At(x, j) == b;
      if b != 0 {
        omega[i + j] := Add(omega[i + j], Exp((log_a + Log(b)) % 255));
        ProductOfTables(a, b);
      }
      j := j + 1;
    }
  }

  // ----- syndromes

  /** Computes the first npar syndromes of the block of bs bytes at off, and whether any is nonzero. */
  method BlockSyndromes(data: array<bv8>, off: nat, bs: nat, npar: nat, s: array<bv8>) returns (nonzero: bool)
    requires off + bs <= data.Length && s.Length == MAX_POLY && npar <= MAX_POLY && data != s
    modifies s
    ensures forall i :: 0 <= i < npar ==> s[i] == Syndrome(data[off..off + bs], i)
    ensures nonzero <==> !IsCodeword(data[off..off + bs], npar)
  {
    hide Syndrome;
    nonzero := false;
    ghost var d := data[off..off + bs];
    forall i | 0 <= i < MAX_POLY {
      s[i] := 0;
    }
    for i := 0 to npar
      invariant data[off..off + bs] == d
      invariant forall k :: 0 <= k < i ==> s[k] == Syndrome(d, k)
      invariant nonzero <==> exists k :: 0 <= k < i && s[k] != 0
      invariant forall k :: i <= k < MAX_POLY ==> s[k] == 0
    {
      var v := OneSyndrome(data, off, bs, i);
      s[i] := v;
      if s[i] != 0 {
        nonzero := true;
      }
    }
  }

  /** The inner loop of block_syndromes. */
  method OneSyndrome(data: array<bv8>, off: nat, bs: nat, i: nat) returns (v: bv8)
    requires off + bs <= data.Length
    ensures v == Syndrome(data[off..off + bs], i)
  {
    hide Mul, Add, Alpha, Log, Exp;
    ghost var d := data[off..off + bs];
    v := 0;
    for j := 0 to bs
      invariant v == Syndrome(d[bs - j..], i)
    {
      var c := data[off + bs - j - 1];
      ghost var t := d[bs - j - 1..];
      assert t[1..] == d[bs - j..] && t[0] == c;
      assert Syndrome(t, i) == Add(Mul(c, Alpha(i * j)), v);
      if c != 0 {
        v := Add(v, Exp((Log(c) + i * j) % 255));
        TableShift(c, i * j);
        AddComm(Mul(c, Alpha(i * j)), Syndrome(d[bs - j..], i));
      } else {
        MulZero(Alpha(i * j));
        AddZero(v);
      }
    }
    assert d[0..] == d;
  }

  // ----- the correction

  /** The derivative that correct_block computes from sigma. */
  method SigmaDerivative(sigma: array<bv8>, deriv: array<bv8>)
    requires sigma.Length == deriv.Length == MAX_POLY && sigma != deriv
    modifies deriv
    ensures deriv[..] == F.Derivative(sigma[..])
  {
    forall i | 0 <= i < MAX_POLY {
      deriv[i] := 0;
    }
    var i := 0;
    while i + 1 < MAX_POLY
      invariant 0 <= i <= MAX_POLY && i % 2 == 0
      invariant forall k :: 0 <= k < MAX_POLY ==>
        deriv[k] == if k < i && k % 2 == 0 then At(sigma[..], k + 1) else 0
    {
      deriv[i] := sigma[i + 1];
      i := i + 2;
    }
  }

  /** What the correction loop works with: for every place of the block, sigma vanishes there exactly
      when the place is in error, and then the evaluator and the derivative give the error. */
  ghost predicate Solved(e: seq<bv8>, sigma: seq<bv8>, deriv: seq<bv8>, omega: seq<bv8>) {
    forall k :: 0 <= k < |e| ==>
      && (Eval(sigma, Inverse(e, k)) == 0 <==> e[k] != 0)
      && (e[k] != 0 ==> Div(Eval(omega, Inverse(e, k)), Eval(deriv, Inverse(e, k))) == e[k])
  }

  /** Corrects the block of bs bytes at off in place, of which the last bs - dw are parity bytes.
      Whatever codeword is at most half the parity away from the block, the block becomes it. */
  method CorrectBlock(data: array<bv8>, off: nat, bs: nat, dw: nat) returns (ok: bool)
    requires off + bs <= data.Length && dw <= bs <= 255 && bs - dw <= MAX_POLY
    modifies data
    ensures data[..off] == old(data[..off]) && data[off + bs..] == old(data[off + bs..])
    ensures ok ==> IsCodeword(data[off..off + bs], bs - dw)
    ensures old(IsCodeword(data[off..off + bs], bs - dw)) ==> ok && data[..] == old(data[..])
    ensures forall c | |c| == bs && IsCodeword(c, bs - dw) && 2 * Distance(old(data[off..off + bs]), c) <= bs - dw ::
      ok && data[off..off + bs] == c
  {
    hide IsCodeword, Distance, Generates, Shortest, Solved, F.Derivative, Conv, CorrectedWord;
    var npar := bs - dw;
    ghost var was := data[off..off + bs];
    var s := new bv8[MAX_POLY];
    var sigma := new bv8[MAX_POLY];
    var deriv := new bv8[MAX_POLY];
    var omega := new bv8[MAX_POLY];
    var nonzero := BlockSyndromes(data, off, bs, npar, s);
    if !nonzero {
      forall c | |c| == bs && IsCodeword(c, npar) && 2 * Distance(was, c) <= npar
        ensures was == c
      {
        NearbyCodewords(was, c, npar);
      }
      return true;
    }
    SameInGf256(s[..]);
    ghost var l := BerlekampMassey(Gf256Field, s, npar, sigma);
    SameInGf256(sigma[..]);
    SigmaDerivative(sigma, deriv);
    NonzeroNpar(was, npar);
    ElocPoly(omega, s, sigma, npar - 1);
    ghost var sq, gq, dq, oq := s[..], sigma[..], deriv[..], omega[..];
    CorrectionLoop(data, off, bs, sigma, deriv, omega);
    nonzero := BlockSyndromes(data, off, bs, npar, s);
    ok := !nonzero;
    forall c | |c| == bs && IsCodeword(c, npar) && 2 * Distance(was, c) <= npar
      ensures data[off..off + bs] == c
    {
      ErrorsLocated(was, c, npar, sq, gq, l, dq, oq);
    }
  }

  lemma NonzeroNpar(d: seq<bv8>, npar: nat)
    requires !IsCodeword(d, npar)
    ensures npar > 0
  {}

  /** The byte that the correction loop leaves at index p of a block of which it found word[p] there. */
  function Corrected(word: seq<bv8>, p: nat, sigma: seq<bv8>, deriv: seq<bv8>, omega: seq<bv8>): bv8
    requires p < |word|
  {
    var x := Alpha(p + 1 - |word|);
    if Eval(sigma, x) == 0 then Add(word[p], Div(Eval(omega, x), Eval(deriv, x))) else word[p]
  }

  /** The block that the correction loop leaves. */
  function CorrectedWord(word: seq<bv8>, sigma: seq<bv8>, deriv: seq<bv8>, omega: seq<bv8>): (r: seq<bv8>)
    ensures |r| == |word|
  {
    seq(|word|, p requires 0 <= p < |word| => Corrected(word, p, sigma, deriv, omega))
  }

  /** The search and replace loop of correct_block. */
  method CorrectionLoop(data: array<bv8>, off: nat, bs: nat, sigma: array<bv8>, deriv: array<bv8>, omega: array<bv8>)
    requires off + bs <= data.Length && bs <= 255
    requires sigma.Length == deriv.Length == omega.Length == MAX_POLY
    requires data != sigma && data != deriv && data != omega
    modifies data
    ensures data[..off] == old(data[..off]) && data[off + bs..] == old(data[off + bs..])
    ensures data[off..off + bs] == CorrectedWord(old(data[off..off + bs]), sigma[..], deriv[..], omega[..])
  {
    hide Add, Eval, Alpha, Div, Exp;
    ghost var was, sq, dq, oq := data[..], sigma[..], deriv[..], omega[..];
    ghost var word := data[off..off + bs];
    for i := 0 to bs
      invariant sigma[..] == sq && deriv[..] == dq && omega[..] == oq
      invariant forall k :: 0 <= k < data.Length && !(off + bs - i <= k < off + bs) ==> data[k] == was[k]
      invariant forall p :: bs - i <= p < bs ==> data[off + p] == Corrected(word, p, sq, dq, oq)
    {
      var xinv := Exp(255 - i);
      XinvIsInverse(i);
      ghost var p := bs - i - 1;
      assert data[off + p] == word[p];
      var root := Evaluate(sigma, xinv);
      if root == 0 {
        var sd_x := Evaluate(deriv, xinv);
        var omega_x := Evaluate(omega, xinv);
        var error := Div(omega_x, sd_x);
        data[off + bs - i - 1] := Add(data[off + bs - i - 1], error);
      }
    }
  }

  lemma XinvIsInverse(i: nat)
    requires i < 255
    ensures Exp(255 - i) == Alpha(-(i as int))
  {
    hide Exp;
    ExpEnds();
    if i > 0 {
      assert (-(i as int)) % 255 == 255 - i;
    }
  }

  lemma Replaced(word: seq<bv8>, c: seq<bv8>, sigma: seq<bv8>, deriv: seq<bv8>, omega: seq<bv8>)
    requires |word| == |c| && Solved(Difference(word, c), sigma, deriv, omega)
    ensures CorrectedWord(word, sigma, deriv, omega) == c
  {
    hide Add, Eval, Alpha, Div;
    var e := Difference(word, c);
    forall p | 0 <= p < |word|
      ensures Corrected(word, p, sigma, deriv, omega) == c[p]
    {
      assert Inverse(e, p) == Alpha(p + 1 - |word|);
      AddCancel(word[p], c[p]);
    }
  }

  lemma {:induction false} DifferenceSyndrome(d: seq<bv8>, c: seq<bv8>, n: int)
    requires |d| == |c| && Syndrome(c, n) == 0
    ensures Syndrome(Difference(d, c), n) == Syndrome(d, n)
  {
    hide Add, Syndrome;
    SyndromeAdd(d, c, Difference(d, c), n);
    AddZero(Syndrome(d, n));
  }

  /** Codewords closer than the minimum distance are equal. */
  lemma NearbyCodewords(d: seq<bv8>, c: seq<bv8>, npar: nat)
    requires |d| == |c| <= 255 && IsCodeword(d, npar) && IsCodeword(c, npar) && Distance(d, c) <= npar
    ensures d == c
  {
    hide Add, Syndrome;
    var e := Difference(d, c);
    forall n | 0 <= n < npar
      ensures Syndrome(e, n) == 0
    {
      DifferenceSyndrome(d, c, n);
    }
    Vandermonde(e, 0);
    forall k | 0 <= k < |d|
      ensures d[k] == c[k]
    {
      AddCancel(d[k], c[k]);
    }
  }

  lemma ErrorsLocated(d: seq<bv8>, c: seq<bv8>, npar: nat, s: seq<bv8>, sigma: seq<bv8>, l: nat, deriv: seq<bv8>, omega: seq<bv8>)
    requires |d| == |c| <= 255 && 0 < npar <= MAX_POLY && IsCodeword(c, npar) && 2 * Distance(d, c) <= npar
    requires |s| == |sigma| == |omega| == MAX_POLY
    requires forall i :: 0 <= i < npar ==> s[i] == Syndrome(d, i)
    requires Generates(sigma, l, s, npar) && Shortest(l, s, npar)
    requires deriv == F.Derivative(sigma)
    requires forall u :: 0 <= u < MAX_POLY ==> omega[u] == if u < npar - 1 then Conv(sigma, s[1..], u) else 0
    ensures CorrectedWord(d, sigma, deriv, omega) == c
  {
    hide Add, Syndrome, Generates, Eval, Div, Conv, Alpha, F.Derivative;
    var e := Difference(d, c);
    forall i | 0 <= i < npar
      ensures s[i] == Syndrome(e, i)
    {
      DifferenceSyndrome(d, c, i);
    }
    forall k | 0 <= k < |e|
      ensures Eval(sigma, Inverse(e, k)) == 0 <==> e[k] != 0
      ensures e[k] != 0 ==> Div(Eval(omega, Inverse(e, k)), Eval(deriv, Inverse(e, k))) == e[k]
    {
      V.ErrorsFound(e, s, npar, sigma, l, omega, k);
    }
    Replaced(d, c, sigma, deriv, omega);
  }
}
