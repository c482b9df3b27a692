/** Reed-Solomon parity as 3rdparty/qrcodegen.cpp computes it: the product, the generator
    polynomial, and the remainder of a polynomial division. */
module BlockEncoder {
  import opened Gf256
  import opened Polynomials
  import D = BlockDecoder

  // ----- Russian peasant multiplication

  /** Doubling on a 9-bit intermediate value, reduced by the generator polynomial, is doubling on bytes. */
  lemma DoublingStep(z: bv16, b: bv8)
    requires z == b as bv16
    ensures (z << 1) ^ ((z >> 7) * 0x11d) == Twice(b) as bv16
  {}

  lemma XorWidens(a: bv8, b: bv8)
    ensures Add(a, b) as bv16 == (a as bv16) ^ (b as bv16)
    ensures (1 as bv16) * (b as bv16) == b as bv16 && (0 as bv16) * (b as bv16) == 0
  {}

  lemma NextBits(y: bv8, i: nat)
    requires i < 8
    ensures (y >> i) & 1 == 0 ==> y >> i == Twice(y >> (i + 1))
    ensures (y >> i) & 1 != 0 ==> y >> i == Add(Twice(y >> (i + 1)), 1) && (y >> i) & 1 == 1
  {
    if {
      case i == 0 =>
      case i == 1 =>
      case i == 2 =>
      case i == 3 =>
      case i == 4 =>
      case i == 5 =>
      case i == 6 =>
      case i == 7 =>
    }
  }

  /** One more bit of y multiplies the partial product by 2 and may add x. */
  lemma PeasantStep(x: bv8, h: bv8)
    ensures Mul(x, Twice(h)) == Twice(Mul(x, h))
    ensures Mul(x, Add(Twice(h), 1)) == Add(Twice(Mul(x, h)), x)
  {
    hide Mul, Add, Twice;
    MulTwice(h);
    MulTwice(Mul(x, h));
    MulAssoc(x, 2, h);
    MulComm(x, 2);
    MulAssoc(2, x, h);
    Distrib(x, Twice(h), 1);
    MulOne(x);
  }

  /** One turn of the loop in reedSolomonMultiply. */
  function NextProduct(z: bv16, x: bv8, bit: bv8): bv16 {
    ((z << 1) ^ ((z >> 7) * 0x11d)) ^ ((bit as bv16) * (x as bv16))
  }

  /** z is the product of x with the bits of y from bit i upward. */
  ghost predicate Partial(z: bv16, x: bv8, y: bv8, i: nat)
    requires i <= 8
  {
    z == Mul(x, y >> i) as bv16
  }

  lemma PartialStep(z: bv16, x: bv8, y: bv8, i: nat)
    requires i < 8 && Partial(z, x, y, i + 1)
    ensures Partial(NextProduct(z, x, (y >> i) & 1), x, y, i)
  {
    hide Mul, Add, Twice, NextProduct;
    NextBits(y, i);
    ProductStep(z, x, y >> (i + 1), (y >> i) & 1, y >> i);
  }

  lemma ProductStep(z: bv16, x: bv8, h: bv8, bit: bv8, g: bv8)
    requires z == Mul(x, h) as bv16
    requires bit == 0 ==> g == Twice(h)
    requires bit != 0 ==> g == Add(Twice(h), 1) && bit == 1
    ensures NextProduct(z, x, bit) == Mul(x, g) as bv16
  {
    hide Mul, Add, Twice, NextProduct;
    PeasantStep(x, h);
    NextIsTwice(z, Mul(x, h), x);
  }

  lemma NextIsTwice(z: bv16, p: bv8, x: bv8)
    requires z == p as bv16
    ensures NextProduct(z, x, 0) == Twice(p) as bv16
    ensures NextProduct(z, x, 1) == Add(Twice(p), x) as bv16
  {
    hide Twice;
    DoublingStep(z, p);
    XorWidens(Twice(p), x);
  }

  method Multiply(x: bv8, y: bv8) returns (r: bv8)
    ensures r == Mul(x, y)
  {
    hide Mul, Partial, NextProduct;
    var z: bv16 := 0;
    PartialStart(x, y);
    var i := 7;
    while i >= 0
      invariant -1 <= i <= 7
      invariant Partial(z, x, y, i + 1)
    {
      PartialStep(z, x, y, i);
      z := NextProduct(z, x, (y >> i) & 1);
      i := i - 1;
    }
    PartialEnd(z, x, y);
    r := z as bv8;
  }

  lemma PartialStart(x: bv8, y: bv8)
    ensures Partial(0, x, y, 8)
  {
    hide Mul;
    assert y >> 8 == 0;
    MulZero(x);
  }

  lemma PartialEnd(z: bv16, x: bv8, y: bv8)
    requires Partial(z, x, y, 0)
    ensures z <= 255 && z as bv8 == Mul(x, y)
  {
    hide Mul;
    assert y >> 0 == y;
  }

  // ----- words as polynomials, highest power first

  function WordEval(d: seq<bv8>, x: bv8): bv8 {
    if d == [] then 0 else Add(Mul(d[0], Pow(x, |d| - 1)), WordEval(d[1..], x))
  }

  lemma {:induction false} SyndromeIsValue(d: seq<bv8>, n: int)
    ensures Syndrome(d, n) == WordEval(d, Alpha(n))
  {
    hide Mul, Add, Alpha, Pow;
    if d != [] {
      SyndromeIsValue(d[1..], n);
      PowAlpha(n, |d| - 1);
    }
  }

  lemma {:induction false} WordEvalConcat(a: seq<bv8>, b: seq<bv8>, x: bv8)
    ensures WordEval(a + b, x) == Add(Mul(WordEval(a, x), Pow(x, |b|)), WordEval(b, x))
  {
    hide Mul, Add, Pow;
    if a == [] {
      assert a + b == b;
      MulZero(Pow(x, |b|));
      AddZero(WordEval(b, x));
    } else {
      assert (a + b)[1..] == a[1..] + b;
      WordEvalConcat(a[1..], b, x);
      var p, q := Pow(x, |a| - 1), Pow(x, |b|);
      PowAdd(x, |a| - 1, |b|);
      MulAssoc(a[0], p, q);
      Distrib(q, Mul(a[0], p), WordEval(a[1..], x));
      AddAssoc(Mul(Mul(a[0], p), q), Mul(WordEval(a[1..], x), q), WordEval(b, x));
    }
  }

  lemma WordEvalOne(v: bv8, x: bv8)
    ensures WordEval([v], x) == v
  {
    hide Mul, Add;
    assert [v][1..] == [];
    MulOne(v);
    AddZero(v);
  }

  lemma {:induction false} WordEvalZero(d: seq<bv8>, x: bv8)
    requires AllZero(d)
    ensures WordEval(d, x) == 0
  {
    hide Mul, Add, Pow;
    if d != [] {
      WordEvalZero(d[1..], x);
      MulZero(Pow(x, |d| - 1));
      AddZero(0);
    }
  }

  /** The word d with a scaled word added. */
  lemma {:induction false} WordEvalCombine(d: seq<bv8>, e: seq<bv8>, f: bv8, r: seq<bv8>, x: bv8)
    requires |d| == |e| == |r| && forall k :: 0 <= k < |d| ==> r[k] == Add(d[k], Mul(e[k], f))
    ensures WordEval(r, x) == Add(WordEval(d, x), Mul(WordEval(e, x), f))
  {
    hide Mul, Add, Pow;
    if d == [] {
      MulZero(f);
      AddZero(0);
    } else {
      WordEvalCombine(d[1..], e[1..], f, r[1..], x);
      var p := Pow(x, |d| - 1);
      Distrib(p, d[0], Mul(e[0], f));
      MulAssoc(e[0], f, p);
      MulComm(f, p);
      MulAssoc(e[0], p, f);
      Distrib(f, Mul(e[0], p), WordEval(e[1..], x));
      AddSwap(Mul(d[0], p), Mul(Mul(e[0], p), f), WordEval(d[1..], x), Mul(WordEval(e[1..], x), f));
    }
  }

  // ----- the generator polynomial

  /** The product of (x - 2^i) over i < k, at x. */
  function Generator(x: bv8, k: nat): bv8 {
    if k == 0 then 1 else Mul(Add(x, Alpha(k - 1)), Generator(x, k - 1))
  }

  /** d multiplied by (x - root), the overflow out of the top dropped. */
  function Stepped(d: seq<bv8>, root: bv8): (r: seq<bv8>)
    ensures |r| == |d|
  {
    if d == [] then []
    else [Add(Mul(d[0], root), At(d, 1))] + Stepped(d[1..], root)
  }

  lemma {:induction false} SteppedAt(d: seq<bv8>, root: bv8, k: nat)
    requires k < |d|
    ensures Stepped(d, root)[k] == Add(Mul(d[k], root), At(d, k + 1))
  {
    hide Mul, Add;
    if k > 0 {
      SteppedAt(d[1..], root, k - 1);
    }
  }

  lemma {:induction false} SteppedValue(d: seq<bv8>, root: bv8, x: bv8)
    ensures Add(WordEval(Stepped(d, root), x), Mul(At(d, 0), Pow(x, |d|))) == Mul(Add(x, root), WordEval(d, x))
  {
    hide Mul, Add;
    if d == [] {
      MulZero(Pow(x, 0));
      MulZero(Add(x, root));
      AddZero(0);
    } else {
      var t, p := d[1..], Pow(x, |d| - 1);
      SteppedValue(t, root, x);
      assert Stepped(d, root)[1..] == Stepped(t, root);
      SteppedTerm(d[0], At(t, 0), root, x, p, WordEval(Stepped(t, root), x), WordEval(t, x));
    }
  }

  lemma SteppedTerm(c: bv8, c': bv8, root: bv8, x: bv8, p: bv8, s: bv8, v: bv8)
    requires Add(s, Mul(c', p)) == Mul(Add(x, root), v)
    ensures Add(Add(Mul(Add(Mul(c, root), c'), p), s), Mul(c, Mul(x, p))) == Mul(Add(x, root), Add(Mul(c, p), v))
  {
    hide Mul, Add;
    var a, b, e := Mul(Mul(c, root), p), Mul(c', p), Mul(c, Mul(x, p));
    Distrib(p, Mul(c, root), c');
    calc {
      Add(Add(Add(a, b), s), e);
      { AddAssoc(a, b, s); AddComm(b, s); AddAssoc(a, Add(s, b), e); }
      Add(a, Add(Add(s, b), e));
      { AddComm(Add(s, b), e); AddAssoc(a, e, Add(s, b)); AddComm(a, e); }
      Add(Add(e, a), Add(s, b));
    }
    var f := Add(x, root);
    Distrib(f, Mul(c, p), v);
    Distrib(Mul(c, p), x, root);
    MulAssoc(x, c, p);
    MulComm(x, c);
    MulAssoc(c, x, p);
    MulAssoc(root, c, p);
    MulComm(root, c);
  }

  /** What holds after i factors of the generator polynomial have been multiplied in: the buffer
      holds their product, whose leading 1 falls off the top with the last factor. */
  ghost predicate Divided(r: seq<bv8>, i: nat)
    requires i <= |r|
  {
    && (i < |r| ==> r[|r| - 1 - i] == 1 && forall k :: 0 <= k < |r| - 1 - i ==> r[k] == 0)
    && (i < |r| ==> forall x :: WordEval(r, x) == Generator(x, i))
    && (i == |r| ==> forall x :: Add(WordEval(r, x), Pow(x, |r|)) == Generator(x, i))
  }

  lemma DividedStart(r: seq<bv8>)
    requires r != [] && r[|r| - 1] == 1 && forall k :: 0 <= k < |r| - 1 ==> r[k] == 0
    ensures Divided(r, 0)
  {
    hide Mul, Add, Pow;
    var z := r[..|r| - 1];
    assert r == z + [1];
    forall x
      ensures WordEval(r, x) == 1
    {
      WordEvalConcat(z, [1], x);
      WordEvalZero(z, x);
      WordEvalOne(1, x);
      MulZero(Pow(x, 1));
      AddZero(1);
    }
  }

  lemma DividedStep(r: seq<bv8>, i: nat)
    requires i < |r| && Divided(r, i)
    ensures Divided(Stepped(r, Alpha(i)), i + 1)
  {
    hide Mul, Add, Pow, Alpha, WordEval, Stepped;
    var root := Alpha(i);
    var s := Stepped(r, root);
    forall x
      ensures if i + 1 < |r| then WordEval(s, x) == Generator(x, i + 1)
              else Add(WordEval(s, x), Pow(x, |s|)) == Generator(x, i + 1)
    {
      SteppedValue(r, root, x);
      MulZero(Pow(x, |r|));
      MulOne(Pow(x, |r|));
      AddZero(WordEval(s, x));
    }
    if i + 1 < |r| {
      forall k | 0 <= k < |r| - 1 - i
        ensures s[k] == if k == |r| - 2 - i then 1 else 0
      {
        SteppedAt(r, root, k);
        MulZero(root);
        AddZero(At(r, k + 1));
      }
    }
  }

  /** reedSolomonComputeDivisor: the coefficients of the generator polynomial below its leading 1. */
  method ComputeDivisor(degree: nat) returns (result: array<bv8>)
    requires 1 <= degree <= 255
    ensures fresh(result) && result.Length == degree
    ensures forall x :: Add(WordEval(result[..], x), Pow(x, degree)) == Generator(x, degree)
  {
    hide Mul, Add, Pow, Alpha, WordEval, Generator, Divided;
    result := new bv8[degree](_ => 0);
    result[degree - 1] := 1;
    DividedStart(result[..]);
    var root: bv8 := 1;
    AlphaZeroOne();
    for i := 0 to degree
      invariant fresh(result)
      invariant root == Alpha(i)
      invariant Divided(result[..], i)
    {
      ghost var r := result[..];
      MultiplyByFactor(result, root);
      DividedStep(r, i);
      root := Multiply(root, 2);
      AlphaAdd(i, 1);
    }
    DividedEnd(result[..]);
  }

  lemma DividedEnd(r: seq<bv8>)
    requires Divided(r, |r|)
    ensures forall x :: Add(WordEval(r, x), Pow(x, |r|)) == Generator(x, |r|)
  {
    hide Mul, Add, Pow, Alpha, WordEval, Generator;
  }

  /** The inner loop of reedSolomonComputeDivisor, in place. */
  method MultiplyByFactor(result: array<bv8>, root: bv8)
    modifies result
    ensures result[..] == Stepped(old(result[..]), root)
  {
    hide Mul, Add, Stepped;
    ghost var r := result[..];
    for j := 0 to result.Length
      invariant forall k :: 0 <= k < j ==> result[k] == Add(Mul(r[k], root), At(r, k + 1))
      invariant forall k :: j <= k < result.Length ==> result[k] == r[k]
    {
      var v := Multiply(result[j], root);
      if j + 1 < result.Length {
        v := Add(v, result[j + 1]);
      }
      AddZero(Mul(r[j], root));
      result[j] := v;
    }
    forall k | 0 <= k < |r|
      ensures result[k] == Stepped(r, root)[k]
    {
      SteppedAt(r, root, k);
    }
  }

  // ----- the remainder

  /** How far the division has come: at every root of the divisor, the data so far, moved up by the
      divisor's degree, has the same value as the remainder so far. */
  ghost predicate Remainder(done: seq<bv8>, divisor: seq<bv8>, r: seq<bv8>) {
    && |r| == |divisor|
    && forall x :: Add(WordEval(divisor, x), Pow(x, |divisor|)) == 0 ==>
         Mul(WordEval(done, x), Pow(x, |divisor|)) == WordEval(r, x)
  }

  lemma RemainderStart(divisor: seq<bv8>, r: seq<bv8>)
    requires |r| == |divisor| && AllZero(r)
    ensures Remainder([], divisor, r)
  {
    hide Mul, Add, Pow;
    forall x
      ensures Mul(WordEval([], x), Pow(x, |divisor|)) == WordEval(r, x)
    {
      WordEvalZero(r, x);
      MulZero(Pow(x, |divisor|));
    }
  }

  lemma RemainderStep(done: seq<bv8>, b: bv8, divisor: seq<bv8>, r: seq<bv8>, r': seq<bv8>)
    requires Remainder(done, divisor, r) && r != [] && |r'| == |r|
    requires forall k :: 0 <= k < |r| ==> r'[k] == Add(At(r, k + 1), Mul(divisor[k], Add(b, r[0])))
    ensures Remainder(done + [b], divisor, r')
  {
    hide Mul, Add, Pow, WordEval;
    var f := Add(b, r[0]);
    var up := r[1..] + [0];
    forall x | Add(WordEval(divisor, x), Pow(x, |divisor|)) == 0
      ensures Mul(WordEval(done + [b], x), Pow(x, |divisor|)) == WordEval(r', x)
    {
      WordEvalCombine(up, divisor, f, r', x);
      WordEvalConcat(done, [b], x);
      WordEvalOne(b, x);
      WordEvalConcat(r[1..], [0], x);
      WordEvalOne(0, x);
      assert r == [r[0]] + r[1..];
      WordEvalConcat([r[0]], r[1..], x);
      WordEvalOne(r[0], x);
      var p := Pow(x, |r| - 1);
      assert Pow(x, 1) == x by { PowOne(x); }
      assert Pow(x, |r|) == Mul(x, p) by { PowUnfold(x, |r|); }
      AddCancel(WordEval(divisor, x), Pow(x, |divisor|));
      RemainderTerm(WordEval(done, x), x, b, r[0], p, WordEval(r[1..], x));
    }
  }

  lemma PowOne(x: bv8)
    ensures Pow(x, 1) == x
  {
    hide Mul;
    assert Pow(x, 1) == Mul(x, Pow(x, 0));
    MulOne(x);
  }

  lemma PowUnfold(x: bv8, n: nat)
    requires n > 0
    ensures Pow(x, n) == Mul(x, Pow(x, n - 1))
  {}

  lemma RemainderTerm(h: bv8, x: bv8, b: bv8, c: bv8, p: bv8, t: bv8)
    requires Mul(h, Mul(x, p)) == Add(Mul(c, p), t)
    ensures Mul(Add(Mul(h, x), b), Mul(x, p)) == Add(Add(Mul(t, x), 0), Mul(Mul(x, p), Add(b, c)))
  {
    hide Mul, Add;
    var q := Mul(x, p);
    calc {
      Mul(Add(Mul(h, x), b), q);
      { Distrib(q, Mul(h, x), b); MulComm(h, x); MulAssoc(x, h, q); MulComm(b, q); }
      Add(Mul(x, Mul(h, q)), Mul(q, b));
      { Distrib(x, Mul(c, p), t); MulAssoc(x, c, p); MulComm(x, c); MulAssoc(c, x, p); MulComm(c, q); MulComm(x, t); }
      Add(Add(Mul(q, c), Mul(t, x)), Mul(q, b));
      { AddComm(Mul(q, c), Mul(t, x)); AddAssoc(Mul(t, x), Mul(q, c), Mul(q, b)); AddComm(Mul(q, c), Mul(q, b)); Distrib(q, b, c); }
      Add(Mul(t, x), Mul(q, Add(b, c)));
    }
    AddZero(Mul(t, x));
  }

  /** reedSolomonComputeRemainder. */
  method ComputeRemainder(data: seq<bv8>, divisor: array<bv8>) returns (result: seq<bv8>)
    requires divisor.Length > 0
    ensures |result| == divisor.Length && Remainder(data, divisor[..], result)
  {
    hide Mul, Add, Pow, WordEval, Remainder;
    result := seq(divisor.Length, _ => 0);
    ghost var g := divisor[..];
    RemainderStart(g, result);
    for n := 0 to |data|
      invariant |result| == divisor.Length
      invariant Remainder(data[..n], g, result)
    {
      var b := data[n];
      ghost var r := result;
      var factor := Add(b, result[0]);
      result := result[1..] + [0];
      for i := 0 to |result|
        invariant |result| == divisor.Length
        invariant forall k :: 0 <= k < i ==> result[k] == Add(At(r, k + 1), Mul(g[k], factor))
        invariant forall k :: i <= k < |result| ==> result[k] == At(r, k + 1)
      {
        var m := Multiply(divisor[i], factor);
        result := result[i := Add(result[i], m)];
      }
      RemainderStep(data[..n], b, g, r, result);
      assert data[..n + 1] == data[..n] + [b];
    }
    assert data[..|data|] == data;
  }

  // ----- the parity makes codewords, and only one parity does

  lemma {:induction false} GeneratorRoots(n: nat, k: nat)
    requires n < k
    ensures Generator(Alpha(n), k) == 0
  {
    hide Mul, Add, Alpha;
    var x := Alpha(n);
    if n == k - 1 {
      AddCancel(x, x);
      MulZero(Generator(x, k - 1));
    } else {
      GeneratorRoots(n, k - 1);
      MulZero(Add(x, Alpha(k - 1)));
    }
  }

  /** Data followed by its remainder by the generator polynomial is a codeword of the decoder. */
  lemma RemainderMakesCodeword(data: seq<bv8>, divisor: seq<bv8>, parity: seq<bv8>)
    requires forall x :: Add(WordEval(divisor, x), Pow(x, |divisor|)) == Generator(x, |divisor|)
    requires Remainder(data, divisor, parity)
    ensures D.IsCodeword(data + parity, |divisor|)
  {
    hide Mul, Add, Pow, WordEval, Generator, Alpha, Syndrome;
    forall n | 0 <= n < |divisor|
      ensures Syndrome(data + parity, n) == 0
    {
      var x := Alpha(n);
      SyndromeIsValue(data + parity, n);
      GeneratorRoots(n, |divisor|);
      WordEvalConcat(data, parity, x);
      AddCancel(WordEval(parity, x), WordEval(parity, x));
    }
  }

  /** The parity of a block is determined by the decoder's notion of a codeword. */
  lemma ParityUnique(data: seq<bv8>, p: seq<bv8>, q: seq<bv8>)
    requires |p| == |q| && |data| + |p| <= 255
    requires D.IsCodeword(data + p, |p|) && D.IsCodeword(data + q, |p|)
    ensures p == q
  {
    hide D.IsCodeword;
    SharedPrefix(data, p, q);
    D.NearbyCodewords(data + p, data + q, |p|);
    assert (data + p)[|data|..] == p && (data + q)[|data|..] == q;
  }

  lemma {:induction false} SharedPrefix(data: seq<bv8>, p: seq<bv8>, q: seq<bv8>)
    requires |p| == |q|
    ensures D.Distance(data + p, data + q) <= |p|
  {
    hide Add;
    if data == [] {
      assert data + p == p && data + q == q;
    } else {
      SharedPrefix(data[1..], p, q);
      AddCancel(data[0], data[0]);
      assert D.Difference(data + p, data + q)[1..] == D.Difference(data[1..] + p, data[1..] + q);
    }
  }

  /** A block as the encoder lays it out: data, then parity. */
  method EncodeBlock(data: seq<bv8>, divisor: array<bv8>) returns (block: seq<bv8>)
    requires divisor.Length > 0
    requires forall x :: Add(WordEval(divisor[..], x), Pow(x, divisor.Length)) == Generator(x, divisor.Length)
    ensures |block| == |data| + divisor.Length && block[..|data|] == data
    ensures D.IsCodeword(block, divisor.Length)
  {
    hide D.IsCodeword, WordEval, Generator, Remainder;
    var ecc := ComputeRemainder(data, divisor);
    RemainderMakesCodeword(data, divisor[..], ecc);
    block := data + ecc;
  }
}
