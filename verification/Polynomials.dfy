/** Polynomials and power sums over GF(256): the algebra under the Reed-Solomon decoder. */
module Polynomials {
  import opened Gf256

  /** The value at x of the polynomial with coefficients p, constant term first. */
  function Eval(p: seq<bv8>, x: bv8): bv8 {
    if p == [] then 0 else Add(p[0], Mul(x, Eval(p[1..], x)))
  }

  function At(p: seq<bv8>, i: int): bv8 {
    if 0 <= i < |p| then p[i] else 0
  }

  ghost predicate AllZero(p: seq<bv8>) {
    forall i :: 0 <= i < |p| ==> p[i] == 0
  }

  lemma {:induction false} EvalAllZero(p: seq<bv8>, x: bv8)
    requires AllZero(p)
    ensures Eval(p, x) == 0
  {
    hide Mul, Add;
    if p != [] {
      EvalAllZero(p[1..], x);
      MulZero(x);
      AddZero(0);
    }
  }

  lemma {:induction false} EvalAppend(p: seq<bv8>, c: bv8, x: bv8)
    ensures Eval(p + [c], x) == Add(Eval(p, x), Mul(c, Pow(x, |p|)))
  {
    hide Mul, Add;
    if p == [] {
      assert [] + [c] == [c] && [c][1..] == [];
      MulOne(c);
      MulZero(x);
      AddZero(c);
    } else {
      assert (p + [c])[1..] == p[1..] + [c];
      EvalAppend(p[1..], c, x);
      var k := Pow(x, |p| - 1);
      Distrib(x, Eval(p[1..], x), Mul(c, k));
      MulAssoc(x, c, k);
      MulAssoc(c, x, k);
      MulComm(x, c);
      AddAssoc(p[0], Mul(x, Eval(p[1..], x)), Mul(x, Mul(c, k)));
    }
  }

  /** Coefficients that are zero can be dropped from the top. */
  lemma {:induction false} EvalTrim(p: seq<bv8>, k: nat, x: bv8)
    requires k <= |p|
    requires forall i :: k <= i < |p| ==> p[i] == 0
    ensures Eval(p, x) == Eval(p[..k], x)
  {
    hide Mul, Add;
    if k == 0 {
      EvalAllZero(p, x);
    } else {
      assert p[..k][1..] == p[1..][..k - 1];
      EvalTrim(p[1..], k - 1, x);
    }
  }

  // ----- roots

  /** The quotient of p by (x - r), found by synthetic division. */
  function Quotient(p: seq<bv8>, r: bv8): (q: seq<bv8>)
    ensures |q| == if p == [] then 0 else |p| - 1
  {
    if |p| <= 1 then [] else [Eval(p[1..], r)] + Quotient(p[1..], r)
  }

  lemma {:induction false} Division(p: seq<bv8>, r: bv8, x: bv8)
    ensures Eval(p, x) == Add(Eval(p, r), Mul(Add(x, r), Eval(Quotient(p, r), x)))
  {
    hide Mul, Add;
    if |p| <= 1 {
      MulZero(Add(x, r));
      if p == [] {
        AddZero(0);
      } else {
        assert Eval(p[1..], x) == 0 && Eval(p[1..], r) == 0;
        MulZero(x);
        MulZero(r);
        AddZero(p[0]);
        AddZero(Add(p[0], 0));
      }
    } else {
      var p' := p[1..];
      Division(p', r, x);
      var v, q := Eval(p', r), Eval(Quotient(p', r), x);
      assert Quotient(p, r)[1..] == Quotient(p', r);
      assert Eval(Quotient(p, r), x) == Add(v, Mul(x, q));
      DivisionStep(p[0], v, q, r, x);
    }
  }

  lemma DivisionStep(c: bv8, v: bv8, q: bv8, r: bv8, x: bv8)
    ensures Add(c, Mul(x, Add(v, Mul(Add(x, r), q))))
         == Add(Add(c, Mul(r, v)), Mul(Add(x, r), Add(v, Mul(x, q))))
  {
    hide Mul, Add;
    var s := Add(x, r);
    var u := Mul(s, Mul(x, q));
    Distrib(x, v, Mul(s, q));
    MulAssoc(x, s, q);
    MulComm(x, s);
    MulAssoc(s, x, q);
    assert Mul(x, Mul(s, q)) == u;
    Distrib(s, v, Mul(x, q));
    Distrib(v, x, r);
    AddAssoc(c, Mul(r, v), Add(Mul(s, v), u));
    AddAssoc(Mul(r, v), Mul(s, v), u);
    AddComm(Mul(x, v), Mul(r, v));
    AddCancel(Mul(r, v), Mul(x, v));
  }

  /** A polynomial vanishes when its quotient and its remainder do. */
  lemma {:induction false} QuotientZero(p: seq<bv8>, r: bv8)
    requires AllZero(Quotient(p, r)) && Eval(p, r) == 0
    ensures AllZero(p)
  {
    hide Mul, Add;
    if p != [] {
      var p' := p[1..];
      if p' != [] {
        assert Quotient(p, r)[1..] == Quotient(p', r);
        assert Quotient(p, r)[0] == Eval(p', r);
        assert forall i :: 0 <= i < |Quotient(p', r)| ==> Quotient(p', r)[i] == Quotient(p, r)[i + 1];
        QuotientZero(p', r);
      }
      EvalAllZero(p', r);
      MulZero(r);
      AddZero(p[0]);
      assert forall i :: 1 <= i < |p| ==> p[i] == p'[i - 1];
    }
  }

  // ----- words: the entry at index k of a word d of length n belongs to the power n - 1 - k

  /** How many entries of a word are not zero. */
  function Weight(d: seq<bv8>): (w: nat)
    ensures w <= |d|
  {
    if d == [] then 0 else (if d[0] == 0 then 0 else 1) + Weight(d[1..])
  }

  /** The inverse locator of the entry of d at index k. */
  function Inverse(d: seq<bv8>, k: nat): bv8
    requires k < |d|
  {
    Alpha(k + 1 - |d|)
  }

  lemma {:induction false} WeightZero(d: seq<bv8>)
    ensures Weight(d) == 0 <==> AllZero(d)
  {
    if d != [] {
      WeightZero(d[1..]);
      assert forall i :: 1 <= i < |d| ==> d[i] == d[1..][i - 1];
    }
  }

  lemma {:induction false} WeightSet(d: seq<bv8>, k: nat, v: bv8)
    requires k < |d| && d[k] == 0 && v != 0
    ensures Weight(d[k := v]) == Weight(d) + 1
  {
    var d' := d[k := v];
    if k == 0 {
      assert d'[1..] == d[1..];
    } else {
      WeightSet(d[1..], k - 1, v);
      assert d'[1..] == d[1..][k - 1 := v];
    }
  }

  /** Locators within one word are distinct. */
  lemma LocatorsDiffer(i: int, j: int)
    requires i < j <= i + 254
    ensures Alpha(i) != Alpha(j)
  {
    hide Alpha;
    if Alpha(i) == Alpha(j) {
      var k := i / 255;
      AlphaShift(i, -k);
      AlphaShift(j, -k);
      var a, b := i - 255 * k, j - 255 * k;
      if b < 255 {
        AlphaInjective(a, b);
      } else {
        AlphaShift(b, -1);
        AlphaInjective(a, b - 255);
      }
    }
  }

  /** A polynomial that vanishes at the inverse locator of every nonzero entry of a word, and has no
      more coefficients than the word has nonzero entries, is the zero polynomial. */
  lemma {:induction false} RootBound(p: seq<bv8>, d: seq<bv8>)
    requires |d| <= 255
    requires |p| <= Weight(d)
    requires forall k :: 0 <= k < |d| && d[k] != 0 ==> Eval(p, Inverse(d, k)) == 0
    ensures AllZero(p)
    decreases |d|
  {
    hide Mul, Add, Alpha;
    if p != [] {
      var t := d[1..];
      if d[0] == 0 {
        forall k | 0 <= k < |t| && t[k] != 0
          ensures Eval(p, Inverse(t, k)) == 0
        {
          assert t[k] == d[k + 1] && Inverse(t, k) == Inverse(d, k + 1);
        }
        RootBound(p, t);
      } else {
        var r := Inverse(d, 0);
        var q := Quotient(p, r);
        forall k | 0 <= k < |t| && t[k] != 0
          ensures Eval(q, Inverse(t, k)) == 0
        {
          assert t[k] == d[k + 1] && Inverse(t, k) == Inverse(d, k + 1);
          QuotientRoot(p, d, k + 1);
        }
        RootBound(q, t);
        QuotientZero(p, r);
      }
    }
  }

  lemma QuotientRoot(p: seq<bv8>, d: seq<bv8>, k: nat)
    requires 1 <= k < |d| <= 255
    requires Eval(p, Inverse(d, 0)) == 0 && Eval(p, Inverse(d, k)) == 0
    ensures Eval(Quotient(p, Inverse(d, 0)), Inverse(d, k)) == 0
  {
    hide Mul, Add, Alpha;
    var r, x := Inverse(d, 0), Inverse(d, k);
    LocatorsDiffer(1 - |d|, k + 1 - |d|);
    Division(p, r, x);
    AddZero(Mul(Add(x, r), Eval(Quotient(p, r), x)));
    AddCancel(x, r);
    MulNonzero(Add(x, r), Eval(Quotient(p, r), x));
  }

  // ----- syndromes of a word

  /** The syndrome of order n: the word, read as a polynomial, at the n-th power of the generator. */
  function Syndrome(d: seq<bv8>, n: int): bv8 {
    if d == [] then 0 else Add(Mul(d[0], Alpha(n * (|d| - 1))), Syndrome(d[1..], n))
  }

  lemma {:induction false} SyndromeAllZero(d: seq<bv8>, n: int)
    requires AllZero(d)
    ensures Syndrome(d, n) == 0
  {
    hide Mul, Add, Alpha;
    if d != [] {
      SyndromeAllZero(d[1..], n);
      MulZero(Alpha(n * (|d| - 1)));
      AddZero(0);
    }
  }

  lemma {:induction false} SyndromeAdd(d: seq<bv8>, e: seq<bv8>, f: seq<bv8>, n: int)
    requires |d| == |e| == |f|
    requires forall k :: 0 <= k < |d| ==> f[k] == Add(d[k], e[k])
    ensures Syndrome(f, n) == Add(Syndrome(d, n), Syndrome(e, n))
  {
    hide Mul, Add, Alpha;
    if d == [] {
      AddZero(0);
    } else {
      SyndromeAdd(d[1..], e[1..], f[1..], n);
      var a := Alpha(n * (|d| - 1));
      Distrib(a, d[0], e[0]);
      AddSwap(Mul(d[0], a), Mul(e[0], a), Syndrome(d[1..], n), Syndrome(e[1..], n));
    }
  }

  /** The word d with each entry scaled by the difference of its locator and x. */
  function Eliminated(d: seq<bv8>, x: bv8): (b: seq<bv8>)
    ensures |b| == |d|
  {
    if d == [] then [] else [Mul(d[0], Add(Alpha(|d| - 1), x))] + Eliminated(d[1..], x)
  }

  lemma {:induction false} SyndromeEliminated(d: seq<bv8>, x: bv8, n: int)
    ensures Syndrome(Eliminated(d, x), n) == Add(Syndrome(d, n + 1), Mul(x, Syndrome(d, n)))
  {
    hide Mul, Add, Alpha;
    if d == [] {
      MulZero(x);
      AddZero(0);
    } else {
      var t := d[1..];
      SyndromeEliminated(t, x, n);
      assert Eliminated(d, x)[1..] == Eliminated(t, x);
      var e := |d| - 1;
      var a := Alpha(n * e);
      AlphaAdd(e, n * e);
      assert e + n * e == (n + 1) * e;
      ScaledTerm(d[0], Alpha(e), x, a);
      Distrib(x, Mul(d[0], a), Syndrome(t, n));
      AddSwap(Mul(d[0], Mul(Alpha(e), a)), Mul(x, Mul(d[0], a)), Syndrome(t, n + 1), Mul(x, Syndrome(t, n)));
    }
  }

  lemma ScaledTerm(c: bv8, l: bv8, x: bv8, a: bv8)
    ensures Mul(Mul(c, Add(l, x)), a) == Add(Mul(c, Mul(l, a)), Mul(x, Mul(c, a)))
  {
    hide Mul, Add;
    Distrib(c, l, x);
    Distrib(a, Mul(c, l), Mul(c, x));
    MulAssoc(c, l, a);
    MulComm(c, x);
    MulAssoc(x, c, a);
  }

  lemma {:induction false} EliminatedEntries(d: seq<bv8>, x: bv8, e: int)
    requires |d| <= e < 255 && x == Alpha(e)
    ensures Weight(Eliminated(d, x)) == Weight(d)
    ensures AllZero(Eliminated(d, x)) ==> AllZero(d)
  {
    hide Mul, Add, Alpha;
    if d != [] {
      var b, t := Eliminated(d, x), d[1..];
      EliminatedEntries(t, x, e);
      assert b[1..] == Eliminated(t, x);
      LocatorsDiffer(|d| - 1, e);
      AddCancel(Alpha(|d| - 1), x);
      MulNonzero(d[0], Add(Alpha(|d| - 1), x));
      if AllZero(b) {
        assert AllZero(b[1..]);
        assert forall i :: 1 <= i < |d| ==> d[i] == t[i - 1];
      }
    }
  }

  /** A word is zero when as many consecutive syndromes vanish as it has nonzero entries: the
      Vandermonde argument behind the minimum distance of a Reed-Solomon code. */
  lemma {:induction false} Vandermonde(d: seq<bv8>, from: int)
    requires |d| <= 255
    requires forall n :: from <= n < from + Weight(d) ==> Syndrome(d, n) == 0
    ensures AllZero(d)
    decreases |d|
  {
    hide Mul, Add, Alpha;
    if d != [] {
      var t, x := d[1..], Alpha(|d| - 1);
      forall n | from <= n < from + Weight(d)
        ensures Add(Mul(d[0], Alpha(n * (|d| - 1))), Syndrome(t, n)) == 0
      {
        assert Syndrome(d, n) == 0;
      }
      if d[0] == 0 {
        forall n | from <= n < from + Weight(t)
          ensures Syndrome(t, n) == 0
        {
          MulZero(Alpha(n * (|d| - 1)));
          AddZero(Syndrome(t, n));
        }
        Vandermonde(t, from);
      } else {
        EliminatedEntries(t, x, |d| - 1);
        forall n | from <= n < from + Weight(t)
          ensures Syndrome(Eliminated(t, x), n) == 0
        {
          EliminatedStep(d, n);
        }
        Vandermonde(Eliminated(t, x), from);
        SyndromeAllZero(t, from);
        assert Syndrome(d, from) == 0;
        AddZero(Mul(d[0], Alpha(from * (|d| - 1))));
        AlphaNonzero(from * (|d| - 1));
        MulNonzero(d[0], Alpha(from * (|d| - 1)));
      }
      assert forall i :: 1 <= i < |d| ==> d[i] == t[i - 1];
    }
  }

  lemma EliminatedStep(d: seq<bv8>, n: int)
    requires d != [] && Syndrome(d, n) == 0 && Syndrome(d, n + 1) == 0
    ensures Syndrome(Eliminated(d[1..], Alpha(|d| - 1)), n) == 0
  {
    hide Mul, Add, Alpha;
    var t, e := d[1..], |d| - 1;
    var x, a := Alpha(e), Alpha(n * e);
    SyndromeEliminated(t, x, n);
    AlphaAdd(e, n * e);
    assert e + n * e == (n + 1) * e;
    // both syndromes vanish, so each tail equals its leading term
    AddCancel(Mul(d[0], a), Syndrome(t, n));
    AddCancel(Mul(d[0], Mul(x, a)), Syndrome(t, n + 1));
    MulAssoc(x, d[0], a);
    MulAssoc(d[0], x, a);
    MulComm(x, d[0]);
    AddCancel(Syndrome(t, n + 1), Mul(x, Syndrome(t, n)));
  }
}
