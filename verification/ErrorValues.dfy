/** Forney's formula as correct_block uses it: at the inverse locator of an error, the error
    evaluator is the error's value times the derivative of the locator polynomial. */
module ErrorValues {
  import opened Gf256
  import opened Polynomials
  import opened LinearRecurrence
  import opened Forney

  // ----- the bivariate sum at pairs of locators

  lemma {:induction false} PowNonzero(x: bv8, n: nat)
    requires x != 0
    ensures Pow(x, n) != 0
  {
    hide Mul;
    if n > 0 {
      PowNonzero(x, n - 1);
      MulNonzero(x, Pow(x, n - 1));
    }
  }

  /** At the inverse locators of two different errors the sum vanishes. */
  lemma OffRoot(c: seq<bv8>, z: bv8, w: bv8, y: bv8, t: nat)
    requires t < |c| && forall i :: t < i < |c| ==> c[i] == 0
    requires Mul(z, w) != 1 && Mul(y, w) == 1
    requires Eval(c, z) == 0 && Eval(c, y) == 0
    ensures Bivariate(c, z, w, t) == 0
  {
    hide Mul, Add, Eval, Pow;
    EvalTrim(c, t + 1, z);
    EvalTrim(c, t + 1, y);
    ReversedAtInverse(c, y, w, t);
    MulZero(w);
    PowNonzero(y, t);
    MulNonzero(Pow(y, t), Reversed(c, w, t));
    Telescope(c, z, w, t);
    MulZero(Pow(z, t));
    AddZero(0);
    AddCancel(1, Mul(z, w));
    MulNonzero(Add(1, Mul(z, w)), Bivariate(c, z, w, t));
  }

  /** At the inverse locator of one error the sum is the derivative. */
  lemma OnRoot(c: seq<bv8>, z: bv8, w: bv8, t: nat)
    requires t < |c| && forall i :: t < i < |c| ==> c[i] == 0
    requires Mul(z, w) == 1 && Eval(c, z) == 0
    ensures Bivariate(c, z, w, t) == Mul(z, Eval(Derivative(c), z))
    ensures Mul(w, Bivariate(c, z, w, t)) == Eval(Derivative(c), z)
  {
    hide Mul, Add, Eval, Pow, Bivariate;
    EvalTrim(c, t + 1, z);
    EvalTrim(Derivative(c), t, z);
    BivariateAtInverse(c, z, w, t);
    var s := Eval(Derivative(c), z);
    AddZero(Mul(z, s));
    MulAssoc(w, z, s);
    MulComm(w, z);
    MulOne(s);
  }

  // ----- the error evaluator

  /** The geometric sequence of w, of length n. */
  function Powers(w: bv8, n: nat): (p: seq<bv8>)
    ensures |p| == n && forall k :: 0 <= k < n ==> p[k] == Pow(w, k)
  {
    seq(n, k requires 0 <= k => Pow(w, k))
  }

  lemma {:induction false} ReversedHead(c: seq<bv8>, w: bv8, t: nat)
    requires 0 < t < |c|
    ensures Reversed(c, w, t) == Add(Mul(c[0], Pow(w, t)), Reversed(c[1..], w, t - 1))
  {
    hide Mul, Add;
    if t == 1 {
      assert Pow(w, 1) == Mul(w, Pow(w, 0));
      MulOne(w);
      MulComm(w, c[0]);
    } else {
      ReversedHead(c, w, t - 1);
      var p, r := Pow(w, t - 1), Reversed(c[1..], w, t - 2);
      Distrib(w, Mul(c[0], p), r);
      MulAssoc(w, c[0], p);
      MulComm(w, c[0]);
      MulAssoc(c[0], w, p);
      AddAssoc(Mul(c[0], Mul(w, p)), Mul(w, r), c[t]);
    }
  }

  lemma {:induction false} ConvGeometric(c: seq<bv8>, w: bv8, n: nat, t: nat)
    requires t < |c| && t < n
    ensures Conv(c, Powers(w, n), t) == Reversed(c, w, t)
    decreases t
  {
    hide Mul, Add;
    if t == 0 {
      MulOne(c[0]);
      AddZero(c[0]);
      assert Conv(c[1..], Powers(w, n), -1) == 0;
    } else {
      ConvGeometric(c[1..], w, n, t - 1);
      ReversedHead(c, w, t);
    }
  }

  /** The coefficient of degree t of the error evaluator, as a sum over the errors. */
  function OmegaTerm(e: seq<bv8>, c: seq<bv8>, t: nat): bv8
    requires t < |c|
  {
    if e == [] then 0
    else Add(Mul(Mul(e[0], Alpha(|e| - 1)), Reversed(c, Alpha(|e| - 1), t)), OmegaTerm(e[1..], c, t))
  }

  lemma {:induction false} ConvIsOmegaTerm(e: seq<bv8>, c: seq<bv8>, x: seq<bv8>, t: nat)
    requires t < |c|
    requires forall k :: 0 <= k <= t ==> At(x, k) == Syndrome(e, k + 1)
    ensures Conv(c, x, t) == OmegaTerm(e, c, t)
    decreases |e|
  {
    hide Mul, Add, Alpha, Conv, Reversed, Pow;
    if e == [] {
      ConvVanish(c, x, t);
    } else {
      var w := Alpha(|e| - 1);
      var m := Mul(e[0], w);
      var y := seq(t + 1, k => Syndrome(e[1..], k + 1));
      forall k | 0 <= k <= t
        ensures At(x, k) == Add(Mul(m, At(Powers(w, t + 1), k)), At(y, k - 0))
      {
        PowAlpha(|e| - 1, k);
        AlphaAdd(|e| - 1, (|e| - 1) * k);
        assert |e| - 1 + (|e| - 1) * k == (k + 1) * (|e| - 1);
        MulAssoc(e[0], w, Pow(w, k));
      }
      ConvSource(c, m, Powers(w, t + 1), y, 0, x, t);
      ConvGeometric(c, w, t + 1, t);
      ConvIsOmegaTerm(e[1..], c, y, t);
    }
  }

  /** The error evaluator at z, cut off at degree t, as a sum over the errors. */
  function OmegaSum(e: seq<bv8>, c: seq<bv8>, z: bv8, t: nat): bv8
    requires t <= |c|
  {
    if e == [] then 0
    else Add(Mul(Mul(e[0], Alpha(|e| - 1)), Bivariate(c, z, Alpha(|e| - 1), t)), OmegaSum(e[1..], c, z, t))
  }

  lemma {:induction false} OmegaSumZero(e: seq<bv8>, c: seq<bv8>, z: bv8)
    ensures OmegaSum(e, c, z, 0) == 0
  {
    hide Mul, Add, Alpha;
    if e != [] {
      OmegaSumZero(e[1..], c, z);
      MulZero(Mul(e[0], Alpha(|e| - 1)));
      AddZero(0);
    }
  }

  lemma {:induction false} OmegaSumStep(e: seq<bv8>, c: seq<bv8>, z: bv8, t: nat)
    requires t < |c|
    ensures OmegaSum(e, c, z, t + 1) == Add(OmegaSum(e, c, z, t), Mul(Pow(z, t), OmegaTerm(e, c, t)))
  {
    hide Mul, Add, Alpha, Pow, Reversed;
    if e == [] {
      MulZero(Pow(z, t));
      AddZero(0);
    } else {
      OmegaSumStep(e[1..], c, z, t);
      var w := Alpha(|e| - 1);
      var m, p, r := Mul(e[0], w), Pow(z, t), Reversed(c, w, t);
      Distrib(m, Bivariate(c, z, w, t), Mul(p, r));
      MulAssoc(m, p, r);
      MulComm(m, p);
      MulAssoc(p, m, r);
      Distrib(p, Mul(m, r), OmegaTerm(e[1..], c, t));
      AddSwap(Mul(m, Bivariate(c, z, w, t)), Mul(p, Mul(m, r)),
        OmegaSum(e[1..], c, z, t), Mul(p, OmegaTerm(e[1..], c, t)));
    }
  }

  lemma {:induction false} EvalOmega(e: seq<bv8>, c: seq<bv8>, omega: seq<bv8>, z: bv8, t: nat)
    requires t <= |c| && t <= |omega|
    requires forall u :: 0 <= u < t ==> omega[u] == OmegaTerm(e, c, u)
    ensures Eval(omega[..t], z) == OmegaSum(e, c, z, t)
    decreases t
  {
    hide Mul, Add, Alpha, Pow, OmegaTerm;
    if t == 0 {
      OmegaSumZero(e, c, z);
    } else {
      EvalOmega(e, c, omega, z, t - 1);
      assert omega[..t] == omega[..t - 1] + [omega[t - 1]];
      EvalAppend(omega[..t - 1], omega[t - 1], z);
      OmegaSumStep(e, c, z, t - 1);
      MulComm(omega[t - 1], Pow(z, t - 1));
    }
  }

  /** c vanishes at the inverse locator of every nonzero entry of e. */
  ghost predicate Locates(c: seq<bv8>, e: seq<bv8>) {
    forall k :: 0 <= k < |e| && e[k] != 0 ==> Eval(c, Inverse(e, k)) == 0
  }

  lemma LocatesTail(c: seq<bv8>, e: seq<bv8>)
    requires e != [] && Locates(c, e)
    ensures Locates(c, e[1..])
  {
    hide Alpha, Eval;
    forall k | 0 <= k < |e[1..]| && e[1..][k] != 0
      ensures Eval(c, Inverse(e[1..], k)) == 0
    {
      assert Inverse(e[1..], k) == Inverse(e, k + 1);
      assert e[1..][k] == e[k + 1];
    }
  }

  /** At the inverse locator of power q only the entry of power q counts. */
  lemma {:induction false} OmegaSumAtRoot(e: seq<bv8>, c: seq<bv8>, q: int, t: nat)
    requires |e| <= 255 && 0 <= q < 255 && Locates(c, e)
    requires t < |c| && forall i :: t < i < |c| ==> c[i] == 0
    requires Eval(c, Alpha(-q)) == 0
    ensures OmegaSum(e, c, Alpha(-q), t)
         == if q < |e| then Mul(e[|e| - 1 - q], Eval(Derivative(c), Alpha(-q))) else 0
    decreases |e|
  {
    hide Mul, Add, Alpha, Eval, Bivariate, Derivative;
    if e != [] {
      var x := |e| - 1;
      var z, w := Alpha(-q), Alpha(x);
      LocatesTail(c, e);
      OmegaSumAtRoot(e[1..], c, q, t);
      AlphaAdd(-q, x);
      AlphaAdd(-x, x);
      AlphaZeroOne();
      var h := Bivariate(c, z, w, t);
      MulAssoc(e[0], w, h);
      if q == x {
        OnRoot(c, z, w, t);
        AddZero(Mul(e[0], Eval(Derivative(c), z)));
      } else {
        MulZero(w);
        MulZero(h);
        if e[0] != 0 {
          assert Inverse(e, 0) == Alpha(-x);
          NotOne(x - q);
          OffRoot(c, z, w, Alpha(-x), t);
        }
        MulZero(e[0]);
        AddZero(OmegaSum(e[1..], c, z, t));
        if q < x {
          assert e[1..][x - 1 - q] == e[x - q];
        }
      }
    }
  }

  lemma NotOne(k: int)
    requires -255 < k < 255 && k != 0
    ensures Alpha(k) != 1
  {
    hide Alpha;
    AlphaZeroOne();
    if k < 0 {
      LocatorsDiffer(k, 0);
    } else {
      LocatorsDiffer(0, k);
    }
  }

  // ----- the locator polynomial has no double roots

  function ReversedAll(c: seq<bv8>, w: bv8, t: nat): (r: seq<bv8>)
    requires t <= |c|
    ensures |r| == t && forall u :: 0 <= u < t ==> r[u] == Reversed(c, w, u)
  {
    seq(t, u requires 0 <= u < t => Reversed(c, w, u))
  }

  lemma {:induction false} EvalReversedAll(c: seq<bv8>, w: bv8, t: nat, x: bv8)
    requires t <= |c|
    ensures Eval(ReversedAll(c, w, t), x) == Bivariate(c, x, w, t)
  {
    hide Mul, Add, Reversed, Pow;
    if t > 0 {
      EvalReversedAll(c, w, t - 1, x);
      var r := ReversedAll(c, w, t);
      assert r == ReversedAll(c, w, t - 1) + [r[t - 1]];
      EvalAppend(ReversedAll(c, w, t - 1), r[t - 1], x);
      MulComm(r[t - 1], Pow(x, t - 1));
    }
  }

  /** The derivative does not vanish at the inverse locator of an error. */
  lemma SimpleRoot(c: seq<bv8>, l: nat, e: seq<bv8>, k: nat, t: nat)
    requires k < |e| <= 255 && e[k] != 0 && Locates(c, e)
    requires l <= Weight(e) && l <= t < |c| && c[0] == 1
    requires forall i :: l < i < |c| ==> c[i] == 0
    ensures Eval(Derivative(c), Inverse(e, k)) != 0
  {
    hide Mul, Add, Alpha, Eval, Bivariate, Derivative, Reversed;
    var z, w := Inverse(e, k), Alpha(|e| - 1 - k);
    AlphaAdd(k + 1 - |e|, |e| - 1 - k);
    AlphaZeroOne();
    if Eval(Derivative(c), z) == 0 {
      OnRoot(c, z, w, t);
      MulZero(z);
      var r := ReversedAll(c, w, t);
      ReversedVanishes(c, l, z, w, t);
      forall i | 0 <= i < |e| && e[i] != 0
        ensures Eval(r[..l], Inverse(e, i)) == 0
      {
        EvalTrim(r, l, Inverse(e, i));
        EvalReversedAll(c, w, t, Inverse(e, i));
        if i != k {
          AlphaAdd(i + 1 - |e|, |e| - 1 - k);
          NotOne(i - k);
          OffRoot(c, Inverse(e, i), w, z, t);
        }
      }
      LengthPositive(c, l, z);
      assert r[..l][0] == 1 by { assert Reversed(c, w, 0) == c[0] by { ReversedAtZero(c, w); } }
      RootBound(r[..l], e);
    }
  }

  lemma ReversedAtZero(c: seq<bv8>, w: bv8)
    requires c != []
    ensures Reversed(c, w, 0) == c[0]
  {}

  lemma ReversedVanishes(c: seq<bv8>, l: nat, z: bv8, w: bv8, t: nat)
    requires l <= t < |c| && forall i :: l < i < |c| ==> c[i] == 0
    requires Mul(z, w) == 1 && Eval(c, z) == 0
    ensures forall u :: l <= u < t ==> ReversedAll(c, w, t)[u] == 0
  {
    hide Mul, Add, Eval, Pow, Reversed;
    forall u | l <= u < t
      ensures ReversedAll(c, w, t)[u] == 0
    {
      EvalTrim(c, u + 1, z);
      ReversedAtInverse(c, z, w, u);
      MulZero(w);
      PowNonzero(z, u);
      MulNonzero(Pow(z, u), Reversed(c, w, u));
    }
  }

  lemma LengthPositive(c: seq<bv8>, l: nat, z: bv8)
    requires c != [] && c[0] == 1 && Eval(c, z) == 0
    requires forall i :: l < i < |c| ==> c[i] == 0
    ensures l > 0
  {
    hide Mul, Add;
    if l == 0 {
      EvalTrim(c, 1, z);
      assert c[..1] == [1] && [1 as bv8][1..] == [];
      MulZero(z);
      AddZero(1);
    }
  }

  // ----- the theorem behind the correction loop

  /** The error evaluator that eloc_poly leaves behind when called with t: the product of c and the
      syndromes from the second on, cut off below degree t. */
  ghost predicate IsEvaluator(omega: seq<bv8>, c: seq<bv8>, s: seq<bv8>, t: nat)
    requires s != []
  {
    forall u :: 0 <= u < |omega| ==> omega[u] == if u < t then Conv(c, s[1..], u) else 0
  }

  /** Let s be the first n syndromes of an error word e of weight at most n / 2, c a shortest
      recurrence for them, and omega the error evaluator. Then c vanishes exactly at the inverse
      locators of the errors, and omega divided by the derivative of c gives their values. */
  lemma ErrorsFound(e: seq<bv8>, s: seq<bv8>, n: nat, c: seq<bv8>, l: nat, omega: seq<bv8>, k: nat)
    requires |e| <= 255 && k < |e| && 2 * Weight(e) <= n <= |s| && 0 < n <= |c| && |omega| == |c|
    requires forall i :: 0 <= i < n ==> s[i] == Syndrome(e, i)
    requires Generates(c, l, s, n)
    requires forall c', l' | Generates(c', l', s, n) :: l <= l'
    requires IsEvaluator(omega, c, s, n - 1)
    ensures Eval(c, Inverse(e, k)) == 0 <==> e[k] != 0
    ensures e[k] != 0 ==>
      Div(Eval(omega, Inverse(e, k)), Eval(Derivative(c), Inverse(e, k))) == e[k]
  {
    hide Mul, Add, Alpha, Eval, Syndrome, Conv, Locator, Derivative, Div;
    LocatorGenerates(e, s, n);
    assert l <= Weight(e);
    RecurrenceRoots(c, l, e, s, n);
    if e[k] == 0 {
      NoOtherRoots(c, l, e, k);
    } else {
      WeightZero(e);
      ErrorValue(e, s, n, c, l, omega, k);
    }
  }

  lemma ErrorValue(e: seq<bv8>, s: seq<bv8>, n: nat, c: seq<bv8>, l: nat, omega: seq<bv8>, k: nat)
    requires |e| <= 255 && k < |e| && e[k] != 0
    requires l <= Weight(e) && l < n <= |s| && n <= |c| && |omega| == |c|
    requires forall i :: 0 <= i < n ==> s[i] == Syndrome(e, i)
    requires c[0] == 1 && forall i :: l < i < |c| ==> c[i] == 0
    requires Locates(c, e)
    requires IsEvaluator(omega, c, s, n - 1)
    ensures Div(Eval(omega, Inverse(e, k)), Eval(Derivative(c), Inverse(e, k))) == e[k]
  {
    hide Mul, Add, Alpha, Eval, Syndrome, Conv, Derivative, Div, OmegaTerm, OmegaSum;
    var t := n - 1;
    var z := Inverse(e, k);
    forall u | 0 <= u < t
      ensures omega[u] == OmegaTerm(e, c, u)
    {
      ConvIsOmegaTerm(e, c, s[1..], u);
    }
    EvalTrim(omega, t, z);
    EvalOmega(e, c, omega, z, t);
    OmegaSumAtRoot(e, c, |e| - 1 - k, t);
    var d := Eval(Derivative(c), z);
    SimpleRoot(c, l, e, k, t);
    MulNonzero(e[k], d);
    DivMul(Mul(e[k], d), d);
    MulCancel(d, Div(Mul(e[k], d), d), e[k]);
  }
}
