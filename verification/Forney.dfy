/** Why the connection polynomial of the syndromes locates the errors, and why the error evaluator
    divided by its derivative gives their values. Words, locators and weights are those of
    module Polynomials: the entry at index k of a word of length n has power n - 1 - k. */
module Forney {
  import opened Gf256
  import opened Polynomials
  import opened LinearRecurrence

  // ----- syndromes are generated by the error locator

  /** The word d, each entry scaled by the value of c at its inverse locator. */
  function Twisted(d: seq<bv8>, c: seq<bv8>): (t: seq<bv8>)
    ensures |t| == |d|
  {
    if d == [] then [] else [Mul(d[0], Eval(c, Inverse(d, 0)))] + Twisted(d[1..], c)
  }

  lemma {:induction false} TwistedAt(d: seq<bv8>, c: seq<bv8>, k: nat)
    requires k < |d|
    ensures Twisted(d, c)[k] == Mul(d[k], Eval(c, Inverse(d, k)))
  {
    hide Mul, Add, Alpha;
    if k > 0 {
      TwistedAt(d[1..], c, k - 1);
    }
  }

  lemma {:induction false} TwistedWeight(d: seq<bv8>, c: seq<bv8>)
    ensures Weight(Twisted(d, c)) <= Weight(d)
  {
    hide Mul, Add, Alpha;
    if d != [] {
      TwistedWeight(d[1..], c);
      assert Twisted(d, c)[1..] == Twisted(d[1..], c);
      MulZero(Eval(c, Inverse(d, 0)));
    }
  }

  lemma {:induction false} TwistedStep(d: seq<bv8>, c: seq<bv8>, n: int)
    requires c != []
    ensures Syndrome(Twisted(d, c), n)
         == Add(Mul(c[0], Syndrome(d, n)), Syndrome(Twisted(d, c[1..]), n - 1))
  {
    hide Mul, Add, Alpha;
    if d == [] {
      MulZero(c[0]);
      AddZero(0);
    } else {
      var t := d[1..];
      TwistedStep(t, c, n);
      assert Twisted(d, c)[1..] == Twisted(t, c);
      assert Twisted(d, c[1..])[1..] == Twisted(t, c[1..]);
      var e := |d| - 1;
      var z, v := Inverse(d, 0), Eval(c[1..], Inverse(d, 0));
      AlphaAdd(-e, n * e);
      assert -e + n * e == (n - 1) * e;
      TwistedTerm(d[0], c[0], z, v, Alpha(n * e));
      Distrib(c[0], Mul(d[0], Alpha(n * e)), Syndrome(t, n));
      AddSwap(Mul(c[0], Mul(d[0], Alpha(n * e))), Mul(Mul(d[0], v), Mul(z, Alpha(n * e))),
        Mul(c[0], Syndrome(t, n)), Syndrome(Twisted(t, c[1..]), n - 1));
    }
  }

  lemma TwistedTerm(d: bv8, c: bv8, z: bv8, v: bv8, a: bv8)
    ensures Mul(Mul(d, Add(c, Mul(z, v))), a) == Add(Mul(c, Mul(d, a)), Mul(Mul(d, v), Mul(z, a)))
  {
    hide Mul, Add;
    Distrib(d, c, Mul(z, v));
    Distrib(a, Mul(d, c), Mul(d, Mul(z, v)));
    MulComm(d, c);
    MulAssoc(c, d, a);
    MulComm(z, v);
    MulAssoc(d, v, z);
    MulAssoc(Mul(d, v), z, a);
  }

  /** The discrepancy of a recurrence c on the syndromes of d is a syndrome of the twisted word. */
  lemma {:induction false} ConvOfSyndromes(c: seq<bv8>, d: seq<bv8>, s: seq<bv8>, n: int)
    requires forall k :: 0 <= k <= n ==> At(s, k) == Syndrome(d, k)
    requires forall i :: 0 <= i < |c| && n < i ==> c[i] == 0
    ensures Conv(c, s, n) == Syndrome(Twisted(d, c), n)
    decreases |c|
  {
    hide Mul, Add, Alpha;
    if n < 0 || c == [] {
      TwistedByZero(d, c);
      SyndromeAllZero(Twisted(d, c), n);
    } else {
      ConvOfSyndromes(c[1..], d, s, n - 1);
      TwistedStep(d, c, n);
    }
  }

  lemma TwistedByZero(d: seq<bv8>, c: seq<bv8>)
    requires AllZero(c)
    ensures AllZero(Twisted(d, c))
  {
    hide Mul, Add, Alpha;
    forall k | 0 <= k < |d|
      ensures Twisted(d, c)[k] == 0
    {
      TwistedAt(d, c, k);
      EvalAllZero(c, Inverse(d, k));
      MulZero(d[k]);
    }
  }

  /** p times (1 + r x), plus the constant t. */
  function TimesLinear(p: seq<bv8>, r: bv8, t: bv8): (q: seq<bv8>)
    ensures |q| == |p| + 1
  {
    if p == [] then [t] else [Add(p[0], t)] + TimesLinear(p[1..], r, Mul(r, p[0]))
  }

  lemma {:induction false} EvalTimesLinear(p: seq<bv8>, r: bv8, t: bv8, x: bv8)
    ensures Eval(TimesLinear(p, r, t), x) == Add(t, Mul(Add(1, Mul(r, x)), Eval(p, x)))
    decreases |p|
  {
    hide Mul, Add;
    if p == [] {
      assert [t][1..] == [];
      MulZero(x);
      MulZero(Add(1, Mul(r, x)));
    } else {
      var p' := p[1..];
      EvalTimesLinear(p', r, Mul(r, p[0]), x);
      assert TimesLinear(p, r, t)[1..] == TimesLinear(p', r, Mul(r, p[0]));
      TimesLinearTerm(p[0], r, t, x, Eval(p', x));
    }
  }

  lemma TimesLinearTerm(c: bv8, r: bv8, t: bv8, x: bv8, v: bv8)
    ensures Add(Add(c, t), Mul(x, Add(Mul(r, c), Mul(Add(1, Mul(r, x)), v))))
         == Add(t, Mul(Add(1, Mul(r, x)), Add(c, Mul(x, v))))
  {
    hide Mul, Add;
    var f := Add(1, Mul(r, x));
    Distrib(x, Mul(r, c), Mul(f, v));
    MulAssoc(x, f, v);
    MulComm(x, f);
    MulAssoc(f, x, v);
    Distrib(f, c, Mul(x, v));
    Distrib(c, 1, Mul(r, x));
    MulOne(c);
    MulComm(r, x);
    MulAssoc(x, r, c);
    AddComm(c, t);
    AddAssoc(t, c, Add(Mul(x, Mul(r, c)), Mul(f, Mul(x, v))));
    AddAssoc(c, Mul(x, Mul(r, c)), Mul(f, Mul(x, v)));
  }

  /** The error locator polynomial of a word: the product of (1 + X x) over its locators X. */
  function Locator(d: seq<bv8>): (p: seq<bv8>)
    ensures |p| == Weight(d) + 1
  {
    if d == [] then [1]
    else if d[0] == 0 then Locator(d[1..])
    else TimesLinear(Locator(d[1..]), Alpha(|d| - 1), 0)
  }

  lemma {:induction false} LocatorRoots(d: seq<bv8>)
    ensures Locator(d)[0] == 1
    ensures forall k :: 0 <= k < |d| && d[k] != 0 ==> Eval(Locator(d), Inverse(d, k)) == 0
  {
    hide Mul, Add, Alpha;
    if d != [] {
      var t := d[1..];
      LocatorRoots(t);
      AddZero(1);
      forall k | 0 <= k < |d| && d[k] != 0
        ensures Eval(Locator(d), Inverse(d, k)) == 0
      {
        if k > 0 {
          assert t[k - 1] == d[k] && Inverse(t, k - 1) == Inverse(d, k);
        }
        if d[0] != 0 {
          var x, r := Inverse(d, k), Alpha(|d| - 1);
          EvalTimesLinear(Locator(t), r, 0, x);
          AddZero(Mul(Add(1, Mul(r, x)), Eval(Locator(t), x)));
          MulZero(Add(1, Mul(r, x)));
          if k == 0 {
            AlphaAdd(|d| - 1, 1 - |d|);
            AlphaZeroOne();
            AddCancel(1, 1);
            MulZero(Eval(Locator(t), x));
          }
        }
      }
    }
  }

  /** The syndromes of a word obey a recurrence as long as the word has nonzero entries. */
  lemma LocatorGenerates(d: seq<bv8>, s: seq<bv8>, n: nat)
    requires n <= |s|
    requires forall k :: 0 <= k < n ==> s[k] == Syndrome(d, k)
    ensures Generates(Locator(d), Weight(d), s, n)
  {
    hide Mul, Add, Alpha, Conv, Eval, Locator, Syndrome, Twisted;
    var c := Locator(d);
    LocatorRoots(d);
    forall m | Weight(d) <= m < n
      ensures Conv(c, s, m) == 0
    {
      ConvOfSyndromes(c, d, s, m);
      forall k | 0 <= k < |d|
        ensures Twisted(d, c)[k] == 0
      {
        TwistedAt(d, c, k);
        MulZero(d[k]);
        MulZero(Eval(c, Inverse(d, k)));
      }
      SyndromeAllZero(Twisted(d, c), m);
    }
  }

  /** Any recurrence that is no longer than the word is heavy, and generates twice as many
      syndromes as that, vanishes at the inverse locator of every nonzero entry. */
  lemma RecurrenceRoots(c: seq<bv8>, l: nat, d: seq<bv8>, s: seq<bv8>, n: nat)
    requires n <= |s| && |d| <= 255
    requires forall k :: 0 <= k < n ==> s[k] == Syndrome(d, k)
    requires Generates(c, l, s, n) && l + Weight(d) <= n
    ensures forall k :: 0 <= k < |d| && d[k] != 0 ==> Eval(c, Inverse(d, k)) == 0
  {
    hide Mul, Add, Alpha, Conv, Eval, Syndrome, Twisted;
    var t := Twisted(d, c);
    TwistedWeight(d, c);
    forall m | l <= m < l + Weight(t)
      ensures Syndrome(t, m) == 0
    {
      ConvOfSyndromes(c, d, s, m);
    }
    Vandermonde(t, l);
    forall k | 0 <= k < |d| && d[k] != 0
      ensures Eval(c, Inverse(d, k)) == 0
    {
      TwistedAt(d, c, k);
      MulNonzero(d[k], Eval(c, Inverse(d, k)));
    }
  }

  /** ... and if it is no longer than the word has nonzero entries, it vanishes nowhere else. */
  lemma NoOtherRoots(c: seq<bv8>, l: nat, d: seq<bv8>, k: nat)
    requires k < |d| <= 255 && d[k] == 0
    requires c != [] && c[0] == 1 && l <= Weight(d)
    requires forall i :: l < i < |c| ==> c[i] == 0
    requires forall i :: 0 <= i < |d| && d[i] != 0 ==> Eval(c, Inverse(d, i)) == 0
    ensures Eval(c, Inverse(d, k)) != 0
  {
    hide Mul, Add, Alpha, Eval;
    if Eval(c, Inverse(d, k)) == 0 {
      var d' := d[k := 1];
      WeightSet(d, k, 1);
      var top := if l + 1 <= |c| then l + 1 else |c|;
      forall i | 0 <= i < |d'| && d'[i] != 0
        ensures Eval(c[..top], Inverse(d', i)) == 0
      {
        EvalTrim(c, top, Inverse(d, i));
        assert Inverse(d', i) == Inverse(d, i);
      }
      assert c[..top][0] == 1;
      RootBound(c[..top], d');
    }
  }

  // ----- partial evaluations of a polynomial from its constant term

  /** The first t + 1 coefficients of c as a polynomial in reverse, at w. */
  function Reversed(c: seq<bv8>, w: bv8, t: nat): bv8
    requires t < |c|
  {
    if t == 0 then c[0] else Add(Mul(w, Reversed(c, w, t - 1)), c[t])
  }

  /** The sum over u < t of z^u Reversed(c, w, u). */
  function Bivariate(c: seq<bv8>, z: bv8, w: bv8, t: nat): bv8
    requires t <= |c|
  {
    if t == 0 then 0
    else Add(Bivariate(c, z, w, t - 1), Mul(Pow(z, t - 1), Reversed(c, w, t - 1)))
  }

  lemma {:induction false} Telescope(c: seq<bv8>, z: bv8, w: bv8, t: nat)
    requires t < |c|
    ensures Mul(Add(1, Mul(z, w)), Bivariate(c, z, w, t))
         == Add(Eval(c[..t + 1], z), Mul(Pow(z, t), Reversed(c, w, t)))
  {
    hide Mul, Add;
    if t == 0 {
      assert c[..1] == [c[0]] && [c[0]][1..] == [];
      MulZero(Add(1, Mul(z, w)));
      MulZero(z);
      AddZero(c[0]);
      MulOne(c[0]);
      AddCancel(c[0], c[0]);
    } else {
      Telescope(c, z, w, t - 1);
      assert c[..t + 1] == c[..t] + [c[t]];
      EvalAppend(c[..t], c[t], z);
      TelescopeStep(z, w, Bivariate(c, z, w, t - 1), Pow(z, t - 1), Reversed(c, w, t - 1), Eval(c[..t], z), c[t]);
    }
  }

  lemma TelescopeStep(z: bv8, w: bv8, b: bv8, p: bv8, r: bv8, e: bv8, c: bv8)
    requires Mul(Add(1, Mul(z, w)), b) == Add(e, Mul(p, r))
    ensures Mul(Add(1, Mul(z, w)), Add(b, Mul(p, r)))
         == Add(Add(e, Mul(c, Mul(z, p))), Mul(Mul(z, p), Add(Mul(w, r), c)))
  {
    hide Mul, Add;
    var f, y := Add(1, Mul(z, w)), Mul(p, r);
    var u, q := Mul(Mul(z, w), y), Mul(c, Mul(z, p));
    calc {
      Mul(f, Add(b, y));
      { Distrib(f, b, y); }
      Add(Add(e, y), Mul(f, y));
      { Distrib(y, 1, Mul(z, w)); MulOne(y); }
      Add(Add(e, y), Add(y, u));
      { AddAssoc(e, y, Add(y, u)); AddCancel(y, u); }
      Add(e, u);
    }
    calc {
      Add(Add(e, q), Mul(Mul(z, p), Add(Mul(w, r), c)));
      { Distrib(Mul(z, p), Mul(w, r), c); MulComm(c, Mul(z, p)); }
      Add(Add(e, q), Add(Mul(Mul(z, p), Mul(w, r)), q));
      { AddComm(Mul(Mul(z, p), Mul(w, r)), q); AddAssoc(e, q, Add(q, Mul(Mul(z, p), Mul(w, r)))); AddCancel(q, Mul(Mul(z, p), Mul(w, r))); }
      Add(e, Mul(Mul(z, p), Mul(w, r)));
    }
    MulSwap(z, p, w, r);
  }

  lemma MulSwap(a: bv8, b: bv8, c: bv8, d: bv8)
    ensures Mul(Mul(a, b), Mul(c, d)) == Mul(Mul(a, c), Mul(b, d))
  {
    hide Mul;
    MulAssoc(a, b, Mul(c, d));
    MulAssoc(b, c, d);
    MulComm(b, c);
    MulAssoc(c, b, d);
    MulAssoc(a, c, Mul(b, d));
  }

  /** When z and w are inverse to each other, reversing is evaluating at z. */
  lemma {:induction false} ReversedAtInverse(c: seq<bv8>, z: bv8, w: bv8, t: nat)
    requires t < |c| && Mul(z, w) == 1
    ensures Mul(Pow(z, t), Reversed(c, w, t)) == Eval(c[..t + 1], z)
  {
    hide Mul, Add;
    if t == 0 {
      assert c[..1] == [c[0]] && [c[0]][1..] == [];
      MulZero(z);
      AddZero(c[0]);
      MulOne(c[0]);
    } else {
      ReversedAtInverse(c, z, w, t - 1);
      assert c[..t + 1] == c[..t] + [c[t]];
      EvalAppend(c[..t], c[t], z);
      var p, r := Pow(z, t - 1), Reversed(c, w, t - 1);
      Distrib(Mul(z, p), Mul(w, r), c[t]);
      MulSwap(z, p, w, r);
      MulOne(Mul(p, r));
      MulComm(Mul(z, p), c[t]);
    }
  }

  /** The formal derivative over a field of characteristic 2: coefficients of odd degree move down. */
  function Derivative(c: seq<bv8>): (s: seq<bv8>)
    ensures |s| == |c|
  {
    seq(|c|, i => if i % 2 == 0 then At(c, i + 1) else 0)
  }

  /** At inverse points the bivariate sum is z times the derivative, up to a multiple of the value. */
  lemma {:induction false} BivariateAtInverse(c: seq<bv8>, z: bv8, w: bv8, t: nat)
    requires t < |c| && Mul(z, w) == 1
    ensures Bivariate(c, z, w, t)
         == Add(if t % 2 == 1 then Eval(c[..t + 1], z) else 0, Mul(z, Eval(Derivative(c)[..t], z)))
  {
    hide Mul, Add;
    if t == 0 {
      MulZero(z);
      AddZero(0);
    } else {
      BivariateAtInverse(c, z, w, t - 1);
      ReversedAtInverse(c, z, w, t - 1);
      var s := Derivative(c);
      assert s[..t] == s[..t - 1] + [s[t - 1]];
      EvalAppend(s[..t - 1], s[t - 1], z);
      assert c[..t + 1] == c[..t] + [c[t]];
      EvalAppend(c[..t], c[t], z);
      BivariateParity(z, Eval(c[..t], z), Eval(s[..t - 1], z), c[t], Pow(z, t - 1));
      MulZero(Pow(z, t - 1));
    }
  }

  lemma BivariateParity(z: bv8, e: bv8, s: bv8, c: bv8, p: bv8)
    ensures Add(Add(e, Mul(z, s)), e) == Add(0, Mul(z, Add(s, 0)))
    ensures Add(Add(0, Mul(z, s)), e) == Add(Add(e, Mul(c, Mul(z, p))), Mul(z, Add(s, Mul(c, p))))
  {
    hide Mul, Add;
    var u, q := Mul(z, s), Mul(c, Mul(z, p));
    AddZero(s);
    AddZero(u);
    AddCancel(e, u);
    AddComm(u, e);
    AddAssoc(e, u, e);
    calc {
      Add(Add(e, q), Mul(z, Add(s, Mul(c, p))));
      { Distrib(z, s, Mul(c, p)); MulAssoc(z, c, p); MulAssoc(c, z, p); MulComm(z, c); }
      Add(Add(e, q), Add(u, q));
      { AddSwap(e, q, u, q); AddCancel(q, q); AddZero(Add(e, u)); }
      Add(e, u);
    }
  }
}
