/** Linear recurrences over GF(256), as Berlekamp-Massey looks for them. */
module LinearRecurrence {
  import opened Gf256
  import opened Polynomials

  /** The coefficient of x^n in the product of the polynomials a and b. */
  function Conv(a: seq<bv8>, b: seq<bv8>, n: int): bv8
    decreases |a|
  {
    if n < 0 || a == [] then 0 else Add(Mul(a[0], At(b, n)), Conv(a[1..], b, n - 1))
  }

  /** The connection polynomial c of length l generates the terms of s up to n: the constant term
      is 1, the degree is at most l, and every term from l on is the one the recurrence predicts. */
  ghost predicate Generates(c: seq<bv8>, l: nat, s: seq<bv8>, n: nat)
    requires n <= |s|
  {
    && c != [] && c[0] == 1
    && (forall i :: l < i < |c| ==> c[i] == 0)
    && (forall k :: l <= k < n ==> Conv(c, s, k) == 0)
  }

  // ----- partial products, for loops that add one term at a time

  lemma {:induction false} ConvAppend(a: seq<bv8>, x: bv8, b: seq<bv8>, n: int)
    ensures Conv(a + [x], b, n) == Add(Conv(a, b, n), if |a| <= n then Mul(x, At(b, n - |a|)) else 0)
    decreases |a|
  {
    hide Mul, Add;
    if n < 0 {
      AddZero(0);
    } else if a == [] {
      assert [] + [x] == [x] && [x][1..] == [];
      AddZero(Mul(x, At(b, n)));
    } else {
      assert (a + [x])[1..] == a[1..] + [x];
      ConvAppend(a[1..], x, b, n - 1);
      AddAssoc(Mul(a[0], At(b, n)), Conv(a[1..], b, n - 1), if |a| <= n then Mul(x, At(b, n - |a|)) else 0);
    }
  }

  /** Terms in which either factor is zero do not count. */
  lemma {:induction false} ConvVanish(a: seq<bv8>, b: seq<bv8>, n: int)
    requires forall i :: 0 <= i < |a| && i <= n ==> a[i] == 0 || At(b, n - i) == 0
    ensures Conv(a, b, n) == 0
    decreases |a|
  {
    hide Mul, Add;
    if n >= 0 && a != [] {
      var t := a[1..];
      forall i | 0 <= i < |t| && i <= n - 1
        ensures t[i] == 0 || At(b, n - 1 - i) == 0
      {
        assert t[i] == a[i + 1];
      }
      ConvVanish(t, b, n - 1);
      MulZero(a[0]);
      MulZero(At(b, n));
      AddZero(0);
    }
  }

  lemma {:induction false} ConvTrim(a: seq<bv8>, k: nat, b: seq<bv8>, n: int)
    requires k <= |a|
    requires forall i :: k <= i < |a| && i <= n ==> a[i] == 0
    ensures Conv(a, b, n) == Conv(a[..k], b, n)
    decreases |a|
  {
    hide Mul, Add;
    if k == 0 {
      ConvVanish(a, b, n);
    } else if n >= 0 {
      assert a[..k][1..] == a[1..][..k - 1];
      ConvTrim(a[1..], k - 1, b, n - 1);
    }
  }

  lemma {:induction false} ConvSameSource(a: seq<bv8>, b: seq<bv8>, b': seq<bv8>, n: int)
    requires forall k :: 0 <= k <= n ==> At(b, k) == At(b', k)
    ensures Conv(a, b, n) == Conv(a, b', n)
    decreases |a|
  {
    hide Mul, Add;
    if n >= 0 && a != [] {
      ConvSameSource(a[1..], b, b', n - 1);
    }
  }

  // ----- linearity

  lemma {:induction false} ConvCombine(c: seq<bv8>, d: seq<bv8>, e: seq<bv8>, m: bv8, s: seq<bv8>, n: int)
    requires |c| == |d| == |e|
    requires forall i :: 0 <= i < |c| ==> e[i] == Add(c[i], Mul(m, d[i]))
    ensures Conv(e, s, n) == Add(Conv(c, s, n), Mul(m, Conv(d, s, n)))
    decreases |c|
  {
    hide Mul, Add;
    if n < 0 || c == [] {
      MulZero(m);
      AddZero(0);
    } else {
      ConvCombine(c[1..], d[1..], e[1..], m, s, n - 1);
      var v := At(s, n);
      Distrib(v, c[0], Mul(m, d[0]));
      MulAssoc(m, d[0], v);
      Distrib(m, Mul(d[0], v), Conv(d[1..], s, n - 1));
      AddSwap(Mul(c[0], v), Mul(m, Mul(d[0], v)), Conv(c[1..], s, n - 1), Mul(m, Conv(d[1..], s, n - 1)));
    }
  }

  /** Shifting a polynomial up by m shifts its products. */
  lemma {:induction false} ConvShift(d: seq<bv8>, b: seq<bv8>, m: nat, s: seq<bv8>, n: int)
    requires |d| == m + |b|
    requires forall i :: 0 <= i < |d| ==> d[i] == At(b, i - m)
    ensures Conv(d, s, n) == Conv(b, s, n - m)
    decreases m
  {
    hide Mul, Add;
    if m == 0 {
      assert d == b;
    } else if n >= 0 {
      ConvShift(d[1..], b, m - 1, s, n - 1);
      MulZero(At(s, n));
      AddZero(Conv(d[1..], s, n - 1));
    }
  }

  /** The source of a product may be a scaled sequence plus one that is delayed by j terms. */
  lemma {:induction false} ConvSource(a: seq<bv8>, m: bv8, s: seq<bv8>, y: seq<bv8>, j: nat, x: seq<bv8>, n: int)
    requires forall k :: 0 <= k <= n ==> At(x, k) == Add(Mul(m, At(s, k)), At(y, k - j))
    ensures Conv(a, x, n) == Add(Mul(m, Conv(a, s, n)), Conv(a, y, n - j))
    decreases |a|
  {
    hide Mul, Add;
    if n < 0 || a == [] {
      MulZero(m);
      AddZero(0);
    } else {
      var t := a[1..];
      ConvSource(t, m, s, y, j, x, n - 1);
      var u, v := At(s, n), At(y, n - j);
      Distrib(a[0], Mul(m, u), v);
      MulAssoc(a[0], m, u);
      MulAssoc(m, a[0], u);
      MulComm(a[0], m);
      Distrib(m, Mul(a[0], u), Conv(t, s, n - 1));
      AddSwap(Mul(m, Mul(a[0], u)), Mul(a[0], v), Mul(m, Conv(t, s, n - 1)), Conv(t, y, n - 1 - j));
      if n < j {
        MulZero(a[0]);
        AddZero(0);
      }
    }
  }

  /** The sequence of products of c with s. */
  function Products(c: seq<bv8>, s: seq<bv8>): (u: seq<bv8>)
    ensures |u| == |s|
    ensures forall k :: 0 <= k < |s| ==> u[k] == Conv(c, s, k)
  {
    seq(|s|, k => Conv(c, s, k))
  }

  /** Products of products do not depend on the order of the factors. */
  lemma {:induction false} ConvCommutes(a: seq<bv8>, b: seq<bv8>, s: seq<bv8>, n: int)
    requires n < |s|
    ensures Conv(a, Products(b, s), n) == Conv(b, Products(a, s), n)
    decreases |a|
  {
    hide Mul, Add;
    if n < 0 || a == [] {
      ConvVanish(b, Products(a, s), n);
    } else {
      var t := a[1..];
      ConvCommutes(t, b, s, n - 1);
      forall k | 0 <= k <= n
        ensures At(Products(a, s), k) == Add(Mul(a[0], At(s, k)), At(Products(t, s), k - 1))
      {
        assert Conv(a, s, k) == Add(Mul(a[0], At(s, k)), Conv(t, s, k - 1));
      }
      ConvSource(b, a[0], s, Products(t, s), 1, Products(a, s), n);
    }
  }

  /** Massey's bound: when the recurrence (c, l) fails at term n for the first time, every
      recurrence that generates term n as well is at least n + 1 - l long. */
  lemma Massey(c: seq<bv8>, l: nat, c': seq<bv8>, l': nat, s: seq<bv8>, n: nat)
    requires n < |s|
    requires Generates(c, l, s, n) && Conv(c, s, n) != 0
    requires Generates(c', l', s, n + 1)
    ensures l' > n - l
  {
    hide Mul, Add, Conv;
    if l' <= n - l {
      var u, u' := Products(c, s), Products(c', s);
      ConvCommutes(c, c', s, n);
      // on one side every term vanishes
      ConvVanish(c, u', n);
      // on the other side only the leading term is left
      ConvLeading(c', u, n);
    }
  }

  lemma ConvLeading(a: seq<bv8>, x: seq<bv8>, n: nat)
    requires a != [] && a[0] == 1
    requires forall i :: 1 <= i < |a| && i <= n ==> a[i] == 0 || At(x, n - i) == 0
    ensures Conv(a, x, n) == At(x, n)
  {
    hide Mul, Add;
    var t := a[1..];
    forall i | 0 <= i < |t| && i <= n - 1
      ensures t[i] == 0 || At(x, n - 1 - i) == 0
    {
      assert t[i] == a[i + 1];
    }
    ConvVanish(t, x, n - 1);
    MulOne(At(x, n));
    AddZero(At(x, n));
  }
}
