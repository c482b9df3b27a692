/** The search for the error locator polynomial in 3rdparty/quirc/decode.c. */
module ErrorLocator {
  import opened Gf256
  import opened Polynomials
  import opened LinearRecurrence
  import opened GaloisField

  const MAX_POLY := 64

  /** The polynomial b times x^m, cut off at MAX_POLY coefficients. */
  function Shifted(b: seq<bv8>, m: nat): (d: seq<bv8>)
    ensures |d| == |b|
  {
    seq(|b|, i => At(b, i - m))
  }

  /** r is d + c x^shift src, as far as it fits. */
  ghost predicate Summed(gf: Galois, r: seq<bv8>, d: seq<bv8>, src: seq<bv8>, c: bv8, shift: int) {
    && |r| == |d| && Elems(gf, r)
    && forall i :: 0 <= i < |r| ==>
      Images(gf, r)[i] == Add(Images(gf, d)[i], Mul(Image(gf, c), At(Images(gf, src), i - shift)))
  }

  /** `dst += c * x^shift * src`, for polynomials over either field held in buffers of MAX_POLY bytes. */
  method PolyAdd(gf: Galois, dst: array<bv8>, src: array<bv8>, c: bv8, shift: nat)
    requires dst.Length == src.Length == MAX_POLY && dst != src
    requires Elem(gf, c) && Elems(gf, dst[..]) && Elems(gf, src[..])
    modifies dst
    ensures Summed(gf, dst[..], old(dst[..]), src[..], c, shift)
  {
    hide Mul, Add, LogOf, ExpOf, Image, At, Elem;
    ghost var was, from := Images(gf, dst[..]), Images(gf, src[..]);
    if c == 0 {
      forall i | 0 <= i < MAX_POLY
        ensures was[i] == Add(was[i], Mul(Image(gf, c), At(from, i - shift)))
      {
        ImageOne(gf);
        MulZero(At(from, i - shift));
        AddZero(was[i]);
      }
      return;
    }
    forall q | 0 <= q < MAX_POLY && q < shift
      ensures was[q] == Add(was[q], Mul(Image(gf, c), At(from, q - shift)))
    {
      BelowStart(from, q - shift);
      MulZero(Image(gf, c));
      AddZero(was[q]);
    }
    var log_c := LogOf(gf, c);
    for i := 0 to MAX_POLY
      invariant src[..] == old(src[..])
      invariant forall q :: 0 <= q < MAX_POLY ==> Elem(gf, dst[q])
      invariant forall q :: 0 <= q < MAX_POLY && q < i + shift ==>
        Image(gf, dst[q]) == Add(was[q], Mul(Image(gf, c), At(from, q - shift)))
      invariant forall q :: 0 <= q < MAX_POLY && i + shift <= q ==> Image(gf, dst[q]) == was[q]
    {
      var p := i + shift;
      var v := src[i];
      if p < MAX_POLY {
        WithinBuffer(from, i);
        AddTerm(gf, dst[p], c, v);
        if v != 0 {
          dst[p] := Add(dst[p], ExpOf(gf, (LogOf(gf, v) + log_c) % Order(gf)));
        }
      }
    }
  }

  lemma BelowStart(p: seq<bv8>, i: int)
    requires i < 0
    ensures At(p, i) == 0
  {}

  lemma WithinBuffer(p: seq<bv8>, i: nat)
    requires i < |p|
    ensures At(p, i) == p[i]
  {}

  /** One coefficient of a sum. */
  lemma AddTerm(gf: Galois, d: bv8, c: bv8, v: bv8)
    requires Elem(gf, d) && Elem(gf, c) && Elem(gf, v) && c != 0
    ensures var r := if v != 0 then Add(d, TableProduct(gf, v, c)) else d;
      Elem(gf, r) && Image(gf, r) == Add(Image(gf, d), Mul(Image(gf, c), Image(gf, v)))
  {
    hide Mul, Add, TableProduct, Image, Elem;
    if v != 0 {
      ImageProduct(gf, v, c);
      ImageAdd(gf, d, TableProduct(gf, v, c));
      MulComm(Image(gf, v), Image(gf, c));
    } else {
      ImageOne(gf);
      MulZero(Image(gf, c));
      AddZero(Image(gf, d));
    }
  }

  // ----- the state of the search, on values

  /** What holds before term n is looked at: c is a shortest recurrence for the first n terms, and b
      is the last shorter one, which failed m terms ago with discrepancy db. */
  ghost predicate State(s: seq<bv8>, n: nat, c: seq<bv8>, b: seq<bv8>, l: nat, m: nat, db: bv8)
    requires n <= |s|
  {
    && |c| == |b| == MAX_POLY
    && n <= MAX_POLY && l <= n && 1 <= m <= n + 1 && db != 0
    && Generates(c, l, s, n)
    && Shortest(l, s, n)
    && 0 <= n - m + 1 - l
    && (forall i :: n - m + 1 - l < i < MAX_POLY ==> b[i] == 0)
    && (forall k :: n - m + 1 - l <= k < n - m ==> Conv(b, s, k) == 0)
    && (m <= n ==> Conv(b, s, n - m) == db)
  }

  ghost predicate Shortest(l: nat, s: seq<bv8>, n: nat)
    requires n <= |s|
  {
    forall c', l' | Generates(c', l', s, n) :: l <= l'
  }

  lemma Start(s: seq<bv8>, c: seq<bv8>)
    requires |c| == MAX_POLY && c[0] == 1 && forall i :: 1 <= i < MAX_POLY ==> c[i] == 0
    ensures State(s, 0, c, c, 0, 1, 1)
  {}

  /** One correction makes the recurrence meet term n and keeps all earlier ones. */
  lemma Corrected(s: seq<bv8>, n: nat, c: seq<bv8>, b: seq<bv8>, l: nat, m: nat, db: bv8, c2: seq<bv8>)
    requires n < |s| && n < MAX_POLY && State(s, n, c, b, l, m, db)
    requires Conv(c, s, n) != 0
    requires |c2| == MAX_POLY
    requires forall i :: 0 <= i < MAX_POLY ==> c2[i] == Add(c[i], Mul(Div(Conv(c, s, n), db), At(b, i - m)))
    ensures Generates(c2, if 2 * l <= n then n + 1 - l else l, s, n + 1)
  {
    hide Mul, Add, Div, Conv;
    var d := Conv(c, s, n);
    var mult := Div(d, db);
    var l2: nat := if 2 * l <= n then n + 1 - l else l;
    forall i | i == 0 || l2 < i < MAX_POLY
      ensures c2[i] == c[i]
    {
      MulZero(mult);
      AddZero(c[i]);
    }
    forall k | l2 <= k < n + 1
      ensures Conv(c2, s, k) == 0
    {
      CorrectedProduct(s, c, b, m, mult, c2, k);
      if k < n {
        MulZero(mult);
        AddZero(0);
      } else {
        DivMul(d, db);
        AddCancel(d, d);
      }
    }
  }

  lemma CorrectedProduct(s: seq<bv8>, c: seq<bv8>, b: seq<bv8>, m: nat, mult: bv8, c2: seq<bv8>, k: nat)
    requires |c| == |b| == |c2| == MAX_POLY && m <= MAX_POLY && k < MAX_POLY
    requires forall i :: 0 <= i < MAX_POLY ==> c2[i] == Add(c[i], Mul(mult, At(b, i - m)))
    ensures Conv(c2, s, k) == Add(Conv(c, s, k), Mul(mult, Conv(b, s, k - m)))
  {
    hide Mul, Add, Conv;
    var d := Shifted(b, m);
    ConvCombine(c, d, c2, mult, s, k);
    ConvShift(d, b[..MAX_POLY - m], m, s, k);
    ConvTrim(b, MAX_POLY - m, s, k - m);
  }

  /** A discrepancy lengthens the shortest recurrence exactly when twice its length is at most n. */
  lemma ShortestAfter(s: seq<bv8>, n: nat, c: seq<bv8>, l: nat)
    requires n < |s| && l <= n && Generates(c, l, s, n) && Shortest(l, s, n)
    ensures Conv(c, s, n) == 0 ==> Shortest(l, s, n + 1)
    ensures Conv(c, s, n) != 0 ==> Shortest(if 2 * l <= n then n + 1 - l else l, s, n + 1)
  {
    hide Conv;
    var n1 := n + 1;
    forall c', l' | Generates(c', l', s, n1)
      ensures l <= l' && (Conv(c, s, n) != 0 ==> n - l < l')
    {
      assert Generates(c', l', s, n);
      if Conv(c, s, n) != 0 {
        Massey(c, l, c', l', s, n);
      }
    }
  }

  /** The discrepancy loop of berlekamp_massey. */
  method Discrepancy(gf: Galois, s: array<bv8>, n: nat, c: array<bv8>, l: nat) returns (d: bv8)
    requires s.Length == c.Length == MAX_POLY && l <= n < MAX_POLY
    requires Elems(gf, s[..]) && Elems(gf, c[..])
    requires c[0] == 1 && forall i :: l < i < MAX_POLY ==> Images(gf, c[..])[i] == 0
    ensures Elem(gf, d) && Image(gf, d) == Conv(Images(gf, c[..]), Images(gf, s[..]), n)
  {
    hide Mul, Add, LogOf, ExpOf, Image, Elem;
    ghost var cs, ss := Images(gf, c[..]), Images(gf, s[..]);
    d := s[n];
    FirstTerm(gf, cs, ss, n);
    for i := 1 to l + 1
      invariant Elem(gf, d) && Image(gf, d) == Conv(cs[..i], ss, n)
    {
      assert cs[..i + 1] == cs[..i] + [cs[i]];
      ConvAppend(cs[..i], cs[i], ss, n);
      NextTerm(gf, d, c[i], s[n - i]);
      if c[i] != 0 && s[n - i] != 0 {
        d := Add(d, ExpOf(gf, (LogOf(gf, c[i]) + LogOf(gf, s[n - i])) % Order(gf)));
      }
    }
    ConvTrim(cs, l + 1, ss, n);
  }

  lemma FirstTerm(gf: Galois, cs: seq<bv8>, ss: seq<bv8>, n: nat)
    requires cs != [] && cs[0] == Image(gf, 1) && n < |ss|
    ensures Conv(cs[..1], ss, n) == ss[n]
  {
    hide Mul, Add;
    ImageOne(gf);
    assert cs[..1] == [] + [1];
    ConvAppend([], 1, ss, n);
    MulOne(ss[n]);
    AddZero(ss[n]);
  }

  lemma NextTerm(gf: Galois, d: bv8, c: bv8, v: bv8)
    requires Elem(gf, d) && Elem(gf, c) && Elem(gf, v)
    ensures var r := if c != 0 && v != 0 then Add(d, TableProduct(gf, c, v)) else d;
      Elem(gf, r) && Image(gf, r) == Add(Image(gf, d), Mul(Image(gf, c), Image(gf, v)))
  {
    hide Mul, Add, TableProduct, Image, Elem;
    if c != 0 && v != 0 {
      ImageProduct(gf, c, v);
      ImageAdd(gf, d, TableProduct(gf, c, v));
    } else {
      ImageOne(gf);
      MulZero(Image(gf, c));
      MulZero(Image(gf, v));
      AddZero(Image(gf, d));
    }
  }

  lemma Kept(s: seq<bv8>, n: nat, c: seq<bv8>, b: seq<bv8>, l: nat, m: nat, db: bv8)
    requires n < |s| && n < MAX_POLY && State(s, n, c, b, l, m, db) && Conv(c, s, n) == 0
    ensures State(s, n + 1, c, b, l, m + 1, db)
  {
    hide Conv, Shortest;
    ShortestAfter(s, n, c, l);
  }

  lemma Lengthened(s: seq<bv8>, n: nat, c: seq<bv8>, b: seq<bv8>, l: nat, m: nat, db: bv8, c2: seq<bv8>, d: bv8)
    requires n < |s| && n < MAX_POLY && State(s, n, c, b, l, m, db)
    requires d == Conv(c, s, n) && d != 0 && 2 * l <= n && |c2| == MAX_POLY
    requires forall i :: 0 <= i < MAX_POLY ==> c2[i] == Add(c[i], Mul(Div(d, db), At(b, i - m)))
    ensures State(s, n + 1, c2, c, n + 1 - l, 1, d)
  {
    hide Conv, Shortest, Add, Mul, Div;
    ShortestAfter(s, n, c, l);
    Corrected(s, n, c, b, l, m, db, c2);
  }

  lemma Repaired(s: seq<bv8>, n: nat, c: seq<bv8>, b: seq<bv8>, l: nat, m: nat, db: bv8, c2: seq<bv8>)
    requires n < |s| && n < MAX_POLY && State(s, n, c, b, l, m, db)
    requires Conv(c, s, n) != 0 && n < 2 * l && |c2| == MAX_POLY
    requires forall i :: 0 <= i < MAX_POLY ==> c2[i] == Add(c[i], Mul(Div(Conv(c, s, n), db), At(b, i - m)))
    ensures State(s, n + 1, c2, b, l, m + 1, db)
  {
    hide Conv, Shortest, Add, Mul, Div;
    ShortestAfter(s, n, c, l);
    Corrected(s, n, c, b, l, m, db, c2);
  }

  lemma StateFacts(s: seq<bv8>, n: nat, c: seq<bv8>, b: seq<bv8>, l: nat, m: nat, db: bv8)
    requires n <= |s| && State(s, n, c, b, l, m, db)
    ensures |c| == MAX_POLY && l <= n && Generates(c, l, s, n) && Shortest(l, s, n)
    ensures forall i :: l < i < MAX_POLY ==> c[i] == 0
    ensures c[0] == 1 && db != 0
  {
    hide Conv, Shortest;
  }

  /** A correction never pushes a nonzero coefficient past the end of the buffer. */
  lemma NothingTruncated(s: seq<bv8>, n: nat, c: seq<bv8>, b: seq<bv8>, l: nat, m: nat, db: bv8)
    requires n < |s| && n + 1 < MAX_POLY && State(s, n, c, b, l, m, db)
    ensures forall i :: 0 <= i < MAX_POLY && b[i] != 0 ==> i + m <= n + 1 - l && i + m < MAX_POLY
  {
    hide Conv, Shortest, Generates;
  }

  // ----- the search as a function

  /** The two polynomials of the search, the length of the recurrence, how many terms ago the other one
      failed, and its discrepancy. */
  datatype Search = Search(c: seq<bv8>, b: seq<bv8>, l: nat, m: nat, db: bv8)

  function Unit(): (p: seq<bv8>)
    ensures |p| == MAX_POLY && p[0] == 1 && forall i :: 1 <= i < MAX_POLY ==> p[i] == 0
  {
    [1] + seq(MAX_POLY - 1, _ => 0)
  }

  /** c + mult x^m b. */
  function Correction(c: seq<bv8>, b: seq<bv8>, mult: bv8, m: nat): (r: seq<bv8>)
    ensures |r| == |c| && forall i :: 0 <= i < |c| ==> r[i] == Add(c[i], Mul(mult, At(b, i - m)))
  {
    seq(|c|, i requires 0 <= i < |c| => Add(c[i], Mul(mult, At(b, i - m))))
  }

  function Advance(s: seq<bv8>, n: nat, st: Search): Search {
    var d := Conv(st.c, s, n);
    if d == 0 then st.(m := st.m + 1)
    else
      var c2 := Correction(st.c, st.b, Div(d, st.db), st.m);
      if 2 * st.l <= n then Search(c2, st.c, n + 1 - st.l, 1, d)
      else Search(c2, st.b, st.l, st.m + 1, st.db)
  }

  /** The state of berlekamp_massey after n terms. */
  function Found(s: seq<bv8>, n: nat): Search {
    if n == 0 then Search(Unit(), Unit(), 0, 1, 1) else Advance(s, n - 1, Found(s, n - 1))
  }

  lemma SummedIsCorrection(gf: Galois, r: seq<bv8>, d: seq<bv8>, src: seq<bv8>, c: bv8, shift: nat)
    requires Summed(gf, r, d, src, c, shift)
    ensures Images(gf, r) == Correction(Images(gf, d), Images(gf, src), Image(gf, c), shift)
  {
    hide Image, Mul, Add, At;
  }

  lemma FoundNext(s: seq<bv8>, n: nat)
    ensures Found(s, n + 1) == Advance(s, n, Found(s, n))
  {
    hide Advance;
  }

  ghost predicate Sound(s: seq<bv8>, n: nat, st: Search)
    requires n <= |s|
  {
    State(s, n, st.c, st.b, st.l, st.m, st.db)
  }

  lemma AdvanceKeeps(s: seq<bv8>, n: nat, st: Search)
    requires n < |s| && n < MAX_POLY && Sound(s, n, st)
    ensures Sound(s, n + 1, Advance(s, n, st))
  {
    hide State, Conv, Div, Correction, Mul, Add, At;
    StateFacts(s, n, st.c, st.b, st.l, st.m, st.db);
    var d := Conv(st.c, s, n);
    var c2 := Correction(st.c, st.b, Div(d, st.db), st.m);
    if d == 0 {
      Kept(s, n, st.c, st.b, st.l, st.m, st.db);
    } else if 2 * st.l <= n {
      Lengthened(s, n, st.c, st.b, st.l, st.m, st.db, c2, d);
    } else {
      Repaired(s, n, st.c, st.b, st.l, st.m, st.db, c2);
    }
  }

  /** The search finds a shortest recurrence for every sequence. */
  lemma {:induction false} FoundState(s: seq<bv8>, n: nat)
    requires n <= |s| && n <= MAX_POLY
    ensures Sound(s, n, Found(s, n))
  {
    hide State, Advance;
    if n == 0 {
      Start(s, Unit());
    } else {
      FoundState(s, n - 1);
      AdvanceKeeps(s, n - 1, Found(s, n - 1));
    }
  }

  lemma FoundShortest(s: seq<bv8>, n: nat)
    requires n <= |s| && n <= MAX_POLY
    ensures var f := Found(s, n); |f.c| == MAX_POLY && f.l <= n && Generates(f.c, f.l, s, n) && Shortest(f.l, s, n)
  {
    hide State, Found, Generates, Shortest;
    FoundState(s, n);
    var f := Found(s, n);
    StateFacts(s, n, f.c, f.b, f.l, f.m, f.db);
  }

  // ----- the state of the search, in the buffers

  ghost predicate Searching(gf: Galois, s: seq<bv8>, n: nat, c: seq<bv8>, b: seq<bv8>, l: nat, m: nat, db: bv8) {
    && n <= |s| && |c| == |b| == MAX_POLY
    && Elems(gf, c) && Elems(gf, b) && Elem(gf, db) && c[0] == 1
    && State(Images(gf, s), n, Images(gf, c), Images(gf, b), l, m, Image(gf, db))
    && Found(Images(gf, s), n) == Search(Images(gf, c), Images(gf, b), l, m, Image(gf, db))
  }

  lemma SearchStarts(gf: Galois, s: seq<bv8>, c: seq<bv8>)
    requires |c| == MAX_POLY && c[0] == 1 && forall i :: 1 <= i < MAX_POLY ==> c[i] == 0
    ensures Searching(gf, s, 0, c, c, 0, 1, 1)
  {
    hide Image;
    ImageOne(gf);
    Start(Images(gf, s), Images(gf, c));
    assert Images(gf, c) == Unit();
  }

  lemma SearchFacts(gf: Galois, s: seq<bv8>, n: nat, c: seq<bv8>, b: seq<bv8>, l: nat, m: nat, db: bv8)
    requires Searching(gf, s, n, c, b, l, m, db)
    ensures Elems(gf, c) && Elems(gf, b) && Elem(gf, db) && c[0] == 1 && db != 0 && l <= n
    ensures forall i :: l < i < MAX_POLY ==> Images(gf, c)[i] == 0
    ensures Generates(Images(gf, c), l, Images(gf, s), n) && Shortest(l, Images(gf, s), n)
    ensures Images(gf, c) == Found(Images(gf, s), n).c
  {
    hide State, Image, Found;
    StateFacts(Images(gf, s), n, Images(gf, c), Images(gf, b), l, m, Image(gf, db));
    ImageZero(gf, db);
  }

  lemma SearchKept(gf: Galois, s: seq<bv8>, n: nat, c: seq<bv8>, b: seq<bv8>, l: nat, m: nat, db: bv8)
    requires n < |s| && n < MAX_POLY && Searching(gf, s, n, c, b, l, m, db)
    requires Conv(Images(gf, c), Images(gf, s), n) == 0
    ensures Searching(gf, s, n + 1, c, b, l, m + 1, db)
  {
    hide State, Image, Conv, Found;
    FoundNext(Images(gf, s), n);
    Kept(Images(gf, s), n, Images(gf, c), Images(gf, b), l, m, Image(gf, db));
  }

  lemma SearchLengthened(gf: Galois, s: seq<bv8>, n: nat, c: seq<bv8>, b: seq<bv8>, l: nat, m: nat, db: bv8, c2: seq<bv8>, d: bv8)
    requires n < |s| && n < MAX_POLY && Searching(gf, s, n, c, b, l, m, db)
    requires Elem(gf, d) && d != 0 && Image(gf, d) == Conv(Images(gf, c), Images(gf, s), n) && 2 * l <= n
    requires Summed(gf, c2, c, b, TableQuotient(gf, d, db), m)
    ensures Searching(gf, s, n + 1, c2, c, n + 1 - l, 1, d)
  {
    hide State, Image, Conv, TableQuotient, Div, Mul, Add, Found, Correction;
    SearchFacts(gf, s, n, c, b, l, m, db);
    ImageZero(gf, d);
    ImageQuotient(gf, d, db);
    FoundNext(Images(gf, s), n);
    SummedIsCorrection(gf, c2, c, b, TableQuotient(gf, d, db), m);
    Lengthened(Images(gf, s), n, Images(gf, c), Images(gf, b), l, m, Image(gf, db), Images(gf, c2), Image(gf, d));
    StateUnit(gf, Images(gf, s), n + 1, c2, Images(gf, c), n + 1 - l, 1, Image(gf, d));
  }

  lemma SearchRepaired(gf: Galois, s: seq<bv8>, n: nat, c: seq<bv8>, b: seq<bv8>, l: nat, m: nat, db: bv8, c2: seq<bv8>, d: bv8)
    requires n < |s| && n < MAX_POLY && Searching(gf, s, n, c, b, l, m, db)
    requires Elem(gf, d) && d != 0 && Image(gf, d) == Conv(Images(gf, c), Images(gf, s), n) && n < 2 * l
    requires Summed(gf, c2, c, b, TableQuotient(gf, d, db), m)
    ensures Searching(gf, s, n + 1, c2, b, l, m + 1, db)
  {
    hide State, Image, Conv, TableQuotient, Div, Mul, Add, Found, Correction;
    SearchFacts(gf, s, n, c, b, l, m, db);
    ImageZero(gf, d);
    ImageQuotient(gf, d, db);
    FoundNext(Images(gf, s), n);
    SummedIsCorrection(gf, c2, c, b, TableQuotient(gf, d, db), m);
    Repaired(Images(gf, s), n, Images(gf, c), Images(gf, b), l, m, Image(gf, db), Images(gf, c2));
    StateUnit(gf, Images(gf, s), n + 1, c2, Images(gf, b), l, m + 1, Image(gf, db));
  }

  lemma QuotientElem(gf: Galois, d: bv8, b: bv8)
    requires Elem(gf, d) && Elem(gf, b) && d != 0 && b != 0
    ensures Elem(gf, TableQuotient(gf, d, b))
  {
    hide TableQuotient, Image, Div;
    ImageQuotient(gf, d, b);
  }

  lemma StateUnit(gf: Galois, s: seq<bv8>, n: nat, c: seq<bv8>, b: seq<bv8>, l: nat, m: nat, db: bv8)
    requires n <= |s| && |c| == MAX_POLY && Elems(gf, c) && State(s, n, Images(gf, c), b, l, m, db)
    ensures c[0] == 1
  {
    hide State, Inside;
    StateFacts(s, n, Images(gf, c), b, l, m, db);
    ImageUnit(gf, c[0]);
  }

  lemma ImageUnit(gf: Galois, v: bv8)
    requires Elem(gf, v) && Image(gf, v) == 1
    ensures v == 1
  {
    hide Inside, Add;
    ImageOne(gf);
    ImageAdd(gf, v, 1);
    AddCancel(1, 1);
    ImageZero(gf, Add(v, 1));
    AddCancel(v, 1);
  }

  /** Finds a shortest linear recurrence for the first N terms of s, over either field, and leaves its
      connection polynomial in sigma. Over GF(16) there is no shorter one in GF(256) either. */
  method BerlekampMassey(gf: Galois, s: array<bv8>, N: nat, sigma: array<bv8>) returns (ghost l: nat)
    requires s.Length == sigma.Length == MAX_POLY && s != sigma && N <= MAX_POLY && Elems(gf, s[..])
    modifies sigma
    ensures Elems(gf, sigma[..])
    ensures l <= N && Generates(Images(gf, sigma[..]), l, Images(gf, s[..]), N) && Shortest(l, Images(gf, s[..]), N)
    ensures Images(gf, sigma[..]) == Found(Images(gf, s[..]), N).c
  {
    hide Found, Conv, Generates, Shortest, Searching, Image, Elem, TableQuotient, Summed;
    var C := new bv8[MAX_POLY](_ => 0);
    var B := new bv8[MAX_POLY](_ => 0);
    B[0] := 1;
    C[0] := 1;
    var L: nat := 0;
    var m: nat := 1;
    var b: bv8 := 1;
    ghost var q := s[..];
    assert B[..] == C[..];
    SearchStarts(gf, q, C[..]);
    for n := 0 to N
      invariant s[..] == q
      invariant fresh(C) && fresh(B) && C.Length == B.Length == MAX_POLY && C != B
      invariant Searching(gf, q, n, C[..], B[..], L, m, b)
    {
      ghost var c, bb := C[..], B[..];
      SearchFacts(gf, q, n, c, bb, L, m, b);
      var d := Discrepancy(gf, s, n, C, L);
      var mult := TableQuotient(gf, d, b);
      ImageZero(gf, d);
      if d == 0 {
        SearchKept(gf, q, n, c, bb, L, m, b);
        m := m + 1;
      } else if L * 2 <= n {
        QuotientElem(gf, d, b);
        AddAndKeep(gf, C, B, mult, m);
        SearchLengthened(gf, q, n, c, bb, L, m, b, C[..], d);
        L := n + 1 - L;
        b := d;
        m := 1;
      } else {
        QuotientElem(gf, d, b);
        PolyAdd(gf, C, B, mult, m);
        SearchRepaired(gf, q, n, c, bb, L, m, b, C[..], d);
        m := m + 1;
      }
    }
    SearchFacts(gf, q, N, C[..], B[..], L, m, b);
    CopyBuffer(sigma, C);
    l := L;
  }

  /** Corrects C by B, and leaves the old C in B. */
  method AddAndKeep(gf: Galois, C: array<bv8>, B: array<bv8>, mult: bv8, m: nat)
    requires C.Length == B.Length == MAX_POLY && C != B
    requires Elem(gf, mult) && Elems(gf, C[..]) && Elems(gf, B[..])
    modifies C, B
    ensures Summed(gf, C[..], old(C[..]), old(B[..]), mult, m) && B[..] == old(C[..])
  {
    hide Summed, Elem;
    var T := new bv8[MAX_POLY](i requires 0 <= i < MAX_POLY reads C => C[i]);
    assert T[..] == C[..];
    PolyAdd(gf, C, B, mult, m);
    CopyBuffer(B, T);
  }

  method CopyBuffer(dst: array<bv8>, src: array<bv8>)
    requires dst.Length == src.Length == MAX_POLY
    modifies dst
    ensures dst[..] == old(src[..])
  {
    forall i | 0 <= i < MAX_POLY {
      dst[i] := src[i];
    }
  }
}
