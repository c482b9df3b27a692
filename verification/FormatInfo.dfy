/** Format information: the 15 bits that carry the level and the mask of a symbol, drawn twice, and their
    error correction in 3rdparty/quirc/decode.c. */
module FormatInfo {
  import opened Gf256
  import opened Polynomials
  import opened LinearRecurrence
  import opened GaloisField
  import opened ErrorLocator
  import F = Forney
  import D = BlockDecoder

  const FORMAT_SYNDROMES := 6
  const FORMAT_BITS := 15

  // ----- format words as words over GF(256)

  /** The first m bits of a format word, as a word over GF(256): bit j stands at the power 17j, where the
      j-th power of the primitive element of GF(16) is, with that power as its value. */
  function Word(u: seq<bool>, m: nat): (w: seq<bv8>)
    requires m <= |u| <= FORMAT_BITS
    ensures |w| == 255
    ensures forall k :: 0 <= k <= 254 - 17 * m ==> w[k] == 0
  {
    if m == 0 then seq(255, _ => 0)
    else if u[m - 1] then Word(u, m - 1)[254 - 17 * (m - 1) := Alpha(17 * (m - 1))]
    else Word(u, m - 1)
  }

  ghost predicate IsFormat(u: seq<bool>) {
    |u| == FORMAT_BITS && forall n :: 0 <= n < FORMAT_SYNDROMES ==> Syndrome(Word(u, FORMAT_BITS), n) == 0
  }

  /** Which bits of two format words differ. */
  function Differing(u: seq<bool>, v: seq<bool>): (e: seq<bool>)
    requires |u| == |v|
    ensures |e| == |u| && forall i :: 0 <= i < |u| ==> e[i] == (u[i] != v[i])
  {
    seq(|u|, i requires 0 <= i < |u| => u[i] != v[i])
  }

  function Count(e: seq<bool>, m: nat): (n: nat)
    requires m <= |e|
  {
    if m == 0 then 0 else Count(e, m - 1) + if e[m - 1] then 1 else 0
  }

  /** The number of wrong bits. */
  function Errors(u: seq<bool>, v: seq<bool>): nat
    requires |u| == |v|
  {
    Count(Differing(u, v), |u|)
  }

  lemma {:induction false} SyndromeSet(d: seq<bv8>, k: nat, v: bv8, n: int)
    requires k < |d| && d[k] == 0
    ensures Syndrome(d[k := v], n) == Add(Syndrome(d, n), Mul(v, Alpha(n * (|d| - 1 - k))))
  {
    hide Mul, Add, Alpha;
    var r := d[k := v];
    if k == 0 {
      assert r[1..] == d[1..];
      MulZero(Alpha(n * (|d| - 1)));
      AddZero(Syndrome(d[1..], n));
      AddComm(Mul(v, Alpha(n * (|d| - 1))), Syndrome(d[1..], n));
    } else {
      assert r[1..] == d[1..][k - 1 := v];
      SyndromeSet(d[1..], k - 1, v, n);
      AddAssoc(Mul(d[0], Alpha(n * (|d| - 1))), Syndrome(d[1..], n), Mul(v, Alpha(n * (|d| - 1 - k))));
    }
  }

  /** One more bit of a format word, in a syndrome. */
  lemma WordStep(u: seq<bool>, m: nat, n: int)
    requires m < |u| <= FORMAT_BITS
    ensures Syndrome(Word(u, m + 1), n) == if u[m] then Add(Syndrome(Word(u, m), n), Alpha(17 * ((n + 1) * m))) else Syndrome(Word(u, m), n)
  {
    hide Mul, Add, Alpha, Syndrome;
    if u[m] {
      var k := 254 - 17 * m;
      SyndromeSet(Word(u, m), k, Alpha(17 * m), n);
      AlphaAdd(17 * m, n * (17 * m));
      Powers(n, m);
    }
  }

  lemma Powers(n: int, m: int)
    ensures 17 * m + n * (17 * m) == 17 * ((n + 1) * m)
  {}

  lemma NoWord(u: seq<bool>, n: int)
    requires |u| <= FORMAT_BITS
    ensures Syndrome(Word(u, 0), n) == 0
  {
    hide Syndrome;
    SyndromeAllZero(Word(u, 0), n);
  }

  /** The syndromes of a format word, in GF(256), with the zeros that follow them in the buffer. */
  ghost function Syndromes(u: seq<bool>): (s: seq<bv8>)
    requires |u| == FORMAT_BITS
    ensures |s| == MAX_POLY
    ensures forall n :: 0 <= n < MAX_POLY ==> s[n] == if n < FORMAT_SYNDROMES then Syndrome(Word(u, FORMAT_BITS), n) else 0
  {
    seq(MAX_POLY, n requires 0 <= n < MAX_POLY => if n < FORMAT_SYNDROMES then Syndrome(Word(u, FORMAT_BITS), n) else 0)
  }

  /** format_syndromes. */
  method FormatSyndromes(u: seq<bool>, s: array<bv8>) returns (nonzero: bool)
    requires |u| == FORMAT_BITS && s.Length == MAX_POLY
    modifies s
    ensures Elems(Gf16Field, s[..])
    ensures forall n :: 0 <= n < FORMAT_SYNDROMES ==> Image(Gf16Field, s[n]) == Syndrome(Word(u, FORMAT_BITS), n)
    ensures Images(Gf16Field, s[..]) == Syndromes(u)
    ensures nonzero <==> !IsFormat(u)
  {
    hide Syndrome, Word, Image, Exp16, Alpha, Add;
    forall i | 0 <= i < MAX_POLY { s[i] := 0; }
    nonzero := false;
    ImageOne(Gf16Field);
    for i := 0 to FORMAT_SYNDROMES
      invariant Elems(Gf16Field, s[..])
      invariant forall n :: i <= n < MAX_POLY ==> s[n] == 0
      invariant forall n :: 0 <= n < i ==> Image(Gf16Field, s[n]) == Syndrome(Word(u, FORMAT_BITS), n)
      invariant nonzero <==> exists n :: 0 <= n < i && Syndrome(Word(u, FORMAT_BITS), n) != 0
    {
      s[i] := 0;
      NoWord(u, i);
      ImageOne(Gf16Field);
      for j := 0 to FORMAT_BITS
        invariant Elems(Gf16Field, s[..])
        invariant forall n :: i < n < MAX_POLY ==> s[n] == 0
        invariant forall n :: 0 <= n < i ==> Image(Gf16Field, s[n]) == Syndrome(Word(u, FORMAT_BITS), n)
        invariant Image(Gf16Field, s[i]) == Syndrome(Word(u, j), i)
      {
        WordStep(u, j, i);
        if u[j] {
          AddPower(s[i], (i + 1) * j);
          s[i] := Add(s[i], Exp16(((i + 1) * j) % 15));
        }
      }
      ImageZero(Gf16Field, s[i]);
      if s[i] != 0 {
        nonzero := true;
      }
    }
  }

  lemma AddPower(a: bv8, k: int)
    requires Elem(Gf16Field, a)
    ensures Elem(Gf16Field, Add(a, Exp16(k % 15)))
    ensures Image(Gf16Field, Add(a, Exp16(k % 15))) == Add(Image(Gf16Field, a), Alpha(17 * k))
  {
    hide Exp16, Alpha, Add, Inside;
    PowerInside(k);
    ImageAdd(Gf16Field, a, Exp16(k % 15));
  }

  // ----- the error of a format word

  function Entry(u: seq<bool>, m: nat, p: int): bv8
    requires m <= |u| && 0 <= p
  {
    if p % 17 == 0 && p / 17 < m && u[p / 17] then Alpha(p) else 0
  }

  /** The value of a format word at each power. */
  lemma {:induction false} WordEntry(u: seq<bool>, m: nat, p: nat)
    requires m <= |u| <= FORMAT_BITS && p < 255
    ensures Word(u, m)[254 - p] == Entry(u, m, p)
  {
    hide Alpha;
    if m > 0 { WordEntry(u, m - 1, p); }
  }

  lemma {:induction false} WordWeight(u: seq<bool>, m: nat)
    requires m <= |u| <= FORMAT_BITS
    ensures Weight(Word(u, m)) == Count(u, m)
  {
    hide Alpha, Weight;
    if m == 0 {
      WeightZero(Word(u, 0));
    } else {
      WordWeight(u, m - 1);
      AlphaNonzero(17 * (m - 1));
      if u[m - 1] { WeightSet(Word(u, m - 1), 254 - 17 * (m - 1), Alpha(17 * (m - 1))); }
    }
  }

  lemma DifferingWord(u: seq<bool>, v: seq<bool>, k: nat)
    requires |u| == |v| == FORMAT_BITS && k < 255
    ensures Word(Differing(u, v), FORMAT_BITS)[k] == Add(Word(u, FORMAT_BITS)[k], Word(v, FORMAT_BITS)[k])
  {
    hide Alpha, Add, Word, Entry;
    var p := 254 - k;
    WordEntry(u, FORMAT_BITS, p);
    WordEntry(v, FORMAT_BITS, p);
    WordEntry(Differing(u, v), FORMAT_BITS, p);
    DifferingEntry(u, v, p);
  }

  lemma DifferingEntry(u: seq<bool>, v: seq<bool>, p: nat)
    requires |u| == |v| == FORMAT_BITS
    ensures Entry(Differing(u, v), FORMAT_BITS, p) == Add(Entry(u, FORMAT_BITS, p), Entry(v, FORMAT_BITS, p))
  {
    hide Alpha, Add;
    AddZero(Alpha(p));
    AddZero(0);
    AddCancel(Alpha(p), Alpha(p));
  }

  /** The syndromes of a received word are those of its error. */
  lemma SyndromesOfError(u: seq<bool>, c: seq<bool>, n: nat)
    requires |u| == FORMAT_BITS && IsFormat(c) && n < FORMAT_SYNDROMES
    ensures Syndrome(Word(Differing(u, c), FORMAT_BITS), n) == Syndrome(Word(u, FORMAT_BITS), n)
  {
    hide Syndrome, Word, Add;
    forall k | 0 <= k < 255
      ensures Word(Differing(u, c), FORMAT_BITS)[k] == Add(Word(u, FORMAT_BITS)[k], Word(c, FORMAT_BITS)[k])
    {
      DifferingWord(u, c, k);
    }
    SyndromeAdd(Word(u, FORMAT_BITS), Word(c, FORMAT_BITS), Word(Differing(u, c), FORMAT_BITS), n);
    AddZero(Syndrome(Word(u, FORMAT_BITS), n));
  }

  lemma {:induction false} NoneDiffer(u: seq<bool>, v: seq<bool>, m: nat)
    requires |u| == |v| && m <= |u| && Count(Differing(u, v), m) == 0
    ensures u[..m] == v[..m]
  {
    if m > 0 {
      NoneDiffer(u, v, m - 1);
      assert u[..m] == u[..m - 1] + [u[m - 1]] && v[..m] == v[..m - 1] + [v[m - 1]];
    }
  }

  /** Format words within six bits of each other are equal. */
  lemma NearbyFormats(u: seq<bool>, c: seq<bool>)
    requires IsFormat(u) && IsFormat(c) && Errors(u, c) <= FORMAT_SYNDROMES
    ensures u == c
  {
    hide Syndrome, Word, Weight;
    var w := Word(Differing(u, c), FORMAT_BITS);
    WordWeight(Differing(u, c), FORMAT_BITS);
    forall n | 0 <= n < Weight(w) ensures Syndrome(w, n) == 0 {
      SyndromesOfError(u, c, n);
    }
    Vandermonde(w, 0);
    WeightZero(w);
    NoneDiffer(u, c, FORMAT_BITS);
    assert u[..FORMAT_BITS] == u && c[..FORMAT_BITS] == c;
  }

  // ----- the correction

  /** The locator polynomial that berlekamp_massey finds vanishes exactly at the inverse locators of the
      wrong bits, if they are at most three. */
  lemma RootsAreErrors(u: seq<bool>, c: seq<bool>, s: seq<bv8>, sigma: seq<bv8>, l: nat)
    requires |u| == FORMAT_BITS && IsFormat(c) && 2 * Errors(u, c) <= FORMAT_SYNDROMES
    requires |s| == |sigma| == MAX_POLY
    requires forall n :: 0 <= n < FORMAT_SYNDROMES ==> s[n] == Syndrome(Word(u, FORMAT_BITS), n)
    requires l <= FORMAT_SYNDROMES && Generates(sigma, l, s, FORMAT_SYNDROMES) && Shortest(l, s, FORMAT_SYNDROMES)
    ensures forall i :: 0 <= i < FORMAT_BITS ==> (Eval(sigma, Alpha(-17 * i)) == 0 <==> u[i] != c[i])
  {
    hide Syndrome, Word, Weight, Conv, Eval, Alpha, Generates, Shortest;
    var e := Differing(u, c);
    var w := Word(e, FORMAT_BITS);
    WordWeight(e, FORMAT_BITS);
    forall n | 0 <= n < FORMAT_SYNDROMES ensures s[n] == Syndrome(w, n) {
      SyndromesOfError(u, c, n);
    }
    ShortEnough(w, s, l);
    GeneratesUnit(sigma, l, s, FORMAT_SYNDROMES);
    F.RecurrenceRoots(sigma, l, w, s, FORMAT_SYNDROMES);
    forall i | 0 <= i < FORMAT_BITS ensures Eval(sigma, Alpha(-17 * i)) == 0 <==> u[i] != c[i] {
      RootAt(e, sigma, l, i);
    }
  }

  lemma ShortEnough(w: seq<bv8>, s: seq<bv8>, l: nat)
    requires |s| == MAX_POLY && Shortest(l, s, FORMAT_SYNDROMES)
    requires forall n :: 0 <= n < FORMAT_SYNDROMES ==> s[n] == Syndrome(w, n)
    ensures l <= Weight(w)
  {
    hide Syndrome, Weight, Conv, F.Locator;
    F.LocatorGenerates(w, s, FORMAT_SYNDROMES);
  }

  lemma GeneratesUnit(c: seq<bv8>, l: nat, s: seq<bv8>, n: nat)
    requires n <= |s| && Generates(c, l, s, n)
    ensures c != [] && c[0] == 1 && forall i :: l < i < |c| ==> c[i] == 0
  {}

  lemma RootAt(e: seq<bool>, sigma: seq<bv8>, l: nat, i: nat)
    requires |e| == FORMAT_BITS && i < FORMAT_BITS
    requires sigma != [] && sigma[0] == 1 && forall k :: l < k < |sigma| ==> sigma[k] == 0
    requires var w := Word(e, FORMAT_BITS);
      l <= Weight(w) && forall k :: 0 <= k < |w| && w[k] != 0 ==> Eval(sigma, Inverse(w, k)) == 0
    ensures Eval(sigma, Alpha(-17 * i)) == 0 <==> e[i]
  {
    hide Word, Weight, Eval, Alpha;
    var w := Word(e, FORMAT_BITS);
    WordEntry(e, FORMAT_BITS, 17 * i);
    AlphaNonzero(17 * i);
    assert Inverse(w, 254 - 17 * i) == Alpha(-17 * i);
    if !e[i] {
      F.NoOtherRoots(sigma, l, w, 254 - 17 * i);
    }
  }

  /** What correct_format makes of a word that is no format word: it flips the bits at which the shortest
      recurrence of the syndromes vanishes. */
  ghost function Flipped(u: seq<bool>): (f: seq<bool>)
    requires |u| == FORMAT_BITS
    ensures |f| == FORMAT_BITS
    ensures forall i :: 0 <= i < FORMAT_BITS ==>
      f[i] == (u[i] != (Eval(Found(Syndromes(u), FORMAT_SYNDROMES).c, Alpha(-17 * i)) == 0))
  {
    seq(FORMAT_BITS, i requires 0 <= i < FORMAT_BITS =>
      u[i] != (Eval(Found(Syndromes(u), FORMAT_SYNDROMES).c, Alpha(-17 * i)) == 0))
  }

  ghost function Mended(u: seq<bool>): (f: seq<bool>)
    requires |u| == FORMAT_BITS
    ensures |f| == FORMAT_BITS
  {
    if IsFormat(u) then u else Flipped(u)
  }

  /** correct_format succeeds. */
  ghost predicate Accepted(u: seq<bool>)
    requires |u| == FORMAT_BITS
  {
    IsFormat(Mended(u))
  }

  /** correct_format: succeeds on the words that are accepted, and mends them. */
  method CorrectFormat(u: seq<bool>) returns (ok: bool, f: seq<bool>)
    requires |u| == FORMAT_BITS
    ensures |f| == FORMAT_BITS && f == Mended(u) && (ok <==> Accepted(u))
  {
    hide Syndrome, Word, Image, Conv, Eval, Alpha, Exp16, Generates, Shortest, Found;
    f := u;
    var s := new bv8[MAX_POLY];
    var sigma := new bv8[MAX_POLY];
    var nonzero := FormatSyndromes(u, s);
    if !nonzero {
      return true, u;
    }
    ghost var l := BerlekampMassey(Gf16Field, s, FORMAT_SYNDROMES, sigma);
    f := FlipRoots(u, sigma);
    assert f == Flipped(u);
    nonzero := FormatSyndromes(f, s);
    ok := !nonzero;
  }

  /** Whatever format word is within three bits of a word, it is accepted and becomes that word. */
  lemma MendedWithinThree(u: seq<bool>, c: seq<bool>)
    requires |u| == FORMAT_BITS && IsFormat(c) && Errors(u, c) <= 3
    ensures Mended(u) == c && Accepted(u)
  {
    hide Syndrome, Word, Conv, Eval, Alpha, Generates, Shortest, Found;
    if IsFormat(u) {
      NearbyFormats(u, c);
    } else {
      var s := Syndromes(u);
      FoundShortest(s, FORMAT_SYNDROMES);
      var found := Found(s, FORMAT_SYNDROMES);
      RootsAreErrors(u, c, s, found.c, found.l);
      assert Flipped(u) == c;
    }
  }

  /** The loop of correct_format over the roots. */
  method FlipRoots(u: seq<bool>, sigma: array<bv8>) returns (f: seq<bool>)
    requires |u| == FORMAT_BITS && sigma.Length == MAX_POLY && Elems(Gf16Field, sigma[..])
    ensures |f| == FORMAT_BITS
    ensures forall i :: 0 <= i < FORMAT_BITS ==>
      f[i] == (u[i] != (Eval(Images(Gf16Field, sigma[..]), Alpha(-17 * i)) == 0))
  {
    hide Image, Eval, Alpha, Exp16;
    f := u;
    for i := 0 to FORMAT_BITS
      invariant |f| == FORMAT_BITS && forall k :: i <= k < FORMAT_BITS ==> f[k] == u[k]
      invariant forall k :: 0 <= k < i ==>
        f[k] == (u[k] != (Eval(Images(Gf16Field, sigma[..]), Alpha(-17 * k)) == 0))
    {
      InverseLocator(i);
      var x := D.PolyEval(Gf16Field, sigma, Exp16(15 - i));
      ImageZero(Gf16Field, x);
      if x == 0 {
        f := f[i := !f[i]];
      }
    }
  }

  lemma InverseLocator(i: nat)
    requires i < 15
    ensures Elem(Gf16Field, Exp16(15 - i)) && Image(Gf16Field, Exp16(15 - i)) == Alpha(-17 * i)
  {
    hide Exp16, Alpha, Inside;
    InsidePower(15 - i);
    LogOfPower(15 - i);
    AlphaShift(-17 * i, 1);
    assert 17 * (15 - i) == -17 * i + 255;
  }
}
