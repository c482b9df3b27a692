/** The penalty score by which the encoder of 3rdparty/qrcodegen.cpp chooses a mask, and its bounds. */
module Penalty {
  import opened FunctionPatterns
  import opened Zigzag

  const PENALTY_N1 := 3
  const PENALTY_N2 := 3
  const PENALTY_N3 := 40
  const PENALTY_N4 := 10

  // ----- finder-like patterns

  type History = h: seq<int> | |h| == 7 witness [0, 0, 0, 0, 0, 0, 0]

  const NO_RUNS: History := [0, 0, 0, 0, 0, 0, 0]

  /** finderPenaltyAddHistory: the latest run comes first; the first run of a line gets a light border. */
  function AddHistory(length: int, h: History, size: int): History {
    [if h[0] == 0 then length + size else length] + h[..6]
  }

  /** finderPenaltyCountPatterns. */
  function CountPatterns(h: History): int {
    var n := h[1];
    var core := n > 0 && h[2] == n && h[3] == n * 3 && h[4] == n && h[5] == n;
    (if core && h[0] >= n * 4 && h[6] >= n then 1 else 0) + (if core && h[6] >= n * 4 && h[0] >= n then 1 else 0)
  }

  /** finderPenaltyTerminateAndCount. */
  function TerminateAndCount(dark: bool, length: int, h: History, size: int): int {
    if dark then CountPatterns(AddHistory(size, AddHistory(length, h, size), size))
    else CountPatterns(AddHistory(length + size, h, size))
  }

  /** Two finder-like patterns cannot end at light runs that follow each other: the second run of one
      would have to be three times as long as itself. */
  lemma NoTwoInARow(h: History, a: int, b: int)
    requires CountPatterns(h) > 0
    ensures CountPatterns([b, a] + h[..5]) == 0
  {
    var t := [b, a] + h[..5];
    assert t[2] == h[0] && t[3] == h[1] && t[4] == h[2] && t[5] == h[3];
  }

  // ----- one line

  function RunPenalty(length: int): int {
    if length == 5 then PENALTY_N1 else if length > 5 then 1 else 0
  }

  /** The penalty of a line from module x on, in a run of the given colour and length. */
  function LineScore(line: seq<bool>, size: int, x: nat, dark: bool, length: int, h: History): int
    requires x <= |line|
    decreases |line| - x
  {
    if x == |line| then TerminateAndCount(dark, length, h, size) * PENALTY_N3
    else if line[x] == dark then
      RunPenalty(length + 1) + LineScore(line, size, x + 1, dark, length + 1, h)
    else
      var h' := AddHistory(length, h, size);
      (if dark then 0 else CountPatterns(h') * PENALTY_N3) + LineScore(line, size, x + 1, line[x], 1, h')
  }

  /** What the rest of a line may still cost on account of the run and the last pattern. */
  function Allowance(dark: bool, length: int, hot: bool): int {
    (if length >= 5 then 2 else length) + (if dark then (if hot then 40 else 80) else (if hot then 60 else 100))
  }

  /** hot says that the last light run that was followed by a dark one ended a pattern; prev is the
      history at that point. */
  ghost predicate LineState(dark: bool, h: History, hot: bool, prev: History) {
    && (hot <==> CountPatterns(prev) > 0)
    && (dark ==> h == prev)
    && (!dark && hot ==> h[1..] == prev[..6])
  }

  /** A line costs at most 21 for each module, and a constant. */
  lemma {:induction false} LineBound(line: seq<bool>, size: int, x: nat, dark: bool, length: int, h: History, hot: bool, prev: History)
    requires x <= |line| && length >= 0 && LineState(dark, h, hot, prev)
    ensures 0 <= LineScore(line, size, x, dark, length, h) <= 21 * (|line| - x) + Allowance(dark, length, hot)
    decreases |line| - x
  {
    hide CountPatterns;
    var h' := AddHistory(length, h, size);
    CountRange(h');
    if x == |line| {
      CountRange(AddHistory(size, h', size));
      CountRange(AddHistory(length + size, h, size));
      if hot && dark {
        LightAgain(prev, h', AddHistory(size, h', size));
      } else if hot {
        LightAgain(prev, h, AddHistory(length + size, h, size));
      }
    } else if line[x] == dark {
      LineBound(line, size, x + 1, dark, length + 1, h, hot, prev);
    } else if dark {
      assert h'[1..] == h[..6];
      LineBound(line, size, x + 1, false, 1, h', hot, prev);
    } else {
      if hot {
        LightAgain(prev, h, h');
      }
      LineBound(line, size, x + 1, true, 1, h', CountPatterns(h') > 0, h');
    }
  }

  lemma CountRange(h: History)
    ensures 0 <= CountPatterns(h) <= 2
  {}

  /** After a pattern, a dark and a light run later there is none. */
  lemma LightAgain(prev: History, h: History, h': History)
    requires CountPatterns(prev) > 0 && h[1..] == prev[..6] && h'[1..] == h[..6]
    ensures CountPatterns(h') == 0
  {
    hide CountPatterns;
    NoTwoInARow(prev, h[0], h'[0]);
    assert h' == [h'[0], h[0]] + prev[..5];
  }

  // ----- what a line costs

  /** The five modules from a on have one colour. */
  predicate Five(line: seq<bool>, a: int) {
    0 <= a && a + 5 <= |line| && forall i :: a <= i < a + 5 ==> line[i] == line[a]
  }

  predicate InLongRun(line: seq<bool>, i: int) {
    exists a :: i - 5 < a <= i && Five(line, a)
  }

  /** A run of five modules or more starts at a. */
  predicate StartsLongRun(line: seq<bool>, a: int) {
    Five(line, a) && (a == 0 || line[a - 1] != line[a])
  }

  function LongRunModules(line: seq<bool>): set<int> {
    set i | 0 <= i < |line| && InLongRun(line, i)
  }

  function LongRunStarts(line: seq<bool>): set<int> {
    set a | 0 <= a < |line| && StartsLongRun(line, a)
  }

  /** The modules of a line, with light ones around it. */
  predicate At(line: seq<bool>, i: int) {
    0 <= i < |line| && line[i]
  }

  predicate All(line: seq<bool>, from: int, to: int, dark: bool) {
    forall i :: from <= i < to ==> At(line, i) == dark
  }

  /** A place of a finder-like pattern: where it starts, how many modules its unit has, and on which side
      there are four light units. */
  datatype Finder = Finder(start: int, size: int, before: bool)

  /** Dark, light and dark runs of 1:1:3:1:1 units between four light units on one side and one on the other. */
  predicate IsFinder(line: seq<bool>, f: Finder) {
    var s, n := f.start, f.size;
    && n >= 1
    && All(line, s - (if f.before then 4 * n else n), s, false)
    && All(line, s, s + n, true) && All(line, s + n, s + 2 * n, false) && All(line, s + 2 * n, s + 5 * n, true)
    && All(line, s + 5 * n, s + 6 * n, false) && All(line, s + 6 * n, s + 7 * n, true)
    && All(line, s + 7 * n, s + 7 * n + (if f.before then n else 4 * n), false)
  }

  function Finders(line: seq<bool>): set<Finder> {
    set s, n, before | 0 <= s < |line| && 1 <= n <= |line| && before in {false, true} && IsFinder(line, Finder(s, n, before)) ::
      Finder(s, n, before)
  }

  /** The runs of five modules or more cost their length less two. */
  function RunsCost(line: seq<bool>): int {
    |LongRunModules(line)| - 2 * |LongRunStarts(line)|
  }

  /** The last r modules are a run. */
  predicate Trailing(line: seq<bool>, r: nat) {
    && 0 < r <= |line| && (forall i :: |line| - r <= i < |line| ==> line[i] == line[|line| - 1])
    && (r < |line| ==> line[|line| - r - 1] != line[|line| - 1])
  }

  lemma FiveInPrefix(p: seq<bool>, b: bool, a: int)
    ensures Five(p + [b], a) <==> Five(p, a) || (a == |p| - 4 && Five(p + [b], a))
  {
    var q := p + [b];
    assert forall i :: 0 <= i < |p| ==> q[i] == p[i];
    if 0 <= a && a + 5 <= |p| {
      if Five(p, a) {
        forall i | a <= i < a + 5 ensures q[i] == q[a] { assert p[i] == p[a]; }
      }
      if Five(q, a) {
        forall i | a <= i < a + 5 ensures p[i] == p[a] { assert q[i] == q[a]; }
      }
    }
  }

  lemma FiveAtEnd(line: seq<bool>, r: nat)
    requires Trailing(line, r)
    ensures Five(line, |line| - 5) <==> r >= 5
  {
    var n := |line|;
    if r >= 5 {
      assert line[n - 5] == line[n - 1];
      forall i | n - 5 <= i < n - 5 + 5 ensures line[i] == line[n - 5] {
        assert line[i] == line[n - 1];
      }
      assert Five(line, n - 5);
    } else if n >= 5 {
      assert line[n - r - 1] != line[n - 1];
      assert !Five(line, n - 5);
    } else {
      assert r < 5;
      assert !Five(line, n - 5);
    }
  }

  /** One more module. */
  lemma RunsGrow(p: seq<bool>, b: bool, r: nat)
    requires Trailing(p + [b], r)
    ensures RunsCost(p + [b]) == RunsCost(p) + RunPenalty(r)
  {
    hide Five;
    var q, n := p + [b], |p|;
    FiveAtEnd(q, r);
    forall a ensures Five(q, a) <==> Five(p, a) || (a == n - 4 && r >= 5) {
      FiveInPrefix(p, b, a);
    }
    FiveBounds(p);
    StartsGrow(p, b, r);
    ModulesGrow(p, b, r);
  }

  lemma FiveBounds(p: seq<bool>)
    ensures forall a :: Five(p, a) ==> 0 <= a && a + 5 <= |p|
  {}

  lemma StartsGrow(p: seq<bool>, b: bool, r: nat)
    requires Trailing(p + [b], r)
    requires forall a :: Five(p + [b], a) <==> Five(p, a) || (a == |p| - 4 && r >= 5)
    requires forall a :: Five(p, a) ==> 0 <= a && a + 5 <= |p|
    ensures |LongRunStarts(p + [b])| == |LongRunStarts(p)| + if r == 5 then 1 else 0
  {
    hide Five;
    var q, n := p + [b], |p|;
    forall a ensures a in LongRunStarts(q) <==> a in LongRunStarts(p) || (a == n - 4 && r == 5) {
      if r >= 5 {
        assert r > 5 ==> q[n - 5] == q[n - 4];
        assert r == 5 && n > 4 ==> q[n - 5] != q[n - 4];
      }
    }
    assert n - 4 !in LongRunStarts(p);
    if r == 5 {
      assert LongRunStarts(q) == LongRunStarts(p) + {n - 4};
    } else {
      assert LongRunStarts(q) == LongRunStarts(p);
    }
  }

  lemma ModulesGrow(p: seq<bool>, b: bool, r: nat)
    requires Trailing(p + [b], r)
    requires forall a :: Five(p + [b], a) <==> Five(p, a) || (a == |p| - 4 && r >= 5)
    requires forall a :: Five(p, a) ==> 0 <= a && a + 5 <= |p|
    ensures |LongRunModules(p + [b])| == |LongRunModules(p)| + if r == 5 then 5 else if r > 5 then 1 else 0
  {
    hide Five;
    var q, n := p + [b], |p|;
    forall i ensures i in LongRunModules(q) <==> i in LongRunModules(p) || (n - 4 <= i <= n && r >= 5) {
      if n - 4 <= i <= n && r >= 5 { assert Five(q, n - 4); }
    }
    hide InLongRun;
    if r == 5 {
      forall i | n - 4 <= i <= n ensures i !in LongRunModules(p) {
        NotYetLong(p, b, i);
      }
      FiveMore(LongRunModules(p), LongRunModules(q), n - 4);
    } else if r > 5 {
      StillLong(p, b, r);
      assert n !in LongRunModules(p);
      assert LongRunModules(q) == LongRunModules(p) + {n};
    } else {
      assert LongRunModules(q) == LongRunModules(p);
    }
  }

  lemma FiveMore(s: set<int>, t: set<int>, a: int)
    requires forall i :: i in t <==> i in s || a <= i <= a + 4
    requires forall i :: a <= i <= a + 4 ==> i !in s
    ensures |t| == |s| + 5
  {
    var more := {a, a + 1, a + 2, a + 3, a + 4};
    assert |more| == 5;
    forall i ensures i in more <==> a <= i <= a + 4 {}
    assert t == s + more && s !! more;
  }

  lemma StillLong(p: seq<bool>, b: bool, r: nat)
    requires Trailing(p + [b], r) && r > 5
    ensures forall i :: |p| - 4 <= i < |p| ==> i in LongRunModules(p)
  {
    OneEarlier(p, b, r);
    hide Five;
    forall i | |p| - 4 <= i < |p| ensures InLongRun(p, i) { assert Five(p, |p| - 5); }
  }

  lemma OneEarlier(p: seq<bool>, b: bool, r: nat)
    requires Trailing(p + [b], r) && r > 5
    ensures |p| >= 5 && Five(p, |p| - 5)
  {
    var q := p + [b];
    forall i | |p| - 5 <= i < |p| ensures p[i] == b { assert q[i] == p[i]; }
  }

  /** A run that has just reached five modules does not touch the long runs before it. */
  lemma NotYetLong(p: seq<bool>, b: bool, i: int)
    requires Trailing(p + [b], 5) && |p| - 4 <= i
    ensures !InLongRun(p, i)
  {
    var q := p + [b];
    forall a | i - 5 < a <= i ensures !Five(p, a) {
      if 0 <= a && a + 5 <= |p| {
        assert q[|p| - 5] == p[|p| - 5] && q[|p| - 4] == p[|p| - 4];
      }
    }
  }

  // ----- the history of runs

  /** The runs that end at a place, the latest first: as far as the history goes they are whole runs of the
      line, the first of them with a light border as long as the line. */
  ghost predicate Trail(line: seq<bool>, end: int, dark: bool, h: seq<int>)
    decreases |h|
  {
    h == []
    || (h[0] == 0 && end == -|line| && forall k :: 0 <= k < |h| ==> h[k] == 0)
    || (h[0] > 0 && WholeRun(line, end - h[0], end, dark) && Trail(line, end - h[0], !dark, h[1..]))
  }

  predicate WholeRun(line: seq<bool>, from: int, to: int, dark: bool) {
    -|line| <= from && All(line, from, to, dark) && (from > -|line| ==> At(line, from - 1) != dark)
  }

  lemma {:induction false} TrailPrefix(line: seq<bool>, end: int, dark: bool, h: seq<int>, n: nat)
    requires Trail(line, end, dark, h) && n <= |h|
    ensures Trail(line, end, dark, h[..n])
    decreases n
  {
    if n > 0 && h[0] > 0 {
      TrailPrefix(line, end - h[0], !dark, h[1..], n - 1);
      assert h[..n][1..] == h[1..][..n - 1];
    }
  }

  /** A run that the line shows is the latest one of the history. */
  lemma RunIs(line: seq<bool>, end: int, dark: bool, h: seq<int>, n: int)
    requires Trail(line, end, dark, h) && h != [] && n >= 1
    requires All(line, end - n, end, dark) && At(line, end - n - 1) != dark
    ensures h[0] == n
  {
    assert At(line, end - 1) == dark;
    assert 0 < h[0] < n ==> At(line, end - h[0] - 1) == dark;
  }

  lemma RunAtLeast(line: seq<bool>, end: int, h: seq<int>, n: int)
    requires Trail(line, end, false, h) && h != [] && n >= 1
    requires end - n >= -|line|
    ensures All(line, end - n, end, false) <==> h[0] >= n
  {
    var r := h[0];
    assert All(line, end - n, end, false) && 0 < r < n ==> At(line, end - r - 1) == false;
  }

  /** Where the core of a finder-like pattern ends. */
  function EndOf(f: Finder): int {
    f.start + 7 * f.size
  }

  function FindersAt(line: seq<bool>, e: int): set<Finder> {
    set f | f in Finders(line) && EndOf(f) == e
  }

  function FindersBefore(line: seq<bool>, e: int): set<Finder> {
    set f | f in Finders(line) && EndOf(f) < e
  }

  lemma FinderBounds(line: seq<bool>, f: Finder)
    requires IsFinder(line, f)
    ensures 0 <= f.start && EndOf(f) <= |line| && f in Finders(line)
    ensures At(line, EndOf(f) - 1) && !At(line, EndOf(f))
  {
    var s, n := f.start, f.size;
    assert At(line, s) && At(line, s + 7 * n - 1);
    assert !At(line, s + 7 * n);
  }

  lemma InFinders(line: seq<bool>, f: Finder)
    ensures f in Finders(line) <==> IsFinder(line, f)
  {
    if IsFinder(line, f) { FinderBounds(line, f); }
  }

  predicate Core(h: History, n: int) {
    h[1] == n && h[2] == n && h[3] == n * 3 && h[4] == n && h[5] == n
  }

  /** The core of a pattern, from its end backwards, and what is light before it. */
  lemma CoreFromFinder(line: seq<bool>, e: int, h: History, f: Finder)
    requires h[0] > 0 && Trail(line, e, true, h[1..])
    requires IsFinder(line, f) && EndOf(f) == e
    ensures Core(h, f.size) && h[6] >= if f.before then 4 * f.size else f.size
  {
    hide Trail, At, All;
    var s, n := f.start, f.size;
    FinderBounds(line, f);
    FinderEdges(line, f);
    RunIs(line, e, true, h[1..], n);
    TrailNext(line, e, true, h[1..]);
    RunIs(line, e - n, false, h[2..], n);
    TrailNext(line, e - n, false, h[2..]);
    RunIs(line, e - 2 * n, true, h[3..], 3 * n);
    TrailNext(line, e - 2 * n, true, h[3..]);
    RunIs(line, e - 5 * n, false, h[4..], n);
    TrailNext(line, e - 5 * n, false, h[4..]);
    RunIs(line, e - 6 * n, true, h[5..], n);
    TrailNext(line, e - 6 * n, true, h[5..]);
    RunAtLeast(line, s, h[6..], if f.before then 4 * n else n);
  }

  lemma FinderEdges(line: seq<bool>, f: Finder)
    requires IsFinder(line, f)
    ensures var s, n := f.start, f.size;
      && !At(line, s - 1) && At(line, s + n - 1) && !At(line, s + 2 * n - 1) && At(line, s + 5 * n - 1) && !At(line, s + 6 * n - 1)
  {}

  lemma TrailNext(line: seq<bool>, end: int, dark: bool, h: seq<int>)
    requires Trail(line, end, dark, h) && |h| > 1 && h[0] > 0
    ensures Trail(line, end - h[0], !dark, h[1..]) && All(line, end - h[0], end, dark) && -|line| <= end - h[0]
  {}

  /** And the other way round. */
  lemma FinderFromCore(line: seq<bool>, e: int, h: History, n: int, before: bool)
    requires h[0] > 0 && Trail(line, e, true, h[1..]) && n > 0 && Core(h, n)
    requires h[6] >= if before then 4 * n else n
    requires All(line, e, e + (if before then n else 4 * n), false)
    ensures IsFinder(line, Finder(e - 7 * n, n, before))
  {
    hide Trail, At, All;
    TrailNext(line, e, true, h[1..]);
    TrailNext(line, e - n, false, h[2..]);
    TrailNext(line, e - 2 * n, true, h[3..]);
    TrailNext(line, e - 5 * n, false, h[4..]);
    TrailNext(line, e - 6 * n, true, h[5..]);
    LastRun(line, e - 7 * n, h[6..]);
    LaterPart(line, e - 7 * n - h[6], e - 7 * n, e - 7 * n - if before then 4 * n else n);
  }

  lemma LaterPart(line: seq<bool>, from: int, to: int, mid: int)
    requires All(line, from, to, false) && from <= mid
    ensures All(line, mid, to, false)
  {}

  lemma LastRun(line: seq<bool>, end: int, h: seq<int>)
    requires Trail(line, end, false, h) && h != [] && h[0] > 0
    ensures All(line, end - h[0], end, false)
  {}

  /** The light run behind the core is long enough. */
  lemma RunBehind(line: seq<bool>, e: int, end: int, m: int)
    requires All(line, e, end, false) && e <= end && (At(line, end) || 2 * |line| <= end) && e + m <= 2 * |line|
    ensures All(line, e, e + m, false) <==> e + m <= end
  {
    assert All(line, e, e + m, false) && e + m > end ==> !At(line, end);
  }

  /** finderPenaltyCountPatterns counts the patterns that end where its latest light run begins. */
  lemma CountMeans(line: seq<bool>, end: int, h: History)
    requires line != [] && h[0] > 0 && Trail(line, end, false, h) && (At(line, end) || end == 2 * |line|)
    ensures CountPatterns(h) == |FindersAt(line, end - h[0])|
  {
    hide Trail, All, At, IsFinder, Finders;
    var e, n := end - h[0], h[1];
    TrailNext(line, end, false, h);
    assert h[1..] == h[1..];
    var f1, f2 := Finder(e - 7 * n, n, false), Finder(e - 7 * n, n, true);
    forall f ensures f in FindersAt(line, e) <==> (f == f1 || f == f2) && IsFinder(line, f) {
      InFinders(line, f);
      if IsFinder(line, f) && EndOf(f) == e { CoreFromFinder(line, e, h, f); }
    }
    OneFinder(line, end, h, false);
    OneFinder(line, end, h, true);
    TwoAtMost(FindersAt(line, e), f1, f2);
  }

  lemma TwoAtMost<T>(s: set<T>, a: T, b: T)
    requires a != b && forall x :: x in s ==> x == a || x == b
    ensures |s| == (if a in s then 1 else 0) + (if b in s then 1 else 0)
  {
    assert s == (if a in s then {a} else {}) + (if b in s then {b} else {});
  }

  lemma OneFinder(line: seq<bool>, end: int, h: History, before: bool)
    requires line != [] && h[0] > 0 && Trail(line, end, false, h) && (At(line, end) || end == 2 * |line|)
    ensures var e, n := end - h[0], h[1];
      IsFinder(line, Finder(e - 7 * n, n, before)) <==>
      n > 0 && Core(h, n) && h[0] >= (if before then n else n * 4) && h[6] >= (if before then n * 4 else n)
  {
    hide Trail, All, At, IsFinder;
    var e, n := end - h[0], h[1];
    TrailNext(line, end, false, h);
    var f, m := Finder(e - 7 * n, n, before), if before then n else 4 * n;
    if IsFinder(line, f) {
      CoreFromFinder(line, e, h, f);
      FinderBounds(line, f);
      LightBehind(line, f);
      RunBehind(line, e, end, m);
    } else if n > 0 && Core(h, n) && h[0] >= m && h[6] >= (if before then n * 4 else n) {
      LightPart(line, e, end, e + m);
      FinderFromCore(line, e, h, n, before);
    }
  }

  lemma LightBehind(line: seq<bool>, f: Finder)
    requires IsFinder(line, f)
    ensures f.size >= 1 && All(line, EndOf(f), EndOf(f) + (if f.before then f.size else 4 * f.size), false)
  {}

  lemma LightPart(line: seq<bool>, e: int, end: int, to: int)
    requires All(line, e, end, false) && to <= end
    ensures All(line, e, to, false)
  {}

  // ----- the running score of a line

  /** Where the loop stands before module x. */
  ghost predicate Standing(line: seq<bool>, x: nat, dark: bool, length: int, h: History) {
    if h[0] == 0 then h == NO_RUNS && !dark && length == x <= |line| && All(line, 0, x, false)
    else h[0] > 0 && 0 < length <= x <= |line| && All(line, x - length, x, dark) && Trail(line, x - length, !dark, h)
  }

  /** The history with the run that ends before module x. */
  lemma RunEnded(line: seq<bool>, x: nat, dark: bool, length: int, h: History)
    requires line != [] && Standing(line, x, dark, length, h)
    ensures var h' := AddHistory(length, h, |line|);
      && h'[0] > 0 && Trail(line, x, dark, h') && x - h'[0] <= x - length
      && (x - h'[0] != x - length ==> x - h'[0] == -|line| && x - length == 0 && !dark)
  {
    if h[0] == 0 {
      assert WholeRun(line, -|line|, x, dark);
      hide Trail, WholeRun, Standing;
      PushEmpty(line, x);
    } else {
      TrailPrefix(line, x - length, !dark, h, 6);
      assert At(line, x - length - 1) == !dark;
      assert WholeRun(line, x - length, x, dark);
      hide Trail, WholeRun, Standing;
      PushRun(line, x - length, x, dark, h[..6]);
    }
  }

  /** The patterns whose core ends inside or at the start of a run. */
  lemma FindersInRun(line: seq<bool>, from: int, to: int, dark: bool)
    requires from <= to && All(line, from, to, dark)
    ensures FindersBefore(line, to) == FindersBefore(line, from) + if dark || from == to then {} else FindersAt(line, from)
  {
    forall f | f in Finders(line) && from <= EndOf(f) < to ensures !dark && EndOf(f) == from {
      InFinders(line, f);
      FinderBounds(line, f);
      assert At(line, EndOf(f)) == dark;
      assert EndOf(f) > from ==> At(line, EndOf(f) - 1) == dark;
    }
  }

  lemma NoFindersYet(line: seq<bool>, e: int)
    requires e <= 0
    ensures FindersBefore(line, e) == {} && FindersAt(line, e) == {}
  {
    forall f | f in Finders(line) ensures EndOf(f) > 0 {
      InFinders(line, f);
      FinderBounds(line, f);
    }
  }

  lemma AllFinders(line: seq<bool>)
    ensures FindersBefore(line, |line| + 1) == Finders(line)
  {
    forall f | f in Finders(line) ensures EndOf(f) <= |line| {
      InFinders(line, f);
      FinderBounds(line, f);
    }
  }

  lemma FindersApart(line: seq<bool>, e: int)
    ensures |FindersBefore(line, e) + FindersAt(line, e)| == |FindersBefore(line, e)| + |FindersAt(line, e)|
  {
    assert FindersBefore(line, e) !! FindersAt(line, e);
  }

  /** At a change of colour, the patterns that end with the run before it are counted. */
  lemma CountedHere(line: seq<bool>, x: nat, dark: bool, length: int, h: History)
    requires line != [] && Standing(line, x, dark, length, h) && x < |line| && line[x] != dark
    ensures |FindersBefore(line, x)| == |FindersBefore(line, x - length)|
      + if dark then 0 else CountPatterns(AddHistory(length, h, |line|))
  {
    hide CountPatterns, Finders;
    var h' := AddHistory(length, h, |line|);
    RunEnded(line, x, dark, length, h);
    FindersInRun(line, x - length, x, dark);
    if !dark {
      CountMeans(line, x, h');
      NoFindersYet(line, -|line|);
      NoFindersYet(line, 0);
      FindersApart(line, x - length);
    }
  }

  /** At the end, the rest. */
  lemma CountedLast(line: seq<bool>, dark: bool, length: int, h: History)
    requires line != [] && Standing(line, |line|, dark, length, h)
    ensures |Finders(line)| == |FindersBefore(line, |line| - length)| + TerminateAndCount(dark, length, h, |line|)
  {
    hide Finders, FindersBefore, CountPatterns, AddHistory, Standing;
    AllFinders(line);
    if dark { DarkLast(line, length, h); } else { LightLast(line, length, h); }
  }

  lemma DarkLast(line: seq<bool>, length: int, h: History)
    requires line != [] && Standing(line, |line|, true, length, h)
    ensures var n := |line|;
      |FindersBefore(line, n + 1)| == |FindersBefore(line, n - length)| + CountPatterns(AddHistory(n, AddHistory(length, h, n), n))
  {
    hide Finders, FindersBefore, FindersAt, CountPatterns, AddHistory, Standing, Trail, All;
    var n := |line|;
    RunEnded(line, n, true, length, h);
    StandingRun(line, n, true, length, h);
    FindersInRun(line, n - length, n, true);
    assert FindersBefore(line, n - length) + {} == FindersBefore(line, n - length);
    BorderLast(line, AddHistory(length, h, n));
    NothingOutside(line, n, n + 1);
    LightFinders(line, n, AddHistory(n, AddHistory(length, h, n), n));
  }

  lemma LightLast(line: seq<bool>, length: int, h: History)
    requires line != [] && Standing(line, |line|, false, length, h)
    ensures var n := |line|;
      |FindersBefore(line, n + 1)| == |FindersBefore(line, n - length)| + CountPatterns(AddHistory(length + n, h, n))
  {
    hide Finders, FindersBefore, FindersAt, CountPatterns, AddHistory, Standing, Trail, All;
    var n := |line|;
    RunEnded(line, n, false, length, h);
    StandingRun(line, n, false, length, h);
    LongerLast(line, length, h);
    LightToEnd(line, n - length);
    LightFinders(line, n - length, AddHistory(length + n, h, n));
  }

  lemma LightFinders(line: seq<bool>, from: int, h: History)
    requires line != [] && 0 <= from <= |line| && All(line, from, |line| + 1, false)
    requires h[0] > 0 && Trail(line, 2 * |line|, false, h)
    requires 2 * |line| - h[0] == from || (from == 0 && 2 * |line| - h[0] == -|line|)
    ensures |FindersBefore(line, |line| + 1)| == |FindersBefore(line, from)| + CountPatterns(h)
  {
    hide Finders, FindersBefore, FindersAt, CountPatterns, Trail, All;
    CountMeans(line, 2 * |line|, h);
    FindersInRun(line, from, |line| + 1, false);
    FindersApart(line, from);
    NoFindersYet(line, -|line|);
    NoFindersYet(line, 0);
  }

  lemma StandingRun(line: seq<bool>, x: nat, dark: bool, length: int, h: History)
    requires line != [] && Standing(line, x, dark, length, h)
    ensures 0 <= length <= x && All(line, x - length, x, dark)
  {}

  lemma LightToEnd(line: seq<bool>, from: int)
    requires All(line, from, |line|, false)
    ensures All(line, from, |line| + 1, false)
  {}

  lemma NothingOutside(line: seq<bool>, from: int, to: int)
    requires |line| <= from
    ensures All(line, from, to, false)
  {}

  /** One more run in the history. */
  lemma PushRun(line: seq<bool>, from: int, to: int, dark: bool, h: seq<int>)
    requires from < to && WholeRun(line, from, to, dark) && Trail(line, from, !dark, h)
    ensures Trail(line, to, dark, [to - from] + h)
  {
    hide WholeRun;
    assert ([to - from] + h)[1..] == h;
  }

  lemma PushEmpty(line: seq<bool>, to: int)
    requires -|line| < to && WholeRun(line, -|line|, to, false)
    ensures Trail(line, to, false, [to + |line|] + NO_RUNS[..6])
  {
    assert Trail(line, -|line|, true, NO_RUNS[..6]);
    PushRun(line, -|line|, to, false, NO_RUNS[..6]);
  }

  /** The light border behind a dark run. */
  lemma BorderLast(line: seq<bool>, h: History)
    requires line != [] && h[0] > 0 && Trail(line, |line|, true, h)
    ensures var h' := AddHistory(|line|, h, |line|); h'[0] == |line| && Trail(line, 2 * |line|, false, h')
  {
    var n := |line|;
    TrailPrefix(line, n, true, h, 6);
    assert At(line, n - 1);
    assert WholeRun(line, n, 2 * n, false);
    hide Trail, WholeRun;
    PushRun(line, n, 2 * n, false, h[..6]);
  }

  /** The light border prolongs a light run. */
  lemma LongerLast(line: seq<bool>, length: int, h: History)
    requires line != [] && Standing(line, |line|, false, length, h)
    ensures var h' := AddHistory(length + |line|, h, |line|);
      && h'[0] > 0 && Trail(line, 2 * |line|, false, h')
      && 2 * |line| - h'[0] == |line| - AddHistory(length, h, |line|)[0]
  {
    hide Standing, Trail, WholeRun, AddHistory;
    var n, short := |line|, AddHistory(length, h, |line|);
    RunEnded(line, n, false, length, h);
    LastWhole(line, n, short);
    PushRun(line, n - short[0], 2 * n, false, short[1..]);
    LongerRun(length, h, n);
    assert 2 * n - (n - short[0]) == n + short[0];
  }

  lemma LongerRun(length: int, h: History, n: int)
    ensures AddHistory(length + n, h, n) == [n + AddHistory(length, h, n)[0]] + AddHistory(length, h, n)[1..]
  {}

  lemma LastWhole(line: seq<bool>, end: int, h: seq<int>)
    requires h != [] && h[0] > 0 && Trail(line, end, false, h) && |line| <= end
    ensures Trail(line, end - h[0], true, h[1..]) && WholeRun(line, end - h[0], 2 * |line|, false)
  {}

  lemma StandingNext(line: seq<bool>, x: nat, dark: bool, length: int, h: History)
    requires line != [] && Standing(line, x, dark, length, h) && x < |line|
    ensures line[x] == dark ==> Standing(line, x + 1, dark, length + 1, h)
    ensures line[x] != dark ==> Standing(line, x + 1, line[x], 1, AddHistory(length, h, |line|))
  {
    if line[x] != dark { RunEnded(line, x, dark, length, h); }
  }

  lemma TrailingHere(line: seq<bool>, x: nat, dark: bool, length: int, h: History)
    requires line != [] && Standing(line, x, dark, length, h) && x < |line|
    ensures line[..x] + [line[x]] == line[..x + 1]
    ensures Trailing(line[..x + 1], if line[x] == dark then length + 1 else 1)
  {
    var q := line[..x + 1];
    if line[x] == dark {
      forall i | x - length <= i < x ensures q[i] == dark { assert At(line, i) == dark; }
      if h[0] > 0 && length < x { assert At(line, x - length - 1) != dark; }
    } else if x > 0 {
      assert length > 0;
      assert At(line, x - 1) == dark;
    }
  }

  /** From any module on, the loop adds what the runs and patterns not yet counted cost. */
  lemma {:induction false} LineMeans(line: seq<bool>, x: nat, dark: bool, length: int, h: History)
    requires line != [] && Standing(line, x, dark, length, h)
    ensures LineScore(line, |line|, x, dark, length, h)
      == RunsCost(line) - RunsCost(line[..x]) + PENALTY_N3 * (|Finders(line)| - |FindersBefore(line, x - length)|)
    decreases |line| - x
  {
    hide CountPatterns, Finders, RunsCost, FindersBefore, AddHistory, Standing, TerminateAndCount;
    StandingBounds(line, x, dark, length, h);
    if x == |line| {
      CountedLast(line, dark, length, h);
      assert line[..x] == line;
    } else {
      StandingNext(line, x, dark, length, h);
      TrailingHere(line, x, dark, length, h);
      if line[x] == dark {
        RunsGrow(line[..x], line[x], length + 1);
        LineMeans(line, x + 1, dark, length + 1, h);
      } else {
        RunsGrow(line[..x], line[x], 1);
        CountedHere(line, x, dark, length, h);
        LineMeans(line, x + 1, line[x], 1, AddHistory(length, h, |line|));
      }
    }
  }

  lemma StandingBounds(line: seq<bool>, x: nat, dark: bool, length: int, h: History)
    requires Standing(line, x, dark, length, h)
    ensures x <= |line|
  {}

  /** What a line costs: every run of five modules or more its length less two, and every finder-like
      pattern forty. */
  lemma WholeLineMeans(line: seq<bool>)
    ensures WholeLine(line) == RunsCost(line) + PENALTY_N3 * |Finders(line)|
  {
    if line == [] {
      assert Finders(line) == {} && LongRunModules(line) == {} && LongRunStarts(line) == {};
    } else {
      assert Standing(line, 0, false, 0, NO_RUNS);
      LineMeans(line, 0, false, 0, NO_RUNS);
      assert LongRunModules(line[..0]) == {} && LongRunStarts(line[..0]) == {};
      NoFindersYet(line, 0);
    }
  }

  // ----- the whole symbol

  predicate Dark(g: Modules, y: int, x: int) {
    Cell(y, x) in g && g[Cell(y, x)]
  }

  function RowOf(g: Modules, size: nat, y: int): (line: seq<bool>)
    ensures |line| == size
  {
    seq(size, x => Dark(g, y, x))
  }

  function ColumnOf(g: Modules, size: nat, x: int): (line: seq<bool>)
    ensures |line| == size
  {
    seq(size, y => Dark(g, y, x))
  }

  function WholeLine(line: seq<bool>): int {
    LineScore(line, |line|, 0, false, 0, NO_RUNS)
  }

  function RowsScore(g: Modules, size: nat, n: nat): int {
    if n == 0 then 0 else RowsScore(g, size, n - 1) + WholeLine(RowOf(g, size, n - 1))
  }

  function ColumnsScore(g: Modules, size: nat, n: nat): int {
    if n == 0 then 0 else ColumnsScore(g, size, n - 1) + WholeLine(ColumnOf(g, size, n - 1))
  }

  /** A 2*2 block of one colour. */
  predicate Block(g: Modules, y: int, x: int) {
    Dark(g, y, x) == Dark(g, y, x + 1) == Dark(g, y + 1, x) == Dark(g, y + 1, x + 1)
  }

  function BlocksInRow(g: Modules, y: int, n: nat): nat {
    if n == 0 then 0 else BlocksInRow(g, y, n - 1) + if Block(g, y, n - 1) then 1 else 0
  }

  function Blocks(g: Modules, width: nat, n: nat): nat {
    if n == 0 then 0 else Blocks(g, width, n - 1) + BlocksInRow(g, n - 1, width)
  }

  function DarkInRow(g: Modules, y: int, n: nat): nat {
    if n == 0 then 0 else DarkInRow(g, y, n - 1) + if Dark(g, y, n - 1) then 1 else 0
  }

  function DarkCount(g: Modules, width: nat, n: nat): nat {
    if n == 0 then 0 else DarkCount(g, width, n - 1) + DarkInRow(g, n - 1, width)
  }

  function Abs(x: int): int {
    if x < 0 then -x else x
  }

  /** How far the share of dark modules is from one half. */
  function Imbalance(dark: int, total: int): int
    requires total > 0
  {
    (Abs(dark * 20 - total * 10) + total - 1) / total - 1
  }

  /** The share of dark modules is between 45 - 5k and 55 + 5k percent. */
  predicate Within(dark: int, total: int, k: int) {
    (45 - 5 * k) * total <= 100 * dark <= (55 + 5 * k) * total
  }

  /** The imbalance is the smallest k from 0 on for which the share is within those bounds; that is why the
      total must be odd. */
  lemma ImbalanceLeast(dark: int, total: int)
    requires total > 0 && total % 2 == 1
    ensures Imbalance(dark, total) >= 0 && Within(dark, total, Imbalance(dark, total))
    ensures forall j :: 0 <= j < Imbalance(dark, total) ==> !Within(dark, total, j)
  {
    var d, k := Abs(dark * 20 - total * 10), Imbalance(dark, total);
    assert d != 0;
    RoundedUp(d, total);
    assert k * total < d <= (k + 1) * total;
    WithinIs(dark, total, k);
    forall j | 0 <= j < k ensures !Within(dark, total, j) {
      WithinIs(dark, total, j);
      assert (j + 1) * total <= k * total by { Ordered(j + 1, k, total); }
    }
  }

  lemma RoundedUp(d: int, total: int)
    requires d > 0 && total > 0
    ensures var k := (d + total - 1) / total - 1; k >= 0 && k * total < d <= (k + 1) * total
  {
    var q, r := (d + total - 1) / total, (d + total - 1) % total;
    assert d + total - 1 == q * total + r;
    assert (q - 1) * total == q * total - total;
    if q <= 0 { Ordered(q, 0, total); }
  }

  lemma Ordered(a: int, b: int, c: int)
    requires a <= b && c >= 0
    ensures a * c <= b * c
  {}

  lemma WithinIs(dark: int, total: int, k: int)
    ensures Within(dark, total, k) <==> Abs(dark * 20 - total * 10) <= (k + 1) * total
  {
    var m := k * total;
    assert (45 - 5 * k) * total == 45 * total - 5 * m;
    assert (55 + 5 * k) * total == 55 * total + 5 * m;
    assert (k + 1) * total == m + total;
  }

  /** The sum that getPenaltyScore builds up. */
  function Tally(g: Modules, size: nat): int
    requires size > 0
  {
    RowsScore(g, size, size) + ColumnsScore(g, size, size) + PENALTY_N2 * Blocks(g, size - 1, size - 1)
    + PENALTY_N4 * Imbalance(DarkCount(g, size, size), Area(size))
  }

  function Area(size: nat): (a: nat)
    ensures size > 0 ==> a > 0
  {
    size * size
  }

  // ----- the score, from the places of what is penalised

  function Rows(g: Modules, size: nat): (lines: seq<seq<bool>>)
    ensures |lines| == size && forall y :: 0 <= y < size ==> lines[y] == RowOf(g, size, y)
  {
    seq(size, y => RowOf(g, size, y))
  }

  /** The modules with rows and columns exchanged. */
  function Transposed(g: Modules): (h: Modules)
    ensures forall y, x :: Dark(h, y, x) == Dark(g, x, y)
  {
    var cells := set c | c in g :: Cell(c.x, c.y);
    var h := map c | c in cells :: Cell(c.x, c.y) in g && g[Cell(c.x, c.y)];
    forall y, x ensures Dark(h, y, x) == Dark(g, x, y) {
      if Cell(x, y) in g { assert Cell(y, x) in cells; }
    }
    h
  }

  /** The modules that lie in runs of five or more, with their lines. */
  function RunPlaces(lines: seq<seq<bool>>): (s: set<(int, int)>)
    ensures forall p :: p in s <==> 0 <= p.0 < |lines| && p.1 in LongRunModules(lines[p.0])
  {
    set k, i | 0 <= k < |lines| && i in LongRunModules(lines[k]) :: (k, i)
  }

  function RunStarts(lines: seq<seq<bool>>): (s: set<(int, int)>)
    ensures forall p :: p in s <==> 0 <= p.0 < |lines| && p.1 in LongRunStarts(lines[p.0])
  {
    set k, a | 0 <= k < |lines| && a in LongRunStarts(lines[k]) :: (k, a)
  }

  function FinderPlaces(lines: seq<seq<bool>>): (s: set<(int, Finder)>)
    ensures forall p :: p in s <==> 0 <= p.0 < |lines| && p.1 in Finders(lines[p.0])
  {
    set k, f | 0 <= k < |lines| && f in Finders(lines[k]) :: (k, f)
  }

  /** Every run of five modules or more costs its length less two, and every finder-like pattern 40. */
  function LinesCost(lines: seq<seq<bool>>): int {
    |RunPlaces(lines)| - 2 * |RunStarts(lines)| + 40 * |FinderPlaces(lines)|
  }

  function BlockPlaces(g: Modules, size: nat): set<(int, int)> {
    set y, x | 0 <= y < size - 1 && 0 <= x < size - 1 && Block(g, y, x) :: (y, x)
  }

  function DarkPlaces(g: Modules, size: nat): set<(int, int)> {
    set y, x | 0 <= y < size && 0 <= x < size && Dark(g, y, x) :: (y, x)
  }

  /** The penalty of a symbol: its rows and its columns, 3 for every 2*2 block of one colour, and 10 for each
      five percent by which the share of dark modules is off one half. */
  function Score(g: Modules, size: nat): int
    requires size > 0
  {
    LinesCost(Rows(g, size)) + LinesCost(Rows(Transposed(g), size)) + 3 * |BlockPlaces(g, size)|
    + 10 * Imbalance(|DarkPlaces(g, size)|, Area(size))
  }

  function Tagged<T(!new)>(k: int, s: set<T>): (t: set<(int, T)>)
    ensures forall p :: p in t <==> p.0 == k && p.1 in s
  {
    set e | e in s :: (k, e)
  }

  lemma {:induction false} TaggedSize<T(!new)>(k: int, s: set<T>)
    ensures |Tagged(k, s)| == |s|
    decreases |s|
  {
    if s != {} {
      var e :| e in s;
      TaggedSize(k, s - {e});
      assert Tagged(k, s) == Tagged(k, s - {e}) + {(k, e)};
      assert (k, e) !in Tagged(k, s - {e});
    } else {
      assert Tagged(k, s) == {};
    }
  }

  /** Nothing of line k is among the pairs. */
  ghost predicate NotIn<T(!new)>(s: set<(int, T)>, k: int) {
    forall p :: p in s ==> p.0 != k
  }

  /** A set of pairs whose last line is added. */
  lemma LastLine<T(!new)>(all: set<(int, T)>, before: set<(int, T)>, k: int, s: set<T>)
    requires all == before + Tagged(k, s) && NotIn(before, k)
    ensures |all| == |before| + |s|
  {
    TaggedSize(k, s);
    assert before !! Tagged(k, s);
  }

  lemma RunPlacesStep(lines: seq<seq<bool>>, n: nat)
    requires n < |lines|
    ensures RunPlaces(lines[..n + 1]) == RunPlaces(lines[..n]) + Tagged(n, LongRunModules(lines[n])) && NotIn(RunPlaces(lines[..n]), n)
  {
    hide LongRunModules, RunPlaces, Tagged;
    assert lines[..n + 1][n] == lines[n] && forall k :: 0 <= k < n ==> lines[..n + 1][k] == lines[..n][k];
  }

  lemma RunStartsStep(lines: seq<seq<bool>>, n: nat)
    requires n < |lines|
    ensures RunStarts(lines[..n + 1]) == RunStarts(lines[..n]) + Tagged(n, LongRunStarts(lines[n])) && NotIn(RunStarts(lines[..n]), n)
  {
    hide LongRunStarts, RunStarts, Tagged;
    assert lines[..n + 1][n] == lines[n] && forall k :: 0 <= k < n ==> lines[..n + 1][k] == lines[..n][k];
  }

  lemma FinderPlacesStep(lines: seq<seq<bool>>, n: nat)
    requires n < |lines|
    ensures FinderPlaces(lines[..n + 1]) == FinderPlaces(lines[..n]) + Tagged(n, Finders(lines[n])) && NotIn(FinderPlaces(lines[..n]), n)
  {
    hide Finders, FinderPlaces, Tagged;
    assert lines[..n + 1][n] == lines[n] && forall k :: 0 <= k < n ==> lines[..n + 1][k] == lines[..n][k];
  }

  /** The lines cost what the pass over each of them adds. */
  lemma LinesStep(lines: seq<seq<bool>>, n: nat)
    requires n < |lines|
    ensures LinesCost(lines[..n + 1]) == LinesCost(lines[..n]) + WholeLine(lines[n])
  {
    WholeLineMeans(lines[n]);
    RunPlacesStep(lines, n);
    RunStartsStep(lines, n);
    FinderPlacesStep(lines, n);
    hide RunPlaces, RunStarts, FinderPlaces, LongRunModules, LongRunStarts, Finders, Tagged, WholeLine;
    LastLine(RunPlaces(lines[..n + 1]), RunPlaces(lines[..n]), n, LongRunModules(lines[n]));
    LastLine(RunStarts(lines[..n + 1]), RunStarts(lines[..n]), n, LongRunStarts(lines[n]));
    LastLine(FinderPlaces(lines[..n + 1]), FinderPlaces(lines[..n]), n, Finders(lines[n]));
  }

  lemma NoLines()
    ensures LinesCost([]) == 0
  {
    assert RunPlaces([]) == {} && RunStarts([]) == {} && FinderPlaces([]) == {};
  }

  lemma {:induction false} RowsMean(g: Modules, size: nat, n: nat)
    requires n <= size
    ensures RowsScore(g, size, n) == LinesCost(Rows(g, size)[..n])
    decreases n
  {
    hide LinesCost, WholeLine, RowOf;
    if n == 0 {
      NoLines();
    } else {
      RowsMean(g, size, n - 1);
      LinesStep(Rows(g, size), n - 1);
    }
  }

  lemma TransposedRow(g: Modules, size: nat, x: int)
    ensures RowOf(Transposed(g), size, x) == ColumnOf(g, size, x)
  {
    hide Dark, Transposed;
  }

  lemma {:induction false} ColumnsMean(g: Modules, size: nat, n: nat)
    requires n <= size
    ensures ColumnsScore(g, size, n) == LinesCost(Rows(Transposed(g), size)[..n])
    decreases n
  {
    hide LinesCost, WholeLine, RowOf, ColumnOf, Transposed;
    if n == 0 {
      NoLines();
    } else {
      ColumnsMean(g, size, n - 1);
      LinesStep(Rows(Transposed(g), size), n - 1);
      TransposedRow(g, size, n - 1);
    }
  }

  function BlocksOfRow(g: Modules, y: int, n: nat): set<int> {
    set x | 0 <= x < n && Block(g, y, x)
  }

  function DarkOfRow(g: Modules, y: int, n: nat): set<int> {
    set x | 0 <= x < n && Dark(g, y, x)
  }

  lemma BlocksRowStep(g: Modules, y: int, n: nat)
    ensures |BlocksOfRow(g, y, n + 1)| == |BlocksOfRow(g, y, n)| + (if Block(g, y, n) then 1 else 0)
    ensures BlocksOfRow(g, y, 0) == {}
  {
    hide Block;
    var s, t := BlocksOfRow(g, y, n), BlocksOfRow(g, y, n + 1);
    if Block(g, y, n) {
      assert t == s + {n};
    } else {
      assert t == s;
    }
  }

  lemma DarkRowStep(g: Modules, y: int, n: nat)
    ensures |DarkOfRow(g, y, n + 1)| == |DarkOfRow(g, y, n)| + (if Dark(g, y, n) then 1 else 0)
    ensures DarkOfRow(g, y, 0) == {}
  {
    hide Dark;
    var s, t := DarkOfRow(g, y, n), DarkOfRow(g, y, n + 1);
    if Dark(g, y, n) {
      assert t == s + {n};
    } else {
      assert t == s;
    }
  }

  lemma {:induction false} RowMeans(g: Modules, y: int, n: nat)
    ensures BlocksInRow(g, y, n) == |BlocksOfRow(g, y, n)| && DarkInRow(g, y, n) == |DarkOfRow(g, y, n)|
  {
    hide Block, Dark, BlocksOfRow, DarkOfRow;
    if n > 0 {
      RowMeans(g, y, n - 1);
      BlocksRowStep(g, y, n - 1);
      DarkRowStep(g, y, n - 1);
    } else {
      BlocksRowStep(g, y, 0);
      DarkRowStep(g, y, 0);
    }
  }

  function BlocksUpTo(g: Modules, width: nat, n: nat): set<(int, int)> {
    set y, x | 0 <= y < n && 0 <= x < width && Block(g, y, x) :: (y, x)
  }

  function DarkUpTo(g: Modules, width: nat, n: nat): set<(int, int)> {
    set y, x | 0 <= y < n && 0 <= x < width && Dark(g, y, x) :: (y, x)
  }

  lemma BlocksUpToStep(g: Modules, width: nat, n: nat)
    ensures |BlocksUpTo(g, width, n + 1)| == |BlocksUpTo(g, width, n)| + |BlocksOfRow(g, n, width)|
    ensures BlocksUpTo(g, width, 0) == {}
  {
    hide Block;
    var s, t := BlocksUpTo(g, width, n), BlocksUpTo(g, width, n + 1);
    assert t == s + Tagged(n, BlocksOfRow(g, n, width));
    LastLine(t, s, n, BlocksOfRow(g, n, width));
  }

  lemma DarkUpToStep(g: Modules, width: nat, n: nat)
    ensures |DarkUpTo(g, width, n + 1)| == |DarkUpTo(g, width, n)| + |DarkOfRow(g, n, width)|
    ensures DarkUpTo(g, width, 0) == {}
  {
    hide Dark;
    var s, t := DarkUpTo(g, width, n), DarkUpTo(g, width, n + 1);
    assert t == s + Tagged(n, DarkOfRow(g, n, width));
    LastLine(t, s, n, DarkOfRow(g, n, width));
  }

  lemma {:induction false} CountsMean(g: Modules, width: nat, n: nat)
    ensures Blocks(g, width, n) == |BlocksUpTo(g, width, n)| && DarkCount(g, width, n) == |DarkUpTo(g, width, n)|
  {
    hide BlocksInRow, DarkInRow, BlocksOfRow, DarkOfRow, BlocksUpTo, DarkUpTo;
    if n == 0 {
      BlocksUpToStep(g, width, 0);
      DarkUpToStep(g, width, 0);
    } else {
      CountsMean(g, width, n - 1);
      BlocksUpToStep(g, width, n - 1);
      DarkUpToStep(g, width, n - 1);
      RowMeans(g, n - 1, width);
    }
  }

  /** The sum that is built up is the score. */
  lemma TallyIsScore(g: Modules, size: nat)
    requires size > 0
    ensures Tally(g, size) == Score(g, size)
  {
    hide LinesCost, RowsScore, ColumnsScore, Blocks, DarkCount, BlocksUpTo, DarkUpTo, BlockPlaces, DarkPlaces, Imbalance, Area, Transposed, RowOf;
    RowsMean(g, size, size);
    ColumnsMean(g, size, size);
    PlacesUpTo(g, size);
    CountsMean(g, size - 1, size - 1);
    CountsMean(g, size, size);
    assert Rows(g, size)[..size] == Rows(g, size);
    assert Rows(Transposed(g), size)[..size] == Rows(Transposed(g), size);
  }

  lemma PlacesUpTo(g: Modules, size: nat)
    requires size > 0
    ensures BlockPlaces(g, size) == BlocksUpTo(g, size - 1, size - 1) && DarkPlaces(g, size) == DarkUpTo(g, size, size)
  {
    hide Block, Dark;
  }

  function Mirrored(s: set<(int, int)>): set<(int, int)> {
    set p | p in s :: (p.1, p.0)
  }

  lemma {:induction false} MirroredSize(s: set<(int, int)>)
    ensures |Mirrored(s)| == |s|
    decreases |s|
  {
    if s != {} {
      var p :| p in s;
      MirroredSize(s - {p});
      assert Mirrored(s) == Mirrored(s - {p}) + {(p.1, p.0)};
      assert (p.1, p.0) !in Mirrored(s - {p});
    } else {
      assert Mirrored(s) == {};
    }
  }

  /** Rows and columns count alike: exchanging them does not change the score. */
  lemma ScoreTransposed(g: Modules, size: nat)
    requires size > 0
    ensures Score(Transposed(g), size) == Score(g, size)
  {
    var h := Transposed(g);
    forall y | 0 <= y < size ensures RowOf(Transposed(h), size, y) == RowOf(g, size, y) {
      SameRow(Transposed(h), g, size, y);
    }
    hide LinesCost, RowOf, Imbalance, Area, Dark, Transposed;
    assert Rows(Transposed(h), size) == Rows(g, size);
    PlacesMirrored(g, size);
    MirroredSize(BlockPlaces(g, size));
    MirroredSize(DarkPlaces(g, size));
  }

  lemma SameRow(a: Modules, b: Modules, size: nat, y: int)
    requires forall y, x :: Dark(a, y, x) == Dark(b, y, x)
    ensures RowOf(a, size, y) == RowOf(b, size, y)
  {
    hide Dark;
  }

  lemma PlacesMirrored(g: Modules, size: nat)
    ensures BlockPlaces(Transposed(g), size) == Mirrored(BlockPlaces(g, size))
    ensures DarkPlaces(Transposed(g), size) == Mirrored(DarkPlaces(g, size))
  {
    hide Dark, Transposed;
    var h := Transposed(g);
    forall y, x ensures Block(h, y, x) == Block(g, x, y) {}
    forall y, x ensures (y, x) in BlockPlaces(h, size) <==> (y, x) in Mirrored(BlockPlaces(g, size)) {
      assert (y, x) in Mirrored(BlockPlaces(g, size)) <==> (x, y) in BlockPlaces(g, size);
    }
    forall y, x ensures (y, x) in DarkPlaces(h, size) <==> (y, x) in Mirrored(DarkPlaces(g, size)) {
      assert (y, x) in Mirrored(DarkPlaces(g, size)) <==> (x, y) in DarkPlaces(g, size);
    }
  }

  // ----- bounds

  lemma WholeLineBound(line: seq<bool>)
    ensures 0 <= WholeLine(line) <= 21 * |line| + 100
  {
    LineBound(line, |line|, 0, false, 0, NO_RUNS, false, NO_RUNS);
  }

  lemma Times(n: int, m: int)
    ensures (n - 1) * m + m == n * m
  {}

  lemma {:induction false} LinesBound(g: Modules, size: nat, n: nat)
    ensures 0 <= RowsScore(g, size, n) <= n * (21 * size + 100)
    ensures 0 <= ColumnsScore(g, size, n) <= n * (21 * size + 100)
  {
    hide WholeLine, RowOf, ColumnOf;
    if n > 0 {
      LinesBound(g, size, n - 1);
      WholeLineBound(RowOf(g, size, n - 1));
      WholeLineBound(ColumnOf(g, size, n - 1));
      Times(n, 21 * size + 100);
    }
  }

  lemma {:induction false} RowCounts(g: Modules, y: int, n: nat)
    ensures BlocksInRow(g, y, n) <= n && DarkInRow(g, y, n) <= n
  {
    hide Block, Dark;
    if n > 0 {
      RowCounts(g, y, n - 1);
    }
  }

  lemma {:induction false} Counts(g: Modules, width: nat, n: nat)
    ensures Blocks(g, width, n) <= n * width && DarkCount(g, width, n) <= n * width
  {
    if n > 0 {
      Counts(g, width, n - 1);
      RowCounts(g, n - 1, width);
      Times(n, width);
    }
  }

  /** The imbalance is at most 9, and never negative, since an odd number of modules cannot be split
      in halves. */
  lemma ImbalanceRange(dark: int, total: int)
    requires 0 <= dark <= total && total % 2 == 1
    ensures 0 <= Imbalance(dark, total) <= 9
  {
    var a := Abs(dark * 20 - total * 10);
    assert 1 <= a <= 10 * total;
    var q, r := (a + total - 1) / total, (a + total - 1) % total;
    assert a + total - 1 == q * total + r;
    QuotientRange(a + total - 1, total, q, r);
  }

  lemma QuotientRange(a: int, total: int, q: int, r: int)
    requires total > 0 && a == q * total + r && 0 <= r < total && total <= a < 11 * total
    ensures 1 <= q <= 10
  {
    if q >= 11 {
      AtMost(11, q, total, total);
    } else if q <= 0 {
      AtMost(0, -q, 0, total);
    }
  }

  lemma AtMost(a: int, b: int, c: int, d: int)
    requires 0 <= a <= b && 0 <= c <= d
    ensures 0 <= a * c <= b * d
  {
    assert a * c <= b * c <= b * d;
  }

  lemma OddArea(size: nat)
    requires size % 2 == 1
    ensures Area(size) % 2 == 1
  {
    var k := size / 2;
    assert size * size == 2 * (2 * k * k + 2 * k) + 1;
  }

  /** The penalty of every symbol is in the range that getPenaltyScore asserts. */
  lemma ScoreRange(g: Modules, size: nat)
    requires 1 <= size <= 177 && size % 2 == 1
    ensures 0 <= Score(g, size) <= 2568888
    ensures 0 <= Imbalance(|DarkPlaces(g, size)|, Area(size)) <= 9
  {
    TallyIsScore(g, size);
    CountsMean(g, size, size);
    PlacesUpTo(g, size);
    hide RowsScore, ColumnsScore, Blocks, DarkCount, Imbalance, Score, DarkPlaces, DarkUpTo;
    LinesBound(g, size, size);
    AtMost(size, 177, 21 * size + 100, 3817);
    Counts(g, size - 1, size - 1);
    AtMost(size - 1, 176, size - 1, 176);
    Counts(g, size, size);
    OddArea(size);
    ImbalanceRange(DarkCount(g, size, size), Area(size));
  }

  // ----- getPenaltyScore

  /** The inner loop of getPenaltyScore, for a row or a column. */
  method LinePenalty(line: seq<bool>) returns (result: int)
    ensures result == WholeLine(line)
  {
    hide CountPatterns, AddHistory;
    result := 0;
    var runColor, run, runHistory := false, 0, NO_RUNS;
    var size := |line|;
    for x := 0 to size
      invariant result + LineScore(line, size, x, runColor, run, runHistory) == WholeLine(line)
    {
      if line[x] == runColor {
        run := run + 1;
        if run == 5 {
          result := result + PENALTY_N1;
        } else if run > 5 {
          result := result + 1;
        }
      } else {
        runHistory := AddHistory(run, runHistory, size);
        if !runColor {
          result := result + CountPatterns(runHistory) * PENALTY_N3;
        }
        runColor := line[x];
        run := 1;
      }
    }
    result := result + TerminateAndCount(runColor, run, runHistory, size) * PENALTY_N3;
  }

  lemma DarkAt(m: array2<bool>, y: int, x: int)
    requires 0 <= y < m.Length0 && 0 <= x < m.Length1
    ensures Dark(Snapshot(m), y, x) == m[y, x]
  {}

  method ReadRow(m: array2<bool>, size: nat, y: int) returns (line: seq<bool>)
    requires m.Length0 == m.Length1 == size && 0 <= y < size
    ensures line == RowOf(Snapshot(m), size, y)
  {
    hide Snapshot, Dark;
    line := [];
    for x := 0 to size
      invariant line == RowOf(Snapshot(m), size, y)[..x]
    {
      DarkAt(m, y, x);
      line := line + [m[y, x]];
    }
  }

  method ReadColumn(m: array2<bool>, size: nat, x: int) returns (line: seq<bool>)
    requires m.Length0 == m.Length1 == size && 0 <= x < size
    ensures line == ColumnOf(Snapshot(m), size, x)
  {
    hide Snapshot, Dark;
    line := [];
    for y := 0 to size
      invariant line == ColumnOf(Snapshot(m), size, x)[..y]
    {
      DarkAt(m, y, x);
      line := line + [m[y, x]];
    }
  }

  method CountBlocks(m: array2<bool>, size: nat) returns (blocks: nat)
    requires m.Length0 == m.Length1 == size && size > 0
    ensures blocks == Blocks(Snapshot(m), size - 1, size - 1)
  {
    hide Snapshot, Dark;
    blocks := 0;
    for y := 0 to size - 1
      invariant blocks == Blocks(Snapshot(m), size - 1, y)
    {
      ghost var before := blocks;
      for x := 0 to size - 1
        invariant blocks == before + BlocksInRow(Snapshot(m), y, x)
      {
        DarkAt(m, y, x);
        DarkAt(m, y, x + 1);
        DarkAt(m, y + 1, x);
        DarkAt(m, y + 1, x + 1);
        var color := m[y, x];
        if color == m[y, x + 1] && color == m[y + 1, x] && color == m[y + 1, x + 1] {
          blocks := blocks + 1;
        }
      }
    }
  }

  method CountDark(m: array2<bool>, size: nat) returns (dark: nat)
    requires m.Length0 == m.Length1 == size
    ensures dark == DarkCount(Snapshot(m), size, size)
  {
    hide Snapshot, Dark;
    dark := 0;
    for y := 0 to size
      invariant dark == DarkCount(Snapshot(m), size, y)
    {
      ghost var before := dark;
      for x := 0 to size
        invariant dark == before + DarkInRow(Snapshot(m), y, x)
      {
        DarkAt(m, y, x);
        if m[y, x] {
          dark := dark + 1;
        }
      }
    }
  }

  method GetPenaltyScore(m: array2<bool>, size: nat) returns (result: int)
    requires m.Length0 == m.Length1 == size && 1 <= size <= 177 && size % 2 == 1
    ensures result == Score(Snapshot(m), size) && 0 <= result <= 2568888
  {
    hide Snapshot, WholeLine, RowOf, ColumnOf, Blocks, DarkCount, Imbalance, Area, Score;
    result := 0;
    for y := 0 to size
      invariant result == RowsScore(Snapshot(m), size, y)
    {
      var line := ReadRow(m, size, y);
      var penalty := LinePenalty(line);
      result := result + penalty;
    }
    for x := 0 to size
      invariant result == RowsScore(Snapshot(m), size, size) + ColumnsScore(Snapshot(m), size, x)
    {
      var line := ReadColumn(m, size, x);
      var penalty := LinePenalty(line);
      result := result + penalty;
    }
    var blocks := CountBlocks(m, size);
    result := result + PENALTY_N2 * blocks;
    var dark := CountDark(m, size);
    var k := Imbalance(dark, Area(size));
    result := result + k * PENALTY_N4;
    TallyIsScore(Snapshot(m), size);
    ScoreRange(Snapshot(m), size);
  }
}
