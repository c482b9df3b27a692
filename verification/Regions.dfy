/** Region labelling of 3rdparty/quirc/identify.c: region_code labels whole components, and
    find_region_corners relabels a region and restores it. */
module Regions {
  import opened FloodFill

  const WHITE := 0
  const BLACK := 1
  const FIRST_REGION := 2
  const MAX_REGIONS := 65534

  datatype Region = Region(seed: Point, count: int, capstone: int)

  ghost function NonWhite(g: Image): (s: set<Point>)
    ensures forall p :: p in s <==> p in g && g[p] != WHITE
  {
    set p | p in g && g[p] != WHITE
  }

  /** The label r stands on one whole component of the non-white pixels, which its record describes. */
  ghost predicate WholeRegion(g: Image, region: Region, r: int) {
    && region.seed in g && g[region.seed] == r
    && Component(NonWhite(g), region.seed, PointsOf(g, r))
    && region.count == |PointsOf(g, r)|
  }

  /** Every pixel is white, black or labelled, and every label is whole. */
  ghost predicate Labelled(g: Image, regions: seq<Region>, num: int) {
    && FIRST_REGION <= num <= |regions| == MAX_REGIONS
    && (forall p :: p in g ==> 0 <= g[p] < num)
    && forall r :: FIRST_REGION <= r < num ==> WholeRegion(g, regions[r], r)
  }

  /** Non-white neighbours of a labelled pixel have the same label. */
  lemma Touching(g: Image, regions: seq<Region>, num: int, a: Point, b: Point)
    requires Labelled(g, regions, num) && a in g && g[a] >= FIRST_REGION && b in NonWhite(g) && Adjacent(a, b)
    ensures g[b] == g[a]
  {
    assert WholeRegion(g, regions[g[a]], g[a]);
    assert a in PointsOf(g, g[a]);
  }

  /** A component of black pixels is a whole component of non-white pixels: labelled pixels do not
      touch black ones. */
  lemma BlackComponent(g: Image, regions: seq<Region>, num: int, seed: Point, c: set<Point>)
    requires Labelled(g, regions, num) && Component(PointsOf(g, BLACK), seed, c)
    ensures Component(NonWhite(g), seed, c)
  {
    var black, on := PointsOf(g, BLACK), NonWhite(g);
    forall a, b | a in c && b in on && Adjacent(a, b)
      ensures b in c
    {
      if g[b] != BLACK {
        Touching(g, regions, num, b, a);
      }
    }
    forall d | seed in d && Closed(on, d)
      ensures c <= d
    {
      assert Closed(black, d * black);
      assert c <= d * black;
    }
  }

  /** Labelling a component keeps the labelling. */
  lemma NewLabel(g: Image, regions: seq<Region>, num: int, seed: Point, c: set<Point>)
    requires Labelled(g, regions, num) && num < MAX_REGIONS && seed in g
    requires Component(PointsOf(g, BLACK), seed, c)
    ensures Labelled(Painted(g, c, num), regions[num := Region(seed, |c|, -1)], num + 1)
    ensures NonWhite(Painted(g, c, num)) == NonWhite(g) && PointsOf(Painted(g, c, num), num) == c
  {
    hide Component;
    BlackComponent(g, regions, num, seed, c);
    ComponentFacts(PointsOf(g, BLACK), seed, c);
    var g', regions' := Painted(g, c, num), regions[num := Region(seed, |c|, -1)];
    assert NonWhite(g') == NonWhite(g) && PointsOf(g', num) == c;
    forall r | FIRST_REGION <= r < num + 1
      ensures WholeRegion(g', regions'[r], r)
    {
      if r < num {
        assert WholeRegion(g, regions[r], r);
        assert PointsOf(g', r) == PointsOf(g, r);
      }
    }
  }

  lemma ComponentFacts(on: set<Point>, seed: Point, c: set<Point>)
    requires Component(on, seed, c)
    ensures seed in c && c <= on
  {}

  /** A region is also a component of the pixels that carry its label. */
  lemma OwnComponent(g: Image, region: Region, r: int)
    requires WholeRegion(g, region, r) && r != WHITE
    ensures Component(PointsOf(g, r), region.seed, PointsOf(g, r))
  {
    forall d | region.seed in d && Closed(PointsOf(g, r), d)
      ensures PointsOf(g, r) <= d
    {
      assert Closed(NonWhite(g), d);
    }
  }

  /** Painted black, a region is still a component: nothing black was next to it. */
  lemma BlackenedComponent(g: Image, region: Region, r: int)
    requires WholeRegion(g, region, r) && r != WHITE
    ensures Component(PointsOf(Painted(g, PointsOf(g, r), BLACK), BLACK), region.seed, PointsOf(g, r))
  {
    var c := PointsOf(g, r);
    var black := PointsOf(Painted(g, c, BLACK), BLACK);
    OwnComponent(g, region, r);
    assert black <= NonWhite(g);
    forall d | region.seed in d && Closed(black, d)
      ensures c <= d
    {
      assert Closed(c, d * c);
    }
  }

  lemma PaintedBack(g: Image, r: int)
    ensures Painted(Painted(g, PointsOf(g, r), BLACK), PointsOf(g, r), r) == g
  {}

  // ----- corners

  function Square(a: int): int {
    a * a
  }

  function SquaredDistance(p: Point, ref: Point): int {
    Square(p.x - ref.x) + Square(p.y - ref.y)
  }

  /** On a run, an end is farthest from any point. */
  lemma EndsFarther(left: int, x: int, right: int, c: int)
    requires left <= x <= right
    ensures Square(x - c) <= Square(left - c) || Square(x - c) <= Square(right - c)
  {}

  lemma SquaresPositive(a: int)
    ensures Square(a) >= 0 && (a != 0 ==> Square(a) > 0)
  {}

  /** No point of s is farther from ref than p. */
  ghost predicate Farthest(s: set<Point>, ref: Point, p: Point) {
    p in s && forall q :: q in s ==> SquaredDistance(q, ref) <= SquaredDistance(p, ref)
  }

  /** The calls of find_one_corner during a fill. */
  method FindOneCorner(runs: seq<Run>, ref: Point, start: Point) returns (corner: Point)
    requires forall k :: 0 <= k < |runs| ==> runs[k].left <= runs[k].right
    ensures if runs == [] then corner == start else Farthest(Covered(runs), ref, corner)
  {
    hide Square, Covered, Span;
    corner := start;
    var score := -1;
    NoRuns();
    assert runs[..0] == [];
    for i := 0 to |runs|
      invariant i == 0 ==> corner == start && score == -1
      invariant i > 0 ==> Farthest(Covered(runs[..i]), ref, corner) && score == SquaredDistance(corner, ref)
    {
      var r := runs[i];
      assert runs[..i + 1][..i] == runs[..i];
      OneMore(runs[..i + 1]);
      RunEnds(r, ref);
      var a, b := Point(r.left, r.y), Point(r.right, r.y);
      if SquaredDistance(a, ref) > score {
        corner, score := a, SquaredDistance(a, ref);
      }
      if SquaredDistance(b, ref) > score {
        corner, score := b, SquaredDistance(b, ref);
      }
    }
    assert runs[..|runs|] == runs;
  }

  lemma NoRuns()
    ensures Covered([]) == {}
  {}

  lemma OneMore(runs: seq<Run>)
    requires runs != []
    ensures var r := runs[|runs| - 1]; Covered(runs) == Covered(runs[..|runs| - 1]) + Span(r.y, r.left, r.right)
  {}

  lemma RunEnds(r: Run, ref: Point)
    requires r.left <= r.right
    ensures var a, b := Point(r.left, r.y), Point(r.right, r.y);
      && SquaredDistance(a, ref) >= 0 && SquaredDistance(b, ref) >= 0
      && forall q :: q in Span(r.y, r.left, r.right) ==>
        SquaredDistance(q, ref) <= SquaredDistance(a, ref) || SquaredDistance(q, ref) <= SquaredDistance(b, ref)
  {
    hide Square;
    SquaresPositive(r.left - ref.x);
    SquaresPositive(r.right - ref.x);
    SquaresPositive(r.y - ref.y);
    forall q | q in Span(r.y, r.left, r.right)
      ensures Square(q.x - ref.x) <= Square(r.left - ref.x) || Square(q.x - ref.x) <= Square(r.right - ref.x)
    {
      EndsFarther(r.left, q.x, r.right, ref.x);
    }
  }

  function Dot(a: Point, p: Point): int {
    a.x * p.x + a.y * p.y
  }

  /** Positive if p lies on the side of a to which the x axis turns on the way to the y axis. */
  function Cross(a: Point, p: Point): int {
    a.x * p.y - a.y * p.x
  }

  function Minus(p: Point, q: Point): Point {
    Point(p.x - q.x, p.y - q.y)
  }

  /** The four scores of find_other_corners: along the axis, across it, and their opposites. */
  function Score(j: int, p: Point, axis: Point): int {
    match j
    case 0 => p.x * axis.x + p.y * axis.y
    case 1 => p.x * -axis.y + p.y * axis.x
    case 2 => -(p.x * axis.x + p.y * axis.y)
    case _ => -(p.x * -axis.y + p.y * axis.x)
  }

  /** On a run, an end has the highest score. */
  lemma EndsHigher(j: int, y: int, left: int, x: int, right: int, axis: Point)
    requires left <= x <= right
    ensures Score(j, Point(x, y), axis) <= Score(j, Point(left, y), axis) || Score(j, Point(x, y), axis) <= Score(j, Point(right, y), axis)
  {
    var a := if j == 0 then axis.x else if j == 1 then -axis.y else if j == 2 then -axis.x else axis.y;
    if a >= 0 {
      assert a * x <= a * right;
    } else {
      assert a * x <= a * left;
    }
  }

  /** p has the j-th score no lower than any point of s. */
  ghost predicate Topmost(s: set<Point>, j: int, axis: Point, p: Point) {
    p in s && forall q :: q in s ==> Score(j, q, axis) <= Score(j, p, axis)
  }

  lemma RunTops(r: Run, j: int, axis: Point)
    requires r.left <= r.right
    ensures forall q :: q in Span(r.y, r.left, r.right) ==>
      Score(j, q, axis) <= Score(j, Point(r.left, r.y), axis) || Score(j, q, axis) <= Score(j, Point(r.right, r.y), axis)
  {
    hide Score;
    forall q | q in Span(r.y, r.left, r.right)
      ensures Score(j, q, axis) <= Score(j, Point(r.left, r.y), axis) || Score(j, q, axis) <= Score(j, Point(r.right, r.y), axis)
    {
      EndsHigher(j, r.y, r.left, q.x, r.right, axis);
    }
  }

  /** One end of a run in find_other_corners. */
  method TryCorner(corners: seq<Point>, scores: seq<int>, p: Point, axis: Point) returns (corners': seq<Point>, scores': seq<int>)
    requires |corners| == |scores| == 4 && forall j :: 0 <= j < 4 ==> scores[j] == Score(j, corners[j], axis)
    ensures |corners'| == |scores'| == 4 && forall j :: 0 <= j < 4 ==> scores'[j] == Score(j, corners'[j], axis)
    ensures forall j :: 0 <= j < 4 ==> scores'[j] >= scores[j] && scores'[j] >= Score(j, p, axis) && corners'[j] in {corners[j], p}
  {
    hide Score;
    corners', scores' := corners, scores;
    for j := 0 to 4
      invariant |corners'| == |scores'| == 4
      invariant forall i :: 0 <= i < 4 ==> scores'[i] == Score(i, corners'[i], axis)
      invariant forall i :: 0 <= i < j ==> scores'[i] >= scores[i] && scores'[i] >= Score(i, p, axis) && corners'[i] in {corners[i], p}
      invariant forall i :: j <= i < 4 ==> scores'[i] == scores[i] && corners'[i] == corners[i]
    {
      if Score(j, p, axis) > scores'[j] {
        scores' := scores'[j := Score(j, p, axis)];
        corners' := corners'[j := p];
      }
    }
  }

  /** The calls of find_other_corners during a fill that starts from the seed. */
  method FindOtherCorners(runs: seq<Run>, axis: Point, seed: Point) returns (corners: seq<Point>)
    requires forall k :: 0 <= k < |runs| ==> runs[k].left <= runs[k].right
    ensures |corners| == 4
    ensures ExtremeIn({seed} + Covered(runs), axis, corners)
  {
    hide Score, Covered, Span, ExtremeIn;
    corners := [seed, seed, seed, seed];
    var scores := seq(4, j => Score(j, seed, axis));
    NoRuns();
    assert runs[..0] == [];
    for i := 0 to |runs|
      invariant |corners| == |scores| == 4 && forall j :: 0 <= j < 4 ==> scores[j] == Score(j, corners[j], axis)
      invariant forall j :: 0 <= j < 4 ==> Topmost({seed} + Covered(runs[..i]), j, axis, corners[j])
    {
      var r := runs[i];
      assert runs[..i + 1][..i] == runs[..i];
      OneMore(runs[..i + 1]);
      forall j | 0 <= j < 4
        ensures forall q :: q in Span(r.y, r.left, r.right) ==>
          Score(j, q, axis) <= Score(j, Point(r.left, r.y), axis) || Score(j, q, axis) <= Score(j, Point(r.right, r.y), axis)
      {
        RunTops(r, j, axis);
      }
      corners, scores := TryCorner(corners, scores, Point(r.left, r.y), axis);
      corners, scores := TryCorner(corners, scores, Point(r.right, r.y), axis);
    }
    assert runs[..|runs|] == runs;
    TopsAreExtreme({seed} + Covered(runs), axis, corners);
  }

  // ----- the recognizer

  /** The corners of an area, seen along the axis from ref to a farthest point: the first reaches farthest
      along it and the third least far; the second reaches farthest to the side to which the x axis turns on
      the way to the y axis, and the fourth farthest to the other. */
  ghost predicate CornersOf(area: set<Point>, ref: Point, far: Point, corners: seq<Point>) {
    Farthest(area, ref, far) && ExtremeIn(area, Minus(far, ref), corners)
  }

  ghost predicate ExtremeIn(area: set<Point>, axis: Point, corners: seq<Point>) {
    && |corners| == 4 && (forall j :: 0 <= j < 4 ==> corners[j] in area)
    && forall q :: q in area ==> Between(axis, corners, q)
  }

  predicate Between(axis: Point, corners: seq<Point>, q: Point)
    requires |corners| == 4
  {
    && Dot(axis, corners[2]) <= Dot(axis, q) <= Dot(axis, corners[0])
    && Cross(axis, corners[3]) <= Cross(axis, q) <= Cross(axis, corners[1])
  }

  /** How the way from p over q to r turns: positive in the sense in which the x axis turns to the y axis. */
  function Turn(p: Point, q: Point, r: Point): int {
    Cross(Minus(q, p), Minus(r, q))
  }

  /** The corners run round the area in that sense: no turn at any of them is the other way. */
  lemma CornersRunRound(area: set<Point>, ref: Point, far: Point, corners: seq<Point>)
    requires CornersOf(area, ref, far, corners)
    ensures Turn(corners[0], corners[1], corners[2]) >= 0 && Turn(corners[1], corners[2], corners[3]) >= 0
    ensures Turn(corners[2], corners[3], corners[0]) >= 0 && Turn(corners[3], corners[0], corners[1]) >= 0
  {
    hide Farthest, Dot, Cross, Turn;
    var axis := Minus(far, ref);
    assert forall j :: 0 <= j < 4 ==> Between(axis, corners, corners[j]);
    if axis == Point(0, 0) {
      OnePoint(area, ref, far);
      NoTurn(ref);
    } else {
      TurnsAway(axis, corners[0], corners[1], corners[2]);
      TurnsAway(axis, corners[1], corners[2], corners[3]);
      TurnsAway(axis, corners[2], corners[3], corners[0]);
      TurnsAway(axis, corners[3], corners[0], corners[1]);
    }
  }

  lemma NoTurn(p: Point)
    ensures Turn(p, p, p) == 0
  {}

  /** If no point is away from ref, there is only one. */
  lemma OnePoint(area: set<Point>, ref: Point, far: Point)
    requires Farthest(area, ref, far) && far == ref
    ensures forall q :: q in area ==> q == ref
  {
    forall q | q in area ensures q == ref {
      NoDistance(q.x - ref.x, q.y - ref.y);
    }
  }

  lemma NoDistance(a: int, b: int)
    requires Square(a) + Square(b) <= Square(0) + Square(0)
    ensures a == 0 && b == 0
  {
    SquaresPositive(a);
    SquaresPositive(b);
  }

  /** Along the axis and across it, the way goes through a quarter: it never turns back. */
  lemma TurnsAway(axis: Point, p: Point, q: Point, r: Point)
    requires axis != Point(0, 0)
    requires
      || (Dot(axis, q) <= Dot(axis, p) && Cross(axis, p) <= Cross(axis, q) && Dot(axis, r) <= Dot(axis, q) && Cross(axis, r) <= Cross(axis, q))
      || (Dot(axis, q) <= Dot(axis, p) && Cross(axis, q) <= Cross(axis, p) && Dot(axis, q) <= Dot(axis, r) && Cross(axis, r) <= Cross(axis, q))
      || (Dot(axis, p) <= Dot(axis, q) && Cross(axis, q) <= Cross(axis, p) && Dot(axis, q) <= Dot(axis, r) && Cross(axis, q) <= Cross(axis, r))
      || (Dot(axis, p) <= Dot(axis, q) && Cross(axis, p) <= Cross(axis, q) && Dot(axis, r) <= Dot(axis, q) && Cross(axis, q) <= Cross(axis, r))
    ensures Turn(p, q, r) >= 0
  {
    var d, e := Minus(q, p), Minus(r, q);
    DotMinus(axis, q, p);
    DotMinus(axis, r, q);
    TurnedFrame(axis, d, e);
    hide Dot, Cross, Square;
    var u, v, u', v' := Dot(axis, d), Cross(axis, d), Dot(axis, e), Cross(axis, e);
    SignOf(u, v');
    SignOf(v, u');
    PositiveScale(axis, Cross(d, e));
    assert Turn(p, q, r) == Cross(d, e);
  }

  lemma DotMinus(axis: Point, q: Point, p: Point)
    ensures Dot(axis, Minus(q, p)) == Dot(axis, q) - Dot(axis, p) && Cross(axis, Minus(q, p)) == Cross(axis, q) - Cross(axis, p)
  {
    assert axis.x * (q.x - p.x) == axis.x * q.x - axis.x * p.x && axis.y * (q.y - p.y) == axis.y * q.y - axis.y * p.y;
    assert axis.x * (q.y - p.y) == axis.x * q.y - axis.x * p.y && axis.y * (q.x - p.x) == axis.y * q.x - axis.y * p.x;
  }

  lemma SignOf(a: int, b: int)
    ensures (a >= 0 && b >= 0) || (a <= 0 && b <= 0) ==> a * b >= 0
    ensures (a >= 0 && b <= 0) || (a <= 0 && b >= 0) ==> a * b <= 0
  {}

  /** The frame of the axis is turned and stretched. */
  lemma TurnedFrame(axis: Point, d: Point, e: Point)
    ensures Dot(axis, d) * Cross(axis, e) - Cross(axis, d) * Dot(axis, e) == (Square(axis.x) + Square(axis.y)) * Cross(d, e)
  {
    var a, b := axis.x, axis.y;
    assert Dot(axis, d) == Times(a, d.x) + Times(b, d.y) && Cross(axis, d) == Times(a, d.y) - Times(b, d.x);
    assert Dot(axis, e) == Times(a, e.x) + Times(b, e.y) && Cross(axis, e) == Times(a, e.y) - Times(b, e.x);
    assert Cross(d, e) == Times(d.x, e.y) - Times(d.y, e.x) && Square(a) == Times(a, a) && Square(b) == Times(b, b);
    assert Dot(axis, d) * Cross(axis, e) == Times(Dot(axis, d), Cross(axis, e));
    assert Cross(axis, d) * Dot(axis, e) == Times(Dot(axis, e), Cross(axis, d));
    assert (Square(a) + Square(b)) * Cross(d, e) == Times(Square(a) + Square(b), Cross(d, e));
    hide Times, Dot, Cross, Square;
    Expand(Times(a, d.x), Times(b, d.y), Times(a, e.y), Times(b, e.x));
    Expand(Times(a, e.x), Times(b, e.y), Times(a, d.y), Times(b, d.x));
    Expand(Times(a, a), Times(b, b), Times(d.x, e.y), Times(d.y, e.x));
    Swapped(a, d.x, a, e.y);
    Swapped(a, d.x, b, e.x);
    Swapped(b, d.y, a, e.y);
    Swapped(b, d.y, b, e.x);
    Swapped(a, e.x, a, d.y);
    Swapped(a, e.x, b, d.x);
    Swapped(b, e.y, a, d.y);
    Swapped(b, e.y, b, d.x);
    TimesComm(a, b);
    TimesComm(d.x, e.x);
    TimesComm(d.y, e.y);
    TimesComm(d.x, e.y);
    TimesComm(d.y, e.x);
  }

  function Times(a: int, b: int): int {
    a * b
  }

  lemma TimesComm(a: int, b: int)
    ensures Times(a, b) == Times(b, a)
  {}

  lemma Expand(a: int, b: int, c: int, d: int)
    ensures Times(a + b, c - d) == Times(a, c) - Times(a, d) + Times(b, c) - Times(b, d)
  {}

  lemma Swapped(a: int, b: int, c: int, d: int)
    ensures Times(Times(a, b), Times(c, d)) == Times(Times(a, c), Times(b, d))
  {
    assert (a * b) * (c * d) == (a * c) * (b * d);
  }

  lemma OppositeSigns(n: int, t: int)
    ensures n > 0 && t < 0 ==> n * t < 0
  {}

  lemma PositiveScale(axis: Point, t: int)
    requires axis != Point(0, 0) && (Square(axis.x) + Square(axis.y)) * t >= 0
    ensures t >= 0
  {
    var n := Square(axis.x) + Square(axis.y);
    if n <= 0 {
      SquaresPositive(axis.x);
      SquaresPositive(axis.y);
      NoDistance(axis.x, axis.y);
    }
    OppositeSigns(n, t);
  }

  /** Whatever part of a region is painted black, a black fill from it stays in the region. */
  lemma StaysInside(g: Image, regions: seq<Region>, num: int, r: int, seed: Point, part: set<Point>, fill: set<Point>)
    requires Labelled(g, regions, num) && FIRST_REGION <= r < num && seed in part && part <= PointsOf(g, r)
    requires Least(PointsOf(Painted(g, part, BLACK), BLACK), seed, fill)
    ensures fill <= PointsOf(g, r)
  {
    hide Labelled;
    var black := PointsOf(Painted(g, part, BLACK), BLACK);
    forall a, b | a in part && b in black && Adjacent(a, b)
      ensures b in part
    {
      if b !in part {
        Touching(g, regions, num, a, b);
      }
    }
    assert Closed(black, part);
  }

  lemma TopsAreExtreme(area: set<Point>, axis: Point, corners: seq<Point>)
    requires |corners| == 4 && forall j :: 0 <= j < 4 ==> Topmost(area, j, axis, corners[j])
    ensures ExtremeIn(area, axis, corners)
  {
    hide Score, Dot, Cross;
    forall j | 0 <= j < 4 ensures corners[j] in area {
      assert Topmost(area, j, axis, corners[j]);
    }
    forall q | q in area ensures Between(axis, corners, q) {
      assert forall j :: 0 <= j < 4 ==> Topmost(area, j, axis, corners[j]) && Score(j, q, axis) <= Score(j, corners[j], axis);
      AlongAndAcross(q, axis);
      AlongAndAcross(corners[0], axis);
      AlongAndAcross(corners[1], axis);
      AlongAndAcross(corners[2], axis);
      AlongAndAcross(corners[3], axis);
    }
  }

  lemma AlongAndAcross(p: Point, axis: Point)
    ensures Score(0, p, axis) == Dot(axis, p) && Score(2, p, axis) == -Dot(axis, p)
    ensures Score(1, p, axis) == Cross(axis, p) && Score(3, p, axis) == -Cross(axis, p)
  {}

  lemma RegionOf(g: Image, regions: seq<Region>, num: int, r: int)
    requires Labelled(g, regions, num) && FIRST_REGION <= r < num
    ensures WholeRegion(g, regions[r], r) && Seeds(g, regions[r].seed, r)
  {}

  /** What is filled lies in the component, so a small component cannot exhaust the stack. */
  lemma Within(on: set<Point>, seed: Point, fill: set<Point>, c: set<Point>)
    requires Component(on, seed, c) && Least(on, seed, fill)
    ensures fill <= c && |fill| <= |c|
    ensures Component(on, seed, fill) ==> fill == c
  {
    SubsetSize(fill, c);
    if Component(on, seed, fill) { ComponentUnique(on, seed, fill, c); }
  }

  lemma SubsetSize(a: set<Point>, b: set<Point>)
    requires a <= b
    ensures |a| <= |b|
  {
    assert |b| == |a| + |b - a|;
  }

  lemma LabelledFacts(g: Image, regions: seq<Region>, num: int)
    requires Labelled(g, regions, num)
    ensures FIRST_REGION <= num <= |regions| == MAX_REGIONS && forall p :: p in g ==> 0 <= g[p] < num
  {}

  lemma NewPoints(g: Image, fill: set<Point>, r: int)
    requires fill <= g.Keys && forall p :: p in g ==> g[p] < r
    ensures PointsOf(Painted(g, fill, r), r) == fill
  {}

  /** The part of struct quirc that labelling uses. */
  class Quirc {
    const pixels: array2<int>
    const floodFillVars: array<Vars>
    const regions: array<Region>
    var numRegions: int

    ghost predicate Valid()
      reads this, pixels, regions
    {
      floodFillVars.Length > 0 && Labelled(ImageOf(pixels), regions[..], numRegions)
    }

    /** The calls of area_count during a fill. */
    method AreaCount(runs: seq<Run>) returns (count: int)
      ensures count == TotalLength(runs)
    {
      count := 0;
      assert runs[..0] == [];
      for i := 0 to |runs|
        invariant count == TotalLength(runs[..i])
      {
        assert runs[..i + 1][..i] == runs[..i];
        count := count + (runs[i].right - runs[i].left + 1);
      }
      assert runs[..|runs|] == runs;
    }

    /** region_code: the label of a pixel's component. A black component gets the next free label, as
        a whole, unless the fill runs out of stack. */
    method RegionCode(x: int, y: int) returns (code: int, ghost exhausted: bool)
      requires Valid()
      modifies this`numRegions, pixels, floodFillVars, regions
      ensures var p, was, num := Point(x, y), old(ImageOf(pixels)), old(numRegions);
        && (code == -1 <==> p !in was || was[p] == WHITE || (was[p] == BLACK && num >= MAX_REGIONS))
        && (code != -1 ==> ImageOf(pixels)[p] == code >= FIRST_REGION)
        && (code == -1 || was[p] != BLACK ==> ImageOf(pixels) == was && numRegions == num && !exhausted)
        && (code != -1 && was[p] == BLACK ==> code == num && numRegions == num + 1)
      ensures !exhausted ==> Valid() && NonWhite(ImageOf(pixels)) == NonWhite(old(ImageOf(pixels)))
      ensures exhausted ==> |PointsOf(ImageOf(pixels), code)| >= floodFillVars.Length
      ensures old(numRegions) <= numRegions && regions[..old(numRegions)] == old(regions[..numRegions])
    {
      hide ImageOf, Labelled, Painted, PointsOf, NonWhite, Component, Least, Covered;
      exhausted := false;
      ghost var was, num := ImageOf(pixels), numRegions;
      LabelledFacts(was, regions[..], numRegions);
      if x < 0 || y < 0 || x >= pixels.Length1 || y >= pixels.Length0 {
        return -1, false;
      }
      var pixel := pixels[y, x];
      if pixel >= FIRST_REGION {
        return pixel, false;
      }
      if pixel == WHITE {
        return -1, false;
      }
      if numRegions >= MAX_REGIONS {
        return -1, false;
      }
      var region := numRegions;
      numRegions := numRegions + 1;
      var runs;
      ghost var fill;
      runs, fill, exhausted := FloodFillSeed(pixels, floodFillVars, x, y, pixel, region);
      var count := AreaCount(runs);
      regions[region] := Region(Point(x, y), count, -1);
      code := region;
      NewPoints(was, fill, region);
      if !exhausted {
        NewLabel(was, old(regions[..]), region, Point(x, y), fill);
        assert regions[..] == old(regions[..])[region := Region(Point(x, y), count, -1)];
      }
    }

    /** find_region_corners: paints the region black and back, and finds its corners on the way. The
        pixels are unchanged afterwards unless a fill runs out of stack, which no region smaller than
        the stack can cause. */
    method FindRegionCorners(rcode: int, ref: Point) returns (corners: seq<Point>, ghost exhausted: bool)
      requires Valid() && FIRST_REGION <= rcode < numRegions
      modifies pixels, floodFillVars
      ensures |corners| == 4
      ensures |PointsOf(old(ImageOf(pixels)), rcode)| < floodFillVars.Length ==> !exhausted
      ensures !exhausted ==> Valid() && ImageOf(pixels) == old(ImageOf(pixels))
      ensures forall p :: p in old(ImageOf(pixels)) && old(ImageOf(pixels))[p] != rcode ==>
        ImageOf(pixels)[p] == old(ImageOf(pixels))[p]
      ensures !exhausted ==> exists far :: CornersOf(PointsOf(old(ImageOf(pixels)), rcode), ref, far, corners)
      ensures !exhausted ==>
        && Turn(corners[0], corners[1], corners[2]) >= 0 && Turn(corners[1], corners[2], corners[3]) >= 0
        && Turn(corners[2], corners[3], corners[0]) >= 0 && Turn(corners[3], corners[0], corners[1]) >= 0
    {
      hide ImageOf, Labelled, Painted, PointsOf, NonWhite, Component, Least, Covered, Score, Farthest, Topmost, WholeRegion, Turn, ExtremeIn;
      ghost var was := ImageOf(pixels);
      ghost var area := PointsOf(was, rcode);
      LabelledFacts(was, regions[..], numRegions);
      var region := regions[rcode];
      RegionOf(was, regions[..], numRegions, rcode);
      OwnComponent(was, region, rcode);
      BlackenedComponent(was, region, rcode);
      PaintedBack(was, rcode);
      var runs;
      ghost var fill, out;
      runs, fill, exhausted := FloodFillSeed(pixels, floodFillVars, region.seed.x, region.seed.y, rcode, BLACK);
      Within(PointsOf(was, rcode), region.seed, fill, area);
      ghost var out1 := fill;
      var far := FindOneCorner(runs, ref, Point(0, 0));
      var axis := Point(far.x - ref.x, far.y - ref.y);
      ghost var middle := ImageOf(pixels);
      assert middle[region.seed] == BLACK;
      runs, fill, out := FloodFillSeed(pixels, floodFillVars, region.seed.x, region.seed.y, BLACK, rcode);
      StaysInside(was, regions[..], numRegions, rcode, region.seed, out1, fill);
      corners := FindOtherCorners(runs, axis, region.seed);
      if !exhausted {
        Within(PointsOf(middle, BLACK), region.seed, fill, area);
        if !out {
          assert {region.seed} + area == area;
          CornersRunRound(area, ref, far, corners);
        }
      }
      exhausted := exhausted || out;
    }
  }
}
