/** The span flood fill of 3rdparty/quirc/identify.c: an explicit stack of contexts whose scans can be
    resumed, and an early exit when the stack is full. */
module FloodFill {
  datatype Point = Point(x: int, y: int)

  // ----- images and components

  type Image = map<Point, int>

  ghost function ImageOf(pixels: array2<int>): (g: Image)
    reads pixels
    ensures forall p :: p in g <==> 0 <= p.y < pixels.Length0 && 0 <= p.x < pixels.Length1
    ensures forall p :: p in g ==> g[p] == pixels[p.y, p.x]
  {
    map y, x | 0 <= y < pixels.Length0 && 0 <= x < pixels.Length1 :: Point(x, y) := pixels[y, x]
  }

  ghost function PointsOf(g: Image, v: int): (s: set<Point>)
    ensures forall p :: p in s <==> p in g && g[p] == v
  {
    set p | p in g && g[p] == v
  }

  /** The image with the points of s set to v. */
  ghost function Painted(g: Image, s: set<Point>, v: int): (r: Image)
    ensures r.Keys == g.Keys && forall p :: p in g ==> r[p] == if p in s then v else g[p]
  {
    map p | p in g :: if p in s then v else g[p]
  }

  predicate Adjacent(a: Point, b: Point) {
    (a.x == b.x && (a.y == b.y + 1 || b.y == a.y + 1)) || (a.y == b.y && (a.x == b.x + 1 || b.x == a.x + 1))
  }

  ghost predicate Closed(on: set<Point>, c: set<Point>) {
    c <= on && forall a, b :: a in c && b in on && Adjacent(a, b) ==> b in c
  }

  /** c is the 4-connected component of the seed among the points that are on: the least set that holds
      the seed and every neighbour of its points. */
  ghost predicate Component(on: set<Point>, seed: Point, c: set<Point>) {
    seed in c && Closed(on, c) && Least(on, seed, c)
  }

  ghost predicate Least(on: set<Point>, seed: Point, c: set<Point>) {
    forall d :: seed in d && Closed(on, d) ==> c <= d
  }

  /** So there is one component for a seed. */
  lemma ComponentUnique(on: set<Point>, seed: Point, c: set<Point>, d: set<Point>)
    requires Component(on, seed, c) && Component(on, seed, d)
    ensures c == d
  {}

  // ----- spans

  ghost function Span(y: int, left: int, right: int): (s: set<Point>)
    ensures forall p :: p in s <==> p.y == y && left <= p.x <= right
    decreases right - left
  {
    if right < left then {} else Span(y, left, right - 1) + {Point(right, y)}
  }

  lemma {:induction false} SpanSize(y: int, left: int, right: int)
    requires left <= right + 1
    ensures |Span(y, left, right)| == right - left + 1
    decreases right - left
  {
    if left <= right {
      SpanSize(y, left, right - 1);
    }
  }

  /** A closed set that holds one point of a run holds the run. */
  lemma {:induction false} RunInside(on: set<Point>, d: set<Point>, y: int, x: int, left: int, right: int)
    requires Closed(on, d) && left <= x <= right && Point(x, y) in d && Span(y, left, right) <= on
    ensures Span(y, left, right) <= d
    decreases right - left
  {
    if left < x {
      assert Point(left, y) in Span(y, left, right);
      RunInside(on, d, y, x, left + 1, right);
      assert Adjacent(Point(left + 1, y), Point(left, y));
      assert Point(left + 1, y) in Span(y, left + 1, right);
    } else if x < right {
      assert Point(right, y) in Span(y, left, right);
      RunInside(on, d, y, x, left, right - 1);
      assert Adjacent(Point(right - 1, y), Point(right, y));
      assert Point(right - 1, y) in Span(y, left, right - 1);
    }
  }

  method FillExtent(pixels: array2<int>, y: int, left: int, right: int, to: int)
    requires 0 <= y < pixels.Length0 && 0 <= left <= right < pixels.Length1
    modifies pixels
    ensures ImageOf(pixels) == Painted(old(ImageOf(pixels)), Span(y, left, right), to)
  {
    hide Span, ImageOf;
    ghost var was := ImageOf(pixels);
    for i := left to right + 1
      invariant ImageOf(pixels) == Painted(was, Span(y, left, i - 1), to)
    {
      pixels[y, i] := to;
      assert ImageOf(pixels) == Painted(was, Span(y, left, i - 1), to)[Point(i, y) := to];
    }
  }

  /** A maximal run of `from` pixels is filled. */
  method FloodFillLine(pixels: array2<int>, x: int, y: int, from: int, to: int) returns (left: int, right: int)
    requires 0 <= y < pixels.Length0 && 0 <= x < pixels.Length1 && pixels[y, x] == from && from != to
    modifies pixels
    ensures 0 <= left <= x <= right < pixels.Length1
    ensures Span(y, left, right) <= PointsOf(old(ImageOf(pixels)), from)
    ensures Point(left - 1, y) !in PointsOf(old(ImageOf(pixels)), from)
    ensures Point(right + 1, y) !in PointsOf(old(ImageOf(pixels)), from)
    ensures ImageOf(pixels) == Painted(old(ImageOf(pixels)), Span(y, left, right), to)
  {
    hide Span;
    var w := pixels.Length1;
    left, right := x, x;
    while left > 0 && pixels[y, left - 1] == from
      invariant 0 <= left <= x && forall i :: left <= i <= x ==> pixels[y, i] == from
    {
      left := left - 1;
    }
    while right < w - 1 && pixels[y, right + 1] == from
      invariant x <= right < w && forall i :: left <= i <= right ==> pixels[y, i] == from
    {
      right := right + 1;
    }
    FillExtent(pixels, y, left, right, to);
  }

  // ----- the stack

  /** struct quirc_flood_fill_vars: a filled run that ends at `right`, and where its scans of the rows
      above and below stand. */
  datatype Vars = Vars(y: int, right: int, leftUp: int, leftDown: int)

  /** One of the runs still to be scanned has the neighbour of p above it ahead of it. */
  ghost predicate PendingUp(vars: seq<Vars>, p: Point) {
    exists k :: 0 <= k < |vars| && vars[k].y == p.y && vars[k].leftUp <= p.x <= vars[k].right
  }

  ghost predicate PendingDown(vars: seq<Vars>, p: Point) {
    exists k :: 0 <= k < |vars| && vars[k].y == p.y && vars[k].leftDown <= p.x <= vars[k].right
  }

  /** The neighbours of p are filled, or a scan will still get to them. */
  ghost predicate SweptAt(on: set<Point>, fill: set<Point>, vars: seq<Vars>, p: Point) {
    && (Point(p.x - 1, p.y) in on ==> Point(p.x - 1, p.y) in fill)
    && (Point(p.x + 1, p.y) in on ==> Point(p.x + 1, p.y) in fill)
    && (Point(p.x, p.y - 1) in on ==> Point(p.x, p.y - 1) in fill || PendingUp(vars, p))
    && (Point(p.x, p.y + 1) in on ==> Point(p.x, p.y + 1) in fill || PendingDown(vars, p))
  }

  ghost predicate Swept(on: set<Point>, fill: set<Point>, vars: seq<Vars>) {
    forall p :: p in fill ==> SweptAt(on, fill, vars, p)
  }

  /** The scans stand on filled runs. */
  ghost predicate OnFill(fill: set<Point>, v: Vars) {
    forall x :: (v.leftUp <= x || v.leftDown <= x) && x <= v.right ==> Point(x, v.y) in fill
  }

  predicate InImage(h: int, w: int, v: Vars) {
    0 <= v.y < h && 0 <= v.leftUp && 0 <= v.leftDown && v.right < w
  }

  /** The state of the fill: what is filled belongs to every closed set around the seed. */
  ghost predicate Filling(on: set<Point>, seed: Point, fill: set<Point>, vars: seq<Vars>, h: int, w: int) {
    && seed in fill && fill <= on && Least(on, seed, fill)
    && Swept(on, fill, vars)
    && forall k :: 0 <= k < |vars| ==> InImage(h, w, vars[k]) && OnFill(fill, vars[k])
  }

  /** When no scan is pending, the fill is the component. */
  lemma FilledAll(on: set<Point>, seed: Point, fill: set<Point>, vars: seq<Vars>, h: int, w: int)
    requires Filling(on, seed, fill, vars, h, w) && vars == []
    ensures Component(on, seed, fill)
  {
    forall a, b | a in fill && b in on && Adjacent(a, b)
      ensures b in fill
    {
      assert SweptAt(on, fill, [], a);
      assert b == Point(a.x - 1, a.y) || b == Point(a.x + 1, a.y) || b == Point(a.x, a.y - 1) || b == Point(a.x, a.y + 1);
    }
  }

  // ----- scanning

  function Cursor(v: Vars, direction: int): int {
    if direction < 0 then v.leftUp else v.leftDown
  }

  function Advanced(v: Vars, direction: int): Vars {
    if direction < 0 then v.(leftUp := v.leftUp + 1) else v.(leftDown := v.leftDown + 1)
  }

  lemma SkipAt(on: set<Point>, fill: set<Point>, vars: seq<Vars>, direction: int, p: Point)
    requires vars != [] && (direction == -1 || direction == 1) && SweptAt(on, fill, vars, p)
    requires var v := vars[|vars| - 1]; Point(Cursor(v, direction), v.y + direction) !in on - fill
    ensures SweptAt(on, fill, vars[|vars| - 1 := Advanced(vars[|vars| - 1], direction)], p)
  {
    var k := |vars| - 1;
    var moved := vars[k := Advanced(vars[k], direction)];
    if PendingUp(vars, p) {
      var m :| 0 <= m < |vars| && vars[m].y == p.y && vars[m].leftUp <= p.x <= vars[m].right;
      assert moved[m].y == p.y && moved[m].right == vars[m].right;
    }
    if PendingDown(vars, p) {
      var m :| 0 <= m < |vars| && vars[m].y == p.y && vars[m].leftDown <= p.x <= vars[m].right;
      assert moved[m].y == p.y && moved[m].right == vars[m].right;
    }
  }

  /** The neighbour under the cursor needs no filling: the scan goes on. */
  lemma Skip(on: set<Point>, seed: Point, fill: set<Point>, vars: seq<Vars>, direction: int, h: int, w: int)
    requires Filling(on, seed, fill, vars, h, w) && vars != [] && (direction == -1 || direction == 1)
    requires var v := vars[|vars| - 1]; Point(Cursor(v, direction), v.y + direction) !in on - fill
    ensures Filling(on, seed, fill, vars[|vars| - 1 := Advanced(vars[|vars| - 1], direction)], h, w)
  {
    hide Least, SweptAt;
    forall p | p in fill
      ensures SweptAt(on, fill, vars[|vars| - 1 := Advanced(vars[|vars| - 1], direction)], p)
    {
      SkipAt(on, fill, vars, direction, p);
    }
  }

  lemma PendingMore(vars: seq<Vars>, v: Vars, p: Point)
    ensures PendingUp(vars, p) ==> PendingUp(vars + [v], p)
    ensures PendingDown(vars, p) ==> PendingDown(vars + [v], p)
    ensures v.y == p.y && v.leftUp <= p.x <= v.right ==> PendingUp(vars + [v], p)
    ensures v.y == p.y && v.leftDown <= p.x <= v.right ==> PendingDown(vars + [v], p)
  {
    if PendingUp(vars, p) {
      var m :| 0 <= m < |vars| && vars[m].y == p.y && vars[m].leftUp <= p.x <= vars[m].right;
      assert (vars + [v])[m] == vars[m];
    }
    if PendingDown(vars, p) {
      var m :| 0 <= m < |vars| && vars[m].y == p.y && vars[m].leftDown <= p.x <= vars[m].right;
      assert (vars + [v])[m] == vars[m];
    }
    assert (vars + [v])[|vars|] == v;
  }

  /** A run next to the fill joins every closed set that holds the fill. */
  lemma RunJoins(on: set<Point>, seed: Point, fill: set<Point>, p: Point, y: int, left: int, right: int)
    requires Least(on, seed, fill) && p in fill && left <= p.x <= right && (y == p.y - 1 || y == p.y + 1)
    requires Span(y, left, right) <= on
    ensures Least(on, seed, fill + Span(y, left, right))
  {
    forall d | seed in d && Closed(on, d)
      ensures fill + Span(y, left, right) <= d
    {
      assert p in d && Adjacent(p, Point(p.x, y)) && Point(p.x, y) in Span(y, left, right);
      RunInside(on, d, y, p.x, left, right);
    }
  }

  /** A maximal run next to the fill is filled and its own scans are pending. */
  lemma Push(on: set<Point>, seed: Point, fill: set<Point>, vars: seq<Vars>, p: Point, y: int, left: int, right: int, h: int, w: int)
    requires Filling(on, seed, fill, vars, h, w) && 0 <= y < h && 0 <= left && right < w
    requires p in fill && left <= p.x <= right && (y == p.y - 1 || y == p.y + 1)
    requires Span(y, left, right) <= on - fill && Point(left - 1, y) !in on - fill && Point(right + 1, y) !in on - fill
    ensures Filling(on, seed, fill + Span(y, left, right), vars + [Vars(y, right, left, left)], h, w)
  {
    hide Least, SweptAt;
    RunJoins(on, seed, fill, p, y, left, right);
    var v, run := Vars(y, right, left, left), Span(y, left, right);
    forall q | q in fill + run
      ensures SweptAt(on, fill + run, vars + [v], q)
    {
      if q in run {
        RunSwept(on, fill, vars, y, left, right, q);
      } else {
        StillSwept(on, fill, vars, v, run, q);
      }
    }
    forall k | 0 <= k < |vars + [v]|
      ensures InImage(h, w, (vars + [v])[k]) && OnFill(fill + run, (vars + [v])[k])
    {
      if k < |vars| {
        assert OnFill(fill, vars[k]);
      }
    }
  }

  lemma RunSwept(on: set<Point>, fill: set<Point>, vars: seq<Vars>, y: int, left: int, right: int, q: Point)
    requires q in Span(y, left, right)
    requires Point(left - 1, y) !in on - fill && Point(right + 1, y) !in on - fill
    ensures SweptAt(on, fill + Span(y, left, right), vars + [Vars(y, right, left, left)], q)
  {
    hide PendingUp, PendingDown;
    PendingMore(vars, Vars(y, right, left, left), q);
  }

  lemma StillSwept(on: set<Point>, fill: set<Point>, vars: seq<Vars>, v: Vars, run: set<Point>, q: Point)
    requires SweptAt(on, fill, vars, q)
    ensures SweptAt(on, fill + run, vars + [v], q)
  {
    hide PendingUp, PendingDown;
    PendingMore(vars, v, q);
  }

  lemma PopAt(on: set<Point>, fill: set<Point>, vars: seq<Vars>, h: int, p: Point)
    requires SweptAt(on, fill, vars, p) && vars != []
    requires forall q :: q in on ==> 0 <= q.y < h
    requires var v := vars[|vars| - 1]; (v.y > 0 ==> v.leftUp > v.right) && (v.y < h - 1 ==> v.leftDown > v.right)
    ensures SweptAt(on, fill, vars[..|vars| - 1], p)
  {
    var k := |vars| - 1;
    if Point(p.x, p.y - 1) in on && PendingUp(vars, p) {
      var m :| 0 <= m < |vars| && vars[m].y == p.y && vars[m].leftUp <= p.x <= vars[m].right;
      assert m < k && vars[..k][m] == vars[m];
    }
    if Point(p.x, p.y + 1) in on && PendingDown(vars, p) {
      var m :| 0 <= m < |vars| && vars[m].y == p.y && vars[m].leftDown <= p.x <= vars[m].right;
      assert m < k && vars[..k][m] == vars[m];
    }
  }

  /** A context whose scans are over can go. */
  lemma Pop(on: set<Point>, seed: Point, fill: set<Point>, vars: seq<Vars>, h: int, w: int)
    requires Filling(on, seed, fill, vars, h, w) && vars != []
    requires forall p :: p in on ==> 0 <= p.y < h
    requires var v := vars[|vars| - 1]; (v.y > 0 ==> v.leftUp > v.right) && (v.y < h - 1 ==> v.leftDown > v.right)
    ensures Filling(on, seed, fill, vars[..|vars| - 1], h, w)
  {
    hide Least, SweptAt;
    forall p | p in fill
      ensures SweptAt(on, fill, vars[..|vars| - 1], p)
    {
      PopAt(on, fill, vars, h, p);
    }
  }

  // ----- the fill

  /** One call of the span function. */
  datatype Run = Run(y: int, left: int, right: int)

  ghost function Covered(runs: seq<Run>): set<Point> {
    if runs == [] then {}
    else
      var r := runs[|runs| - 1];
      Covered(runs[..|runs| - 1]) + Span(r.y, r.left, r.right)
  }

  /** The span function is told every point exactly once. */
  ghost predicate Reported(runs: seq<Run>, fill: set<Point>) {
    && Covered(runs) == fill && TotalLength(runs) == |fill|
    && forall k :: 0 <= k < |runs| ==> runs[k].left <= runs[k].right
  }

  function TotalLength(runs: seq<Run>): int {
    if runs == [] then 0
    else
      var r := runs[|runs| - 1];
      TotalLength(runs[..|runs| - 1]) + (r.right - r.left + 1)
  }

  lemma Report(runs: seq<Run>, fill: set<Point>, r: Run)
    requires Reported(runs, fill) && r.left <= r.right && Span(r.y, r.left, r.right) !! fill
    ensures Reported(runs + [r], fill + Span(r.y, r.left, r.right))
  {
    hide Span;
    SpanSize(r.y, r.left, r.right);
    assert (runs + [r])[..|runs|] == runs;
  }

  /** The pixels between: what is filled is recoloured, and nothing else. */
  ghost predicate Recoloured(was: Image, now: Image, on: set<Point>, fill: set<Point>, from: int, to: int) {
    on == PointsOf(was, from) && fill <= on && now == Painted(was, fill, to) && from != to
  }

  lemma StillOn(was: Image, now: Image, on: set<Point>, fill: set<Point>, from: int, to: int)
    requires Recoloured(was, now, on, fill, from, to)
    ensures PointsOf(now, from) == on - fill
  {}

  lemma RecolouredMore(was: Image, now: Image, on: set<Point>, fill: set<Point>, from: int, to: int, more: set<Point>)
    requires Recoloured(was, now, on, fill, from, to) && more <= on
    ensures Recoloured(was, Painted(now, more, to), on, fill + more, from, to)
  {}

  /** flood_fill_call_next: resumes the scan of the row above or below the top context, up to the
      first pixel to fill. Then a new context stands on the new run; otherwise the scan is over. */
  method FloodFillCallNext(pixels: array2<int>, stack: array<Vars>, k: nat, from: int, to: int, direction: int, runs: seq<Run>,
                           ghost was: Image, ghost on: set<Point>, ghost seed: Point, ghost fill: set<Point>)
    returns (found: bool, runs': seq<Run>, ghost fill': set<Point>)
    requires k + 1 < stack.Length && from != to && (direction == -1 || direction == 1)
    requires 0 <= stack[k].y + direction < pixels.Length0
    requires Filling(on, seed, fill, stack[..k + 1], pixels.Length0, pixels.Length1)
    requires Recoloured(was, ImageOf(pixels), on, fill, from, to) && Reported(runs, fill)
    modifies pixels, stack
    ensures Recoloured(was, ImageOf(pixels), on, fill', from, to) && Reported(runs', fill')
    ensures Filling(on, seed, fill', stack[..if found then k + 2 else k + 1], pixels.Length0, pixels.Length1)
    ensures if found then |fill'| > |fill| && |on - fill'| < |on - fill| else fill' == fill
    ensures !found ==>
      && stack[k].y == old(stack[k].y) && stack[k].right == old(stack[k].right)
      && Cursor(stack[k], direction) > stack[k].right && Cursor(stack[k], -direction) == old(Cursor(stack[k], -direction))
  {
    hide Filling, Recoloured, ImageOf, Span, Reported, PointsOf, Painted;
    found, runs', fill' := false, runs, fill;
    var row := stack[k].y + direction;
    while Cursor(stack[k], direction) <= stack[k].right
      invariant Filling(on, seed, fill, stack[..k + 1], pixels.Length0, pixels.Length1)
      invariant Recoloured(was, ImageOf(pixels), on, fill, from, to)
      invariant stack[k].y == row - direction && stack[k].right == old(stack[k].right)
      invariant Cursor(stack[k], -direction) == old(Cursor(stack[k], -direction))
      decreases stack[k].right - Cursor(stack[k], direction)
    {
      ghost var vars := stack[..k + 1];
      var x := Cursor(stack[k], direction);
      TopContext(on, seed, fill, vars, direction, pixels.Length0, pixels.Length1);
      if pixels[row, x] == from {
        ghost var now := ImageOf(pixels);
        StillOn(was, now, on, fill, from, to);
        var left, right := FloodFillLine(pixels, x, row, from, to);
        RecolouredMore(was, now, on, fill, from, to, Span(row, left, right));
        Push(on, seed, fill, vars, Point(x, stack[k].y), row, left, right, pixels.Length0, pixels.Length1);
        stack[k + 1] := Vars(row, right, left, left);
        assert stack[..k + 2] == vars + [Vars(row, right, left, left)];
        fill' := fill + Span(row, left, right);
        Growing(on, seed, fill, fill', stack[..k + 2], runs, Run(row, left, right), pixels.Length0, pixels.Length1);
        return true, runs + [Run(row, left, right)], fill';
      }
      NotOn(pixels, Point(x, row), was, on, fill, from, to);
      Skip(on, seed, fill, vars, direction, pixels.Length0, pixels.Length1);
      stack[k] := Advanced(stack[k], direction);
      assert stack[..k + 1] == vars[k := Advanced(vars[k], direction)];
    }
  }

  lemma NotOn(pixels: array2<int>, p: Point, was: Image, on: set<Point>, fill: set<Point>, from: int, to: int)
    requires Recoloured(was, ImageOf(pixels), on, fill, from, to)
    requires 0 <= p.y < pixels.Length0 && 0 <= p.x < pixels.Length1 && pixels[p.y, p.x] != from
    ensures p !in on - fill
  {}

  /** The cursor of a scan that goes on is inside the image, next to the fill. */
  lemma TopContext(on: set<Point>, seed: Point, fill: set<Point>, vars: seq<Vars>, direction: int, h: int, w: int)
    requires Filling(on, seed, fill, vars, h, w) && vars != [] && (direction == -1 || direction == 1)
    requires Cursor(vars[|vars| - 1], direction) <= vars[|vars| - 1].right
    ensures var v := vars[|vars| - 1]; 0 <= Cursor(v, direction) < w && Point(Cursor(v, direction), v.y) in fill
  {}

  /** The second half of a round: the scan below, and the end of the context. */
  method ScanDown(pixels: array2<int>, stack: array<Vars>, k: nat, from: int, to: int, runs: seq<Run>,
                  ghost was: Image, ghost on: set<Point>, ghost seed: Point, ghost fill: set<Point>)
    returns (found: bool, runs': seq<Run>, ghost fill': set<Point>)
    requires k + 1 < stack.Length && from != to && (stack[k].y > 0 ==> stack[k].leftUp > stack[k].right)
    requires Filling(on, seed, fill, stack[..k + 1], pixels.Length0, pixels.Length1)
    requires Recoloured(was, ImageOf(pixels), on, fill, from, to) && Reported(runs, fill)
    modifies pixels, stack
    ensures Recoloured(was, ImageOf(pixels), on, fill', from, to) && Reported(runs', fill')
    ensures Filling(on, seed, fill', stack[..if found then k + 2 else k], pixels.Length0, pixels.Length1)
    ensures if found then |fill'| > |fill| && |on - fill'| < |on - fill| else fill' == fill
  {
    hide Filling, Recoloured, ImageOf, Reported, PointsOf, Painted;
    TopInImage(on, seed, fill, stack[..k + 1], stack[k], pixels.Length0, pixels.Length1);
    OnImage(was, ImageOf(pixels), on, fill, from, to);
    runs', fill' := runs, fill;
    if stack[k].y < pixels.Length0 - 1 {
      found, runs', fill' := FloodFillCallNext(pixels, stack, k, from, to, 1, runs, was, on, seed, fill);
      if found {
        return;
      }
    }
    Pop(on, seed, fill, stack[..k + 1], pixels.Length0, pixels.Length1);
    assert stack[..k + 1][..k] == stack[..k];
    found := false;
  }

  lemma TopInImage(on: set<Point>, seed: Point, fill: set<Point>, vars: seq<Vars>, v: Vars, h: int, w: int)
    requires Filling(on, seed, fill, vars, h, w) && vars != [] && vars[|vars| - 1] == v
    ensures InImage(h, w, v)
  {}

  /** One round of the main loop: the two scans of the top context. Either there is a new context, and
      the fill has grown, or the top context is done. */
  method Round(pixels: array2<int>, stack: array<Vars>, k: nat, from: int, to: int, runs: seq<Run>,
               ghost was: Image, ghost on: set<Point>, ghost seed: Point, ghost fill: set<Point>)
    returns (found: bool, runs': seq<Run>, ghost fill': set<Point>)
    requires k + 1 < stack.Length && from != to
    requires Filling(on, seed, fill, stack[..k + 1], pixels.Length0, pixels.Length1)
    requires Recoloured(was, ImageOf(pixels), on, fill, from, to) && Reported(runs, fill)
    modifies pixels, stack
    ensures Recoloured(was, ImageOf(pixels), on, fill', from, to) && Reported(runs', fill')
    ensures Filling(on, seed, fill', stack[..if found then k + 2 else k], pixels.Length0, pixels.Length1)
    ensures if found then |fill'| > |fill| && |on - fill'| < |on - fill| else fill' == fill
  {
    hide Filling, Recoloured, ImageOf, Reported, PointsOf, Painted;
    TopInImage(on, seed, fill, stack[..k + 1], stack[k], pixels.Length0, pixels.Length1);
    runs', fill' := runs, fill;
    if stack[k].y > 0 {
      found, runs', fill' := FloodFillCallNext(pixels, stack, k, from, to, -1, runs, was, on, seed, fill);
      if found {
        return;
      }
    }
    found, runs', fill' := ScanDown(pixels, stack, k, from, to, runs, was, on, seed, fill);
  }

  lemma OnImage(was: Image, now: Image, on: set<Point>, fill: set<Point>, from: int, to: int)
    requires Recoloured(was, now, on, fill, from, to)
    ensures forall p :: p in on ==> p in now
  {}

  /** A point of the image, as a seed. */
  ghost predicate Seeds(g: Image, seed: Point, from: int) {
    seed in g && g[seed] == from
  }

  /** The first context of flood_fill_seed: the seed's own run. */
  method FirstContext(pixels: array2<int>, stack: array<Vars>, x0: int, y0: int, from: int, to: int)
    returns (runs: seq<Run>, ghost fill: set<Point>)
    requires stack.Length > 0 && from != to && Seeds(ImageOf(pixels), Point(x0, y0), from)
    modifies pixels, stack
    ensures var was := old(ImageOf(pixels));
      var on, seed := PointsOf(was, from), Point(x0, y0);
      && Filling(on, seed, fill, stack[..1], pixels.Length0, pixels.Length1)
      && Recoloured(was, ImageOf(pixels), on, fill, from, to)
      && Reported(runs, fill) && |fill| > 0
  {
    hide *;
    ghost var was := ImageOf(pixels);
    SeedInside(was, pixels, x0, y0, from);
    var left, right := FloodFillLine(pixels, x0, y0, from, to);
    fill := Span(y0, left, right);
    FirstRun(was, PointsOf(was, from), Point(x0, y0), left, right, from, to, pixels.Length0, pixels.Length1);
    stack[0] := Vars(y0, right, left, left);
    assert stack[..1] == [Vars(y0, right, left, left)];
    runs := [Run(y0, left, right)];
  }

  /** flood_fill_seed: ends on every image. What it recolours is reported to the span function point
      by point and lies in the seed's component; it is the whole component unless the stack runs
      out, which takes at least as many points as the stack has contexts. */
  method FloodFillSeed(pixels: array2<int>, stack: array<Vars>, x0: int, y0: int, from: int, to: int)
    returns (runs: seq<Run>, ghost fill: set<Point>, ghost exhausted: bool)
    requires stack.Length > 0 && from != to && Seeds(ImageOf(pixels), Point(x0, y0), from)
    modifies pixels, stack
    ensures Point(x0, y0) in fill && fill <= PointsOf(old(ImageOf(pixels)), from)
    ensures Least(PointsOf(old(ImageOf(pixels)), from), Point(x0, y0), fill)
    ensures ImageOf(pixels) == Painted(old(ImageOf(pixels)), fill, to)
    ensures Reported(runs, fill)
    ensures !exhausted ==> Component(PointsOf(old(ImageOf(pixels)), from), Point(x0, y0), fill)
    ensures exhausted ==> |fill| >= stack.Length
  {
    hide *;
    var h, w := pixels.Length0, pixels.Length1;
    ghost var was, on, seed := ImageOf(pixels), PointsOf(ImageOf(pixels), from), Point(x0, y0);
    runs, fill := FirstContext(pixels, stack, x0, y0, from, to);
    exhausted := false;
    var k: nat := 0;
    while true
      invariant k < stack.Length && |fill| > k
      invariant Filling(on, seed, fill, stack[..k + 1], h, w)
      invariant Recoloured(was, ImageOf(pixels), on, fill, from, to)
      invariant Reported(runs, fill)
      decreases |on - fill|, k
    {
      if k == stack.Length - 1 {
        exhausted := true;
        break;
      }
      var found;
      found, runs, fill := Round(pixels, stack, k, from, to, runs, was, on, seed, fill);
      if found {
        k := k + 1;
      } else if k > 0 {
        k := k - 1;
      } else {
        FilledAll(on, seed, fill, stack[..0], h, w);
        break;
      }
    }
    FillEnds(was, ImageOf(pixels), on, seed, fill, from, to, stack[..if exhausted then k + 1 else 0], h, w);
  }

  lemma FirstRun(was: Image, on: set<Point>, seed: Point, left: int, right: int, from: int, to: int, h: int, w: int)
    requires on == PointsOf(was, from) && from != to && 0 <= seed.y < h && 0 <= left <= seed.x <= right < w
    requires Span(seed.y, left, right) <= on && Point(left - 1, seed.y) !in on && Point(right + 1, seed.y) !in on
    ensures Filling(on, seed, Span(seed.y, left, right), [Vars(seed.y, right, left, left)], h, w)
    ensures Recoloured(was, Painted(was, Span(seed.y, left, right), to), on, Span(seed.y, left, right), from, to)
    ensures Reported([Run(seed.y, left, right)], Span(seed.y, left, right)) && |Span(seed.y, left, right)| > 0
  {
    hide Span, PointsOf, Painted, Reported;
    SpanSize(seed.y, left, right);
    FirstSwept(on, seed, left, right);
    FirstReport(Run(seed.y, left, right));
  }

  lemma FirstSwept(on: set<Point>, seed: Point, left: int, right: int)
    requires left <= seed.x <= right && Span(seed.y, left, right) <= on
    requires Point(left - 1, seed.y) !in on && Point(right + 1, seed.y) !in on
    ensures Least(on, seed, Span(seed.y, left, right)) && Swept(on, Span(seed.y, left, right), [Vars(seed.y, right, left, left)])
  {
    hide SweptAt, Span, Closed;
    var run, first := Span(seed.y, left, right), [Vars(seed.y, right, left, left)];
    forall d | seed in d && Closed(on, d)
      ensures run <= d
    {
      RunInside(on, d, seed.y, seed.x, left, right);
    }
    forall q | q in run
      ensures SweptAt(on, run, first, q)
    {
      assert [] + first == first && {} + run == run;
      RunSwept(on, {}, [], seed.y, left, right, q);
    }
  }

  lemma FirstReport(r: Run)
    requires r.left <= r.right
    ensures Reported([r], Span(r.y, r.left, r.right))
  {
    hide Span;
    assert Reported([], {});
    Report([], {}, r);
    assert [] + [r] == [r] && {} + Span(r.y, r.left, r.right) == Span(r.y, r.left, r.right);
  }

  /** Each run makes the fill grow. */
  lemma Growing(on: set<Point>, seed: Point, fill: set<Point>, grown: set<Point>, vars: seq<Vars>, runs: seq<Run>, r: Run, h: int, w: int)
    requires Filling(on, seed, grown, vars, h, w) && Reported(runs, fill)
    requires grown == fill + Span(r.y, r.left, r.right) && Span(r.y, r.left, r.right) !! fill && r.left <= r.right
    ensures Reported(runs + [r], grown)
    ensures |grown| > |fill| && |on - grown| < |on - fill|
  {
    hide Span, Least, Swept, Reported;
    Report(runs, fill, r);
    SpanSize(r.y, r.left, r.right);
    var run := Span(r.y, r.left, r.right);
    assert (on - grown) + run == on - fill;
    assert |on - fill| == |on - grown| + |run|;
  }

  lemma FillEnds(was: Image, now: Image, on: set<Point>, seed: Point, fill: set<Point>, from: int, to: int, vars: seq<Vars>, h: int, w: int)
    requires Recoloured(was, now, on, fill, from, to) && Filling(on, seed, fill, vars, h, w)
    ensures seed in fill && fill <= on && Least(on, seed, fill) && now == Painted(was, fill, to)
  {}

  lemma SeedInside(g: Image, pixels: array2<int>, x: int, y: int, from: int)
    requires g == ImageOf(pixels) && Seeds(g, Point(x, y), from)
    ensures 0 <= y < pixels.Length0 && 0 <= x < pixels.Length1 && pixels[y, x] == from
  {}
}
