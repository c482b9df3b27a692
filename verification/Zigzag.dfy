/** The zigzag scan of a QR symbol. The encoder draws codewords with three nested loops; the decoder
    reads them with one loop and a direction flag. Both visit the same cells in the same order. */
module Zigzag {
  import opened Bytes
  import opened FunctionPatterns

  // ----- the order of cells

  /** The cells of the column pair whose right column is `right`, from vertical step `vert` on. */
  function Pair(size: nat, right: int, up: bool, vert: nat): (cells: seq<Cell>)
    ensures vert <= size ==> |cells| == 2 * (size - vert)
    decreases size - vert
  {
    if size <= vert then []
    else
      var y := if up then size - 1 - vert else vert;
      [Cell(y, right), Cell(y, right - 1)] + Pair(size, right, up, vert + 1)
  }

  /** The column pair that starts at or left of column `right`: the timing column 6 is skipped. */
  function PairColumn(right: int): int {
    if right == 6 then 5 else right
  }

  /** All column pairs from `right` leftwards, in alternating directions. */
  function Path(size: nat, right: int, up: bool): seq<Cell>
    decreases right
  {
    if right < 1 then []
    else Pair(size, PairColumn(right), up, 0) + Path(size, PairColumn(right) - 2, !up)
  }

  ghost predicate Distinct(cells: seq<Cell>) {
    forall i, j :: 0 <= i < j < |cells| ==> cells[i] != cells[j]
  }

  lemma {:induction false} PairCells(size: nat, right: int, up: bool, vert: nat)
    requires vert <= size
    ensures Distinct(Pair(size, right, up, vert))
    ensures forall c :: c in Pair(size, right, up, vert) ==>
      && right - 1 <= c.x <= right
      && (if up then 0 <= c.y < size - vert else vert <= c.y < size)
    decreases size - vert
  {
    if vert < size {
      PairCells(size, right, up, vert + 1);
      var y := if up then size - 1 - vert else vert;
      var head, tail := [Cell(y, right), Cell(y, right - 1)], Pair(size, right, up, vert + 1);
      assert Pair(size, right, up, vert) == head + tail;
      assert forall c :: c in tail ==> c.y != y;
      DistinctAppend(head, tail);
    }
  }

  lemma DistinctAppend(a: seq<Cell>, b: seq<Cell>)
    requires Distinct(a) && Distinct(b) && forall c :: c in a ==> c !in b
    ensures Distinct(a + b)
  {
    forall i, j | 0 <= i < j < |a + b|
      ensures (a + b)[i] != (a + b)[j]
    {
      if i < |a| <= j {
        assert a[i] in a && b[j - |a|] in b;
      }
    }
  }

  lemma PathFrom(size: nat, right: int, up: bool)
    requires right >= 1
    ensures Path(size, right, up) == Pair(size, PairColumn(right), up, 0) + Path(size, PairColumn(right) - 2, !up)
  {}

  lemma NoPath(size: nat, right: int, up: bool)
    requires right < 1
    ensures Path(size, right, up) == []
  {}

  /** No cell is visited twice, and none outside the symbol. */
  lemma {:induction false} PathCells(size: nat, right: int, up: bool)
    requires right < size
    ensures Distinct(Path(size, right, up))
    ensures forall c :: c in Path(size, right, up) ==> InGrid(size, c) && c.x <= right
    decreases right
  {
    hide Path, Pair, Distinct;
    if right >= 1 {
      var r := PairColumn(right);
      var head, tail := Pair(size, r, up, 0), Path(size, r - 2, !up);
      PathFrom(size, right, up);
      PairCells(size, r, up, 0);
      PathCells(size, r - 2, !up);
      forall c | c in head
        ensures c !in tail
      {}
      DistinctAppend(head, tail);
    } else {
      NoPath(size, right, up);
      NoneTwice();
    }
  }

  lemma NoneTwice()
    ensures Distinct([])
  {}

  /** Every column but the timing column 6 is visited, in every row. */
  lemma {:induction false} PathCovers(size: nat, right: int, up: bool, c: Cell)
    requires right < size && InGrid(size, c) && c.x <= right && c.x != 6
    requires right % 2 == (if right > 5 then 0 else 1)
    ensures c in Path(size, right, up)
    decreases right
  {
    if right >= 1 {
      var r := PairColumn(right);
      if c.x >= r - 1 {
        PairCovers(size, r, up, 0, c);
      } else {
        PathCovers(size, r - 2, !up, c);
      }
    }
  }

  lemma {:induction false} PairCovers(size: nat, right: int, up: bool, vert: nat, c: Cell)
    requires vert <= size && right - 1 <= c.x <= right
    requires if up then 0 <= c.y < size - vert else vert <= c.y < size
    ensures c in Pair(size, right, up, vert)
    decreases size - vert
  {
    var y := if up then size - 1 - vert else vert;
    if c.y != y {
      PairCovers(size, right, up, vert + 1, c);
    }
  }

  // ----- the cells that carry data

  /** The cells outside the function patterns, in order. */
  function Free(cells: seq<Cell>, taken: set<Cell>): seq<Cell> {
    if cells == [] then []
    else (if cells[0] in taken then [] else [cells[0]]) + Free(cells[1..], taken)
  }

  lemma {:induction false} FreeAppend(a: seq<Cell>, b: seq<Cell>, taken: set<Cell>)
    ensures Free(a + b, taken) == Free(a, taken) + Free(b, taken)
  {
    if a == [] {
      assert a + b == b;
    } else {
      assert (a + b)[1..] == a[1..] + b;
      FreeAppend(a[1..], b, taken);
    }
  }

  lemma FreeOne(c: Cell, taken: set<Cell>)
    ensures Free([c], taken) == if c in taken then [] else [c]
  {
    assert [c][1..] == [];
    assert Free([], taken) == [];
  }

  lemma {:induction false} FreeMembers(cells: seq<Cell>, taken: set<Cell>)
    ensures forall c :: c in Free(cells, taken) <==> c in cells && c !in taken
  {
    if cells != [] {
      FreeMembers(cells[1..], taken);
      assert cells == [cells[0]] + cells[1..];
    }
  }

  lemma {:induction false} FreeDistinct(cells: seq<Cell>, taken: set<Cell>)
    requires Distinct(cells)
    ensures Distinct(Free(cells, taken))
  {
    if cells != [] {
      var t := cells[1..];
      assert forall i, j :: 0 <= i < j < |t| ==> t[i] == cells[i + 1] && t[j] == cells[j + 1];
      FreeDistinct(t, taken);
      FreeMembers(t, taken);
      FreeOne(cells[0], taken);
      assert Free(cells, taken) == Free([cells[0]], taken) + Free(t, taken);
      DistinctAppend(Free([cells[0]], taken), Free(t, taken));
    }
  }

  /** The data cells of a symbol of the given size. */
  function DataCells(size: nat, taken: set<Cell>): seq<Cell> {
    Free(Path(size, size - 1, true), taken)
  }

  lemma DataCellsInGrid(size: nat, taken: set<Cell>)
    ensures Distinct(DataCells(size, taken))
    ensures forall k :: 0 <= k < |DataCells(size, taken)| ==>
      InGrid(size, DataCells(size, taken)[k]) && DataCells(size, taken)[k] !in taken
  {
    PathCells(size, size - 1, true);
    FreeDistinct(Path(size, size - 1, true), taken);
    FreeMembers(Path(size, size - 1, true), taken);
    forall k | 0 <= k < |DataCells(size, taken)|
      ensures InGrid(size, DataCells(size, taken)[k]) && DataCells(size, taken)[k] !in taken
    {
      assert DataCells(size, taken)[k] in DataCells(size, taken);
    }
  }

  // ----- bits of codewords, most significant first

  /** Bit i of a sequence of bytes. */
  predicate StreamBit(data: seq<bv8>, i: nat)
    requires i / 8 < |data|
  {
    BitAt(data[i / 8], i % 8)
  }

  // ----- masks

  /** The decoder's mask_bit, for row i and column j. */
  predicate MaskBit(mask: int, i: int, j: int) {
    match mask
    case 0 => (i + j) % 2 == 0
    case 1 => i % 2 == 0
    case 2 => j % 3 == 0
    case 3 => (i + j) % 3 == 0
    case 4 => (i / 2 + j / 3) % 2 == 0
    case 5 => (i * j) % 2 + (i * j) % 3 == 0
    case 6 => ((i * j) % 2 + (i * j) % 3) % 2 == 0
    case 7 => ((i * j) % 3 + (i + j) % 2) % 2 == 0
    case _ => false
  }

  /** The encoder's choice in applyMask. */
  predicate Inverts(msk: int, x: int, y: int) {
    match msk
    case 0 => (x + y) % 2 == 0
    case 1 => y % 2 == 0
    case 2 => x % 3 == 0
    case 3 => (x + y) % 3 == 0
    case 4 => (x / 3 + y / 2) % 2 == 0
    case 5 => x * y % 2 + x * y % 3 == 0
    case 6 => (x * y % 2 + x * y % 3) % 2 == 0
    case 7 => ((x + y) % 2 + x * y % 3) % 2 == 0
    case _ => false
  }

  lemma MasksAgree(m: int, y: int, x: int)
    ensures Inverts(m, x, y) == MaskBit(m, y, x)
  {
    assert x * y == y * x;
  }

  // ----- a symbol's modules, as a value

  type Modules = map<Cell, bool>

  function Snapshot(m: array2<bool>): (g: Modules)
    reads m
    ensures forall c :: c in g <==> 0 <= c.y < m.Length0 && 0 <= c.x < m.Length1
    ensures forall c :: c in g ==> g[c] == m[c.y, c.x]
  {
    map y, x | 0 <= y < m.Length0 && 0 <= x < m.Length1 :: Cell(y, x) := m[y, x]
  }

  method SetModule(m: array2<bool>, x: int, y: int, v: bool)
    requires 0 <= y < m.Length0 && 0 <= x < m.Length1
    modifies m
    ensures Snapshot(m) == old(Snapshot(m))[Cell(y, x) := v]
  {
    m[y, x] := v;
    assert Snapshot(m)[Cell(y, x)] == v;
  }

  /** The modules g after the first n bits of the stream are drawn on the given cells. */
  ghost function Drawn(g: Modules, cells: seq<Cell>, data: seq<bv8>, n: nat): Modules
    requires n <= |cells| && n <= 8 * |data|
  {
    if n == 0 then g else Drawn(g, cells, data, n - 1)[cells[n - 1] := StreamBit(data, n - 1)]
  }

  lemma {:induction false} DrawnPrefix(g: Modules, a: seq<Cell>, b: seq<Cell>, data: seq<bv8>, n: nat)
    requires n <= |a| && n <= 8 * |data| && a <= b
    ensures Drawn(g, a, data, n) == Drawn(g, b, data, n)
  {
    hide StreamBit;
    if n > 0 {
      DrawnPrefix(g, a, b, data, n - 1);
    }
  }

  /** What is drawn is what the stream holds; nothing else changes. */
  lemma {:induction false} DrawnModules(g: Modules, cells: seq<Cell>, data: seq<bv8>, n: nat)
    requires n <= |cells| && n <= 8 * |data| && Distinct(cells)
    ensures forall k :: 0 <= k < n ==> cells[k] in Drawn(g, cells, data, n) && Drawn(g, cells, data, n)[cells[k]] == StreamBit(data, k)
    ensures forall c :: c !in cells[..n] ==>
      (c in Drawn(g, cells, data, n) <==> c in g) && (c in g ==> Drawn(g, cells, data, n)[c] == g[c])
  {
    hide StreamBit;
    if n > 0 {
      DrawnModules(g, cells, data, n - 1);
      assert cells[..n] == cells[..n - 1] + [cells[n - 1]];
    }
  }

  /** How many bits drawCodewords has drawn when the given data cells have gone by. */
  function DrawnCount(cells: seq<Cell>, data: seq<bv8>): nat {
    if |cells| < 8 * |data| then |cells| else 8 * |data|
  }

  // ----- the encoder's scan

  ghost predicate ScanState(g: Modules, was: Modules, done: seq<Cell>, taken: set<Cell>, data: seq<bv8>, i: nat) {
    var free := Free(done, taken);
    i == DrawnCount(free, data) && g == Drawn(was, free, data, i)
  }

  lemma ScanStart(was: Modules, taken: set<Cell>, data: seq<bv8>)
    ensures ScanState(was, was, [], taken, data, 0)
  {}

  lemma ScanStep(g: Modules, was: Modules, done: seq<Cell>, taken: set<Cell>, data: seq<bv8>, i: nat, c: Cell)
    requires ScanState(g, was, done, taken, data, i)
    ensures c !in taken && i < 8 * |data| ==>
      ScanState(g[c := StreamBit(data, i)], was, done + [c], taken, data, i + 1)
    ensures c in taken || i == 8 * |data| ==> ScanState(g, was, done + [c], taken, data, i)
    ensures i <= 8 * |data|
  {
    hide StreamBit;
    FreeAppend(done, [c], taken);
    FreeOne(c, taken);
    DrawnPrefix(was, Free(done, taken), Free(done + [c], taken), data, i);
  }

  /** One visit of the innermost loop of drawCodewords. */
  method DrawCell(modules: array2<bool>, isFunction: array2<bool>, data: seq<bv8>, i: nat, y: int, x: int,
                  ghost was: Modules, ghost done: seq<Cell>, ghost taken: set<Cell>) returns (i': nat)
    requires 0 <= y < modules.Length0 == isFunction.Length0 && 0 <= x < modules.Length1 == isFunction.Length1
    requires modules != isFunction && taken == Marked(isFunction)
    requires ScanState(Snapshot(modules), was, done, taken, data, i)
    modifies modules
    ensures ScanState(Snapshot(modules), was, done + [Cell(y, x)], taken, data, i')
  {
    hide ScanState, StreamBit;
    ScanStep(Snapshot(modules), was, done, taken, data, i, Cell(y, x));
    i' := i;
    assert isFunction[y, x] <==> Cell(y, x) in taken;
    if !isFunction[y, x] && i < |data| * 8 {
      SetModule(modules, x, y, StreamBit(data, i));
      i' := i + 1;
    }
  }

  /** The direction in which drawCodewords goes through the column pair at `right`. */
  predicate Upward(right: int) {
    ((right + 1) / 2) % 2 == 0
  }

  lemma UpwardAlternates(right: int)
    requires right >= 1 && right % 2 == (if right > 5 then 0 else 1)
    ensures PairColumn(right) >= 3 ==> Upward(PairColumn(PairColumn(right) - 2)) == !Upward(PairColumn(right))
  {}

  /** The scan stands before vertical step `vert` of the column pair at `right`. */
  ghost predicate AtStep(size: nat, done: seq<Cell>, right: int, up: bool, vert: nat) {
    done + (Pair(size, right, up, vert) + Path(size, right - 2, !up)) == Path(size, size - 1, true)
  }

  /** The scan stands before the first column pair at or left of `right`. */
  ghost predicate AtPair(size: nat, done: seq<Cell>, right: int, up: bool) {
    done + Path(size, right, up) == Path(size, size - 1, true)
  }

  lemma EnterPair(size: nat, done: seq<Cell>, right: int, up: bool)
    requires right >= 1 && AtPair(size, done, right, up)
    ensures AtStep(size, done, PairColumn(right), up, 0)
  {}

  lemma StepDown(size: nat, done: seq<Cell>, right: int, up: bool, vert: nat)
    requires vert < size && AtStep(size, done, right, up, vert)
    ensures var y := if up then size - 1 - vert else vert;
      AtStep(size, done + [Cell(y, right)] + [Cell(y, right - 1)], right, up, vert + 1)
  {
    hide Path;
    var y := if up then size - 1 - vert else vert;
    Regroup(done, Cell(y, right), Cell(y, right - 1), Pair(size, right, up, vert + 1), Path(size, right - 2, !up));
  }

  lemma Regroup(done: seq<Cell>, a: Cell, b: Cell, p: seq<Cell>, rest: seq<Cell>)
    ensures done + (([a, b] + p) + rest) == done + [a] + [b] + (p + rest)
  {}

  lemma LeavePair(size: nat, done: seq<Cell>, right: int, up: bool)
    requires AtStep(size, done, right, up, size)
    ensures AtPair(size, done, right - 2, !up)
  {
    hide Path;
    assert Pair(size, right, up, size) == [];
    assert [] + Path(size, right - 2, !up) == Path(size, right - 2, !up);
  }

  lemma PathStart(size: nat)
    ensures AtPair(size, [], size - 1, true)
  {
    assert [] + Path(size, size - 1, true) == Path(size, size - 1, true);
  }

  lemma PathEnd(size: nat, done: seq<Cell>, right: int, up: bool)
    requires right < 1 && AtPair(size, done, right, up)
    ensures done == Path(size, size - 1, true)
  {}

  /** drawCodewords: draws the stream on the data cells, as far as both last. */
  method DrawCodewords(modules: array2<bool>, isFunction: array2<bool>, size: nat, data: seq<bv8>) returns (i: nat)
    requires size % 4 == 1 && size >= 21
    requires modules.Length0 == modules.Length1 == isFunction.Length0 == isFunction.Length1 == size
    requires modules != isFunction
    modifies modules
    ensures var cells := DataCells(size, Marked(isFunction));
      i == DrawnCount(cells, data) && Snapshot(modules) == Drawn(old(Snapshot(modules)), cells, data, i)
  {
    hide ScanState, Marked, Drawn, Free, StreamBit, AtPair, AtStep, Path, Pair, Snapshot, DrawnCount;
    ghost var was, taken := Snapshot(modules), Marked(isFunction);
    ghost var done: seq<Cell> := [];
    i := 0;
    ScanStart(was, taken, data);
    PathStart(size);
    var right: int := size - 1;
    while right >= 1
      invariant right < size && right % 2 == (if right > 5 then 0 else 1)
      invariant Marked(isFunction) == taken
      invariant AtPair(size, done, right, Upward(PairColumn(right)))
      invariant ScanState(Snapshot(modules), was, done, taken, data, i)
    {
      UpwardAlternates(right);
      EnterPair(size, done, right, Upward(PairColumn(right)));
      if right == 6 {
        right := 5;
      }
      i, done := DrawPair(modules, isFunction, size, data, i, right, was, done, taken);
      right := right - 2;
    }
    PathEnd(size, done, right, Upward(PairColumn(right)));
    ScanEnd(Snapshot(modules), was, done, taken, data, i);
  }

  /** The two inner loops of drawCodewords: one column pair. */
  method DrawPair(modules: array2<bool>, isFunction: array2<bool>, size: nat, data: seq<bv8>, i: nat, right: int,
                  ghost was: Modules, ghost done: seq<Cell>, ghost taken: set<Cell>) returns (i': nat, ghost done': seq<Cell>)
    requires 1 <= right < size && modules != isFunction && taken == Marked(isFunction)
    requires modules.Length0 == modules.Length1 == isFunction.Length0 == isFunction.Length1 == size
    requires AtStep(size, done, right, Upward(right), 0)
    requires ScanState(Snapshot(modules), was, done, taken, data, i)
    modifies modules
    ensures AtPair(size, done', right - 2, !Upward(right))
    ensures ScanState(Snapshot(modules), was, done', taken, data, i')
  {
    hide ScanState, Marked, StreamBit, AtPair, AtStep, Snapshot, Upward;
    var upward := Upward(right);
    i', done' := i, done;
    for vert := 0 to size
      invariant Marked(isFunction) == taken
      invariant AtStep(size, done', right, upward, vert)
      invariant ScanState(Snapshot(modules), was, done', taken, data, i')
    {
      StepDown(size, done', right, upward, vert);
      var y := if upward then size - 1 - vert else vert;
      i' := DrawCell(modules, isFunction, data, i', y, right, was, done', taken);
      i' := DrawCell(modules, isFunction, data, i', y, right - 1, was, done' + [Cell(y, right)], taken);
      done' := done' + [Cell(y, right)] + [Cell(y, right - 1)];
    }
    LeavePair(size, done', right, upward);
  }

  lemma ScanEnd(g: Modules, was: Modules, done: seq<Cell>, taken: set<Cell>, data: seq<bv8>, i: nat)
    requires ScanState(g, was, done, taken, data, i)
    ensures i == DrawnCount(Free(done, taken), data) && g == Drawn(was, Free(done, taken), data, i)
  {}
}
