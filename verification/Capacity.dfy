/** How many modules of a symbol carry data: getNumRawDataModules is exactly the number of cells that
    the zigzag scan finds outside the function patterns. */
module Capacity {
  import opened VersionTables
  import opened FunctionPatterns
  import opened Zigzag

  // ----- rows, columns and their products

  function Range(lo: int, hi: int): (s: set<int>)
    ensures forall q :: q in s <==> lo <= q < hi
    decreases hi - lo
  {
    if hi <= lo then {} else Range(lo, hi - 1) + {hi - 1}
  }

  lemma {:induction false} RangeSize(lo: int, hi: int)
    requires lo <= hi
    ensures |Range(lo, hi)| == hi - lo
    decreases hi - lo
  {
    if lo < hi {
      RangeSize(lo, hi - 1);
    }
  }

  /** The cells whose row is in ys and whose column is in xs. */
  ghost function Product(ys: set<int>, xs: set<int>): (cells: set<Cell>)
    ensures forall c :: c in cells <==> c.y in ys && c.x in xs
  {
    var cells := set y, x | y in ys && x in xs :: Cell(y, x);
    assert forall c: Cell :: c.y in ys && c.x in xs ==> c == Cell(c.y, c.x);
    cells
  }

  lemma MemberOf<T>(s: set<T>) returns (x: T)
    requires s != {}
    ensures x in s
  {
    x :| x in s;
  }

  lemma {:induction false} RowSize(y: int, xs: set<int>)
    ensures |Product({y}, xs)| == |xs|
    decreases |xs|
  {
    if xs == {} {
      assert Product({y}, xs) == {};
    } else {
      var x := MemberOf(xs);
      RowSize(y, xs - {x});
      assert Product({y}, xs) == Product({y}, xs - {x}) + {Cell(y, x)};
    }
  }

  lemma {:induction false} ProductSize(ys: set<int>, xs: set<int>)
    ensures |Product(ys, xs)| == |ys| * |xs|
    decreases |ys|
  {
    hide Product;
    if ys == {} {
      assert Product(ys, xs) == {};
    } else {
      var y := MemberOf(ys);
      var rest := ys - {y};
      ProductSize(rest, xs);
      RowSize(y, xs);
      assert Product(ys, xs) == Product(rest, xs) + Product({y}, xs);
      assert (|rest| + 1) * |xs| == |rest| * |xs| + |xs|;
    }
  }

  /** The size of a product whose sides are known. */
  lemma Sized(ys: set<int>, xs: set<int>, h: int, w: int, n: int)
    requires |ys| == h && |xs| == w && n == h * w
    ensures |Product(ys, xs)| == n
  {
    hide Product;
    ProductSize(ys, xs);
  }

  // ----- bands of five around the alignment coordinates

  /** The rows or columns within two of the n coordinates from `from` on. */
  ghost function Bands(pos: seq<int>, from: nat, n: nat): set<int>
    requires from + n <= |pos|
  {
    if n == 0 then {} else Bands(pos, from, n - 1) + Range(pos[from + n - 1] - 2, pos[from + n - 1] + 3)
  }

  lemma {:induction false} InBands(pos: seq<int>, from: nat, n: nat, q: int)
    requires from + n <= |pos|
    ensures q in Bands(pos, from, n) <==> exists k :: from <= k < from + n && Near(pos[k], q, 2)
  {
    if n > 0 {
      InBands(pos, from, n - 1, q);
      assert Near(pos[from + n - 1], q, 2) <==> q in Range(pos[from + n - 1] - 2, pos[from + n - 1] + 3);
    }
  }

  /** The bands lie between their outermost coordinates. */
  lemma {:induction false} BandsBetween(pos: seq<int>, size: int, from: nat, n: nat, q: int)
    requires WellSpaced(pos, size) && from + n <= |pos| && q in Bands(pos, from, n)
    ensures n > 0 && pos[from] - 2 <= q <= pos[from + n - 1] + 2
  {
    hide Bands, Range;
    InBands(pos, from, n, q);
    var k :| from <= k < from + n && Near(pos[k], q, 2);
    if from < k {
      SpacedApart(pos, size, from, k);
    }
    if k < from + n - 1 {
      SpacedApart(pos, size, k, from + n - 1);
    }
  }

  /** The bands do not overlap. */
  lemma {:induction false} BandsSize(pos: seq<int>, size: int, from: nat, n: nat)
    requires WellSpaced(pos, size) && from + n <= |pos|
    ensures |Bands(pos, from, n)| == 5 * n
  {
    hide Bands, Range, Near;
    if n == 0 {
      NoBands(pos, from);
    } else {
      var p := pos[from + n - 1];
      BandsSize(pos, size, from, n - 1);
      if n > 1 {
        SpacedApart(pos, size, from + n - 2, from + n - 1);
      }
      var before, band := Bands(pos, from, n - 1), Range(p - 2, p + 3);
      forall q | q in before
        ensures q !in band
      {
        BandsBetween(pos, size, from, n - 1, q);
      }
      OneMoreBand(pos, from, n);
    }
  }

  lemma NoBands(pos: seq<int>, from: nat)
    requires from <= |pos|
    ensures Bands(pos, from, 0) == {}
  {}

  lemma OneMoreBand(pos: seq<int>, from: nat, n: nat)
    requires 0 < n && from + n <= |pos|
    requires Bands(pos, from, n - 1) !! Range(pos[from + n - 1] - 2, pos[from + n - 1] + 3)
    ensures |Bands(pos, from, n)| == |Bands(pos, from, n - 1)| + 5
  {
    hide Range, Near;
    var p := pos[from + n - 1];
    var before, band := Bands(pos, from, n - 1), Range(p - 2, p + 3);
    assert Bands(pos, from, n) == before + band;
    hide Bands;
    RangeSize(p - 2, p + 3);
    UnionSize(before, band);
  }

  lemma UnionSize<T>(a: set<T>, b: set<T>)
    requires a !! b
    ensures |a + b| == |a| + |b|
  {}

  // ----- the function cells as ten disjoint products

  /** The three finder corners. */
  ghost function Corners(s: int): set<Cell> {
    Product(Range(0, 9), Range(0, 9)) + Product(Range(s - 8, s), Range(0, 9)) + Product(Range(0, 9), Range(s - 8, s))
  }

  /** The timing lines between the corners. */
  ghost function Timing(s: int): set<Cell> {
    Product({6}, Range(9, s - 8)) + Product(Range(9, s - 8), {6})
  }

  ghost function VersionInfo(version: int): set<Cell> {
    var s := Size(version);
    if version < 7 then {}
    else Product(Range(0, 6), Range(s - 11, s - 8)) + Product(Range(s - 11, s - 8), Range(0, 6))
  }

  /** The alignment patterns off the timing lines: those on row 6, those on column 6, and the rest. */
  ghost function Alignment(pos: seq<int>): set<Cell> {
    var n := |pos|;
    if n < 2 then {}
    else
      var off := {4, 5, 7, 8};
      Product(off, Bands(pos, 1, n - 2)) + Product(Bands(pos, 1, n - 2), off) + Product(Bands(pos, 1, n - 1), Bands(pos, 1, n - 1))
  }

  lemma CornersSize(s: int)
    requires s >= 21
    ensures |Corners(s)| == 225
  {
    hide Product, Range;
    RangeSize(0, 9);
    RangeSize(s - 8, s);
    Sized(Range(0, 9), Range(0, 9), 9, 9, 81);
    Sized(Range(s - 8, s), Range(0, 9), 8, 9, 72);
    Sized(Range(0, 9), Range(s - 8, s), 9, 8, 72);
    var a, b, c := Product(Range(0, 9), Range(0, 9)), Product(Range(s - 8, s), Range(0, 9)), Product(Range(0, 9), Range(s - 8, s));
    assert a !! b && (a + b) !! c;
  }

  lemma TimingSize(s: int)
    requires s >= 21
    ensures |Timing(s)| == 2 * (s - 17)
  {
    hide Product, Range;
    RangeSize(9, s - 8);
    Sized({6}, Range(9, s - 8), 1, s - 17, s - 17);
    Sized(Range(9, s - 8), {6}, s - 17, 1, s - 17);
    assert Product({6}, Range(9, s - 8)) !! Product(Range(9, s - 8), {6});
  }

  lemma VersionInfoSize(version: int)
    requires version >= 1
    ensures |VersionInfo(version)| == if version < 7 then 0 else 36
  {
    hide Product, Range;
    if version >= 7 {
      var s := Size(version);
      RangeSize(0, 6);
      RangeSize(s - 11, s - 8);
      Sized(Range(0, 6), Range(s - 11, s - 8), 6, 3, 18);
      Sized(Range(s - 11, s - 8), Range(0, 6), 3, 6, 18);
      assert Product(Range(0, 6), Range(s - 11, s - 8)) !! Product(Range(s - 11, s - 8), Range(0, 6));
    }
  }

  lemma AlignmentSize(pos: seq<int>, size: int)
    requires WellSpaced(pos, size)
    ensures pos == [] ==> |Alignment(pos)| == 0
    ensures pos != [] ==> |Alignment(pos)| == 40 * (|pos| - 2) + 25 * (|pos| - 1) * (|pos| - 1)
  {
    hide Product, Range, Bands, Near;
    var n := |pos|;
    if n >= 2 {
      var off, mid, rest := {4, 5, 7, 8}, Bands(pos, 1, n - 2), Bands(pos, 1, n - 1);
      assert Alignment(pos) == Product(off, mid) + Product(mid, off) + Product(rest, rest);
      hide Alignment;
      BandsSize(pos, size, 1, n - 2);
      BandsSize(pos, size, 1, n - 1);
      forall q | q in mid || q in rest
        ensures q >= 16
      {
        BandsInside(pos, size, q);
      }
      hide WellSpaced;
      assert |off| == 4;
      ThreeProducts(off, mid, rest);
      Sized(off, mid, 4, 5 * (n - 2), 20 * (n - 2));
      Sized(mid, off, 5 * (n - 2), 4, 20 * (n - 2));
      Square(n - 1);
      Sized(rest, rest, 5 * (n - 1), 5 * (n - 1), 25 * (n - 1) * (n - 1));
    }
  }

  lemma ThreeProducts(off: set<int>, mid: set<int>, rest: set<int>)
    requires off !! mid && off !! rest
    ensures |Product(off, mid) + Product(mid, off) + Product(rest, rest)|
         == |Product(off, mid)| + |Product(mid, off)| + |Product(rest, rest)|
  {
    hide Product;
    UnionSize(Product(off, mid), Product(mid, off));
    UnionSize(Product(off, mid) + Product(mid, off), Product(rest, rest));
  }

  lemma Square(k: int)
    ensures (5 * k) * (5 * k) == 25 * k * k
  {}

  /** Where the bands lie, seen from the corners and the version information. */
  lemma BandsInside(pos: seq<int>, size: int, q: int)
    requires WellSpaced(pos, size) && pos != []
    ensures q in Bands(pos, 1, |pos| - 2) ==> 16 <= q < size - 16
    ensures q in Bands(pos, 1, |pos| - 1) ==> 16 <= q < size - 4
  {
    hide Bands, Range;
    var n := |pos|;
    SpacedApart(pos, size, 0, 1);
    SpacedApart(pos, size, n - 2, n - 1);
    if q in Bands(pos, 1, n - 2) {
      BandsBetween(pos, size, 1, n - 2, q);
    }
    if q in Bands(pos, 1, n - 1) {
      BandsBetween(pos, size, 1, n - 1, q);
    }
  }

  /** The row or column q falls on the coordinate with this index, off the timing line of row or column 6. */
  ghost predicate OnBand(pos: seq<int>, k: int, q: int) {
    0 <= k < |pos| && Near(pos[k], q, 2) && q != 6
  }

  lemma BandOf(pos: seq<int>, size: int, k: int, q: int)
    requires WellSpaced(pos, size) && OnBand(pos, k, q)
    ensures q in {4, 5, 7, 8} <==> k == 0
    ensures q in Bands(pos, 1, |pos| - 2) <==> 0 < k < |pos| - 1
    ensures q in Bands(pos, 1, |pos| - 1) <==> 0 < k
  {
    hide Bands, Range;
    var n := |pos|;
    InBands(pos, 1, n - 2, q);
    InBands(pos, 1, n - 1, q);
    if 0 < k {
      SpacedApart(pos, size, 0, k);
    }
    if q in Bands(pos, 1, n - 1) {
      var m :| 1 <= m < n && Near(pos[m], q, 2);
      OnlyNear(pos, size, q, k, m);
    }
    if q in Bands(pos, 1, n - 2) {
      var m :| 1 <= m < n - 1 && Near(pos[m], q, 2);
      OnlyNear(pos, size, q, k, m);
    }
  }

  lemma BandFor(pos: seq<int>, size: int, q: int) returns (k: int)
    requires WellSpaced(pos, size) && pos != []
    requires q in {4, 5, 7, 8} || q in Bands(pos, 1, |pos| - 2) || q in Bands(pos, 1, |pos| - 1)
    ensures OnBand(pos, k, q)
  {
    hide Bands, Range;
    var n := |pos|;
    InBands(pos, 1, n - 2, q);
    InBands(pos, 1, n - 1, q);
    BandsInside(pos, size, q);
    if q in {4, 5, 7, 8} {
      k := 0;
    } else {
      k :| 1 <= k < n && Near(pos[k], q, 2);
    }
  }

  lemma AlignmentAt(pos: seq<int>, size: int, c: Cell)
    requires WellSpaced(pos, size)
    ensures c in Alignment(pos) <==> InAlignment(pos, c) && !InTiming(c)
  {
    hide Bands, Range;
    if InAlignment(pos, c) && !InTiming(c) {
      var a, b :| 0 <= a < |pos| && 0 <= b < |pos| && !AtFinder(a, b, |pos|) && Near(pos[a], c.y, 2) && Near(pos[b], c.x, 2);
      BandOf(pos, size, a, c.y);
      BandOf(pos, size, b, c.x);
    }
    if c in Alignment(pos) {
      var a := BandFor(pos, size, c.y);
      var b := BandFor(pos, size, c.x);
      BandOf(pos, size, a, c.y);
      BandOf(pos, size, b, c.x);
    }
  }

  lemma AlignmentInside(pos: seq<int>, size: int, c: Cell)
    requires WellSpaced(pos, size) && c in Alignment(pos)
    ensures InGrid(size, c) && !InCorner(size, c)
    ensures (c.y >= 6 || c.x < size - 11) && (c.x >= 6 || c.y < size - 11)
  {
    hide Bands, Range;
    BandsInside(pos, size, c.y);
    BandsInside(pos, size, c.x);
  }

  lemma CornerAt(s: int, c: Cell)
    requires s >= 21
    ensures c in Corners(s) <==> InGrid(s, c) && InCorner(s, c)
  {}

  lemma TimingAt(s: int, c: Cell)
    requires s >= 21
    ensures c in Timing(s) <==> InGrid(s, c) && InTiming(c) && !InCorner(s, c)
  {}

  lemma VersionInfoAt(version: int, c: Cell)
    requires version >= 1
    ensures c in VersionInfo(version) <==>
      InGrid(Size(version), c) && InVersionInfo(version, c) && !InCorner(Size(version), c) && !InTiming(c)
  {}

  lemma Regions(version: int, pos: seq<int>)
    requires version >= 1 && WellSpaced(pos, Size(version))
    ensures FunctionCells(version, pos) == Corners(Size(version)) + Timing(Size(version)) + VersionInfo(version) + Alignment(pos)
    ensures Corners(Size(version)) !! Timing(Size(version)) !! VersionInfo(version) !! Alignment(pos)
  {
    hide Corners, Timing, VersionInfo, Alignment, InAlignment;
    var s := Size(version);
    forall c
      ensures c in FunctionCells(version, pos) <==> c in Corners(s) || c in Timing(s) || c in VersionInfo(version) || c in Alignment(pos)
      ensures c in Alignment(pos) ==> c !in Corners(s) && c !in Timing(s) && c !in VersionInfo(version)
      ensures c in VersionInfo(version) ==> c !in Corners(s) && c !in Timing(s)
      ensures c in Timing(s) ==> c !in Corners(s)
    {
      CornerAt(s, c);
      TimingAt(s, c);
      VersionInfoAt(version, c);
      AlignmentAt(pos, s, c);
      if c in Alignment(pos) {
        AlignmentInside(pos, s, c);
      }
      assert c == Cell(c.y, c.x);
    }
  }

  /** How many cells the function patterns take. */
  lemma FunctionCellCount(version: int, pos: seq<int>)
    requires version >= 1 && WellSpaced(pos, Size(version))
    ensures |FunctionCells(version, pos)| == 225 + 2 * (Size(version) - 17) + (if version < 7 then 0 else 36)
      + (if pos == [] then 0 else 40 * (|pos| - 2) + 25 * (|pos| - 1) * (|pos| - 1))
  {
    hide Corners, Timing, VersionInfo, Alignment, FunctionCells;
    var s := Size(version);
    Regions(version, pos);
    CornersSize(s);
    TimingSize(s);
    VersionInfoSize(version);
    AlignmentSize(pos, s);
    var a, b, c, d := Corners(s), Timing(s), VersionInfo(version), Alignment(pos);
    assert |a + b + c + d| == |a| + |b| + |c| + |d|;
  }

  // ----- the data cells are the rest

  ghost function CellsOf(cells: seq<Cell>): set<Cell> {
    set c | c in cells
  }

  lemma {:induction false} DistinctCount(cells: seq<Cell>)
    requires Distinct(cells)
    ensures |CellsOf(cells)| == |cells|
  {
    if cells == [] {
      assert CellsOf(cells) == {};
    } else {
      var n := |cells| - 1;
      DistinctCount(cells[..n]);
      assert cells == cells[..n] + [cells[n]];
      assert CellsOf(cells) == CellsOf(cells[..n]) + {cells[n]};
    }
  }

  /** The scan finds every cell of the symbol outside the function patterns exactly once. */
  lemma DataCellCount(version: int, pos: seq<int>)
    requires version >= 1 && WellSpaced(pos, Size(version))
    ensures |DataCells(Size(version), FunctionCells(version, pos))| == Size(version) * Size(version) - |FunctionCells(version, pos)|
  {
    hide Product, Range, FunctionCells, Path;
    var s := Size(version);
    var taken, grid := FunctionCells(version, pos), Product(Range(0, s), Range(0, s));
    var data := DataCells(s, taken);
    DataCellsInGrid(s, taken);
    DistinctCount(data);
    forall c
      ensures c in CellsOf(data) <==> c in grid && c !in taken
      ensures c in taken ==> c in grid
    {
      FunctionCellAt(version, pos, c);
      FreeMembers(Path(s, s - 1, true), taken);
      PathCells(s, s - 1, true);
      if c in grid && c !in taken {
        PathCovers(s, s - 1, true, c);
      }
    }
    assert CellsOf(data) == grid - taken;
    RangeSize(0, s);
    Sized(Range(0, s), Range(0, s), s, s, s * s);
  }

  lemma FunctionCellAt(version: int, pos: seq<int>, c: Cell)
    ensures c in FunctionCells(version, pos) <==> InGrid(Size(version), c) && FunctionCell(version, pos, c)
  {
    assert c == Cell(c.y, c.x);
  }

  lemma Spaced(version: int)
    requires 1 <= version <= 40
    ensures WellSpaced(AlignmentPositions(version), Size(version))
    ensures version >= 2 ==> |AlignmentPositions(version)| == version / 7 + 2
    ensures version == 1 ==> AlignmentPositions(version) == []
  {
    if version == 21 {
      Version21();
    } else {
      SpacedAlways(version);
      PatternsAgreeExactly(version);
    }
  }

  /** getNumRawDataModules counts exactly the modules that drawCodewords fills. */
  lemma RawModulesCounted(version: int)
    requires 1 <= version <= 40
    ensures |DataCells(Size(version), FunctionCells(version, AlignmentPositions(version)))| == RawModules(version)
  {
    hide DataCells, FunctionCells, AlignmentPositions, WellSpaced;
    var pos, v := AlignmentPositions(version), version;
    Spaced(version);
    DataCellCount(version, pos);
    FunctionCellCount(version, pos);
    Arithmetic(v, v / 7 + 2);
  }

  lemma Arithmetic(v: int, n: int)
    ensures (4 * v + 17) * (4 * v + 17) == (16 * v + 128) * v + 64 + 225 + 8 * v
    ensures 40 * (n - 2) + 25 * (n - 1) * (n - 1) == (25 * n - 10) * n - 55
  {
    assert (4 * v + 17) * (4 * v + 17) == 16 * (v * v) + 136 * v + 289;
    assert (n - 1) * (n - 1) == n * n - 2 * n + 1;
    assert 25 * (n - 1) * (n - 1) == 25 * ((n - 1) * (n - 1));
    assert (25 * n - 10) * n == 25 * (n * n) - 10 * n;
  }
}
