/** The modules of a QR symbol that carry no data. The encoder marks them while it draws the function
    patterns; the decoder decides them cell by cell. */
module FunctionPatterns {
  import opened VersionTables

  datatype Cell = Cell(y: int, x: int)

  predicate InGrid(size: int, c: Cell) {
    0 <= c.y < size && 0 <= c.x < size
  }

  function Size(version: int): int {
    version * 4 + 17
  }

  predicate Near(p: int, q: int, d: int) {
    -d <= p - q <= d
  }

  // ----- which cells are function cells, as section 5.3 of ISO/IEC 18004 lays them out

  /** The three finder patterns with their separators and format information. */
  predicate InCorner(size: int, c: Cell) {
    (c.y < 9 && c.x < 9) || (size - 8 <= c.y && c.x < 9) || (c.y < 9 && size - 8 <= c.x)
  }

  predicate InTiming(c: Cell) {
    c.y == 6 || c.x == 6
  }

  predicate InVersionInfo(version: int, c: Cell) {
    var size := Size(version);
    version >= 7 && ((c.y < 6 && size - 11 <= c.x) || (size - 11 <= c.y && c.x < 6))
  }

  /** No alignment pattern is drawn over a finder pattern. */
  predicate AtFinder(a: int, b: int, n: int) {
    (a == 0 && b == 0) || (a == 0 && b == n - 1) || (a == n - 1 && b == 0)
  }

  predicate InAlignment(pos: seq<int>, c: Cell) {
    exists a, b :: 0 <= a < |pos| && 0 <= b < |pos| && !AtFinder(a, b, |pos|) && Near(pos[a], c.y, 2) && Near(pos[b], c.x, 2)
  }

  predicate FunctionCell(version: int, pos: seq<int>, c: Cell) {
    InCorner(Size(version), c) || InTiming(c) || InVersionInfo(version, c) || InAlignment(pos, c)
  }

  ghost function FunctionCells(version: int, pos: seq<int>): set<Cell> {
    set y, x | 0 <= y < Size(version) && 0 <= x < Size(version) && FunctionCell(version, pos, Cell(y, x)) :: Cell(y, x)
  }

  // ----- the decoder's decision

  /** reserved_cell: the alignment test looks up the last pattern coordinate near the row and the last
      one near the column. */
  method ReservedCell(version: int, i: int, j: int) returns (r: bool)
    requires 1 <= version <= 40
    ensures r <==> FunctionCell(version, VersionDb(version).apat, Cell(i, j))
  {
    hide VersionDb, InAlignment;
    var apat := VersionDb(version).apat;
    SpacedAlways(version);
    var size := version * 4 + 17;
    if (i < 9 && j < 9) || (i + 8 >= size && j < 9) || (i < 9 && j + 8 >= size) {
      return true;
    }
    if i == 6 || j == 6 {
      return true;
    }
    if version >= 7 {
      if (i < 6 && j + 11 >= size) || (i + 11 >= size && j < 6) {
        return true;
      }
    }
    var ai, aj := -1, -1;
    var a := 0;
    while a < |apat|
      invariant 0 <= a <= |apat|
      invariant LastNear(apat[..a], i, ai) && LastNear(apat[..a], j, aj)
    {
      var p := apat[a];
      if Near(p, i, 2) {
        ai := a;
      }
      if Near(p, j, 2) {
        aj := a;
      }
      a := a + 1;
    }
    assert apat[..a] == apat;
    AlignmentByLast(apat, Cell(i, j), ai, aj, size);
    if ai >= 0 && aj >= 0 {
      a := a - 1;
      if ai > 0 && ai < a {
        return true;
      }
      if aj > 0 && aj < a {
        return true;
      }
      if aj == a && ai == a {
        return true;
      }
    }
    return false;
  }

  /** k is the index of the last coordinate within two of q, or -1. */
  ghost predicate LastNear(p: seq<int>, q: int, k: int) {
    && -1 <= k < |p|
    && (k >= 0 ==> Near(p[k], q, 2))
    && forall m :: k < m < |p| ==> !Near(p[m], q, 2)
  }

  lemma AlignmentByLast(pos: seq<int>, c: Cell, a: int, b: int, size: int)
    requires WellSpaced(pos, size)
    requires LastNear(pos, c.y, a) && LastNear(pos, c.x, b)
    ensures InAlignment(pos, c) <==> a >= 0 && b >= 0 && !AtFinder(a, b, |pos|)
  {
    forall a', b' | 0 <= a' < |pos| && 0 <= b' < |pos| && Near(pos[a'], c.y, 2) && Near(pos[b'], c.x, 2)
      ensures a' == a && b' == b
    {
      OnlyNear(pos, size, c.y, a', a);
      OnlyNear(pos, size, c.x, b', b);
    }
  }

  lemma OnlyNear(pos: seq<int>, size: int, q: int, k: int, m: int)
    requires WellSpaced(pos, size) && 0 <= k < |pos| && 0 <= m < |pos|
    requires Near(pos[k], q, 2) && Near(pos[m], q, 2)
    ensures k == m
  {
    if k < m {
      SpacedApart(pos, size, k, m);
    } else if m < k {
      SpacedApart(pos, size, m, k);
    }
  }

  lemma {:induction false} SpacedApart(pos: seq<int>, size: int, k: int, m: int)
    requires WellSpaced(pos, size) && 0 <= k < m < |pos|
    ensures pos[k] + 12 <= pos[m]
    decreases m - k
  {
    if k + 1 < m {
      SpacedApart(pos, size, k, m - 1);
    }
  }

  // ----- the encoder's marks

  /** From the second position on, the steps are equal; the last position is 7 short of the size. */
  lemma PositionSteps(version: int)
    requires 1 < version
    ensures var p := AlignmentPositions(version);
      && |p| == version / 7 + 2 && p[0] == 6 && p[|p| - 1] == Size(version) - 7
      && forall k :: 2 <= k < |p| ==> p[k] - AlignmentStep(version) == p[k - 1]
  {
    hide AlignmentStep;
    var p, n := AlignmentPositions(version), version / 7 + 2;
    forall k | 2 <= k < |p|
      ensures p[k] - AlignmentStep(version) == p[k - 1]
    {
      OneStep(n - 2 - (k - 1), AlignmentStep(version));
    }
  }

  lemma OneStep(k: int, step: int)
    ensures (k + 1) * step == k * step + step
  {}

  /** getAlignmentPatternPositions: fills the list from the far end. */
  method GetAlignmentPatternPositions(version: int) returns (result: seq<int>)
    requires 1 <= version <= 40
    ensures result == AlignmentPositions(version)
  {
    if version == 1 {
      return [];
    }
    var numAlign := version / 7 + 2;
    var step := AlignmentStep(version);
    result := [];
    var pos := Size(version) - 7;
    ghost var all := AlignmentPositions(version);
    PositionSteps(version);
    hide AlignmentPositions, AlignmentStep;
    for i := 0 to numAlign - 1
      invariant |result| == i && (i < numAlign - 1 ==> pos == all[numAlign - 1 - i])
      invariant result == all[numAlign - i..]
    {
      assert i < numAlign - 2 ==> all[numAlign - 1 - i] - step == all[numAlign - 2 - i];
      assert all[numAlign - 1 - i..] == [all[numAlign - 1 - i]] + all[numAlign - i..];
      result := [pos] + result;
      pos := pos - step;
    }
    result := [6] + result;
    assert all == [6] + all[1..];
  }

  ghost function Marked(f: array2<bool>): set<Cell>
    reads f
  {
    set y, x | 0 <= y < f.Length0 && 0 <= x < f.Length1 && f[y, x] :: Cell(y, x)
  }

  /** setFunctionModule, as far as the marks go. */
  method SetFunctionModule(f: array2<bool>, x: int, y: int)
    requires 0 <= y < f.Length0 && 0 <= x < f.Length1
    modifies f
    ensures Marked(f) == old(Marked(f)) + {Cell(y, x)}
  {
    f[y, x] := true;
  }

  method MarkTiming(f: array2<bool>, size: nat)
    requires f.Length0 == f.Length1 == size && 7 <= size
    modifies f
    ensures forall c :: c in Marked(f) <==> c in old(Marked(f)) || (InGrid(size, c) && InTiming(c))
  {
    hide Marked;
    ghost var was := Marked(f);
    for i := 0 to size
      invariant forall c :: c in Marked(f) <==> c in was || (InGrid(size, c) && ((c.y == 6 && c.x < i) || (c.x == 6 && c.y < i)))
    {
      SetFunctionModule(f, i, 6);
      SetFunctionModule(f, 6, i);
    }
  }

  /** The part of the square of radius d around (x, y) that a row-by-row scan has covered when it is
      about to visit row offset dy, column offset dx. */
  predicate InSquare(c: Cell, x: int, y: int, d: int, dy: int, dx: int) {
    (-d <= c.y - y < dy && Near(c.x, x, d)) || (c.y - y == dy && -d <= c.x - x < dx)
  }

  /** drawFinderPattern: a square of nine modules around the centre, clipped to the symbol. */
  method MarkFinder(f: array2<bool>, size: nat, x: int, y: int)
    requires f.Length0 == f.Length1 == size
    modifies f
    ensures forall c :: c in Marked(f) <==> c in old(Marked(f)) || (InGrid(size, c) && Near(c.y, y, 4) && Near(c.x, x, 4))
  {
    hide Marked;
    ghost var was := Marked(f);
    for dy := -4 to 5
      invariant forall c :: c in Marked(f) <==> c in was || (InGrid(size, c) && -4 <= c.y - y < dy && Near(c.x, x, 4))
    {
      for dx := -4 to 5
        invariant forall c :: c in Marked(f) <==> c in was || (InGrid(size, c) && InSquare(c, x, y, 4, dy, dx))
      {
        var xx, yy := x + dx, y + dy;
        if 0 <= xx < size && 0 <= yy < size {
          SetFunctionModule(f, xx, yy);
        }
      }
    }
  }

  /** drawAlignmentPattern. */
  method MarkAlignment(f: array2<bool>, x: int, y: int)
    requires 2 <= y < f.Length0 - 2 && 2 <= x < f.Length1 - 2
    modifies f
    ensures forall c :: c in Marked(f) <==> c in old(Marked(f)) || (Near(c.y, y, 2) && Near(c.x, x, 2))
  {
    hide Marked;
    ghost var was := Marked(f);
    for dy := -2 to 3
      invariant forall c :: c in Marked(f) <==> c in was || (-2 <= c.y - y < dy && Near(c.x, x, 2))
    {
      for dx := -2 to 3
        invariant forall c :: c in Marked(f) <==> c in was || InSquare(c, x, y, 2, dy, dx)
      {
        SetFunctionModule(f, x + dx, y + dy);
      }
    }
  }

  predicate InAlignmentRows(pos: seq<int>, c: Cell, i: int, j: int) {
    exists a, b :: 0 <= a < |pos| && 0 <= b < |pos| && (a < i || (a == i && b < j))
      && !AtFinder(a, b, |pos|) && Near(pos[a], c.x, 2) && Near(pos[b], c.y, 2)
  }

  /** The alignment loops of drawFunctionPatterns. */
  method MarkAlignments(f: array2<bool>, size: nat, pos: seq<int>)
    requires f.Length0 == f.Length1 == size && forall k :: 0 <= k < |pos| ==> 6 <= pos[k] <= size - 7
    modifies f
    ensures forall c :: c in Marked(f) <==> c in old(Marked(f)) || InAlignment(pos, c)
  {
    hide Marked;
    ghost var was := Marked(f);
    var n := |pos|;
    for i := 0 to n
      invariant forall c :: c in Marked(f) <==> c in was || InAlignmentRows(pos, c, i, 0)
    {
      for j := 0 to n
        invariant forall c :: c in Marked(f) <==> c in was || InAlignmentRows(pos, c, i, j)
      {
        if !((i == 0 && j == 0) || (i == 0 && j == n - 1) || (i == n - 1 && j == 0)) {
          MarkAlignment(f, pos[i], pos[j]);
        }
        forall c
          ensures InAlignmentRows(pos, c, i, j + 1) <==>
            InAlignmentRows(pos, c, i, j) || (!AtFinder(i, j, n) && Near(pos[i], c.x, 2) && Near(pos[j], c.y, 2))
        {}
      }
      forall c
        ensures InAlignmentRows(pos, c, i, n) <==> InAlignmentRows(pos, c, i + 1, 0)
      {}
    }
    forall c
      ensures InAlignmentRows(pos, c, n, 0) <==> InAlignment(pos, c)
    {
      Transposed(pos, c);
    }
  }

  /** The set of alignment patterns is symmetric in rows and columns. */
  lemma Transposed(pos: seq<int>, c: Cell)
    ensures InAlignmentRows(pos, c, |pos|, 0) <==> InAlignment(pos, c)
  {
    var n := |pos|;
    if InAlignmentRows(pos, c, n, 0) {
      var a, b :| 0 <= a < |pos| && 0 <= b < |pos| && (a < n || (a == n && b < 0))
        && !AtFinder(a, b, |pos|) && Near(pos[a], c.x, 2) && Near(pos[b], c.y, 2);
      assert !AtFinder(b, a, n);
    }
    if InAlignment(pos, c) {
      var a, b :| 0 <= a < |pos| && 0 <= b < |pos| && !AtFinder(a, b, |pos|) && Near(pos[a], c.y, 2) && Near(pos[b], c.x, 2);
      assert !AtFinder(b, a, n);
    }
  }

  /** The cells that drawFormatBits marks. */
  predicate InFormat(size: int, c: Cell) {
    || (c.x == 8 && (0 <= c.y <= 8 || size - 8 <= c.y < size) && c.y != 6)
    || (c.y == 8 && (0 <= c.x <= 8 || size - 8 <= c.x < size) && c.x != 6)
  }

  method MarkFormat(f: array2<bool>, size: nat)
    requires f.Length0 == f.Length1 == size && 21 <= size
    modifies f
    ensures forall c :: c in Marked(f) <==> c in old(Marked(f)) || InFormat(size, c)
  {
    hide Marked;
    ghost var was := Marked(f);
    for i := 0 to 6
      invariant forall c :: c in Marked(f) <==> c in was || (c.x == 8 && 0 <= c.y < i)
    {
      SetFunctionModule(f, 8, i);
    }
    SetFunctionModule(f, 8, 7);
    SetFunctionModule(f, 8, 8);
    SetFunctionModule(f, 7, 8);
    ghost var first := Marked(f);
    for i := 9 to 15
      invariant forall c :: c in Marked(f) <==> c in first || (c.y == 8 && 14 - i < c.x <= 5)
    {
      SetFunctionModule(f, 14 - i, 8);
    }
    ghost var copy1 := Marked(f);
    for i := 0 to 8
      invariant forall c :: c in Marked(f) <==> c in copy1 || (c.y == 8 && size - 1 - i < c.x < size)
    {
      SetFunctionModule(f, size - 1 - i, 8);
    }
    ghost var row := Marked(f);
    for i := 8 to 15
      invariant forall c :: c in Marked(f) <==> c in row || (c.x == 8 && size - 7 <= c.y < size - 15 + i)
    {
      SetFunctionModule(f, 8, size - 15 + i);
    }
    SetFunctionModule(f, 8, size - 8);
  }

  /** The cells that drawVersion marks. */
  predicate InVersionBlocks(size: int, c: Cell) {
    (0 <= c.y < 6 && size - 11 <= c.x < size - 8) || (0 <= c.x < 6 && size - 11 <= c.y < size - 8)
  }

  predicate InVersionRows(size: int, c: Cell, i: int) {
    || (0 <= c.y < 6 && size - 11 <= c.x < size - 8 && 3 * c.y + (c.x - (size - 11)) < i)
    || (0 <= c.x < 6 && size - 11 <= c.y < size - 8 && 3 * c.x + (c.y - (size - 11)) < i)
  }

  method MarkVersion(f: array2<bool>, version: int)
    requires 1 <= version <= 40 && f.Length0 == f.Length1 == Size(version)
    modifies f
    ensures forall c :: c in Marked(f) <==> c in old(Marked(f)) || (version >= 7 && InVersionBlocks(Size(version), c))
  {
    hide Marked;
    if version < 7 {
      return;
    }
    ghost var was := Marked(f);
    var size := Size(version);
    for i := 0 to 18
      invariant forall c :: c in Marked(f) <==> c in was || InVersionRows(size, c, i)
    {
      var a := size - 11 + i % 3;
      var b := i / 3;
      SetFunctionModule(f, a, b);
      SetFunctionModule(f, b, a);
    }
  }

  /** drawFunctionPatterns: marks exactly the function cells, with the encoder's own coordinates. */
  method DrawFunctionPatterns(f: array2<bool>, version: int)
    requires 1 <= version <= 40 && f.Length0 == f.Length1 == Size(version) && Marked(f) == {}
    modifies f
    ensures Marked(f) == FunctionCells(version, AlignmentPositions(version))
  {
    hide Marked, AlignmentPositions, InAlignment;
    var size := Size(version);
    MarkTiming(f, size);
    MarkFinder(f, size, 3, 3);
    MarkFinder(f, size, size - 4, 3);
    MarkFinder(f, size, 3, size - 4);
    var alignPatPos := GetAlignmentPatternPositions(version);
    PositionsInside(version);
    MarkAlignments(f, size, alignPatPos);
    MarkFormat(f, size);
    MarkVersion(f, version);
    forall c
      ensures c in Marked(f) <==> c in FunctionCells(version, alignPatPos)
    {
      if InAlignment(alignPatPos, c) {
        AlignmentInside(version, alignPatPos, c);
      }
    }
  }

  lemma PositionsInside(version: int)
    requires 1 <= version <= 40
    ensures forall k :: 0 <= k < |AlignmentPositions(version)| ==> 6 <= AlignmentPositions(version)[k] <= Size(version) - 7
  {
    hide VersionDb, AlignmentPositions;
    if version == 21 {
      Version21();
    } else {
      PatternsAgreeAlways(version);
      SpacedAlways(version);
      var p := VersionDb(version).apat;
      forall k | 0 <= k < |p|
        ensures 6 <= p[k] <= Size(version) - 7
      {
        if k > 0 {
          SpacedApart(p, Size(version), 0, k);
        }
        if k < |p| - 1 {
          SpacedApart(p, Size(version), k, |p| - 1);
        }
      }
    }
  }

  lemma AlignmentInside(version: int, pos: seq<int>, c: Cell)
    requires forall k :: 0 <= k < |pos| ==> 6 <= pos[k] <= Size(version) - 7
    requires InAlignment(pos, c)
    ensures InGrid(Size(version), c)
  {}

  // ----- where the two sides agree

  /** The decoder takes exactly the encoder's function cells for reserved, in every version but 21. */
  lemma ReservedAgreesExactly(version: int)
    requires 1 <= version <= 40
    ensures FunctionCells(version, VersionDb(version).apat) == FunctionCells(version, AlignmentPositions(version))
       <==> version != 21
  {
    hide VersionDb, AlignmentPositions;
    PatternsAgreeExactly(version);
    if version == 21 {
      MisplacedPattern();
    }
  }

  /** In version 21 the module at row 96, column 96 belongs to an alignment pattern, and the decoder
      reads it as data. */
  lemma MisplacedPattern()
    ensures Cell(96, 96) in FunctionCells(21, AlignmentPositions(21))
    ensures Cell(96, 96) !in FunctionCells(21, VersionDb(21).apat)
  {
    hide VersionDb, AlignmentPositions;
    Version21();
    var p := AlignmentPositions(21);
    assert p[4] == 94;
    assert !AtFinder(4, 4, |p|) && Near(p[4], 96, 2);
    var q := VersionDb(21).apat;
    assert forall k :: 0 <= k < 5 ==> q[k] <= 92 by {
      assert q[0] == 6 && q[1] == 28 && q[2] == 50 && q[3] == 72 && q[4] == 92;
    }
  }
}
