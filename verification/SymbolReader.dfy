/** Reading a symbol back: the decoder's scan, and the theorem that it undoes the encoder's drawing
    and masking. */
module SymbolReader {
  import opened Bytes
  import opened VersionTables
  import opened FunctionPatterns
  import opened Zigzag

  // ----- the decoder's grid

  /** How many modules a symbol has. */
  function Area(size: nat): nat {
    size * size
  }

  /** A captured symbol: one bit per module, packed low bit first, as struct quirc_code stores it. */
  datatype QuircCode = QuircCode(size: nat, bitmap: seq<bv8>) {
    predicate Complete() {
      Area(size) <= 8 * |bitmap|
    }
  }

  lemma BitmapIndex(size: nat, x: int, y: int)
    requires 0 <= x < size && 0 <= y < size
    ensures 0 <= y * size + x < Area(size)
  {
    Rows(y + 1, size, size);
    Rows(0, y, size);
  }

  lemma Rows(a: int, b: int, w: int)
    requires a <= b && 0 <= w
    ensures a * w <= b * w
  {}

  predicate GridBit(code: QuircCode, x: int, y: int)
    requires code.Complete() && InGrid(code.size, Cell(y, x))
  {
    BitmapIndex(code.size, x, y);
    var p := y * code.size + x;
    (code.bitmap[p / 8] >> (p % 8)) & 1 == 1
  }

  // ----- reading bits into bytes

  /** The bytes of raw hold the given bits, and zeros after them. */
  ghost predicate Holds(raw: seq<bv8>, bits: seq<bool>) {
    forall k :: 0 <= k < 8 * |raw| ==> StreamBit(raw, k) == (k < |bits| && bits[k])
  }

  predicate Bit(bits: seq<bool>, k: nat) {
    k < |bits| && bits[k]
  }

  function PackedByte(bits: seq<bool>, k: nat): bv8 {
    ByteOf(Bit(bits, k), Bit(bits, k + 1), Bit(bits, k + 2), Bit(bits, k + 3),
           Bit(bits, k + 4), Bit(bits, k + 5), Bit(bits, k + 6), Bit(bits, k + 7))
  }

  lemma PackedByteBits(bits: seq<bool>, k: nat, p: nat)
    requires p < 8
    ensures BitAt(PackedByte(bits, k), p) == Bit(bits, k + p)
  {
    hide BitAt, ByteOf, Bit;
    ByteOfBits(Bit(bits, k), Bit(bits, k + 1), Bit(bits, k + 2), Bit(bits, k + 3),
               Bit(bits, k + 4), Bit(bits, k + 5), Bit(bits, k + 6), Bit(bits, k + 7), p);
  }

  /** The n bytes that hold the bits. */
  function Packed(bits: seq<bool>, n: nat): (raw: seq<bv8>)
    ensures |raw| == n
  {
    seq(n, q requires 0 <= q < n => PackedByte(bits, 8 * q))
  }

  lemma PackedHolds(bits: seq<bool>, n: nat)
    ensures Holds(Packed(bits, n), bits)
  {
    hide BitAt, PackedByte;
    var raw := Packed(bits, n);
    forall k | 0 <= k < 8 * n
      ensures StreamBit(raw, k) == (k < |bits| && bits[k])
    {
      PackedByteBits(bits, 8 * (k / 8), k % 8);
      assert 8 * (k / 8) + k % 8 == k;
    }
  }

  /** Only those bytes hold the bits. */
  lemma HoldsPacked(raw: seq<bv8>, bits: seq<bool>, n: nat)
    requires n <= |raw| && Holds(raw, bits)
    ensures raw[..n] == Packed(bits, n)
  {
    hide BitAt, PackedByte;
    forall q | 0 <= q < n
      ensures raw[q] == Packed(bits, n)[q]
    {
      forall p: nat | p < 8
        ensures BitAt(raw[q], p) == BitAt(PackedByte(bits, 8 * q), p)
      {
        PackedByteBits(bits, 8 * q, p);
        assert StreamBit(raw, 8 * q + p) == BitAt(raw[q], p);
      }
      BytesEqual(raw[q], PackedByte(bits, 8 * q));
    }
  }

  lemma HoldsNothing(raw: seq<bv8>)
    requires forall i :: 0 <= i < |raw| ==> raw[i] == 0
    ensures Holds(raw, [])
  {
    forall k | 0 <= k < 8 * |raw|
      ensures !StreamBit(raw, k)
    {
      ZeroBits(k % 8);
    }
  }

  lemma HoldsMore(raw: seq<bv8>, bits: seq<bool>, v: bool)
    requires |bits| < 8 * |raw| && Holds(raw, bits)
    ensures var q, p := |bits| / 8, |bits| % 8;
      Holds(if v then raw[q := raw[q] | (0x80 >> p)] else raw, bits + [v])
  {
    hide BitAt;
    var q, p := |bits| / 8, |bits| % 8;
    if v {
      var raw' := raw[q := raw[q] | (0x80 >> p)];
      forall k | 0 <= k < 8 * |raw'|
        ensures StreamBit(raw', k) == (k < |bits| + 1 && (bits + [v])[k])
      {
        assert StreamBit(raw, k) == (k < |bits| && bits[k]);
        if k / 8 == q {
          SetBit(raw[q], p, k % 8);
          assert k == 8 * q + k % 8 && |bits| == 8 * q + p;
        } else {
          assert k != |bits|;
        }
      }
    }
  }

  /** read_bit. */
  method ReadBit(code: QuircCode, mask: int, raw: array<bv8>, dataBits: nat, i: int, j: int, ghost bits: seq<bool>)
    returns (dataBits': nat)
    requires code.Complete() && InGrid(code.size, Cell(i, j))
    requires dataBits == |bits| < 8 * raw.Length && Holds(raw[..], bits)
    modifies raw
    ensures dataBits' == dataBits + 1
    ensures Holds(raw[..], bits + [GridBit(code, j, i) != MaskBit(mask, i, j)])
  {
    hide Holds, GridBit, MaskBit;
    var bitpos := dataBits % 8;
    var bytepos := dataBits / 8;
    var v := GridBit(code, j, i);
    if MaskBit(mask, i, j) {
      v := !v;
    }
    HoldsMore(raw[..], bits, v);
    if v {
      raw[bytepos] := raw[bytepos] | (0x80 >> bitpos);
    }
    dataBits' := dataBits + 1;
  }

  /** The bits that the decoder sees on the given cells. */
  ghost function BitsSeen(code: QuircCode, mask: int, cells: seq<Cell>): (bits: seq<bool>)
    requires code.Complete() && forall k :: 0 <= k < |cells| ==> InGrid(code.size, cells[k])
    ensures |bits| == |cells|
    ensures forall k :: 0 <= k < |cells| ==>
      bits[k] == (GridBit(code, cells[k].x, cells[k].y) != MaskBit(mask, cells[k].y, cells[k].x))
  {
    seq(|cells|, k requires 0 <= k < |cells| => GridBit(code, cells[k].x, cells[k].y) != MaskBit(mask, cells[k].y, cells[k].x))
  }

  // ----- the decoder's scan

  /** The cells that the decoder reads in a symbol of the given version. */
  ghost function DecoderCells(version: int): (cells: seq<Cell>)
    requires 1 <= version <= 40
    ensures forall k :: 0 <= k < |cells| ==> InGrid(Size(version), cells[k])
  {
    DataCellsInGrid(Size(version), FunctionCells(version, VersionDb(version).apat));
    DataCells(Size(version), FunctionCells(version, VersionDb(version).apat))
  }

  /** The bits that the decoder sees in a captured symbol. */
  ghost function SeenBits(code: QuircCode, version: int, mask: int): (bits: seq<bool>)
    requires code.Complete() && 1 <= version <= 40 && code.size == Size(version)
  {
    BitsSeen(code, mask, DecoderCells(version))
  }

  /** What read_data has done when the cells `done` have gone by. */
  ghost predicate ReadState(raw: seq<bv8>, n: nat, done: seq<Cell>, code: QuircCode, version: int, mask: int)
    requires code.Complete() && code.size == Size(version)
  {
    var free := Free(done, FunctionCells(version, VersionDb(version).apat));
    && n == |free|
    && (forall k :: 0 <= k < |free| ==> InGrid(code.size, free[k]))
    && Holds(raw, BitsSeen(code, mask, free))
  }

  lemma ReadStart(raw: seq<bv8>, code: QuircCode, version: int, mask: int)
    requires code.Complete() && code.size == Size(version) && forall i :: 0 <= i < |raw| ==> raw[i] == 0
    ensures ReadState(raw, 0, [], code, version, mask)
  {
    HoldsNothing(raw);
    assert BitsSeen(code, mask, []) == [];
  }

  lemma {:induction false} PathLength(size: nat, right: int, up: bool)
    requires -1 <= right < size && right % 2 == (if right > 5 then 0 else 1)
    ensures |Path(size, right, up)| <= size * (right + 1)
    decreases right
  {
    if right >= 1 {
      var r := PairColumn(right);
      PathLength(size, r - 2, !up);
      LengthStep(size, r, right);
    }
  }

  lemma LengthStep(size: nat, r: int, right: int)
    requires r <= right
    ensures size * (r - 2 + 1) + 2 * size <= size * (right + 1)
  {
    assert size * (r - 1) + 2 * size == size * (r + 1);
    assert size * (r + 1) <= size * (right + 1);
  }

  lemma {:induction false} FreeLength(cells: seq<Cell>, taken: set<Cell>)
    ensures |Free(cells, taken)| <= |cells|
  {
    if cells != [] {
      FreeLength(cells[1..], taken);
    }
  }

  lemma WholeArea(size: nat)
    ensures size * (size - 1 + 1) == Area(size)
  {}

  /** The buffer has room while there is a cell to read. */
  lemma RoomLeft(size: nat, done: seq<Cell>, right: int, up: bool, vert: nat, taken: set<Cell>)
    requires 21 <= size && size % 4 == 1 && vert < size && AtStep(size, done, right, up, vert)
    ensures |Free(done, taken)| + 2 <= Area(size)
  {
    hide Path, Pair, Free, Area;
    FreeLength(done, taken);
    PathLength(size, size - 1, true);
    var p, r := Pair(size, right, up, vert), Path(size, right - 2, !up);
    assert |done + (p + r)| == |done| + |p| + |r|;
    assert |p| == 2 * (size - vert);
    WholeArea(size);
  }

  /** One of the two visits in the loop of read_data. */
  method VisitCell(code: QuircCode, version: int, mask: int, raw: array<bv8>, n: nat, i: int, j: int, ghost done: seq<Cell>)
    returns (n': nat)
    requires code.Complete() && 1 <= version <= 40 && code.size == Size(version) && InGrid(code.size, Cell(i, j))
    requires n < 8 * raw.Length && ReadState(raw[..], n, done, code, version, mask)
    modifies raw
    ensures n <= n' <= n + 1 && ReadState(raw[..], n', done + [Cell(i, j)], code, version, mask)
  {
    hide Holds, GridBit, MaskBit, VersionDb, FunctionCell, Free;
    ghost var taken := FunctionCells(version, VersionDb(version).apat);
    ghost var free := Free(done, taken);
    ghost var bits := BitsSeen(code, mask, free);
    FreeAppend(done, [Cell(i, j)], taken);
    FreeOne(Cell(i, j), taken);
    n' := n;
    var reserved := ReservedCell(version, i, j);
    if !reserved {
      n' := ReadBit(code, mask, raw, n, i, j, bits);
      assert BitsSeen(code, mask, free + [Cell(i, j)]) == bits + [GridBit(code, j, i) != MaskBit(mask, i, j)];
    } else {
      assert free + [] == free;
    }
  }

  /** read_data: one loop over both columns of a pair, turning at the top and the bottom. */
  method ReadData(code: QuircCode, version: int, mask: int, raw: array<bv8>) returns (dataBits: nat)
    requires code.Complete() && 1 <= version <= 40 && code.size == Size(version)
    requires Area(code.size) <= 8 * raw.Length && forall i :: 0 <= i < raw.Length ==> raw[i] == 0
    modifies raw
    ensures dataBits == |DecoderCells(version)|
    ensures Holds(raw[..], SeenBits(code, version, mask))
  {
    hide Holds, ReadState, VersionDb, AtStep, AtPair, Path, Pair, Free, FunctionCells, BitsSeen, SeenBits, DecoderCells, DataCells, Area;
    var size := code.size;
    var y: int := size - 1;
    var x: int := size - 1;
    var dir := -1;
    ghost var done: seq<Cell> := [];
    ghost var vert: nat := 0;
    dataBits := 0;
    ReadStart(raw[..], code, version, mask);
    PathStart(size);
    EnterPair(size, done, x, true);
    while x > 0
      invariant x < size && x % 2 == (if x > 5 then 0 else 1)
      invariant dir == -1 || dir == 1
      invariant x > 0 ==> vert < size && y == (if dir == -1 then size - 1 - vert else vert)
      invariant x > 0 ==> AtStep(size, done, PairColumn(x), dir == -1, vert)
      invariant x <= 0 ==> AtPair(size, done, x, dir == -1)
      invariant x == 6 ==> vert == 0
      invariant ReadState(raw[..], dataBits, done, code, version, mask)
      decreases x, size - vert
    {
      if x == 6 {
        x := x - 1;
      }
      ghost var taken := FunctionCells(version, VersionDb(version).apat);
      RoomLeft(size, done, x, dir == -1, vert, taken);
      ReadCount(raw[..], dataBits, done, code, version, mask);
      StepDown(size, done, x, dir == -1, vert);
      dataBits := VisitCell(code, version, mask, raw, dataBits, y, x, done);
      dataBits := VisitCell(code, version, mask, raw, dataBits, y, x - 1, done + [Cell(y, x)]);
      done := done + [Cell(y, x)] + [Cell(y, x - 1)];
      vert := vert + 1;
      y := y + dir;
      if y < 0 || y >= size {
        LeavePair(size, done, x, dir == -1);
        dir := -dir;
        x := x - 2;
        y := y + dir;
        vert := 0;
        if x > 0 {
          EnterPair(size, done, x, dir == -1);
        }
      }
    }
    PathEnd(size, done, x, dir == -1);
    ReadEnd(raw[..], dataBits, done, code, version, mask);
  }

  lemma ReadCount(raw: seq<bv8>, n: nat, done: seq<Cell>, code: QuircCode, version: int, mask: int)
    requires code.Complete() && code.size == Size(version) && ReadState(raw, n, done, code, version, mask)
    ensures n == |Free(done, FunctionCells(version, VersionDb(version).apat))|
  {}

  lemma ReadEnd(raw: seq<bv8>, n: nat, done: seq<Cell>, code: QuircCode, version: int, mask: int)
    requires code.Complete() && 1 <= version <= 40 && code.size == Size(version)
    requires ReadState(raw, n, done, code, version, mask) && done == Path(code.size, code.size - 1, true)
    ensures n == |DecoderCells(version)|
    ensures Holds(raw, SeenBits(code, version, mask))
  {
    hide Holds, VersionDb, FunctionCells, Path;
  }

  // ----- the encoder's mask

  /** The modules after applyMask: those outside the function patterns are inverted where the mask says. */
  ghost function Masked(g: Modules, m: int, taken: set<Cell>): (r: Modules)
    ensures r.Keys == g.Keys
    ensures forall c :: c in g ==> r[c] == (g[c] != (Inverts(m, c.x, c.y) && c !in taken))
  {
    map c | c in g :: g[c] != (Inverts(m, c.x, c.y) && c !in taken)
  }

  /** Masking twice changes nothing: this is how the encoder undoes each trial. */
  lemma MaskTwice(g: Modules, m: int, taken: set<Cell>)
    ensures Masked(Masked(g, m, taken), m, taken) == g
  {
    hide Inverts;
  }

  /** The modules when applyMask is about to visit row y, column x. */
  ghost function PartlyMasked(g: Modules, m: int, taken: set<Cell>, y: int, x: int): (r: Modules)
  {
    var goal := Masked(g, m, taken);
    map c | c in g :: if c.y < y || (c.y == y && c.x < x) then goal[c] else g[c]
  }

  lemma PartlyMaskedSteps(g: Modules, m: int, taken: set<Cell>, size: nat, y: int, x: int)
    requires 0 <= y < size && 0 <= x <= size && forall c :: c in g <==> InGrid(size, c)
    ensures PartlyMasked(g, m, taken, 0, 0) == g
    ensures PartlyMasked(g, m, taken, y, size) == PartlyMasked(g, m, taken, y + 1, 0)
    ensures PartlyMasked(g, m, taken, size, 0) == Masked(g, m, taken)
    ensures x < size ==> Cell(y, x) in g && PartlyMasked(g, m, taken, y, x)[Cell(y, x)] == g[Cell(y, x)]
    ensures x < size ==>
      PartlyMasked(g, m, taken, y, x)[Cell(y, x) := Masked(g, m, taken)[Cell(y, x)]] == PartlyMasked(g, m, taken, y, x + 1)
  {
    hide Inverts;
  }

  /** applyMask; an unknown mask is refused. */
  method ApplyMask(modules: array2<bool>, isFunction: array2<bool>, size: nat, msk: int) returns (ok: bool)
    requires modules != isFunction && size > 0
    requires modules.Length0 == modules.Length1 == isFunction.Length0 == isFunction.Length1 == size
    modifies modules
    ensures ok <==> 0 <= msk <= 7
    ensures Snapshot(modules) == if ok then Masked(old(Snapshot(modules)), msk, Marked(isFunction)) else old(Snapshot(modules))
  {
    hide Inverts, PartlyMasked, Snapshot, Marked;
    if msk < 0 || msk > 7 {
      return false;
    }
    ghost var was, taken := Snapshot(modules), Marked(isFunction);
    PartlyMaskedSteps(was, msk, taken, size, 0, 0);
    for y := 0 to size
      invariant Marked(isFunction) == taken
      invariant Snapshot(modules) == PartlyMasked(was, msk, taken, y, 0)
    {
      for x := 0 to size
        invariant Marked(isFunction) == taken
        invariant Snapshot(modules) == PartlyMasked(was, msk, taken, y, x)
      {
        PartlyMaskedSteps(was, msk, taken, size, y, x);
        MarkedAt(isFunction, y, x);
        ModuleAt(modules, y, x);
        SetModule(modules, x, y, modules[y, x] != (Inverts(msk, x, y) && !isFunction[y, x]));
      }
      PartlyMaskedSteps(was, msk, taken, size, y, size);
    }
    ok := true;
  }

  lemma MarkedAt(f: array2<bool>, y: int, x: int)
    requires 0 <= y < f.Length0 && 0 <= x < f.Length1
    ensures f[y, x] <==> Cell(y, x) in Marked(f)
  {}

  lemma ModuleAt(m: array2<bool>, y: int, x: int)
    requires 0 <= y < m.Length0 && 0 <= x < m.Length1
    ensures Cell(y, x) in Snapshot(m) && Snapshot(m)[Cell(y, x)] == m[y, x]
  {}

  // ----- the round trip

  /** The captured grid shows the modules g. */
  ghost predicate Shows(code: QuircCode, g: Modules) {
    code.Complete() && forall c | InGrid(code.size, c) :: c in g && GridBit(code, c.x, c.y) == g[c]
  }

  /** The cell of bit p of a bitmap. */
  function CellOf(size: nat, p: nat): Cell
    requires size > 0
  {
    Cell(p / size, p % size)
  }

  function Module(g: Modules, size: nat, p: nat): bool
    requires size > 0
  {
    CellOf(size, p) in g && g[CellOf(size, p)]
  }

  function BitmapByte(g: Modules, size: nat, k: nat): bv8
    requires size > 0
  {
    ByteOf(Module(g, size, k + 7), Module(g, size, k + 6), Module(g, size, k + 5), Module(g, size, k + 4),
           Module(g, size, k + 3), Module(g, size, k + 2), Module(g, size, k + 1), Module(g, size, k))
  }

  lemma BitmapByteBits(g: Modules, size: nat, k: nat, p: nat)
    requires size > 0 && p < 8
    ensures BitAt(BitmapByte(g, size, k), 7 - p) == Module(g, size, k + p)
  {
    hide BitAt, ByteOf, Module;
    ByteOfBits(Module(g, size, k + 7), Module(g, size, k + 6), Module(g, size, k + 5), Module(g, size, k + 4),
               Module(g, size, k + 3), Module(g, size, k + 2), Module(g, size, k + 1), Module(g, size, k), 7 - p);
  }

  lemma LowBit(b: bv8, p: nat)
    requires p < 8
    ensures (b >> p) & 1 == 1 <==> BitAt(b, 7 - p)
  {}

  /** An exact capture of the modules. */
  function CaptureOf(g: Modules, size: nat): (code: QuircCode)
    requires size > 0
    ensures code.size == size && code.Complete()
  {
    QuircCode(size, seq(Area(size) / 8 + 1, q requires 0 <= q < Area(size) / 8 + 1 => BitmapByte(g, size, 8 * q)))
  }

  lemma RowAndColumn(size: nat, x: int, y: int)
    requires 0 <= x < size && 0 <= y
    ensures (y * size + x) / size == y && (y * size + x) % size == x
  {
    var p := y * size + x;
    var q, r := p / size, p % size;
    assert q * size + r == p;
    if q < y {
      Rows(q + 1, y, size);
    } else if q > y {
      Rows(y + 1, q, size);
    }
  }

  lemma CaptureShows(g: Modules, size: nat)
    requires size > 0 && forall c :: InGrid(size, c) ==> c in g
    ensures Shows(CaptureOf(g, size), g)
  {
    hide BitAt, BitmapByte, Area, Module;
    var code := CaptureOf(g, size);
    forall c | InGrid(size, c)
      ensures c in g && GridBit(code, c.x, c.y) == g[c]
    {
      CapturedBit(g, size, c);
    }
  }

  lemma CapturedBit(g: Modules, size: nat, c: Cell)
    requires size > 0 && InGrid(size, c) && c in g
    ensures GridBit(CaptureOf(g, size), c.x, c.y) == g[c]
  {
    hide BitAt, BitmapByte, Area;
    BitmapIndex(size, c.x, c.y);
    var p := c.y * size + c.x;
    RowAndColumn(size, c.x, c.y);
    BitmapByteBits(g, size, 8 * (p / 8), p % 8);
    LowBit(BitmapByte(g, size, 8 * (p / 8)), p % 8);
    assert 8 * (p / 8) + p % 8 == p;
    assert CellOf(size, p) == c;
  }

  /** The encoder's data cells of a version, in the order of the scan. */
  ghost function EncoderCells(version: nat): seq<Cell> {
    DataCells(Size(version), FunctionCells(version, AlignmentPositions(version)))
  }

  /** On its data cells a symbol carries the stream, inverted where the mask says. */
  ghost predicate Carries(g: Modules, version: nat, m: int, stream: seq<bv8>) {
    var cells := EncoderCells(version);
    && 8 * |stream| <= |cells|
    && forall k :: 0 <= k < 8 * |stream| ==>
      cells[k] in g && g[cells[k]] == (StreamBit(stream, k) != Inverts(m, cells[k].x, cells[k].y))
  }

  /** What drawCodewords and applyMask make of any modules carries the stream. */
  lemma DrawnCarries(g: Modules, version: nat, m: int, stream: seq<bv8>)
    requires 8 * |stream| <= |EncoderCells(version)|
    ensures var taken := FunctionCells(version, AlignmentPositions(version));
      Carries(Masked(Drawn(g, EncoderCells(version), stream, 8 * |stream|), m, taken), version, m, stream)
  {
    hide StreamBit, Inverts, FunctionCells, AlignmentPositions, DataCells;
    DataCellsInGrid(Size(version), FunctionCells(version, AlignmentPositions(version)));
    DrawnModules(g, EncoderCells(version), stream, 8 * |stream|);
  }

  /** Bytes that hold the bits of a stream are that stream. */
  lemma HeldStream(raw: seq<bv8>, bits: seq<bool>, data: seq<bv8>)
    requires Holds(raw, bits) && |data| <= |raw| && 8 * |data| <= |bits|
    requires forall k :: 0 <= k < 8 * |data| ==> bits[k] == StreamBit(data, k)
    ensures raw[..|data|] == data
  {
    hide BitAt;
    forall q | 0 <= q < |data|
      ensures raw[q] == data[q]
    {
      forall p: nat | p < 8
        ensures BitAt(raw[q], p) == BitAt(data[q], p)
      {
        var k := 8 * q + p;
        assert StreamBit(raw, k) == bits[k] == StreamBit(data, k);
      }
      BytesEqual(raw[q], data[q]);
    }
  }

  /** Draw, mask, capture, read: for every version but 21, every mask, every stream that fits and
      every capture that shows the symbol, the decoder reads exactly the stream that was drawn. */
  lemma ReadBack(code: QuircCode, version: nat, m: int, g: Modules, stream: seq<bv8>, raw: seq<bv8>)
    requires 1 <= version <= 40 && version != 21 && code.Complete() && code.size == Size(version)
    requires Carries(g, version, m, stream) && Shows(code, g) && |stream| <= |raw|
    requires Holds(raw, SeenBits(code, version, m))
    ensures raw[..|stream|] == stream
  {
    hide FunctionCells, AlignmentPositions, VersionDb, DataCells, StreamBit, Holds, GridBit, Inverts, MaskBit;
    ReservedAgreesExactly(version);
    var cells := EncoderCells(version);
    assert DecoderCells(version) == cells;
    forall k | 0 <= k < 8 * |stream|
      ensures BitsSeen(code, m, cells)[k] == StreamBit(stream, k)
    {
      MasksAgree(m, cells[k].y, cells[k].x);
    }
    HeldStream(raw, BitsSeen(code, m, cells), stream);
  }

  ghost predicate ShowsAt(code: QuircCode, g: Modules, c: Cell)
    requires code.Complete()
  {
    InGrid(code.size, c) && c in g && GridBit(code, c.x, c.y) == g[c]
  }

  /** A codeword whose eight modules are shown as they were drawn is read as it was written, whatever the
      other modules show, in every version but 21. */
  lemma UndamagedCodeword(code: QuircCode, version: nat, m: int, g: Modules, stream: seq<bv8>, n: nat, q: nat)
    requires 1 <= version <= 40 && version != 21 && code.Complete() && code.size == Size(version)
    requires Carries(g, version, m, stream) && q < n && q < |stream|
    requires forall k :: 8 * q <= k < 8 * q + 8 ==> ShowsAt(code, g, EncoderCells(version)[k])
    ensures Packed(SeenBits(code, version, m), n)[q] == stream[q]
  {
    hide FunctionCells, AlignmentPositions, VersionDb, DataCells, BitAt, Holds, GridBit, Inverts, MaskBit, PackedByte;
    ReservedAgreesExactly(version);
    var cells := EncoderCells(version);
    assert DecoderCells(version) == cells;
    var bits := SeenBits(code, version, m);
    forall p: nat | p < 8
      ensures BitAt(PackedByte(bits, 8 * q), p) == BitAt(stream[q], p)
    {
      var k := 8 * q + p;
      PackedByteBits(bits, 8 * q, p);
      MasksAgree(m, cells[k].y, cells[k].x);
      assert ShowsAt(code, g, cells[k]);
      assert StreamBit(stream, k) == BitAt(stream[q], p);
    }
    BytesEqual(PackedByte(bits, 8 * q), stream[q]);
  }
}
