/** Version 21, where encoder and decoder place the last alignment pattern differently: symbols that are not
    read back, and so the exact set of versions in which every stream is. */
module MisreadSymbols {
  import opened Bytes
  import opened VersionTables
  import opened FunctionPatterns
  import opened Zigzag
  import opened SymbolReader
  import Capacity

  /** The scan of version 21 begins with its last three column pairs. */
  lemma FirstPairs() returns (start: seq<Cell>, rest: seq<Cell>)
    ensures Path(101, 100, true) == start + rest && |start| == 606 && Cell(96, 96) in start
  {
    hide Pair, Path;
    var p, q, r := Pair(101, 100, true, 0), Pair(101, 98, false, 0), Pair(101, 96, true, 0);
    PairCovers(101, 96, true, 0, Cell(96, 96));
    start, rest := p + (q + r), Path(101, 94, false);
    PathFrom(101, 100, true);
    PathFrom(101, 98, false);
    PathFrom(101, 96, true);
    assert p + (q + (r + rest)) == start + rest;
  }

  /** The decoder takes bit k from the cell. */
  ghost predicate ReadFrom(version: nat, k: nat, c: Cell)
    requires 1 <= version <= 40
  {
    k < |DecoderCells(version)| && DecoderCells(version)[k] == c
  }

  /** Among the first 606 bits that the decoder takes for data in version 21 is one that it reads from an
      alignment pattern. */
  lemma MisreadAt() returns (k: nat)
    ensures k < 606 && ReadFrom(21, k, Cell(96, 96))
    ensures Cell(96, 96) in FunctionCells(21, AlignmentPositions(21))
  {
    hide FunctionCells, AlignmentPositions, VersionDb, Free, Path;
    MisplacedPattern();
    var taken := FunctionCells(21, VersionDb(21).apat);
    var start, rest := FirstPairs();
    FreeAppend(start, rest, taken);
    FreeMembers(start, taken);
    FreeLength(start, taken);
    k :| 0 <= k < |Free(start, taken)| && Free(start, taken)[k] == Cell(96, 96);
    assert DecoderCells(21)[k] == Cell(96, 96);
  }

  /** The capture shows a symbol that carries the stream. */
  ghost predicate CaptureOfStream(code: QuircCode, version: nat, m: int, g: Modules, stream: seq<bv8>)
    requires 1 <= version <= 40
  {
    0 <= m <= 7 && code.Complete() && code.size == Size(version) && Shows(code, g) && Carries(g, version, m, stream)
  }

  /** The bytes that the decoder reads are the stream. */
  ghost predicate ReadExactly(code: QuircCode, version: nat, m: int, stream: seq<bv8>)
    requires 1 <= version <= 40 && code.Complete() && code.size == Size(version)
  {
    Packed(SeenBits(code, version, m), |stream|) == stream
  }

  /** The bit that the decoder takes from the cell. */
  ghost predicate Unmasked(code: QuircCode, m: int, c: Cell)
    requires code.Complete() && InGrid(code.size, c)
  {
    GridBit(code, c.x, c.y) != MaskBit(m, c.y, c.x)
  }

  lemma MisreadBit(code: QuircCode, version: nat, m: int, stream: seq<bv8>, k: nat, c: Cell)
    requires 1 <= version <= 40 && code.Complete() && code.size == Size(version)
    requires InGrid(code.size, c) && ReadFrom(version, k, c) && k < 8 * |stream|
    requires StreamBit(stream, k) != Unmasked(code, m, c)
    ensures !ReadExactly(code, version, m, stream)
  {
    hide DecoderCells, StreamBit, GridBit, MaskBit;
    PackedHolds(SeenBits(code, version, m), |stream|);
  }

  /** A stream of equal bits, as long as a version 21 symbol holds. */
  function Constant(b: bool): (stream: seq<bv8>)
    ensures |stream| == 1156
    ensures forall k :: 0 <= k < 8 * |stream| ==> StreamBit(stream, k) == b
  {
    var v := ByteOf(b, b, b, b, b, b, b, b);
    assert forall p: nat :: p < 8 ==> BitAt(v, p) == b by {
      forall p: nat | p < 8 ensures BitAt(v, p) == b {
        hide BitAt, ByteOf;
        ByteOfBits(b, b, b, b, b, b, b, b, p);
      }
    }
    hide BitAt;
    seq(1156, _ => v)
  }

  /** What drawCodewords and applyMask make of a version 21 symbol whose function modules are drawn. */
  ghost function Symbol21(blank: Modules, m: int, stream: seq<bv8>): (g: Modules)
    requires 8 * |stream| <= |EncoderCells(21)|
  {
    Masked(Drawn(blank, EncoderCells(21), stream, 8 * |stream|), m, FunctionCells(21, AlignmentPositions(21)))
  }

  lemma {:induction false} DrawnKeeps(g: Modules, cells: seq<Cell>, data: seq<bv8>, n: nat, c: Cell)
    requires n <= |cells| && n <= 8 * |data| && c in g && forall k :: 0 <= k < |cells| ==> cells[k] != c
    ensures c in Drawn(g, cells, data, n) && Drawn(g, cells, data, n)[c] == g[c]
  {
    hide StreamBit;
    if n > 0 {
      DrawnKeeps(g, cells, data, n - 1, c);
    }
  }

  lemma {:induction false} DrawnCells(g: Modules, cells: seq<Cell>, data: seq<bv8>, n: nat)
    requires n <= |cells| && n <= 8 * |data|
    ensures g.Keys <= Drawn(g, cells, data, n).Keys
  {
    hide StreamBit;
    if n > 0 {
      DrawnCells(g, cells, data, n - 1);
    }
  }

  lemma RoomFor21()
    ensures |EncoderCells(21)| == 9252
  {
    hide DataCells, FunctionCells, AlignmentPositions;
    Capacity.RawModulesCounted(21);
  }

  /** Over whatever function modules, and under every mask, there is a stream whose symbol is not read back. */
  lemma MisreadSymbol(blank: Modules, m: int) returns (stream: seq<bv8>)
    requires 0 <= m <= 7 && forall c :: InGrid(101, c) ==> c in blank
    ensures |stream| == 1156 && 8 * |stream| <= |EncoderCells(21)|
    ensures var g := Symbol21(blank, m, stream); var code := CaptureOf(g, 101);
      CaptureOfStream(code, 21, m, g, stream) && !ReadExactly(code, 21, m, stream)
  {
    hide Drawn, Masked, DataCells, FunctionCells, AlignmentPositions, VersionDb, DecoderCells, EncoderCells, MaskBit,
      GridBit, Shows, Carries, ReadExactly, StreamBit, Area;
    RoomFor21();
    stream := Constant(blank[Cell(96, 96)] == MaskBit(m, 96, 96));
    var g := Symbol21(blank, m, stream);
    var code := CaptureOf(g, 101);
    SymbolShows(blank, m, stream);
    DrawnCarries(blank, 21, m, stream);
    var k := MisreadAt();
    MisreadBit(code, 21, m, stream, k, Cell(96, 96));
  }

  lemma SymbolShows(blank: Modules, m: int, stream: seq<bv8>)
    requires 8 * |stream| <= |EncoderCells(21)| && forall c :: InGrid(101, c) ==> c in blank
    ensures var g := Symbol21(blank, m, stream);
      Shows(CaptureOf(g, 101), g) && GridBit(CaptureOf(g, 101), 96, 96) == blank[Cell(96, 96)]
  {
    hide Drawn, DataCells, FunctionCells, AlignmentPositions, VersionDb, DecoderCells, Inverts, GridBit, StreamBit, CaptureOf;
    var taken, cells := FunctionCells(21, AlignmentPositions(21)), EncoderCells(21);
    var g := Symbol21(blank, m, stream);
    var k := MisreadAt();
    DataCellsInGrid(101, taken);
    DrawnCells(blank, cells, stream, 8 * |stream|);
    DrawnKeeps(blank, cells, stream, 8 * |stream|, Cell(96, 96));
    CaptureShows(g, 101);
  }

  /** Whatever stream a symbol of the version carries, an exact capture is read back. */
  ghost predicate AlwaysReadBack(version: nat)
    requires 1 <= version <= 40
  {
    forall code, m, g, stream ::
      CaptureOfStream(code, version, m, g, stream) ==> ReadExactly(code, version, m, stream)
  }

  /** That is so in every version but 21. */
  lemma ReadBackExactly(version: nat)
    requires 1 <= version <= 40
    ensures AlwaysReadBack(version) <==> version != 21
  {
    hide Carries, Shows, EncoderCells, DecoderCells, GridBit, ReadExactly;
    if version == 21 {
      var blank := map c | c in Square(101) :: false;
      var stream := MisreadSymbol(blank, 0);
    } else {
      forall code, m, g, stream | CaptureOfStream(code, version, m, g, stream)
        ensures ReadExactly(code, version, m, stream)
      {
        ReadBackHere(code, version, m, g, stream);
      }
    }
  }

  ghost function Square(n: nat): (s: set<Cell>)
    ensures forall c :: c in s <==> InGrid(n, c)
  {
    set y, x | 0 <= y < n && 0 <= x < n :: Cell(y, x)
  }

  lemma ReadBackHere(code: QuircCode, version: nat, m: int, g: Modules, stream: seq<bv8>)
    requires 1 <= version <= 40 && version != 21 && CaptureOfStream(code, version, m, g, stream)
    ensures ReadExactly(code, version, m, stream)
  {
    hide Carries, EncoderCells, DecoderCells, GridBit, Holds, Packed;
    var raw := Packed(SeenBits(code, version, m), |stream|);
    PackedHolds(SeenBits(code, version, m), |stream|);
    ReadBack(code, version, m, g, stream, raw);
    assert raw[..|stream|] == raw;
  }
}
