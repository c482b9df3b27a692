/** The QrCode constructor of 3rdparty/qrcodegen.cpp: draws a symbol from data codewords and settles
    its mask. */
module QrSymbol {
  import opened VersionTables
  import opened FunctionPatterns
  import opened Zigzag
  import opened SymbolReader
  import Capacity
  import Penalty
  import I = Interleave
  import opened SegmentEncoder

  const LONG_MAX := 0x7fff_ffff_ffff_ffff

  // ----- format information

  /** getFormatBits. */
  function LevelBits(level: Level): bv16 {
    match level
    case Low => 1
    case Medium => 0
    case Quartile => 3
    case High => 2
  }

  function FormatRemainder(rem: bv16, n: nat): bv16
    decreases n
  {
    if n == 0 then rem else FormatRemainder((rem << 1) ^ ((rem >> 9) * 0x537), n - 1)
  }

  /** The format bits of a level and a mask, with their check bits. */
  function FormatBits(level: Level, msk: int): bv16
    requires 0 <= msk <= 7
  {
    var data := (LevelBits(level) << 3) | (msk as bv16);
    ((data << 10) | FormatRemainder(data, 10)) ^ 0x5412
  }

  function GetBit(x: bv16, i: nat): bool
    requires i < 16
  {
    (x >> i) & 1 == 1
  }

  /** The cells that drawFormatBits sets, in its order. */
  function FormatCell(size: int, k: int): Cell {
    if k <= 5 then Cell(k, 8)
    else if k <= 7 then Cell(k + 1, 8)
    else if k == 8 then Cell(8, 7)
    else if k <= 14 then Cell(8, 14 - k)
    else if k <= 22 then Cell(8, size - 1 - (k - 15))
    else if k <= 29 then Cell(size - 30 + k, 8)
    else Cell(size - 8, 8)
  }

  function FormatColour(bits: bv16, k: nat): bool
    requires k < 31
  {
    k == 30 || GetBit(bits, if k < 15 then k else k - 15)
  }

  /** The first n modules that drawFormatBits sets. */
  function FormatModules(size: int, bits: bv16, n: nat): Modules
    requires n <= 31
  {
    if n == 0 then map[]
    else FormatModules(size, bits, n - 1)[FormatCell(size, n - 1) := FormatColour(bits, n - 1)]
  }

  lemma {:induction false} FormatKeys(size: int, a: bv16, b: bv16, n: nat)
    requires n <= 31
    ensures FormatModules(size, a, n).Keys == FormatModules(size, b, n).Keys
  {
    hide FormatColour, FormatCell;
    if n > 0 {
      FormatKeys(size, a, b, n - 1);
    }
  }

  lemma {:induction false} FormatIsFunction(version: nat, bits: bv16, n: nat)
    requires 1 <= version <= 40 && n <= 31
    ensures forall c :: c in FormatModules(Size(version), bits, n) ==>
      InGrid(Size(version), c) && c in FunctionCells(version, AlignmentPositions(version))
  {
    hide FormatColour, AlignmentPositions;
    if n > 0 {
      FormatIsFunction(version, bits, n - 1);
      Capacity.FunctionCellAt(version, AlignmentPositions(version), FormatCell(Size(version), n - 1));
    }
  }

  lemma FormatStep(was: Modules, size: int, bits: bv16, n: nat)
    requires n < 31
    ensures (was + FormatModules(size, bits, n))[FormatCell(size, n) := FormatColour(bits, n)] == was + FormatModules(size, bits, n + 1)
  {
    hide FormatColour, FormatCell;
  }

  /** Sets the k-th format module. */
  method SetFormat(modules: array2<bool>, size: nat, x: int, y: int, v: bool, ghost was: Modules, ghost bits: bv16, ghost k: nat)
    requires modules.Length0 == modules.Length1 == size && 21 <= size && k < 31
    requires FormatCell(size, k) == Cell(y, x) && v == FormatColour(bits, k)
    requires Snapshot(modules) == was + FormatModules(size, bits, k)
    modifies modules
    ensures Snapshot(modules) == was + FormatModules(size, bits, k + 1)
  {
    hide Snapshot, FormatModules, FormatColour;
    SetModule(modules, x, y, v);
    FormatStep(was, size, bits, k);
  }

  /** The module beside the second copy is always dark. */
  lemma DarkModule(size: int, bits: bv16)
    ensures Cell(size - 8, 8) in FormatModules(size, bits, 31) && FormatModules(size, bits, 31)[Cell(size - 8, 8)]
  {
    assert FormatCell(size, 30) == Cell(size - 8, 8);
  }

  method DrawFormatBits(modules: array2<bool>, size: nat, level: Level, msk: int)
    requires modules.Length0 == modules.Length1 == size && 21 <= size && 0 <= msk <= 7
    modifies modules
    ensures Snapshot(modules) == old(Snapshot(modules)) + FormatModules(size, FormatBits(level, msk), 31)
  {
    hide *;
    var bits := FormatBits(level, msk);
    NoModules(Snapshot(modules), size, bits);
    FirstCopy(modules, size, bits, Snapshot(modules));
    SecondCopy(modules, size, bits, old(Snapshot(modules)));
  }

  method FirstCopy(modules: array2<bool>, size: nat, bits: bv16, ghost was: Modules)
    requires modules.Length0 == modules.Length1 == size && 21 <= size
    requires Snapshot(modules) == was + FormatModules(size, bits, 0)
    modifies modules
    ensures Snapshot(modules) == was + FormatModules(size, bits, 15)
  {
    hide Snapshot, GetBit, FormatModules;
    for i := 0 to 6
      invariant Snapshot(modules) == was + FormatModules(size, bits, i)
    {
      SetFormat(modules, size, 8, i, GetBit(bits, i), was, bits, i);
    }
    SetFormat(modules, size, 8, 7, GetBit(bits, 6), was, bits, 6);
    SetFormat(modules, size, 8, 8, GetBit(bits, 7), was, bits, 7);
    SetFormat(modules, size, 7, 8, GetBit(bits, 8), was, bits, 8);
    for i := 9 to 15
      invariant Snapshot(modules) == was + FormatModules(size, bits, i)
    {
      SetFormat(modules, size, 14 - i, 8, GetBit(bits, i), was, bits, i);
    }
  }

  method SecondCopy(modules: array2<bool>, size: nat, bits: bv16, ghost was: Modules)
    requires modules.Length0 == modules.Length1 == size && 21 <= size
    requires Snapshot(modules) == was + FormatModules(size, bits, 15)
    modifies modules
    ensures Snapshot(modules) == was + FormatModules(size, bits, 31)
  {
    hide Snapshot, GetBit, FormatModules;
    for i := 0 to 8
      invariant Snapshot(modules) == was + FormatModules(size, bits, 15 + i)
    {
      SetFormat(modules, size, size - 1 - i, 8, GetBit(bits, i), was, bits, 15 + i);
    }
    for i := 8 to 15
      invariant Snapshot(modules) == was + FormatModules(size, bits, 15 + i)
    {
      SetFormat(modules, size, 8, size - 15 + i, GetBit(bits, i), was, bits, 15 + i);
    }
    SetFormat(modules, size, 8, size - 8, true, was, bits, 30);
  }

  lemma NoModules(was: Modules, size: int, bits: bv16)
    ensures was + FormatModules(size, bits, 0) == was
  {}

  // ----- the mask

  /** The symbol as it would look with the given mask: the trial that getPenaltyScore sees. */
  ghost function Trial(g: Modules, size: int, level: Level, msk: int, taken: set<Cell>): Modules
    requires 0 <= msk <= 7
  {
    Masked(g, msk, taken) + FormatModules(size, FormatBits(level, msk), 31)
  }

  /** g is the symbol was, except perhaps for the format information of an earlier trial. */
  ghost predicate SameCodewords(g: Modules, was: Modules, size: int) {
    g == was || exists bits :: g == was + FormatModules(size, bits, 31)
  }

  /** Masking leaves function modules alone. */
  lemma MaskAround(g: Modules, f: Modules, m: int, taken: set<Cell>)
    requires f.Keys <= taken && f.Keys <= g.Keys
    ensures Masked(g + f, m, taken) == Masked(g, m, taken) + f
  {
    hide Inverts;
  }

  lemma Overwritten(g: Modules, a: Modules, b: Modules)
    requires a.Keys == b.Keys
    ensures (g + a) + b == g + b
  {}

  /** The format information of an earlier trial does not outlive the next one. */
  lemma TrialsIndependent(g: Modules, was: Modules, version: nat, level: Level, msk: int, taken: set<Cell>)
    requires 1 <= version <= 40 && 0 <= msk <= 7 && taken == FunctionCells(version, AlignmentPositions(version))
    requires forall c :: c in was <==> InGrid(Size(version), c)
    requires SameCodewords(g, was, Size(version))
    ensures var size := Size(version);
      && Trial(g, size, level, msk, taken) == Trial(was, size, level, msk, taken)
      && SameCodewords(Masked(Trial(was, size, level, msk, taken), msk, taken), was, size)
  {
    hide FormatModules, FormatBits, Masked, FunctionCells, AlignmentPositions;
    var size, bits := Size(version), FormatBits(level, msk);
    var f := FormatModules(size, bits, 31);
    FormatIsFunction(version, bits, 31);
    MaskAround(Masked(was, msk, taken), f, msk, taken);
    MaskTwice(was, msk, taken);
    assert Masked(Trial(was, size, level, msk, taken), msk, taken) == was + f;
    if g != was {
      var before :| g == was + FormatModules(size, before, 31);
      FormatKeys(size, before, bits, 31);
      FormatIsFunction(version, before, 31);
      MaskAround(was, FormatModules(size, before, 31), msk, taken);
      Overwritten(Masked(was, msk, taken), FormatModules(size, before, 31), f);
    }
  }

  ghost function TrialScore(g: Modules, size: nat, level: Level, msk: int, taken: set<Cell>): int
    requires 0 <= msk <= 7 && size > 0
  {
    Penalty.Score(Trial(g, size, level, msk, taken), size)
  }

  /** msk is the first of n masks whose trial has the least penalty. */
  ghost predicate BestMask(g: Modules, size: nat, level: Level, taken: set<Cell>, msk: int, n: int)
    requires size > 0
  {
    && 0 <= msk < n <= 8
    && (forall i :: 0 <= i < n ==> TrialScore(g, size, level, msk, taken) <= TrialScore(g, size, level, i, taken))
    && (forall i :: 0 <= i < msk ==> TrialScore(g, size, level, msk, taken) < TrialScore(g, size, level, i, taken))
  }

  /** One trial: masks, scores and unmasks. */
  method TryMask(modules: array2<bool>, isFunction: array2<bool>, version: nat, level: Level, i: int, ghost was: Modules)
    returns (penalty: int)
    requires 1 <= version <= 40 && modules != isFunction && 0 <= i <= 7
    requires modules.Length0 == modules.Length1 == isFunction.Length0 == isFunction.Length1 == Size(version)
    requires Marked(isFunction) == FunctionCells(version, AlignmentPositions(version))
    requires forall c :: c in was <==> InGrid(Size(version), c)
    requires SameCodewords(Snapshot(modules), was, Size(version))
    modifies modules
    ensures SameCodewords(Snapshot(modules), was, Size(version))
    ensures penalty == TrialScore(was, Size(version), level, i, Marked(isFunction)) < LONG_MAX
  {
    hide Snapshot, FormatModules, FormatBits, Inverts, FunctionCells, AlignmentPositions, Masked, Marked, SameCodewords, Penalty.Score;
    TrialsIndependent(Snapshot(modules), was, version, level, i, Marked(isFunction));
    var ok := ApplyMask(modules, isFunction, Size(version), i);
    DrawFormatBits(modules, Size(version), level, i);
    penalty := Penalty.GetPenaltyScore(modules, Size(version));
    ok := ApplyMask(modules, isFunction, Size(version), i);
  }

  /** The mask trials of the constructor: the codewords are back in place after every trial, and the
      mask chosen is the best one. */
  method ChooseMask(modules: array2<bool>, isFunction: array2<bool>, version: nat, level: Level) returns (msk: int)
    requires 1 <= version <= 40 && modules != isFunction
    requires modules.Length0 == modules.Length1 == isFunction.Length0 == isFunction.Length1 == Size(version)
    requires Marked(isFunction) == FunctionCells(version, AlignmentPositions(version))
    modifies modules
    ensures BestMask(old(Snapshot(modules)), Size(version), level, Marked(isFunction), msk, 8)
    ensures SameCodewords(Snapshot(modules), old(Snapshot(modules)), Size(version))
  {
    hide Snapshot, FunctionCells, AlignmentPositions, Marked, SameCodewords, TrialScore;
    ghost var was, taken := Snapshot(modules), Marked(isFunction);
    SnapshotKeys(modules);
    Unchanged(was, Size(version));
    msk := -1;
    var minPenalty := LONG_MAX;
    for i := 0 to 8
      invariant Marked(isFunction) == taken
      invariant SameCodewords(Snapshot(modules), was, Size(version))
      invariant if i == 0 then msk == -1 && minPenalty == LONG_MAX
        else BestMask(was, Size(version), level, taken, msk, i) && minPenalty == TrialScore(was, Size(version), level, msk, taken)
    {
      var penalty := TryMask(modules, isFunction, version, level, i, was);
      if penalty < minPenalty {
        msk := i;
        minPenalty := penalty;
      }
    }
  }

  lemma Unchanged(g: Modules, size: int)
    ensures SameCodewords(g, g, size)
  {}

  lemma SnapshotKeys(m: array2<bool>)
    requires m.Length0 == m.Length1
    ensures forall c :: c in Snapshot(m) <==> InGrid(m.Length0, c)
  {}

  // ----- the constructor

  class QrCode {
    const version: nat
    const level: Level
    var mask: int
    const modules: array2<bool>
    const isFunction: array2<bool>

    ghost predicate Valid() {
      && 1 <= version <= 40 && modules != isFunction
      && modules.Length0 == modules.Length1 == isFunction.Length0 == isFunction.Length1 == Size(version)
    }

    constructor (version: nat, level: Level, colours: (nat, nat) -> bool)
      requires 1 <= version <= 40
      ensures Valid() && this.version == version && this.level == level
      ensures fresh(modules) && fresh(isFunction)
      ensures forall y, x :: 0 <= y < Size(version) && 0 <= x < Size(version) ==> !isFunction[y, x]
    {
      this.version := version;
      this.level := level;
      mask := -1;
      modules := new bool[Size(version), Size(version)](colours);
      isFunction := new bool[Size(version), Size(version)]((_, _) => false);
    }
  }

  datatype Drawing = Symbol(qr: QrCode) | DomainError | InvalidArgument

  /** The codewords of a symbol: the blocks carry the data in order, and the stream interleaves them. */
  ghost predicate Encodes(stream: seq<bv8>, words: seq<seq<bv8>>, version: nat, level: Level, data: seq<bv8>)
    requires 1 <= version <= 40
  {
    LayoutAgrees(version, level);
    var nb := NumBlocks(level, version);
    var sb, lb := DecoderParams(version, level), RawModules(version) / 8 % nb;
    I.Codewords(words, sb, lb) && I.Interleaves(stream, words, sb, lb) && I.DataOf(words, sb, nb) == data
  }

  /** The codewords of a symbol fill its data cells, up to less than a byte. */
  lemma StreamFits(stream: seq<bv8>, words: seq<seq<bv8>>, version: nat, level: Level, data: seq<bv8>)
    requires 1 <= version <= 40 && Encodes(stream, words, version, level, data)
    ensures |stream| == RawModules(version) / 8 && 8 * |stream| <= |EncoderCells(version)|
  {
    hide I.Codewords, I.Interleaves, I.StreamSize, I.DataBefore, I.DataOf, RawModules, NumBlocks, EccPerBlock, DecoderParams, DataCells,
      FunctionCells, AlignmentPositions;
    LayoutAgrees(version, level);
    var nb, raw := NumBlocks(level, version), RawModules(version) / 8;
    I.LayoutSizes(nb, EccPerBlock(level, version), raw);
    I.StreamLength(stream, words, DecoderParams(version, level), raw % nb);
    Capacity.RawModulesCounted(version);
  }

  /** A trial carries the stream that was drawn. */
  lemma TrialCarries(g: Modules, version: nat, level: Level, msk: int, stream: seq<bv8>)
    requires 1 <= version <= 40 && 0 <= msk <= 7 && 8 * |stream| <= |EncoderCells(version)|
    ensures var taken := FunctionCells(version, AlignmentPositions(version));
      Carries(Trial(Drawn(g, EncoderCells(version), stream, 8 * |stream|), Size(version), level, msk, taken), version, msk, stream)
  {
    hide FunctionCells, AlignmentPositions, DataCells, Masked, FormatModules, FormatBits, Drawn, StreamBit, Inverts;
    DrawnCarries(g, version, msk, stream);
    DataCellsInGrid(Size(version), FunctionCells(version, AlignmentPositions(version)));
    FormatIsFunction(version, FormatBits(level, msk), 31);
  }

  /** Chooses the mask if need be and applies it. */
  method SettleMask(modules: array2<bool>, isFunction: array2<bool>, version: nat, level: Level, msk: int)
    returns (mask: int)
    requires 1 <= version <= 40 && modules != isFunction && -1 <= msk <= 7
    requires modules.Length0 == modules.Length1 == isFunction.Length0 == isFunction.Length1 == Size(version)
    requires Marked(isFunction) == FunctionCells(version, AlignmentPositions(version))
    modifies modules
    ensures 0 <= mask <= 7
    ensures if msk == -1 then BestMask(old(Snapshot(modules)), Size(version), level, Marked(isFunction), mask, 8) else mask == msk
    ensures Snapshot(modules) == Trial(old(Snapshot(modules)), Size(version), level, mask, Marked(isFunction))
  {
    hide Snapshot, FunctionCells, AlignmentPositions, Marked, SameCodewords, Masked, FormatModules, FormatBits;
    ghost var was := Snapshot(modules);
    SnapshotKeys(modules);
    Unchanged(was, Size(version));
    mask := msk;
    if mask == -1 {
      mask := ChooseMask(modules, isFunction, version, level);
    }
    TrialsIndependent(Snapshot(modules), was, version, level, mask, Marked(isFunction));
    var ok := ApplyMask(modules, isFunction, Size(version), mask);
    DrawFormatBits(modules, Size(version), level, mask);
  }

  /** The constructor: a symbol that carries the data codewords under its mask. The mask is the one
      asked for or, for -1, the best one. The colours of the function patterns are arbitrary. */
  method DrawSymbol(ver: int, ecl: Level, dataCodewords: seq<bv8>, msk: int, colours: (nat, nat) -> bool)
    returns (r: Drawing, ghost stream: seq<bv8>, ghost words: seq<seq<bv8>>, ghost drawn: Modules)
    ensures r.DomainError? <==> !(1 <= ver <= 40 && -1 <= msk <= 7)
    ensures r.InvalidArgument? <==> 1 <= ver <= 40 && -1 <= msk <= 7 && |dataCodewords| != NumDataCodewords(ver, ecl)
    ensures r.Symbol? ==>
      && r.qr.Valid() && r.qr.version == ver && r.qr.level == ecl && 0 <= r.qr.mask <= 7
      && Encodes(stream, words, ver, ecl, dataCodewords)
      && Carries(Snapshot(r.qr.modules), ver, r.qr.mask, stream)
    ensures r.Symbol? ==>
      var size, taken := Size(ver), FunctionCells(ver, AlignmentPositions(ver));
      && Snapshot(r.qr.modules) == Trial(drawn, size, ecl, r.qr.mask, taken)
      && if msk == -1 then BestMask(drawn, size, ecl, taken, r.qr.mask, 8) else r.qr.mask == msk
  {
    hide Snapshot, FunctionCells, AlignmentPositions, SameCodewords, Trial, Carries, BestMask, DataCells, Drawn;
    hide NumBlocks, EccPerBlock, RawModules, VersionDb, DecoderParams, I.Codewords, I.Interleaves, I.DataOf, I.StreamSize, I.DataBefore;
    stream, words, drawn := [], [], map[];
    if ver < 1 || ver > 40 || msk < -1 || msk > 7 {
      r := DomainError;
      return;
    }
    var qr := new QrCode(ver, ecl, colours);
    assert Marked(qr.isFunction) == {};
    DrawFunctionPatterns(qr.isFunction, ver);
    LayoutAgrees(ver, ecl);
    var ok, allCodewords;
    ok, allCodewords, words := I.AddEccAndInterleave(dataCodewords, NumBlocks(ecl, ver), EccPerBlock(ecl, ver), RawModules(ver) / 8);
    if !ok {
      r := InvalidArgument;
      return;
    }
    stream := allCodewords;
    StreamFits(stream, words, ver, ecl, dataCodewords);
    ghost var blank := Snapshot(qr.modules);
    var i := DrawCodewords(qr.modules, qr.isFunction, Size(ver), allCodewords);
    drawn := Snapshot(qr.modules);
    assert drawn == Drawn(blank, EncoderCells(ver), stream, 8 * |stream|);
    qr.mask := SettleMask(qr.modules, qr.isFunction, ver, ecl, msk);
    TrialCarries(blank, ver, ecl, qr.mask, stream);
    r := Symbol(qr);
  }
}
