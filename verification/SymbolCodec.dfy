/** The whole way from text to a QR symbol and back: quirc_decode, and the theorem that it returns the
    text that encodeSegments and the QrCode constructor were given. */
module SymbolCodec {
  import opened Gf256
  import opened BlockDecoder
  import opened Interleave
  import opened VersionTables
  import opened FunctionPatterns
  import opened Zigzag
  import opened SymbolReader
  import opened PayloadDecoder
  import opened QrSymbol
  import opened SegmentEncoder
  import P = Payload
  import Poly = Polynomials
  import S = Segments
  import R = FormatReader
  import opened FormatInfo

  const MAX_GRID_SIZE := 177

  datatype DecodeStatus = Decoded | InvalidGridSize | InvalidVersion | FormatEcc | DataEcc | BadPayload(e: P.Error)

  type Format = R.Format

  // ----- errors in a captured symbol

  ghost function LongCount(version: nat, level: Level): nat
    requires 1 <= version <= 40
  {
    LayoutAgrees(version, level);
    RawModules(version) / 8 % NumBlocks(level, version)
  }

  /** The codewords read differ from the stream drawn in few enough places: in every block, twice the
      number of wrong codewords, and of the byte that a long block always gets wrong, is at most the
      number of parity bytes. */
  ghost predicate Readable(received: seq<bv8>, stream: seq<bv8>, version: nat, level: Level)
    requires 1 <= version <= 40
  {
    LayoutAgrees(version, level);
    var sb, lb := DecoderParams(version, level), LongCount(version, level);
    forall i :: 0 <= i < sb.ns + lb ==>
      2 * (Distance(Gathered(received, sb, lb, i), Gathered(stream, sb, lb, i)) + if i < sb.ns then 0 else 1) <= sb.bs - sb.dw
  }

  lemma {:induction false} NoDistance(d: seq<bv8>)
    ensures Distance(d, d) == 0
  {
    hide Add;
    if d != [] {
      NoDistance(d[1..]);
      assert Difference(d, d)[1..] == Difference(d[1..], d[1..]);
      AddCancel(d[0], d[0]);
    }
  }

  /** A stream read without errors is readable: every level has parity for the misread bytes. */
  lemma ExactlyReadable(stream: seq<bv8>, version: nat, level: Level)
    requires 1 <= version <= 40
    ensures Readable(stream, stream, version, level)
  {
    hide Distance, Gathered, DecoderParams, NumBlocks, EccPerBlock, RawModules, VersionDb;
    LayoutAgrees(version, level);
    var sb, lb := DecoderParams(version, level), LongCount(version, level);
    forall i | 0 <= i < sb.ns + lb
      ensures Distance(Gathered(stream, sb, lb, i), Gathered(stream, sb, lb, i)) == 0
    {
      NoDistance(Gathered(stream, sb, lb, i));
    }
  }

  // ----- quirc_decode

  /** The codewords that the correction makes of a stream: in every block the one within reach, if there
      is one. */
  ghost predicate Corrected(received: seq<bv8>, words: seq<seq<bv8>>, version: nat, level: Level)
    requires 1 <= version <= 40
  {
    LayoutAgrees(version, level);
    var sb, lb := DecoderParams(version, level), LongCount(version, level);
    AreCodewords(words, version, level) && Nearest(received, words, sb, lb, sb.ns + lb)
  }

  ghost predicate AreCodewords(words: seq<seq<bv8>>, version: nat, level: Level)
    requires 1 <= version <= 40
  {
    LayoutAgrees(version, level);
    Codewords(words, DecoderParams(version, level), LongCount(version, level))
  }

  /** Some block has no codeword within reach. */
  ghost predicate BeyondRepair(received: seq<bv8>, version: nat, level: Level)
    requires 1 <= version <= 40
  {
    LayoutAgrees(version, level);
    var sb, lb := DecoderParams(version, level), LongCount(version, level);
    exists i :: 0 <= i < sb.ns + lb && OutOfReach(Gathered(received, sb, lb, i), Parity(sb))
  }

  /** The data that the blocks carry. */
  ghost function DataIn(words: seq<seq<bv8>>, version: nat, level: Level): (content: seq<bv8>)
    requires 1 <= version <= 40
    requires AreCodewords(words, version, level)
  {
    LayoutAgrees(version, level);
    DataOf(words, DecoderParams(version, level), DecoderParams(version, level).ns + LongCount(version, level))
  }

  /** codestream_ecc, with the parameters that it takes from the version table. */
  method CorrectStream(raw: array<bv8>, data: array<bv8>, version: nat, level: Level)
    returns (ok: bool, dataBits: nat, ghost words: seq<seq<bv8>>)
    requires 1 <= version <= 40 && raw != data
    requires VersionDb(version).dataBytes <= raw.Length && VersionDb(version).dataBytes <= data.Length
    modifies data
    ensures dataBits <= 8 * data.Length
    ensures var received := old(raw[..VersionDb(version).dataBytes]);
      if ok then
        && Corrected(received, words, version, level)
        && dataBits == 8 * |DataIn(words, version, level)|
        && |DataIn(words, version, level)| <= data.Length && data[..|DataIn(words, version, level)|] == DataIn(words, version, level)
      else BeyondRepair(received, version, level)
  {
    hide Gathered, IsCodeword, DataOf, DataBefore, StreamSize, VersionDb, DecoderParams, NumBlocks, EccPerBlock, RawModules, OutOfReach, Nearest;
    LayoutAgrees(version, level);
    var sb, n := DecoderParams(version, level), VersionDb(version).dataBytes;
    LayoutSizes(NumBlocks(level, version), EccPerBlock(level, version), n);
    LongBlocksOf(sb, LongCount(version, level), n);
    ok, dataBits, words := CodestreamEcc(raw, data, sb, n);
  }

  /** What a symbol was made of is what the correction finds, as long as the codewords can be read. */
  lemma WordsFound(received: seq<bv8>, stream: seq<bv8>, words: seq<seq<bv8>>, version: nat, level: Level, content: seq<bv8>)
    requires 1 <= version <= 40 && Encodes(stream, words, version, level, content) && Readable(received, stream, version, level)
    ensures !BeyondRepair(received, version, level)
    ensures forall found :: Corrected(received, found, version, level) ==> found == words && DataIn(found, version, level) == content
  {
    hide Distance, Gathered, IsCodeword, Interleaves, DataOf, VersionDb, DecoderParams, NumBlocks, EccPerBlock, RawModules, OutOfReach, Nearest;
    LayoutAgrees(version, level);
    var sb, lb := DecoderParams(version, level), LongCount(version, level);
    DamageCorrectable(received, stream, words, sb, lb);
    forall i | 0 <= i < sb.ns + lb ensures !OutOfReach(Gathered(received, sb, lb, i), Parity(sb)) {
      SentInReach(received, words, sb, lb, i);
    }
    forall found | Corrected(received, found, version, level) ensures found == words {
      SentIsNearest(received, found, words, sb, lb);
    }
  }

  /** The codewords as the decoder reads them from a captured symbol under a mask. */
  ghost function Captured(code: QuircCode, version: nat, mask: int): (received: seq<bv8>)
    requires code.Complete() && 1 <= version <= 40 && code.size == Size(version)
  {
    Packed(SeenBits(code, version, mask), VersionDb(version).dataBytes)
  }

  /** The codewords are corrected, and what decode_payload says of their data is done. */
  ghost predicate ContentSeen(received: seq<bv8>, words: seq<seq<bv8>>, version: nat, level: Level, st: DecodeStatus, d: QuircData)
    requires 1 <= version <= 40 && d.Valid()
    reads d, d.payload
  {
    if st == DataEcc then BeyondRepair(received, version, level)
    else
      && Corrected(received, words, version, level)
      && var content := DataIn(words, version, level);
        match P.Decode(BitsFrom(content, 0, 8 * |content|), version, P.Gathered("", 0, 0))
          case Failed(e) => st == BadPayload(e)
          case Next(g, _) => st == Decoded && (|g.text| < P.MAX_PAYLOAD ==> d.Gathered() == g)
  }

  /** One of the two copies of the format information is accepted. */
  ghost predicate FormatAccepted(code: QuircCode)
    requires code.Complete() && 21 <= code.size
  {
    Accepted(R.Copy(code, false)) || Accepted(R.Copy(code, true))
  }

  /** The level and the mask that the decoder goes by. */
  ghost function FormatRead(code: QuircCode): (format: Format)
    requires code.Complete() && 21 <= code.size
    ensures 0 <= format.mask <= 7
  {
    R.FormatIn(R.Settled(code))
  }

  /** quirc_decode. */
  method Decode(code: QuircCode) returns (st: DecodeStatus, d: QuircData, ghost words: seq<seq<bv8>>)
    requires code.size <= MAX_GRID_SIZE ==> code.Complete()
    ensures d.Valid()
    ensures st == InvalidGridSize <==> code.size > MAX_GRID_SIZE || (code.size - 17) % 4 != 0
    ensures st == InvalidVersion <==> code.size < 21 && (code.size - 17) % 4 == 0
    ensures st != InvalidGridSize && st != InvalidVersion ==>
      var version := (code.size - 17) / 4;
      && 1 <= version <= 40 && d.version == version && (st == FormatEcc <==> !FormatAccepted(code))
      && var format := FormatRead(code);
        FormatAccepted(code) ==> ContentSeen(Captured(code, version, format.mask), words, version, format.level, st, d)
  {
    hide Captured, ContentSeen, VersionDb, Accepted, R.Settled, R.FormatIn, R.Copy;
    words := [];
    d := new QuircData(0);
    if code.size > MAX_GRID_SIZE || (code.size - 17) % 4 != 0 {
      st := InvalidGridSize;
      return;
    }
    var version := (code.size - 17) / 4;
    if version < 1 || version > 40 {
      st := InvalidVersion;
      return;
    }
    d.version := version;
    var ok, format := R.FindFormat(code);
    if !ok {
      st := FormatEcc;
      return;
    }
    st, words := DecodeContent(code, version, format, d);
  }

  /** The rest of quirc_decode. */
  method DecodeContent(code: QuircCode, version: nat, format: Format, d: QuircData)
    returns (st: DecodeStatus, ghost words: seq<seq<bv8>>)
    requires 1 <= version <= 40 && code.size == Size(version) <= MAX_GRID_SIZE && code.Complete()
    requires d.Valid() && d.version == version && d.Gathered() == P.Gathered("", 0, 0)
    modifies d`payloadLen, d`dataType, d`eci, d.payload
    ensures d.Valid()
    ensures st in {DataEcc, Decoded} || st.BadPayload?
    ensures ContentSeen(Captured(code, version, format.mask), words, version, format.level, st, d)
  {
    hide P.Decode, Holds, DecoderCells, SeenBits, VersionDb, BeyondRepair, DataIn, AreCodewords, Packed;
    var raw := new bv8[P.MAX_PAYLOAD](_ => 0);
    GridBound(code.size);
    var n := ReadData(code, version, format.mask, raw);
    StreamBound(version);
    HoldsPacked(raw[..], SeenBits(code, version, format.mask), VersionDb(version).dataBytes);
    ghost var received := Captured(code, version, format.mask);
    assert raw[..VersionDb(version).dataBytes] == raw[..][..VersionDb(version).dataBytes] == received;
    var data := new bv8[P.MAX_PAYLOAD];
    var ok, dataBits;
    ok, dataBits, words := CorrectStream(raw, data, version, format.level);
    if !ok {
      st := DataEcc;
      return;
    }
    ghost var content := DataIn(words, version, format.level);
    var ds := new Datastream(data[..], dataBits);
    assert ds.Remaining() == BitsFrom(content, 0, 8 * |content|) by { SameBits(data[..], content, dataBits); }
    var status := DecodePayload(d, ds);
    st := match status case Success => Decoded case Error(e) => BadPayload(e);
  }

  lemma GridBound(size: nat)
    requires size <= MAX_GRID_SIZE
    ensures Area(size) <= 8 * P.MAX_PAYLOAD
  {
    MulLe(size, MAX_GRID_SIZE, size);
    MulLe(size, MAX_GRID_SIZE, MAX_GRID_SIZE);
  }

  lemma SameBits(data: seq<bv8>, content: seq<bv8>, n: nat)
    requires n <= 8 * |data|
    ensures |content| <= |data| && data[..|content|] == content && n == 8 * |content| ==>
      BitsFrom(data, 0, n) == BitsFrom(content, 0, 8 * |content|)
  {
    hide StreamBit;
    if |content| <= |data| && data[..|content|] == content && n == 8 * |content| {
      forall k | 0 <= k < n
        ensures StreamBit(data, k) == StreamBit(content, k)
      {
        assert data[k / 8] == data[..|content|][k / 8];
        BitSame(data, content, k);
      }
    }
  }

  lemma BitSame(a: seq<bv8>, b: seq<bv8>, k: nat)
    requires k / 8 < |a| && k / 8 < |b| && a[k / 8] == b[k / 8]
    ensures StreamBit(a, k) == StreamBit(b, k)
  {}

  /** A symbol has at most 3706 codewords: version 40. */
  lemma StreamBound(version: nat)
    requires 1 <= version <= 40
    ensures VersionDb(version).dataBytes <= P.MAX_PAYLOAD
  {
    hide VersionDb, RawModules;
    SizeAgreesAlways(version);
    RawBound(version);
  }

  lemma RawBound(version: nat)
    requires 1 <= version <= 40
    ensures RawModules(version) <= 30784
  {
    var n := version / 7 + 2;
    MulLe(40, 25 * n - 10, n);
    MulLe(16 * version + 128, 768, version);
  }

  // ----- text to symbol to text

  /** Segments that encodeSegments accepted for this symbol. */
  ghost predicate Written(cs: seq<P.Content>, version: nat, level: Level, content: seq<bv8>)
    requires 1 <= version <= 40
  {
    && (forall i :: 0 <= i < |cs| ==> P.ValidContent(cs[i]))
    && Fits(P.SegmentsFor(cs), version, level)
    && |content| == NumDataCodewords(version, level)
    && HoldsPadded(content, P.AllBits(P.SegmentsFor(cs), version))
  }

  /** The bytes hold the bits, with terminator and padding. */
  ghost predicate HoldsPadded(content: seq<bv8>, bits: seq<bool>) {
    |bits| <= 8 * |content| && Holds(content, PaddedBits(bits, 8 * |content|))
  }

  lemma HeldBits(content: seq<bv8>, bits: seq<bool>)
    requires Holds(content, bits) && |bits| == 8 * |content|
    ensures BitsFrom(content, 0, 8 * |content|) == bits
  {
    hide StreamBit;
  }

  /** The data codewords of any accepted segments decode to the segments' text. */
  lemma ContentDecodes(cs: seq<P.Content>, version: nat, level: Level, content: seq<bv8>)
    requires 1 <= version <= 40 && Written(cs, version, level, content)
    ensures var d := P.Decode(BitsFrom(content, 0, 8 * |content|), version, P.Gathered("", 0, 0));
      d.Next? && d.state == P.AfterAll(P.Gathered("", 0, 0), cs) && d.state.text == P.AllText(cs) && |d.state.text| < P.MAX_PAYLOAD
  {
    hide P.Decode, P.SegmentFor, P.SegmentBits, P.AllBits, PaddedBits, Holds, NumDataCodewords, P.AfterAll, S.Pow2, S.CountBits, P.EndsPayload;
    var g := P.Gathered("", 0, 0);
    var bits, capacity := P.AllBits(P.SegmentsFor(cs), version), 8 * NumDataCodewords(version, level);
    CapacityBound(version, level);
    PaddingEnds(bits, capacity);
    var padded := PaddedBits(bits, capacity);
    HeldBits(content, padded);
    assert padded == bits + padded[|bits|..];
    forall i | 0 <= i < |cs|
      ensures P.SegmentFor(cs[i]).numChars < S.Pow2(S.CountBits(P.SegmentFor(cs[i]).mode, version))
    {
      SegmentsAt(cs, i);
    }
    P.PayloadRoundTrip(cs, version, padded[|bits|..], g);
    P.AfterAllText(g, cs);
    assert g.text + P.AllText(cs) == P.AllText(cs);
    TextBound(cs, version);
  }

  lemma {:induction false} SegmentsAt(cs: seq<P.Content>, i: nat)
    requires i < |cs| && forall k :: 0 <= k < |cs| ==> P.ValidContent(cs[k])
    ensures P.SegmentsFor(cs)[i] == P.SegmentFor(cs[i])
  {
    hide P.SegmentFor;
    if i > 0 {
      SegmentsAt(cs[1..], i - 1);
    }
  }

  lemma {:induction false} TextBound(cs: seq<P.Content>, version: int)
    requires forall k :: 0 <= k < |cs| ==> P.ValidContent(cs[k])
    ensures 10 * |P.AllText(cs)| <= 3 * |P.AllBits(P.SegmentsFor(cs), version)|
  {
    hide P.SegmentFor, P.SegmentBits;
    if cs != [] {
      P.TextFits(cs[0]);
      P.SegmentLength(P.SegmentFor(cs[0]), version);
      TextBound(cs[1..], version);
      assert P.SegmentsFor(cs)[1..] == P.SegmentsFor(cs[1..]);
    }
  }

  datatype Writing = Symbol(qr: QrCode) | LengthError | ArgumentError

  /** The format word of the level and the mask. */
  function FormatWord(format: Format): (c: seq<bool>)
    requires 0 <= format.mask <= 7
    ensures |c| == FORMAT_BITS
  {
    R.Bits(R.CodeWord(format.level, format.mask), FORMAT_BITS)
  }

  /** The symbol shows the format bits of the level and the mask in both copies. */
  ghost predicate FormatOn(g: Modules, size: int, format: Format) {
    && 0 <= format.mask <= 7
    && forall k :: 0 <= k < 30 ==>
      FormatCell(size, k) in g && g[FormatCell(size, k)] == FormatColour(FormatBits(format.level, format.mask), k)
  }

  /** The symbol that a QrCode shows was made from these segments. */
  ghost predicate WrittenOn(g: Modules, cs: seq<P.Content>, version: nat, format: Format,
                            content: seq<bv8>, stream: seq<bv8>, words: seq<seq<bv8>>)
  {
    && 1 <= version <= 40 && Written(cs, version, format.level, content)
    && Encodes(stream, words, version, format.level, content) && Carries(g, version, format.mask, stream)
    && FormatOn(g, Size(version), format)
  }

  lemma FormatCellsDiffer(size: int, j: nat, k: nat)
    requires 21 <= size && j < k < 31
    ensures FormatCell(size, j) != FormatCell(size, k)
  {}

  lemma {:induction false} FormatModuleAt(size: int, bits: bv16, n: nat, k: nat)
    requires 21 <= size && k < n <= 31
    ensures FormatCell(size, k) in FormatModules(size, bits, n)
    ensures FormatModules(size, bits, n)[FormatCell(size, k)] == FormatColour(bits, k)
  {
    hide FormatColour, FormatCell;
    if k < n - 1 {
      FormatModuleAt(size, bits, n - 1, k);
      FormatCellsDiffer(size, k, n - 1);
    }
  }

  /** A trial shows the format bits. */
  lemma TrialFormat(g: Modules, version: nat, level: Level, msk: int, taken: set<Cell>)
    requires 1 <= version <= 40 && 0 <= msk <= 7
    ensures FormatOn(Trial(g, Size(version), level, msk, taken), Size(version), R.Format(level, msk))
  {
    hide FormatColour, FormatCell, FormatModules, FormatBits, Masked;
    forall k | 0 <= k < 30
      ensures var t := Trial(g, Size(version), level, msk, taken);
        FormatCell(Size(version), k) in t && t[FormatCell(Size(version), k)] == FormatColour(FormatBits(level, msk), k)
    {
      FormatModuleAt(Size(version), FormatBits(level, msk), 31, k);
    }
  }

  /** An exact capture shows the encoder's format word in both copies. */
  lemma FormatShown(code: QuircCode, g: Modules, format: Format)
    requires 21 <= code.size && Shows(code, g) && FormatOn(g, code.size, format)
    ensures forall second :: R.Copy(code, second) == FormatWord(format)
  {
    hide R.Bits, R.CodeWord, FormatBits, GetBit, GridBit;
    forall second, i | 0 <= i < FORMAT_BITS
      ensures R.CopyShows(code, second, i, GetBit(FormatBits(format.level, format.mask), i))
    {
      R.CopyInGrid(code.size, second, i);
    }
    forall second ensures R.Copy(code, second) == R.Bits(R.CodeWord(format.level, format.mask), FORMAT_BITS) {
      R.ShownBits(code, format.level, format.mask, second);
    }
  }

  lemma NoErrors(u: seq<bool>)
    ensures Errors(u, u) == 0
  {
    NoneCounted(u, |u|);
  }

  lemma {:induction false} NoneCounted(u: seq<bool>, m: nat)
    requires m <= |u|
    ensures Count(Differing(u, u), m) == 0
  {
    if m > 0 { NoneCounted(u, m - 1); }
  }

  /** encodeSegments as a whole: a symbol of the smallest version that holds the segments, or the
      reason why there is none. */
  method WriteSymbol(cs: seq<P.Content>, ecl: Level, minVersion: int, maxVersion: int, mask: int, boostEcl: bool,
                     colours: (nat, nat) -> bool)
    returns (r: Writing, ghost content: seq<bv8>, ghost stream: seq<bv8>, ghost words: seq<seq<bv8>>)
    requires forall i :: 0 <= i < |cs| ==> P.ValidContent(cs[i])
    ensures r.ArgumentError? <==> !ValidRange(minVersion, maxVersion, mask)
    ensures r.LengthError? <==>
      ValidRange(minVersion, maxVersion, mask) && FitsNowhere(P.SegmentsFor(cs), ecl, minVersion, maxVersion)
    ensures r.Symbol? ==>
      && r.qr.Valid() && minVersion <= r.qr.version <= maxVersion
      && (forall v :: minVersion <= v < r.qr.version ==> !Fits(P.SegmentsFor(cs), v, ecl))
      && (mask == -1 || r.qr.mask == mask)
      && WrittenOn(Snapshot(r.qr.modules), cs, r.qr.version, R.Format(r.qr.level, r.qr.mask), content, stream, words)
  {
    hide P.AllBits, CountsFit, NumDataCodewords, PaddedBits, Holds, Boosted, Snapshot, Encodes, Carries, Trial, BestMask;
    content, stream, words := [], [], [];
    var e := EncodeSegments(P.SegmentsFor(cs), ecl, minVersion, maxVersion, mask, boostEcl);
    match e {
      case Invalid =>
        r := ArgumentError;
      case TooLong =>
        r := LengthError;
      case Encoded(version, level, data) =>
        var drawing;
        ghost var drawn;
        drawing, stream, words, drawn := DrawSymbol(version, level, data, mask, colours);
        content := data;
        TrialFormat(drawn, version, level, drawing.qr.mask, FunctionCells(version, AlignmentPositions(version)));
        r := Writing.Symbol(drawing.qr);
    }
  }

  lemma FormatFound(code: QuircCode, format: Format)
    requires code.Complete() && 21 <= code.size && 0 <= format.mask <= 7
    requires R.Legible(code, FormatWord(format))
    ensures FormatAccepted(code) && FormatRead(code) == format
  {
    hide R.Bits, R.CodeWord, R.Legible, R.Settled, R.Copy, Accepted, IsFormat, R.LevelOf, R.MaskOf;
    R.CodeWordIsFormat(format.level, format.mask);
    R.FieldsOf(format.level, format.mask);
    R.LegibleIsSettled(code, FormatWord(format));
  }

  /** The damage to the capture is within reach. The first copy of the format information has at most three
      wrong bits; or it is not accepted, and the second has at most three. And the codewords that the symbol
      shows are readable. */
  ghost predicate Recoverable(code: QuircCode, version: nat, format: Format, stream: seq<bv8>)
    requires code.Complete() && 1 <= version <= 40 && code.size == Size(version) && 0 <= format.mask <= 7
  {
    && R.Legible(code, FormatWord(format))
    && Readable(Captured(code, version, format.mask), stream, version, format.level)
  }

  /** Exact captures are recoverable in every version but 21. */
  lemma ExactIsRecoverable(code: QuircCode, version: nat, format: Format, g: Modules, cs: seq<P.Content>,
                           content: seq<bv8>, stream: seq<bv8>, words: seq<seq<bv8>>)
    requires version != 21 && WrittenOn(g, cs, version, format, content, stream, words)
    requires code.size == Size(version) && Shows(code, g)
    ensures Recoverable(code, version, format, stream)
  {
    hide R.Copy, FormatWord, FormatCell, FormatColour, FormatBits, Accepted, Errors, Readable, Written, Encodes, Carries,
      VersionDb, Holds, Packed, SeenBits, GridBit;
    FormatShown(code, g, format);
    NoErrors(FormatWord(format));
    StreamIs(stream, words, version, format.level, content);
    var received := Captured(code, version, format.mask);
    PackedHolds(SeenBits(code, version, format.mask), VersionDb(version).dataBytes);
    ReadBack(code, version, format.mask, g, stream, received);
    assert received[..|stream|] == received;
    ExactlyReadable(stream, version, format.level);
  }

  /** The decoder returns the text of the symbol in front of it if the damage to the capture is within reach,
      in particular if the capture is exact and the version is not 21. */
  method ReadSymbol(code: QuircCode, ghost format: Format, ghost g: Modules, ghost cs: seq<P.Content>,
                    ghost content: seq<bv8>, ghost stream: seq<bv8>, ghost words: seq<seq<bv8>>)
    returns (st: DecodeStatus, d: QuircData)
    requires 21 <= code.size <= MAX_GRID_SIZE && (code.size - 17) % 4 == 0 && code.Complete()
    requires WrittenOn(g, cs, (code.size - 17) / 4, format, content, stream, words)
    ensures d.Valid()
    ensures Recoverable(code, (code.size - 17) / 4, format, stream) ==>
      st == Decoded && d.Text() == P.AllText(cs) && d.Gathered() == P.AfterAll(P.Gathered("", 0, 0), cs)
    ensures (code.size - 17) / 4 != 21 && Shows(code, g) ==>
      st == Decoded && d.Text() == P.AllText(cs) && d.Gathered() == P.AfterAll(P.Gathered("", 0, 0), cs)
  {
    hide P.Decode, Readable, Captured, VersionDb, Encodes, Written, Carries, Shows, P.AfterAll, R.Legible,
      BeyondRepair, DataIn, FormatAccepted, FormatRead, FormatCell, FormatColour, FormatBits, FormatWord, AreCodewords;
    ghost var found;
    st, d, found := Decode(code);
    ghost var version := (code.size - 17) / 4;
    ContentDecodes(cs, version, format.level, content);
    if version != 21 && Shows(code, g) {
      ExactIsRecoverable(code, version, format, g, cs, content, stream, words);
    }
    if Recoverable(code, version, format, stream) {
      FormatFound(code, format);
      WordsFound(Captured(code, version, format.mask), stream, words, version, format.level, content);
    }
  }

  lemma StreamIs(stream: seq<bv8>, words: seq<seq<bv8>>, version: nat, level: Level, content: seq<bv8>)
    requires 1 <= version <= 40 && Encodes(stream, words, version, level, content)
    ensures |stream| == VersionDb(version).dataBytes
  {
    hide VersionDb, RawModules, NumBlocks, EccPerBlock, DecoderParams, Encodes;
    StreamFits(stream, words, version, level, content);
    LayoutAgrees(version, level);
  }

  ghost predicate IsGrid(g: Modules, n: nat) {
    forall c :: c in g <==> InGrid(n, c)
  }

  /** From text to text: whatever segments, level, version range and mask are asked for, an exact capture
      of the symbol decodes to the text, unless the version is 21. */
  method Transmit(cs: seq<P.Content>, ecl: Level, minVersion: int, maxVersion: int, mask: int, boostEcl: bool,
                  colours: (nat, nat) -> bool, capture: Modules -> QuircCode)
    returns (sent: bool, version: nat, st: DecodeStatus, text: string)
    requires forall i :: 0 <= i < |cs| ==> P.ValidContent(cs[i])
    requires forall g, n: nat | IsGrid(g, n) :: capture(g).size == n && Shows(capture(g), g)
    ensures sent <==> ValidRange(minVersion, maxVersion, mask) && !FitsNowhere(P.SegmentsFor(cs), ecl, minVersion, maxVersion)
    ensures sent ==> minVersion <= version <= maxVersion
    ensures sent && version != 21 ==> st == Decoded && text == P.AllText(cs)
  {
    hide WrittenOn, Shows, FitsNowhere, P.AllText, P.AfterAll, Readable, Snapshot, VersionDb, P.SegmentsFor, Fits, P.ValidContent;
    st, text, version := InvalidGridSize, "", 0;
    var r;
    ghost var content, stream, words;
    r, content, stream, words := WriteSymbol(cs, ecl, minVersion, maxVersion, mask, boostEcl, colours);
    sent := r.Symbol?;
    if sent {
      var qr := r.qr;
      version := qr.version;
      SnapshotKeys(qr.modules);
      ghost var g := Snapshot(qr.modules);
      assert IsGrid(g, Size(version));
      var code := capture(Snapshot(qr.modules));
      assert code.Complete() by { ShownComplete(code, g); }
      var d;
      st, d := ReadSymbol(code, R.Format(qr.level, qr.mask), g, cs, content, stream, words);
      text := d.payload[..d.payloadLen];
    }
  }

  lemma ShownComplete(code: QuircCode, g: Modules)
    requires Shows(code, g)
    ensures code.Complete()
  {}
}
