/** The constant tables of the QR encoder and the QR decoder, one entry per symbol version, and
    what the two sides agree on. */
module VersionTables {
  import opened Interleave

  // ----- the decoder's table

  /** One row of quirc_version_db: the size of the codeword stream, the alignment pattern coordinates
      and the block parameters of the four levels, in the decoder's order M, L, H, Q. */
  datatype VersionInfo = VersionInfo(dataBytes: nat, apat: seq<int>, m: RsParams, l: RsParams, h: RsParams, q: RsParams)

  function VersionDb(version: int): VersionInfo {
    if version <= 20 then
      if version <= 10 then Versions1To10(version) else Versions11To20(version)
    else
      if version <= 30 then Versions21To30(version) else Versions31To40(version)
  }

  function Versions1To10(version: int): VersionInfo {
    match version
    case 1 => VersionInfo(26, [],
      RsParams(26, 16, 1), RsParams(26, 19, 1), RsParams(26, 9, 1), RsParams(26, 13, 1))
    case 2 => VersionInfo(44, [6, 18],
      RsParams(44, 28, 1), RsParams(44, 34, 1), RsParams(44, 16, 1), RsParams(44, 22, 1))
    case 3 => VersionInfo(70, [6, 22],
      RsParams(70, 44, 1), RsParams(70, 55, 1), RsParams(35, 13, 2), RsParams(35, 17, 2))
    case 4 => VersionInfo(100, [6, 26],
      RsParams(50, 32, 2), RsParams(100, 80, 1), RsParams(25, 9, 4), RsParams(50, 24, 2))
    case 5 => VersionInfo(134, [6, 30],
      RsParams(67, 43, 2), RsParams(134, 108, 1), RsParams(33, 11, 2), RsParams(33, 15, 2))
    case 6 => VersionInfo(172, [6, 34],
      RsParams(43, 27, 4), RsParams(86, 68, 2), RsParams(43, 15, 4), RsParams(43, 19, 4))
    case 7 => VersionInfo(196, [6, 22, 38],
      RsParams(49, 31, 4), RsParams(98, 78, 2), RsParams(39, 13, 4), RsParams(32, 14, 2))
    case 8 => VersionInfo(242, [6, 24, 42],
      RsParams(60, 38, 2), RsParams(121, 97, 2), RsParams(40, 14, 4), RsParams(40, 18, 4))
    case 9 => VersionInfo(292, [6, 26, 46],
      RsParams(58, 36, 3), RsParams(146, 116, 2), RsParams(36, 12, 4), RsParams(36, 16, 4))
    case _ => VersionInfo(346, [6, 28, 50],
      RsParams(69, 43, 4), RsParams(86, 68, 2), RsParams(43, 15, 6), RsParams(43, 19, 6))
  }

  function Versions11To20(version: int): VersionInfo {
    match version
    case 11 => VersionInfo(404, [6, 30, 54],
      RsParams(80, 50, 1), RsParams(101, 81, 4), RsParams(36, 12, 3), RsParams(50, 22, 4))
    case 12 => VersionInfo(466, [6, 32, 58],
      RsParams(58, 36, 6), RsParams(116, 92, 2), RsParams(42, 14, 7), RsParams(46, 20, 4))
    case 13 => VersionInfo(532, [6, 34, 62],
      RsParams(59, 37, 8), RsParams(133, 107, 4), RsParams(33, 11, 12), RsParams(44, 20, 8))
    case 14 => VersionInfo(581, [6, 26, 46, 66],
      RsParams(64, 40, 4), RsParams(145, 115, 3), RsParams(36, 12, 11), RsParams(36, 16, 11))
    case 15 => VersionInfo(655, [6, 26, 48, 70],
      RsParams(65, 41, 5), RsParams(109, 87, 5), RsParams(36, 12, 11), RsParams(54, 24, 5))
    case 16 => VersionInfo(733, [6, 26, 50, 74],
      RsParams(73, 45, 7), RsParams(122, 98, 5), RsParams(45, 15, 3), RsParams(43, 19, 15))
    case 17 => VersionInfo(815, [6, 30, 54, 78],
      RsParams(74, 46, 10), RsParams(135, 107, 1), RsParams(42, 14, 2), RsParams(50, 22, 1))
    case 18 => VersionInfo(901, [6, 30, 56, 82],
      RsParams(69, 43, 9), RsParams(150, 120, 5), RsParams(42, 14, 2), RsParams(50, 22, 17))
    case 19 => VersionInfo(991, [6, 30, 58, 86],
      RsParams(70, 44, 3), RsParams(141, 113, 3), RsParams(39, 13, 9), RsParams(47, 21, 17))
    case _ => VersionInfo(1085, [6, 34, 62, 90],
      RsParams(67, 41, 3), RsParams(135, 107, 3), RsParams(43, 15, 15), RsParams(54, 24, 15))
  }

  function Versions21To30(version: int): VersionInfo {
    match version
    case 21 => VersionInfo(1156, [6, 28, 50, 72, 92],
      RsParams(68, 42, 17), RsParams(144, 116, 4), RsParams(46, 16, 19), RsParams(50, 22, 17))
    case 22 => VersionInfo(1258, [6, 26, 50, 74, 98],
      RsParams(74, 46, 17), RsParams(139, 111, 2), RsParams(37, 13, 34), RsParams(54, 24, 7))
    case 23 => VersionInfo(1364, [6, 30, 54, 78, 102],
      RsParams(75, 47, 4), RsParams(151, 121, 4), RsParams(45, 15, 16), RsParams(54, 24, 11))
    case 24 => VersionInfo(1474, [6, 28, 54, 80, 106],
      RsParams(73, 45, 6), RsParams(147, 117, 6), RsParams(46, 16, 30), RsParams(54, 24, 11))
    case 25 => VersionInfo(1588, [6, 32, 58, 84, 110],
      RsParams(75, 47, 8), RsParams(132, 106, 8), RsParams(45, 15, 22), RsParams(54, 24, 7))
    case 26 => VersionInfo(1706, [6, 30, 58, 86, 114],
      RsParams(74, 46, 19), RsParams(142, 114, 10), RsParams(46, 16, 33), RsParams(50, 22, 28))
    case 27 => VersionInfo(1828, [6, 34, 62, 90, 118],
      RsParams(73, 45, 22), RsParams(152, 122, 8), RsParams(45, 15, 12), RsParams(53, 23, 8))
    case 28 => VersionInfo(1921, [6, 26, 50, 74, 98, 122],
      RsParams(73, 45, 3), RsParams(147, 117, 3), RsParams(45, 15, 11), RsParams(54, 24, 4))
    case 29 => VersionInfo(2051, [6, 30, 54, 78, 102, 126],
      RsParams(73, 45, 21), RsParams(146, 116, 7), RsParams(45, 15, 19), RsParams(53, 23, 1))
    case _ => VersionInfo(2185, [6, 26, 52, 78, 104, 130],
      RsParams(75, 47, 19), RsParams(145, 115, 5), RsParams(45, 15, 23), RsParams(54, 24, 15))
  }

  function Versions31To40(version: int): VersionInfo {
    match version
    case 31 => VersionInfo(2323, [6, 30, 56, 82, 108, 134],
      RsParams(74, 46, 2), RsParams(145, 115, 13), RsParams(45, 15, 23), RsParams(54, 24, 42))
    case 32 => VersionInfo(2465, [6, 34, 60, 86, 112, 138],
      RsParams(74, 46, 10), RsParams(145, 115, 17), RsParams(45, 15, 19), RsParams(54, 24, 10))
    case 33 => VersionInfo(2611, [6, 30, 58, 86, 114, 142],
      RsParams(74, 46, 14), RsParams(145, 115, 17), RsParams(45, 15, 11), RsParams(54, 24, 29))
    case 34 => VersionInfo(2761, [6, 34, 62, 90, 118, 146],
      RsParams(74, 46, 14), RsParams(145, 115, 13), RsParams(46, 16, 59), RsParams(54, 24, 44))
    case 35 => VersionInfo(2876, [6, 30, 54, 78, 102, 126, 150],
      RsParams(75, 47, 12), RsParams(151, 121, 12), RsParams(45, 15, 22), RsParams(54, 24, 39))
    case 36 => VersionInfo(3034, [6, 24, 50, 76, 102, 128, 154],
      RsParams(75, 47, 6), RsParams(151, 121, 6), RsParams(45, 15, 2), RsParams(54, 24, 46))
    case 37 => VersionInfo(3196, [6, 28, 54, 80, 106, 132, 158],
      RsParams(74, 46, 29), RsParams(152, 122, 17), RsParams(45, 15, 24), RsParams(54, 24, 49))
    case 38 => VersionInfo(3362, [6, 32, 58, 84, 110, 136, 162],
      RsParams(74, 46, 13), RsParams(152, 122, 4), RsParams(45, 15, 42), RsParams(54, 24, 48))
    case 39 => VersionInfo(3532, [6, 26, 54, 82, 110, 138, 166],
      RsParams(75, 47, 40), RsParams(147, 117, 20), RsParams(45, 15, 10), RsParams(54, 24, 43))
    case _ => VersionInfo(3706, [6, 30, 58, 86, 114, 142, 170],
      RsParams(75, 47, 18), RsParams(148, 118, 19), RsParams(45, 15, 20), RsParams(54, 24, 34))
  }

  datatype Level = Low | Medium | Quartile | High

  /** The block parameters that the decoder uses for a level. */
  function DecoderParams(version: int, level: Level): RsParams {
    var info := VersionDb(version);
    match level
    case Low => info.l
    case Medium => info.m
    case Quartile => info.q
    case High => info.h
  }

  // ----- the encoder's tables

  function Ten(k: int, a: int, b: int, c: int, d: int, e: int, f: int, g: int, h: int, i: int, j: int): int {
    if k <= 5 then
      if k <= 2 then (if k <= 1 then a else b) else (if k <= 3 then c else if k <= 4 then d else e)
    else
      if k <= 7 then (if k <= 6 then f else g) else (if k <= 8 then h else if k <= 9 then i else j)
  }

  /** ECC_CODEWORDS_PER_BLOCK, for versions 1 to 40. */
  function EccPerBlock(level: Level, v: int): int {
    match level
    case Low =>
      if v <= 10 then Ten(v, 7, 10, 15, 20, 26, 18, 20, 24, 30, 18)
      else if v <= 20 then Ten(v - 10, 20, 24, 26, 30, 22, 24, 28, 30, 28, 28)
      else if v <= 30 then Ten(v - 20, 28, 28, 30, 30, 26, 28, 30, 30, 30, 30)
      else Ten(v - 30, 30, 30, 30, 30, 30, 30, 30, 30, 30, 30)
    case Medium =>
      if v <= 10 then Ten(v, 10, 16, 26, 18, 24, 16, 18, 22, 22, 26)
      else if v <= 20 then Ten(v - 10, 30, 22, 22, 24, 24, 28, 28, 26, 26, 26)
      else if v <= 30 then Ten(v - 20, 26, 28, 28, 28, 28, 28, 28, 28, 28, 28)
      else Ten(v - 30, 28, 28, 28, 28, 28, 28, 28, 28, 28, 28)
    case Quartile =>
      if v <= 10 then Ten(v, 13, 22, 18, 26, 18, 24, 18, 22, 20, 24)
      else if v <= 20 then Ten(v - 10, 28, 26, 24, 20, 30, 24, 28, 28, 26, 30)
      else if v <= 30 then Ten(v - 20, 28, 30, 30, 30, 30, 28, 30, 30, 30, 30)
      else Ten(v - 30, 30, 30, 30, 30, 30, 30, 30, 30, 30, 30)
    case High =>
      if v <= 10 then Ten(v, 17, 28, 22, 16, 22, 28, 26, 26, 24, 28)
      else if v <= 20 then Ten(v - 10, 24, 28, 22, 24, 24, 30, 28, 28, 26, 28)
      else if v <= 30 then Ten(v - 20, 30, 24, 30, 30, 30, 30, 30, 30, 30, 30)
      else Ten(v - 30, 30, 30, 30, 30, 30, 30, 30, 30, 30, 30)
  }

  /** NUM_ERROR_CORRECTION_BLOCKS, for versions 1 to 40. */
  function NumBlocks(level: Level, v: int): int {
    match level
    case Low =>
      if v <= 10 then Ten(v, 1, 1, 1, 1, 1, 2, 2, 2, 2, 4)
      else if v <= 20 then Ten(v - 10, 4, 4, 4, 4, 6, 6, 6, 6, 7, 8)
      else if v <= 30 then Ten(v - 20, 8, 9, 9, 10, 12, 12, 12, 13, 14, 15)
      else Ten(v - 30, 16, 17, 18, 19, 19, 20, 21, 22, 24, 25)
    case Medium =>
      if v <= 10 then Ten(v, 1, 1, 1, 2, 2, 4, 4, 4, 5, 5)
      else if v <= 20 then Ten(v - 10, 5, 8, 9, 9, 10, 10, 11, 13, 14, 16)
      else if v <= 30 then Ten(v - 20, 17, 17, 18, 20, 21, 23, 25, 26, 28, 29)
      else Ten(v - 30, 31, 33, 35, 37, 38, 40, 43, 45, 47, 49)
    case Quartile =>
      if v <= 10 then Ten(v, 1, 1, 2, 2, 4, 4, 6, 6, 8, 8)
      else if v <= 20 then Ten(v - 10, 8, 10, 12, 16, 12, 17, 16, 18, 21, 20)
      else if v <= 30 then Ten(v - 20, 23, 23, 25, 27, 29, 34, 34, 35, 38, 40)
      else Ten(v - 30, 43, 45, 48, 51, 53, 56, 59, 62, 65, 68)
    case High =>
      if v <= 10 then Ten(v, 1, 1, 2, 4, 4, 4, 5, 6, 8, 8)
      else if v <= 20 then Ten(v - 10, 11, 11, 16, 16, 18, 16, 19, 21, 25, 25)
      else if v <= 30 then Ten(v - 20, 25, 34, 30, 32, 35, 37, 40, 42, 45, 48)
      else Ten(v - 30, 51, 54, 57, 60, 63, 66, 70, 74, 77, 81)
  }

  /** getNumRawDataModules: the modules of a symbol that are not part of a function pattern. */
  function RawModules(version: int): int {
    var n := version / 7 + 2;
    (16 * version + 128) * version + 64
    - (if version < 2 then 0 else (25 * n - 10) * n - 55)
    - (if version < 7 then 0 else 36)
  }

  /** The step between alignment patterns in getAlignmentPatternPositions. */
  function AlignmentStep(version: int): int
    requires 1 < version
  {
    var n := version / 7 + 2;
    if version == 32 then 26 else (version * 4 + n * 2 + 1) / (n * 2 - 2) * 2
  }

  /** The coordinates that getAlignmentPatternPositions computes: 6, and then equal steps up to 7 short
      of the symbol's size. */
  function AlignmentPositions(version: int): (p: seq<int>)
  {
    if version <= 1 then []
    else
      var n := version / 7 + 2;
      [6] + seq(n - 1, k => version * 4 + 10 - (n - 2 - k) * AlignmentStep(version))
  }

  // ----- where the tables agree
  //
  // Each lemma below covers a few versions: the rows of the tables are evaluated one by one, and a range
  // that is small enough keeps the case split of one lemma small. The lemmas whose names end in Always,
  // Exactly or Agrees put the ranges together.

  /** The encoder and the decoder agree on the block structure: stated without division. */
  predicate BlocksAgree(v: int, level: Level) {
    var nb, sb, total := NumBlocks(level, v), DecoderParams(v, level), VersionDb(v).dataBytes;
    && nb * sb.bs + (nb - sb.ns) == total
    && 1 <= sb.ns <= nb && sb.bs - sb.dw == EccPerBlock(level, v)
    && 2 <= sb.bs - sb.dw < 64 && 1 <= sb.dw && sb.bs < 254
  }

  /** Alignment coordinates start at 6, lie at least 12 apart and end short of the finder patterns. */
  predicate WellSpaced(p: seq<int>, size: int) {
    && (p != [] ==> |p| >= 2 && p[0] == 6 && p[|p| - 1] <= size - 7)
    && forall k :: 0 <= k < |p| - 1 ==> p[k] + 12 <= p[k + 1]
  }

  predicate SizeAgrees(v: int) {
    8 * VersionDb(v).dataBytes <= RawModules(v) < 8 * VersionDb(v).dataBytes + 8
  }

  lemma BlocksAgree1(v: int, level: Level)
    requires 1 <= v <= 3
    ensures BlocksAgree(v, level)
  {}

  lemma BlocksAgree4(v: int, level: Level)
    requires 4 <= v <= 6
    ensures BlocksAgree(v, level)
  {}

  lemma BlocksAgree7(v: int, level: Level)
    requires 7 <= v <= 9
    ensures BlocksAgree(v, level)
  {}

  lemma BlocksAgree10(v: int, level: Level)
    requires 10 <= v <= 12
    ensures BlocksAgree(v, level)
  {}

  lemma BlocksAgree13(v: int, level: Level)
    requires 13 <= v <= 15
    ensures BlocksAgree(v, level)
  {}

  lemma BlocksAgree16(v: int, level: Level)
    requires 16 <= v <= 18
    ensures BlocksAgree(v, level)
  {}

  lemma BlocksAgree19(v: int, level: Level)
    requires 19 <= v <= 21
    ensures BlocksAgree(v, level)
  {}

  lemma BlocksAgree22(v: int, level: Level)
    requires 22 <= v <= 24
    ensures BlocksAgree(v, level)
  {}

  lemma BlocksAgree25(v: int, level: Level)
    requires 25 <= v <= 27
    ensures BlocksAgree(v, level)
  {}

  lemma BlocksAgree28(v: int, level: Level)
    requires 28 <= v <= 30
    ensures BlocksAgree(v, level)
  {}

  lemma BlocksAgree31(v: int, level: Level)
    requires 31 <= v <= 33
    ensures BlocksAgree(v, level)
  {}

  lemma BlocksAgree34(v: int, level: Level)
    requires 34 <= v <= 36
    ensures BlocksAgree(v, level)
  {}

  lemma BlocksAgree37(v: int, level: Level)
    requires 37 <= v <= 39
    ensures BlocksAgree(v, level)
  {}

  lemma BlocksAgree40(v: int, level: Level)
    requires 40 <= v <= 40
    ensures BlocksAgree(v, level)
  {}

  lemma BlocksAgreeAlways(v: int, level: Level)
    requires 1 <= v <= 40
    ensures BlocksAgree(v, level)
  {
    hide *;
    if v <= 3 {
      BlocksAgree1(v, level);
    } else if v <= 6 {
      BlocksAgree4(v, level);
    } else if v <= 9 {
      BlocksAgree7(v, level);
    } else if v <= 12 {
      BlocksAgree10(v, level);
    } else if v <= 15 {
      BlocksAgree13(v, level);
    } else if v <= 18 {
      BlocksAgree16(v, level);
    } else if v <= 21 {
      BlocksAgree19(v, level);
    } else if v <= 24 {
      BlocksAgree22(v, level);
    } else if v <= 27 {
      BlocksAgree25(v, level);
    } else if v <= 30 {
      BlocksAgree28(v, level);
    } else if v <= 33 {
      BlocksAgree31(v, level);
    } else if v <= 36 {
      BlocksAgree34(v, level);
    } else if v <= 39 {
      BlocksAgree37(v, level);
    } else {
      BlocksAgree40(v, level);
    }
  }

  lemma SizeAgrees1(v: int)
    requires 1 <= v <= 10
    ensures SizeAgrees(v)
  {}

  lemma SizeAgrees11(v: int)
    requires 11 <= v <= 20
    ensures SizeAgrees(v)
  {}

  lemma SizeAgrees21(v: int)
    requires 21 <= v <= 30
    ensures SizeAgrees(v)
  {}

  lemma SizeAgrees31(v: int)
    requires 31 <= v <= 40
    ensures SizeAgrees(v)
  {}

  lemma SizeAgreesAlways(v: int)
    requires 1 <= v <= 40
    ensures SizeAgrees(v)
  {
    hide *;
    if v <= 10 {
      SizeAgrees1(v);
    } else if v <= 20 {
      SizeAgrees11(v);
    } else if v <= 30 {
      SizeAgrees21(v);
    } else {
      SizeAgrees31(v);
    }
  }

  lemma PatternsAgree1(v: int)
    requires 1 <= v <= 2 && v != 21
    ensures VersionDb(v).apat == AlignmentPositions(v)
  {}

  lemma PatternsAgree3(v: int)
    requires 3 <= v <= 4 && v != 21
    ensures VersionDb(v).apat == AlignmentPositions(v)
  {}

  lemma PatternsAgree5(v: int)
    requires 5 <= v <= 6 && v != 21
    ensures VersionDb(v).apat == AlignmentPositions(v)
  {}

  lemma PatternsAgree7(v: int)
    requires 7 <= v <= 8 && v != 21
    ensures VersionDb(v).apat == AlignmentPositions(v)
  {}

  lemma PatternsAgree9(v: int)
    requires 9 <= v <= 10 && v != 21
    ensures VersionDb(v).apat == AlignmentPositions(v)
  {}

  lemma PatternsAgree11(v: int)
    requires 11 <= v <= 12 && v != 21
    ensures VersionDb(v).apat == AlignmentPositions(v)
  {}

  lemma PatternsAgree13(v: int)
    requires 13 <= v <= 14 && v != 21
    ensures VersionDb(v).apat == AlignmentPositions(v)
  {}

  lemma PatternsAgree15(v: int)
    requires 15 <= v <= 16 && v != 21
    ensures VersionDb(v).apat == AlignmentPositions(v)
  {}

  lemma PatternsAgree17(v: int)
    requires 17 <= v <= 18 && v != 21
    ensures VersionDb(v).apat == AlignmentPositions(v)
  {}

  lemma PatternsAgree19(v: int)
    requires 19 <= v <= 20 && v != 21
    ensures VersionDb(v).apat == AlignmentPositions(v)
  {}

  lemma PatternsAgree21(v: int)
    requires 21 <= v <= 22 && v != 21
    ensures VersionDb(v).apat == AlignmentPositions(v)
  {}

  lemma PatternsAgree23(v: int)
    requires 23 <= v <= 24 && v != 21
    ensures VersionDb(v).apat == AlignmentPositions(v)
  {}

  lemma PatternsAgree25(v: int)
    requires 25 <= v <= 26 && v != 21
    ensures VersionDb(v).apat == AlignmentPositions(v)
  {}

  lemma PatternsAgree27(v: int)
    requires 27 <= v <= 28 && v != 21
    ensures VersionDb(v).apat == AlignmentPositions(v)
  {}

  lemma PatternsAgree29(v: int)
    requires 29 <= v <= 30 && v != 21
    ensures VersionDb(v).apat == AlignmentPositions(v)
  {}

  lemma PatternsAgree31(v: int)
    requires 31 <= v <= 32 && v != 21
    ensures VersionDb(v).apat == AlignmentPositions(v)
  {}

  lemma PatternsAgree33(v: int)
    requires 33 <= v <= 34 && v != 21
    ensures VersionDb(v).apat == AlignmentPositions(v)
  {}

  lemma PatternsAgree35(v: int)
    requires 35 <= v <= 36 && v != 21
    ensures VersionDb(v).apat == AlignmentPositions(v)
  {}

  lemma PatternsAgree37(v: int)
    requires 37 <= v <= 38 && v != 21
    ensures VersionDb(v).apat == AlignmentPositions(v)
  {}

  lemma PatternsAgree39(v: int)
    requires 39 <= v <= 40 && v != 21
    ensures VersionDb(v).apat == AlignmentPositions(v)
  {}

  lemma PatternsAgreeAlways(v: int)
    requires 1 <= v <= 40 && v != 21
    ensures VersionDb(v).apat == AlignmentPositions(v)
  {
    hide *;
    if v <= 2 {
      PatternsAgree1(v);
    } else if v <= 4 {
      PatternsAgree3(v);
    } else if v <= 6 {
      PatternsAgree5(v);
    } else if v <= 8 {
      PatternsAgree7(v);
    } else if v <= 10 {
      PatternsAgree9(v);
    } else if v <= 12 {
      PatternsAgree11(v);
    } else if v <= 14 {
      PatternsAgree13(v);
    } else if v <= 16 {
      PatternsAgree15(v);
    } else if v <= 18 {
      PatternsAgree17(v);
    } else if v <= 20 {
      PatternsAgree19(v);
    } else if v <= 22 {
      PatternsAgree21(v);
    } else if v <= 24 {
      PatternsAgree23(v);
    } else if v <= 26 {
      PatternsAgree25(v);
    } else if v <= 28 {
      PatternsAgree27(v);
    } else if v <= 30 {
      PatternsAgree29(v);
    } else if v <= 32 {
      PatternsAgree31(v);
    } else if v <= 34 {
      PatternsAgree33(v);
    } else if v <= 36 {
      PatternsAgree35(v);
    } else if v <= 38 {
      PatternsAgree37(v);
    } else {
      PatternsAgree39(v);
    }
  }

  lemma Capacity1(v: int, level: Level)
    requires 1 <= v <= 5
    ensures 0 < RawModules(v) / 8 - EccPerBlock(level, v) * NumBlocks(level, v) <= 2956
  {}

  lemma Capacity6(v: int, level: Level)
    requires 6 <= v <= 10
    ensures 0 < RawModules(v) / 8 - EccPerBlock(level, v) * NumBlocks(level, v) <= 2956
  {}

  lemma Capacity11(v: int, level: Level)
    requires 11 <= v <= 15
    ensures 0 < RawModules(v) / 8 - EccPerBlock(level, v) * NumBlocks(level, v) <= 2956
  {}

  lemma Capacity16(v: int, level: Level)
    requires 16 <= v <= 20
    ensures 0 < RawModules(v) / 8 - EccPerBlock(level, v) * NumBlocks(level, v) <= 2956
  {}

  lemma Capacity21(v: int, level: Level)
    requires 21 <= v <= 25
    ensures 0 < RawModules(v) / 8 - EccPerBlock(level, v) * NumBlocks(level, v) <= 2956
  {}

  lemma Capacity26(v: int, level: Level)
    requires 26 <= v <= 30
    ensures 0 < RawModules(v) / 8 - EccPerBlock(level, v) * NumBlocks(level, v) <= 2956
  {}

  lemma Capacity31(v: int, level: Level)
    requires 31 <= v <= 35
    ensures 0 < RawModules(v) / 8 - EccPerBlock(level, v) * NumBlocks(level, v) <= 2956
  {}

  lemma Capacity36(v: int, level: Level)
    requires 36 <= v <= 40
    ensures 0 < RawModules(v) / 8 - EccPerBlock(level, v) * NumBlocks(level, v) <= 2956
  {}

  lemma CapacityOf(v: int, level: Level)
    requires 1 <= v <= 40
    ensures 0 < RawModules(v) / 8 - EccPerBlock(level, v) * NumBlocks(level, v) <= 2956
  {
    hide *;
    if v <= 5 {
      Capacity1(v, level);
    } else if v <= 10 {
      Capacity6(v, level);
    } else if v <= 15 {
      Capacity11(v, level);
    } else if v <= 20 {
      Capacity16(v, level);
    } else if v <= 25 {
      Capacity21(v, level);
    } else if v <= 30 {
      Capacity26(v, level);
    } else if v <= 35 {
      Capacity31(v, level);
    } else {
      Capacity36(v, level);
    }
  }

  lemma Spaced1(v: int)
    requires 1 <= v <= 10
    ensures WellSpaced(VersionDb(v).apat, 4 * v + 17)
  {}

  lemma Spaced11(v: int)
    requires 11 <= v <= 20
    ensures WellSpaced(VersionDb(v).apat, 4 * v + 17)
  {}

  lemma Spaced21(v: int)
    requires 21 <= v <= 30
    ensures WellSpaced(VersionDb(v).apat, 4 * v + 17)
  {}

  lemma Spaced31(v: int)
    requires 31 <= v <= 40
    ensures WellSpaced(VersionDb(v).apat, 4 * v + 17)
  {}

  lemma SpacedAlways(v: int)
    requires 1 <= v <= 40
    ensures WellSpaced(VersionDb(v).apat, 4 * v + 17)
  {
    hide *;
    if v <= 10 {
      Spaced1(v);
    } else if v <= 20 {
      Spaced11(v);
    } else if v <= 30 {
      Spaced21(v);
    } else {
      Spaced31(v);
    }
  }

  lemma Version21()
    ensures VersionDb(21).apat == [6, 28, 50, 72, 92] && AlignmentPositions(21) == [6, 28, 50, 72, 94]
  {}

  /** The two sides place the alignment patterns alike in every version but 21, where the decoder's
      table has the last coordinate two modules off. */
  lemma PatternsAgreeExactly(v: int)
    requires 1 <= v <= 40
    ensures VersionDb(v).apat == AlignmentPositions(v) <==> v != 21
  {
    hide VersionDb, AlignmentPositions;
    if v == 21 {
      Version21();
      assert [6, 28, 50, 72, 92][4] != [6, 28, 50, 72, 94][4];
    } else {
      PatternsAgreeAlways(v);
    }
  }

  /** The decoder's block parameters are the ones the encoder derives, in every version and level. */
  lemma LayoutAgrees(v: int, level: Level)
    requires 1 <= v <= 40
    ensures var nb, ecc, raw := NumBlocks(level, v), EccPerBlock(level, v), RawModules(v) / 8;
      && nb > 0 && 2 <= ecc < 64 && 0 <= raw && ecc < raw / nb < 254
      && VersionDb(v).dataBytes == raw
      && DecoderParams(v, level) == LayoutOf(nb, ecc, raw)
  {
    hide VersionDb, NumBlocks, EccPerBlock, RawModules, DecoderParams;
    BlocksAgreeAlways(v, level);
    SizeAgreesAlways(v);
    var nb, sb, raw := NumBlocks(level, v), DecoderParams(v, level), RawModules(v) / 8;
    Quotient(raw, nb, sb.bs, nb - sb.ns);
  }

  lemma Quotient(a: int, b: int, q: int, r: int)
    requires a == b * q + r && 0 <= r < b
    ensures a / b == q && a % b == r
  {
    var q', r' := a / b, a % b;
    assert a == b * q' + r';
    assert b * (q - q') == r' - r;
    if q < q' {
      MulLe(q + 1, q', b);
    } else if q' < q {
      MulLe(q' + 1, q, b);
    }
  }
}
