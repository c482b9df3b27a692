/** encodeSegments of 3rdparty/qrcodegen.cpp: chooses the version and the level, and turns segments
    into the data codewords of a symbol. */
module SegmentEncoder {
  import opened Bytes
  import opened Segments
  import opened Payload
  import opened VersionTables
  import opened Zigzag
  import opened SymbolReader

  const INT_MAX := 0x7fffffff

  /** getNumDataCodewords. */
  function NumDataCodewords(version: int, level: Level): int {
    RawModules(version) / 8 - EccPerBlock(level, version) * NumBlocks(level, version)
  }

  predicate CountsFit(segs: seq<Segment>, version: int) {
    forall i :: 0 <= i < |segs| ==> segs[i].numChars < Pow2(CountBits(segs[i].mode, version))
  }

  /** The segments fit into a symbol of this version and level. */
  predicate Fits(segs: seq<Segment>, version: int, level: Level) {
    CountsFit(segs, version) && |AllBits(segs, version)| <= 8 * NumDataCodewords(version, level)
  }

  lemma {:induction false} AllBitsAppend(segs: seq<Segment>, s: Segment, version: int)
    ensures AllBits(segs + [s], version) == AllBits(segs, version) + SegmentBits(s, version)
  {
    hide SegmentBits;
    if segs == [] {
      assert [] + [s] == [s] && [s][1..] == [];
    } else {
      assert (segs + [s])[1..] == segs[1..] + [s];
      AllBitsAppend(segs[1..], s, version);
    }
  }

  lemma {:induction false} AllBitsPrefix(segs: seq<Segment>, i: nat, version: int)
    requires i <= |segs|
    ensures |AllBits(segs[..i], version)| <= |AllBits(segs, version)|
    decreases |segs| - i
  {
    hide SegmentBits;
    if i < |segs| {
      assert segs[..i + 1] == segs[..i] + [segs[i]];
      AllBitsAppend(segs[..i], segs[i], version);
      AllBitsPrefix(segs, i + 1, version);
    } else {
      assert segs[..i] == segs;
    }
  }

  /** getTotalBits: the length of the stream, or -1 if a count does not fit or an int would overflow. */
  method GetTotalBits(segs: seq<Segment>, version: int) returns (result: int)
    ensures result == -1 || result == |AllBits(segs, version)|
    ensures result == -1 <==> !CountsFit(segs, version) || |AllBits(segs, version)| > INT_MAX
  {
    hide AllBits, SegmentBits, CountBits, Pow2;
    result := 0;
    assert AllBits(segs[..0], version) == [] by { NoBits(version); assert segs[..0] == []; }
    for i := 0 to |segs|
      invariant result == |AllBits(segs[..i], version)| <= INT_MAX
      invariant CountsFit(segs[..i], version)
    {
      var seg := segs[i];
      var ccbits := CountBits(seg.mode, version);
      assert segs[..i + 1] == segs[..i] + [seg];
      AllBitsAppend(segs[..i], seg, version);
      SegmentLength(seg, version);
      AllBitsPrefix(segs, i + 1, version);
      if seg.numChars >= Pow2(ccbits) {
        return -1;
      }
      if 4 + ccbits > INT_MAX - result {
        return -1;
      }
      result := result + 4 + ccbits;
      if |seg.data| > INT_MAX - result {
        return -1;
      }
      result := result + |seg.data|;
    }
    assert segs[..|segs|] == segs;
  }

  lemma NoBits(version: int)
    ensures AllBits([], version) == []
  {}

  // ----- padding

  /** Alternating pad bytes. */
  function PadBytes(n: nat, first: nat): (b: seq<bool>)
    ensures |b| == 8 * n
  {
    if n == 0 then [] else Bits(first, 8) + PadBytes(n - 1, if first == 0xec then 0x11 else 0xec)
  }

  /** How many zero bits end the stream: up to four, and then up to the next whole byte. */
  function TerminatorBits(used: nat, capacity: nat): nat
    requires used <= capacity
  {
    if capacity - used < 4 then capacity - used else 4
  }

  function FillBits(n: nat): nat {
    (8 - n % 8) % 8
  }

  /** The stream, terminated and padded to the capacity of the symbol. */
  function PaddedBits(b: seq<bool>, capacity: nat): seq<bool>
    requires |b| <= capacity && capacity % 8 == 0
  {
    var t := |b| + TerminatorBits(|b|, capacity);
    var n := t + FillBits(t);
    b + Bits(0, TerminatorBits(|b|, capacity)) + Bits(0, FillBits(t)) + PadBytes((capacity - n) / 8, 0xec)
  }

  lemma PaddedLength(used: nat, capacity: nat)
    requires used <= capacity && capacity % 8 == 0
    ensures var t := used + TerminatorBits(used, capacity);
      t + FillBits(t) <= capacity && (capacity - (t + FillBits(t))) % 8 == 0
  {}

  lemma {:induction false} ZeroBitsValue(n: nat)
    ensures Value(Bits(0, n)) == 0
  {
    if n > 0 {
      ZeroBitsValue(n - 1);
      assert Bits(0, n)[..n - 1] == Bits(0, n - 1);
    }
  }

  /** Padding fills the capacity exactly, and the decoder stops where it begins. */
  lemma PaddingEnds(b: seq<bool>, capacity: nat)
    requires |b| <= capacity && capacity % 8 == 0
    ensures |PaddedBits(b, capacity)| == capacity && b <= PaddedBits(b, capacity)
    ensures EndsPayload(PaddedBits(b, capacity)[|b|..])
  {
    hide Bits, Value, PadBytes;
    PaddedLength(|b|, capacity);
    var p := PaddedBits(b, capacity);
    var t := TerminatorBits(|b|, capacity);
    if capacity - |b| >= 4 {
      assert p[|b|..][..4] == Bits(0, 4);
      ZeroBitsValue(4);
    }
  }

  lemma {:induction false} PadByteAt(n: nat, first: nat, k: nat)
    requires k < n && (first == 0xec || first == 0x11)
    ensures PadBytes(n, first)[8 * k..8 * k + 8] == Bits(if k % 2 == 0 then first else 0xec + 0x11 - first, 8)
  {
    hide Bits;
    var head, tail := Bits(first, 8), PadBytes(n - 1, if first == 0xec then 0x11 else 0xec);
    if k == 0 {
      assert (head + tail)[0..8] == head;
    } else {
      PadByteAt(n - 1, if first == 0xec then 0x11 else 0xec, k - 1);
      assert (head + tail)[8 * k..8 * k + 8] == tail[8 * (k - 1)..8 * (k - 1) + 8];
    }
  }

  lemma {:induction false} ZeroBit(n: nat, i: nat)
    requires i < n
    ensures !Bits(0, n)[i]
  {
    if i < n - 1 {
      ZeroBit(n - 1, i);
      assert Bits(0, n)[..n - 1] == Bits(0, n - 1);
    }
  }

  /** The pad bytes start at the first whole byte behind the stream and up to four more bits. */
  predicate PadsStart(used: nat, capacity: nat, start: nat) {
    start % 8 == 0 && var t := if used + 4 <= capacity then used + 4 else capacity; t <= start < t + 8
  }

  lemma StartIs(used: nat, capacity: nat, start: nat)
    requires used <= capacity && capacity % 8 == 0 && PadsStart(used, capacity, start)
    ensures var t := used + TerminatorBits(used, capacity);
      used <= t <= start <= capacity && start == t + FillBits(t) && (capacity - start) % 8 == 0
  {}

  function PadByte(k: nat): nat {
    if k % 2 == 0 then 236 else 17
  }

  /** The padding, bit by bit: up to four zeros, more of them up to the next whole byte, and then the bytes
      236 and 17 in turn. */
  lemma PaddingIs(b: seq<bool>, capacity: nat, start: nat)
    requires |b| <= capacity && capacity % 8 == 0 && PadsStart(|b|, capacity, start)
    ensures start <= capacity == |PaddedBits(b, capacity)|
    ensures forall i :: |b| <= i < start ==> !PaddedBits(b, capacity)[i]
    ensures forall k: nat :: start + 8 * k < capacity ==> EightBits(PaddedBits(b, capacity), start + 8 * k) == Bits(PadByte(k), 8)
  {
    hide Bits, PadBytes, PadsStart, TerminatorBits, FillBits, PadByte, EightBits;
    StartIs(|b|, capacity, start);
    var p, t := PaddedBits(b, capacity), |b| + TerminatorBits(|b|, capacity);
    var zeros, fill, pads := Bits(0, t - |b|), Bits(0, FillBits(t)), PadBytes((capacity - start) / 8, 0xec);
    assert p == b + zeros + fill + pads;
    hide PaddedBits;
    forall i | |b| <= i < start ensures !p[i] {
      if i < t { ZeroBit(t - |b|, i - |b|); } else { ZeroBit(FillBits(t), i - t); }
    }
    forall k: nat | start + 8 * k < capacity ensures EightBits(p, start + 8 * k) == Bits(PadByte(k), 8) {
      PadAt(b + zeros + fill, capacity - start, k);
    }
  }

  /** Eight bits from i on. */
  function EightBits(b: seq<bool>, i: nat): seq<bool> {
    if i + 8 <= |b| then b[i..i + 8] else []
  }

  lemma PadAt(front: seq<bool>, n: nat, k: nat)
    requires n % 8 == 0 && 8 * k < n
    ensures EightBits(front + PadBytes(n / 8, 0xec), |front| + 8 * k) == Bits(PadByte(k), 8)
  {
    hide Bits, PadBytes;
    PadByteAt(n / 8, 0xec, k);
    var pads := PadBytes(n / 8, 0xec);
    assert (front + pads)[|front| + 8 * k..|front| + 8 * k + 8] == pads[8 * k..8 * k + 8];
  }

  // ----- packing bits into bytes

  /** Packs bits into bytes in big endian. */
  method Pack(bb: seq<bool>) returns (bytes: array<bv8>)
    requires |bb| % 8 == 0
    ensures fresh(bytes) && 8 * bytes.Length == |bb| && Holds(bytes[..], bb)
  {
    hide Holds;
    bytes := new bv8[|bb| / 8](_ => 0);
    HoldsNothing(bytes[..]);
    assert bb[..0] == [];
    for i := 0 to |bb|
      invariant Holds(bytes[..], bb[..i])
    {
      var q, p := i / 8, i % 8;
      HoldsMore(bytes[..], bb[..i], bb[i]);
      assert bb[..i + 1] == bb[..i] + [bb[i]];
      BitMask(p);
      var bit: bv8 := if bb[i] then 1 else 0;
      OrNothing(bytes[q], 7 - p);
      ghost var was := bytes[..];
      bytes[q] := bytes[q] | (bit << (7 - p));
      assert bytes[..] == if bb[i] then was[q := was[q] | (0x80 >> p)] else was;
    }
    assert bb[..|bb|] == bb;
  }

  // ----- encodeSegments

  datatype Encoding = Encoded(version: int, level: Level, data: seq<bv8>) | TooLong | Invalid

  /** The level after boosting: the last of M, Q, H that still holds the stream. */
  function Boosted(used: int, version: int, level: Level, boost: bool): Level {
    if !boost then level
    else if used <= 8 * NumDataCodewords(version, High) then High
    else if used <= 8 * NumDataCodewords(version, Quartile) then Quartile
    else if used <= 8 * NumDataCodewords(version, Medium) then Medium
    else level
  }

  function Strength(level: Level): int {
    match level
    case Low => 0
    case Medium => 1
    case Quartile => 2
    case High => 3
  }

  predicate Hold(used: int, version: int, level: Level) {
    used <= 8 * NumDataCodewords(version, level)
  }

  /** With boosting, the strongest of M, Q and H that holds the stream; the level asked for if none does, or
      without boosting. */
  predicate Strongest(used: int, version: int, asked: Level, boost: bool, level: Level) {
    if boost && exists l :: l != Low && Hold(used, version, l) then
      level != Low && Hold(used, version, level)
      && forall l :: l != Low && Hold(used, version, l) ==> Strength(l) <= Strength(level)
    else level == asked
  }

  lemma BoostedIsStrongest(used: int, version: int, asked: Level, boost: bool)
    ensures Strongest(used, version, asked, boost, Boosted(used, version, asked, boost))
  {
    hide NumDataCodewords;
    assert forall l :: Hold(used, version, l) <==> used <= 8 * NumDataCodewords(version, l);
  }

  predicate ValidRange(minVersion: int, maxVersion: int, mask: int) {
    1 <= minVersion <= maxVersion <= 40 && -1 <= mask <= 7
  }

  predicate FitsNowhere(segs: seq<Segment>, ecl: Level, minVersion: int, maxVersion: int) {
    forall v :: minVersion <= v <= maxVersion ==> !Fits(segs, v, ecl)
  }

  method EncodeSegments(segs: seq<Segment>, ecl: Level, minVersion: int, maxVersion: int, mask: int, boostEcl: bool)
    returns (r: Encoding)
    ensures r.Invalid? <==> !ValidRange(minVersion, maxVersion, mask)
    ensures r.TooLong? <==> ValidRange(minVersion, maxVersion, mask) && FitsNowhere(segs, ecl, minVersion, maxVersion)
    ensures r.Encoded? ==>
      && minVersion <= r.version <= maxVersion && Fits(segs, r.version, ecl)
      && (forall v :: minVersion <= v < r.version ==> !Fits(segs, v, ecl))
      && Strongest(|AllBits(segs, r.version)|, r.version, ecl, boostEcl, r.level)
      && Fits(segs, r.version, r.level)
      && |r.data| == NumDataCodewords(r.version, r.level)
      && Holds(r.data, PaddedBits(AllBits(segs, r.version), 8 * NumDataCodewords(r.version, r.level)))
  {
    hide AllBits, CountsFit, NumDataCodewords, PaddedBits, Holds, Boosted, Strongest;
    if !(1 <= minVersion <= maxVersion && maxVersion <= 40) || mask < -1 || mask > 7 {
      return Invalid;
    }
    var version := minVersion;
    var dataUsedBits;
    while true
      invariant minVersion <= version <= maxVersion
      invariant forall v :: minVersion <= v < version ==> !Fits(segs, v, ecl)
      decreases maxVersion - version
    {
      var dataCapacityBits := NumDataCodewords(version, ecl) * 8;
      dataUsedBits := GetTotalBits(segs, version);
      CapacityBound(version, ecl);
      if dataUsedBits != -1 && dataUsedBits <= dataCapacityBits {
        break;
      }
      assert !Fits(segs, version, ecl);
      if version >= maxVersion {
        return TooLong;
      }
      version := version + 1;
    }
    assert Fits(segs, version, ecl);
    var level := Boost(dataUsedBits, version, ecl, boostEcl);
    assert Fits(segs, version, level) by { BoostKeepsFit(dataUsedBits, version, ecl, boostEcl); }
    BoostedIsStrongest(dataUsedBits, version, ecl, boostEcl);
    CapacityBound(version, level);
    var data := BuildCodewords(segs, version, level);
    r := Encoded(version, level, data);
  }

  lemma BoostKeepsFit(used: int, version: int, level: Level, boost: bool)
    requires used <= 8 * NumDataCodewords(version, level)
    ensures used <= 8 * NumDataCodewords(version, Boosted(used, version, level, boost))
  {
    hide NumDataCodewords;
  }

  /** Increases the error correction level while the data still fits. */
  method Boost(used: int, version: int, ecl: Level, boost: bool) returns (level: Level)
    ensures level == Boosted(used, version, ecl, boost)
  {
    hide NumDataCodewords;
    level := ecl;
    var levels := [Medium, Quartile, High];
    for i := 0 to 3
      invariant level == if !boost then ecl
        else if i > 2 && used <= 8 * NumDataCodewords(version, High) then High
        else if i > 1 && used <= 8 * NumDataCodewords(version, Quartile) then Quartile
        else if i > 0 && used <= 8 * NumDataCodewords(version, Medium) then Medium
        else ecl
    {
      if boost && used <= NumDataCodewords(version, levels[i]) * 8 {
        level := levels[i];
      }
    }
  }

  /** No symbol holds more than 2956 data codewords, and every symbol holds some. */
  lemma CapacityBound(version: int, level: Level)
    requires 1 <= version <= 40
    ensures 0 < NumDataCodewords(version, level) <= 2956
  {
    hide NumBlocks, EccPerBlock, RawModules;
    CapacityOf(version, level);
  }

  /** Concatenates the segments, terminates, pads and packs. */
  method BuildCodewords(segs: seq<Segment>, version: int, level: Level) returns (data: seq<bv8>)
    requires 1 <= version <= 40 && Fits(segs, version, level)
    ensures |data| == NumDataCodewords(version, level)
    ensures Holds(data, PaddedBits(AllBits(segs, version), 8 * NumDataCodewords(version, level)))
  {
    hide AllBits, NumDataCodewords, Holds, CountBits, Bits, Pow2, SegmentBits;
    var bb: seq<bool> := [];
    SmallPowers();
    NoBits(version);
    assert segs[..0] == [];
    for i := 0 to |segs|
      invariant bb == AllBits(segs[..i], version)
    {
      var seg := segs[i];
      assert segs[..i + 1] == segs[..i] + [seg];
      AllBitsAppend(segs[..i], seg, version);
      CountWidth(seg.mode, version);
      var ok;
      ok, bb := AppendBits(bb, ModeBits(seg.mode), 4);
      ok, bb := AppendBits(bb, seg.numChars, CountBits(seg.mode, version));
      bb := bb + seg.data;
      SegmentBitsAre(AllBits(segs[..i], version), seg, version);
    }
    assert segs[..|segs|] == segs;
    var dataCapacityBits := NumDataCodewords(version, level) * 8;
    bb := Pad(bb, dataCapacityBits);
    PaddingEnds(AllBits(segs, version), dataCapacityBits);
    var bytes := Pack(bb);
    data := bytes[..];
  }

  lemma SegmentBitsAre(before: seq<bool>, seg: Segment, version: int)
    ensures before + Bits(ModeBits(seg.mode), 4) + Bits(seg.numChars, CountBits(seg.mode, version)) + seg.data
         == before + SegmentBits(seg, version)
  {}

  lemma CountWidth(m: Mode, version: int)
    ensures CountBits(m, version) <= 31 && ModeBits(m) < 16
  {}

  /** The terminator and padding steps of encodeSegments. */
  method Pad(bits: seq<bool>, dataCapacityBits: nat) returns (bb: seq<bool>)
    requires |bits| <= dataCapacityBits && dataCapacityBits % 8 == 0
    ensures bb == PaddedBits(bits, dataCapacityBits)
  {
    hide Bits, Pow2, PadBytes;
    var ok;
    SmallPowers();
    PaddedLength(|bits|, dataCapacityBits);
    Pow2Of(TerminatorBits(|bits|, dataCapacityBits));
    ok, bb := AppendBits(bits, 0, TerminatorBits(|bits|, dataCapacityBits));
    Pow2Of(FillBits(|bb|));
    ok, bb := AppendBits(bb, 0, (8 - |bb| % 8) % 8);
    bb := PadWithBytes(bb, dataCapacityBits);
  }

  /** The pad bytes of encodeSegments. */
  method PadWithBytes(bits: seq<bool>, dataCapacityBits: nat) returns (bb: seq<bool>)
    requires |bits| <= dataCapacityBits && (dataCapacityBits - |bits|) % 8 == 0
    ensures bb == bits + PadBytes((dataCapacityBits - |bits|) / 8, 0xec)
  {
    hide Bits, Pow2, PadBytes;
    SmallPowers();
    var ok;
    bb := bits;
    var padByte: nat := 0xec;
    ghost var n: nat := (dataCapacityBits - |bits|) / 8;
    while |bb| < dataCapacityBits
      invariant padByte == 0xec || padByte == 0x11
      invariant |bb| + 8 * n == dataCapacityBits
      invariant bb + PadBytes(n, padByte) == bits + PadBytes((dataCapacityBits - |bits|) / 8, 0xec)
      decreases n
    {
      PadStep(bb, n, padByte);
      ok, bb := AppendBits(bb, padByte, 8);
      padByte := if padByte == 0xec then 0x11 else 0xec;
      n := n - 1;
    }
    NoPads(padByte);
    assert bb + [] == bb;
  }

  lemma Pow2Of(n: nat)
    ensures 0 < Pow2(n)
  {}

  lemma NoPads(first: nat)
    ensures PadBytes(0, first) == []
  {}

  lemma PadStep(b: seq<bool>, n: nat, first: nat)
    requires n > 0
    ensures b + PadBytes(n, first) == b + Bits(first, 8) + PadBytes(n - 1, if first == 0xec then 0x11 else 0xec)
  {}
}
