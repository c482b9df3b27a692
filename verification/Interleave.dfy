/** The final codeword sequence of a QR symbol: the encoder splits data into blocks, appends parity
    and interleaves; the decoder gathers each block, corrects it and keeps its data. The decoder
    reads the extra data byte of each long block from the wrong place and relies on the correction. */
module Interleave {
  import opened Gf256
  import opened Polynomials
  import opened BlockDecoder
  import E = BlockEncoder

  /** Block parameters of the decoder's version table: size, data bytes and number of short blocks.
      Long blocks have one more byte of data. */
  datatype RsParams = RsParams(bs: nat, dw: nat, ns: nat)

  /** A symbol's block structure: short blocks first, then lb long ones. */
  ghost predicate ValidLayout(sb: RsParams, lb: nat) {
    sb.dw < sb.bs < 255 && 1 <= sb.ns + lb && sb.bs - sb.dw < 64
  }

  function DataSize(sb: RsParams, i: nat): nat {
    if i < sb.ns then sb.dw else sb.dw + 1
  }

  function BlockSize(sb: RsParams, i: nat): nat {
    if i < sb.ns then sb.bs else sb.bs + 1
  }

  /** Bytes of data in the first i blocks. */
  function DataBefore(sb: RsParams, i: nat): nat {
    i * sb.dw + (if i < sb.ns then 0 else i - sb.ns)
  }

  function StreamSize(sb: RsParams, lb: nat): nat {
    sb.bs * sb.ns + (sb.bs + 1) * lb
  }

  /** Blocks of the right sizes, every one a codeword. */
  ghost predicate Codewords(words: seq<seq<bv8>>, sb: RsParams, lb: nat)
    requires ValidLayout(sb, lb)
  {
    && |words| == sb.ns + lb && Sized(words, sb, |words|)
    && forall i :: 0 <= i < |words| ==> IsCodeword(words[i], sb.bs - sb.dw)
  }

  ghost predicate Sized(words: seq<seq<bv8>>, sb: RsParams, n: nat) {
    && sb.dw <= sb.bs && n <= |words|
    && forall k :: 0 <= k < n ==> |words[k]| == BlockSize(sb, k)
  }

  /** The data of the first i blocks. */
  ghost function DataOf(words: seq<seq<bv8>>, sb: RsParams, i: nat): (d: seq<bv8>)
    requires Sized(words, sb, i)
    ensures |d| == DataBefore(sb, i)
  {
    if i == 0 then []
    else
      DataBeforeStep(sb, i - 1);
      DataOf(words, sb, i - 1) + words[i - 1][..DataSize(sb, i - 1)]
  }

  lemma DataBeforeStep(sb: RsParams, i: nat)
    ensures DataBefore(sb, i + 1) == DataBefore(sb, i) + DataSize(sb, i)
  {
    assert (i + 1) * sb.dw == i * sb.dw + sb.dw;
  }

  // ----- where bytes are in the stream

  /** Column i of row r, in rows of bc bytes. */
  function Cell(r: int, bc: int, i: int): int {
    r * bc + i
  }

  /** Where byte j of block i is in the data: behind the data of the blocks before it, the short ones first. */
  lemma {:induction false} DataPlaced(words: seq<seq<bv8>>, sb: RsParams, n: nat, i: nat, j: nat)
    requires Sized(words, sb, n) && i < n && j < DataSize(sb, i)
    ensures var at := i * sb.dw + (if i < sb.ns then 0 else i - sb.ns) + j;
      0 <= at < |DataOf(words, sb, n)| && DataOf(words, sb, n)[at] == words[i][j]
    decreases n
  {
    DataBeforeStep(sb, n - 1);
    if i < n - 1 {
      DataPlaced(words, sb, n - 1, i, j);
    }
  }

  /** Where the encoder puts data byte j of block i. */
  function DataPos(sb: RsParams, lb: nat, i: int, j: int): int {
    if j < sb.dw then Cell(j, sb.ns + lb, i) else Cell(sb.dw, sb.ns + lb, i - sb.ns)
  }

  /** Where both sides put parity byte k of block i. */
  function EccPos(sb: RsParams, lb: nat, i: int, k: int): int {
    Cell(sb.dw, sb.ns + lb, lb) + Cell(k, sb.ns + lb, i)
  }

  lemma MulLe(a: int, b: int, c: int)
    requires a <= b && 0 <= c
    ensures a * c <= b * c
  {}

  lemma CellBound(rows: int, r: int, bc: int, i: int)
    requires 0 <= r < rows && 0 <= i < bc
    ensures 0 <= Cell(r, bc, i) < Cell(rows, bc, 0)
  {
    MulLe(r + 1, rows, bc);
    MulLe(0, r, bc);
  }

  lemma CellSum(a: int, b: int, bc: int, i: int)
    ensures Cell(a, bc, i) == Cell(a, bc, 0) + i
    ensures Cell(a, bc, 0) + Cell(b, bc, 0) == Cell(a + b, bc, 0)
  {}

  lemma StreamSizeIs(sb: RsParams, lb: nat)
    ensures StreamSize(sb, lb) == Cell(sb.bs, sb.ns + lb, lb)
  {}

  lemma DataCell(sb: RsParams, lb: nat, i: nat, j: nat)
    requires ValidLayout(sb, lb) && i < sb.ns + lb && j < DataSize(sb, i)
    ensures 0 <= DataPos(sb, lb, i, j) < StreamSize(sb, lb)
    ensures 0 <= Cell(j, sb.ns + lb, i) < StreamSize(sb, lb)
  {
    hide Cell, StreamSize;
    var bc := sb.ns + lb;
    StreamSizeIs(sb, lb);
    CellSum(sb.bs, 0, bc, lb);
    CellBound(sb.bs, j, bc, i);
    if j == sb.dw {
      CellBound(sb.bs, sb.dw, bc, i - sb.ns);
    }
  }

  lemma EccCell(sb: RsParams, lb: nat, i: nat, k: nat)
    requires ValidLayout(sb, lb) && i < sb.ns + lb && k < sb.bs - sb.dw
    ensures 0 <= EccPos(sb, lb, i, k) < StreamSize(sb, lb)
  {
    hide Cell, StreamSize;
    var bc := sb.ns + lb;
    StreamSizeIs(sb, lb);
    CellSum(sb.bs, 0, bc, lb);
    CellSum(sb.dw, 0, bc, lb);
    CellSum(sb.dw, sb.bs - sb.dw, bc, 0);
    CellBound(sb.bs - sb.dw, k, bc, i);
    CellBound(sb.dw + 1, sb.dw, bc, 0);
  }

  /** The stream is the interleaving of the blocks, as section 7.6 of ISO/IEC 18004 orders them. */
  ghost predicate Interleaves(raw: seq<bv8>, words: seq<seq<bv8>>, sb: RsParams, lb: nat)
    requires ValidLayout(sb, lb)
  {
    && |raw| == StreamSize(sb, lb) && |words| == sb.ns + lb && Sized(words, sb, |words|)
    && (forall i, j :: 0 <= i < |words| && 0 <= j < DataSize(sb, i) ==>
         At(raw, DataPos(sb, lb, i, j)) == words[i][j])
    && (forall i, k :: 0 <= i < |words| && 0 <= k < sb.bs - sb.dw ==>
         At(raw, EccPos(sb, lb, i, k)) == words[i][DataSize(sb, i) + k])
  }

  // ----- the decoder's view

  /** Block i as codestream_ecc gathers it: byte j of the data from row j, also when that row
      is the short one that only long blocks take part in. */
  function Gathered(raw: seq<bv8>, sb: RsParams, lb: nat, i: nat): (w: seq<bv8>)
    requires sb.dw <= sb.bs
    ensures |w| == BlockSize(sb, i)
  {
    seq(BlockSize(sb, i), j =>
      if j < DataSize(sb, i) then At(raw, Cell(j, sb.ns + lb, i))
      else At(raw, EccPos(sb, lb, i, j - DataSize(sb, i))))
  }

  lemma {:induction false} OneDifference(d: seq<bv8>, c: seq<bv8>, p: int)
    requires |d| == |c| && forall k :: 0 <= k < |d| && k != p ==> d[k] == c[k]
    ensures Distance(d, c) <= if 0 <= p < |d| then 1 else 0
  {
    hide Add;
    if d != [] {
      OneDifference(d[1..], c[1..], p - 1);
      assert Difference(d, c)[1..] == Difference(d[1..], c[1..]);
      AddCancel(d[0], c[0]);
    }
  }

  /** What the decoder gathers from an undamaged stream is the encoder's block, but for at most the
      last data byte of a long block. */
  lemma GatheredNearby(raw: seq<bv8>, words: seq<seq<bv8>>, sb: RsParams, lb: nat, i: nat)
    requires ValidLayout(sb, lb) && Interleaves(raw, words, sb, lb) && i < |words|
    ensures Distance(Gathered(raw, sb, lb, i), words[i]) <= if i < sb.ns then 0 else 1
  {
    hide Distance;
    var g := Gathered(raw, sb, lb, i);
    forall k | 0 <= k < |g| && k != (if i < sb.ns then -1 else sb.dw)
      ensures g[k] == words[i][k]
    {
      if k < DataSize(sb, i) {
        assert At(raw, DataPos(sb, lb, i, k)) == words[i][k];
      } else {
        assert At(raw, EccPos(sb, lb, i, k - DataSize(sb, i))) == words[i][k];
      }
    }
    OneDifference(g, words[i], if i < sb.ns then -1 else sb.dw);
  }

  lemma {:induction false} DistanceTriangle(a: seq<bv8>, b: seq<bv8>, c: seq<bv8>)
    requires |a| == |b| == |c|
    ensures Distance(a, c) <= Distance(a, b) + Distance(b, c)
  {
    hide Add;
    if a != [] {
      DistanceTriangle(a[1..], b[1..], c[1..]);
      assert Difference(a, c)[1..] == Difference(a[1..], c[1..]);
      assert Difference(a, b)[1..] == Difference(a[1..], b[1..]);
      assert Difference(b, c)[1..] == Difference(b[1..], c[1..]);
      AddCancel(a[0], c[0]);
      AddCancel(a[0], b[0]);
      AddCancel(b[0], c[0]);
    }
  }

  /** Blocks survive damage to the stream: besides its own damaged bytes, a long block spends one
      correction on the misread byte. */
  lemma DamagedNearby(raw: seq<bv8>, sent: seq<bv8>, words: seq<seq<bv8>>, sb: RsParams, lb: nat, i: nat)
    requires ValidLayout(sb, lb) && Interleaves(sent, words, sb, lb) && i < |words|
    ensures Distance(Gathered(raw, sb, lb, i), words[i])
         <= Distance(Gathered(raw, sb, lb, i), Gathered(sent, sb, lb, i)) + if i < sb.ns then 0 else 1
  {
    hide Distance, Gathered;
    GatheredNearby(sent, words, sb, lb, i);
    DistanceTriangle(Gathered(raw, sb, lb, i), Gathered(sent, sb, lb, i), words[i]);
  }

  /** Every block of the received stream is within the reach of the correction. */
  ghost predicate Correctable(raw: seq<bv8>, words: seq<seq<bv8>>, sb: RsParams, lb: nat)
    requires ValidLayout(sb, lb) && Codewords(words, sb, lb)
  {
    forall i :: 0 <= i < |words| ==> 2 * Distance(Gathered(raw, sb, lb, i), words[i]) <= sb.bs - sb.dw
  }

  /** The number of parity bytes of a block. */
  function Parity(sb: RsParams): nat
    requires sb.dw <= sb.bs
  {
    sb.bs - sb.dw
  }

  ghost predicate InReach(w: seq<bv8>, c: seq<bv8>, npar: nat) {
    |c| == |w| && IsCodeword(c, npar) && 2 * Distance(w, c) <= npar
  }

  /** A codeword within reach of the block is what the correction makes of it. */
  ghost predicate Becomes(w: seq<bv8>, ok: bool, word: seq<bv8>, npar: nat) {
    forall c :: InReach(w, c, npar) ==> ok && word == c
  }

  /** No codeword is within reach of the block. */
  ghost predicate OutOfReach(w: seq<bv8>, npar: nat) {
    forall c :: !InReach(w, c, npar)
  }

  /** Each word is the codeword within reach of the gathered block, if there is one. */
  ghost predicate Nearest(raw: seq<bv8>, words: seq<seq<bv8>>, sb: RsParams, lb: nat, n: nat)
    requires sb.dw <= sb.bs && Sized(words, sb, n)
  {
    forall i, c :: 0 <= i < n && InReach(Gathered(raw, sb, lb, i), c, Parity(sb)) ==> words[i] == c
  }

  /** codestream_ecc: gathers, corrects and concatenates the blocks. Success means that the data is that of
      codewords, and of those within reach of the gathered blocks where there are such; failure, that a
      block has no codeword within reach. */
  method CodestreamEcc(raw: array<bv8>, data: array<bv8>, sb: RsParams, dataBytes: nat)
    returns (ok: bool, dataBits: nat, ghost words: seq<seq<bv8>>)
    requires sb.bs * sb.ns <= dataBytes
    requires ValidLayout(sb, LongBlocks(sb, dataBytes)) && dataBytes == StreamSize(sb, LongBlocks(sb, dataBytes))
    requires dataBytes <= raw.Length && dataBytes <= data.Length && raw != data
    modifies data
    ensures dataBits <= 8 * data.Length
    ensures var lb := LongBlocks(sb, dataBytes); var bc := sb.ns + lb;
      ok ==>
        && Codewords(words, sb, lb) && Nearest(old(raw[..dataBytes]), words, sb, lb, bc)
        && dataBits == 8 * DataBefore(sb, bc) && data[..DataBefore(sb, bc)] == DataOf(words, sb, bc)
    ensures var lb := LongBlocks(sb, dataBytes);
      !ok ==> exists i :: 0 <= i < sb.ns + lb && OutOfReach(Gathered(old(raw[..dataBytes]), sb, lb, i), Parity(sb))
  {
    hide Becomes, InReach, IsCodeword, Gathered, DataOf, DataBefore, StreamSize, Cell, Nearest, OutOfReach;
    var lbCount := (dataBytes - sb.bs * sb.ns) / (sb.bs + 1);
    var bc := lbCount + sb.ns;
    ghost var stream := raw[..dataBytes];
    var dstOffset: nat := 0;
    words := [];
    NothingYet(stream, sb, lbCount);
    for i := 0 to bc
      invariant raw[..dataBytes] == stream
      invariant dstOffset == DataBefore(sb, i) && dstOffset <= data.Length
      invariant |words| == i && Sized(words, sb, i) && Nearest(stream, words, sb, lbCount, i)
      invariant forall k :: 0 <= k < i ==> IsCodeword(words[k], sb.bs - sb.dw)
      invariant data[..dstOffset] == DataOf(words, sb, i)
    {
      BlocksFit(sb, lbCount, i);
      Gather(raw, data, dstOffset, sb, lbCount, i, dataBytes);
      ghost var word;
      ok, word := CorrectOne(data, dstOffset, sb, i);
      if !ok {
        return false, 0, [];
      }
      OneMore(stream, words, word, sb, lbCount, i);
      words := words + [word];
      DataBeforeStep(sb, i);
      dstOffset := dstOffset + DataSize(sb, i);
    }
    BlocksFit(sb, lbCount, bc);
    return true, dstOffset * 8, words;
  }

  lemma NothingYet(raw: seq<bv8>, sb: RsParams, lb: nat)
    requires sb.dw <= sb.bs
    ensures DataBefore(sb, 0) == 0 && DataOf([], sb, 0) == [] && Nearest(raw, [], sb, lb, 0)
  {}

  lemma OneMore(raw: seq<bv8>, words: seq<seq<bv8>>, word: seq<bv8>, sb: RsParams, lb: nat, i: nat)
    requires |words| == i && Sized(words, sb, i) && Nearest(raw, words, sb, lb, i) && |word| == BlockSize(sb, i)
    requires Becomes(Gathered(raw, sb, lb, i), true, word, Parity(sb))
    ensures Sized(words + [word], sb, i + 1) && Nearest(raw, words + [word], sb, lb, i + 1)
    ensures DataOf(words + [word], sb, i + 1) == DataOf(words, sb, i) + word[..DataSize(sb, i)]
  {
    hide IsCodeword, Distance, Gathered, InReach;
    SameData(words, words + [word], sb, i);
  }

  /** Whatever codewords were sent, if every gathered block is within reach of its codeword, they are what
      the correction finds. */
  lemma SentIsNearest(raw: seq<bv8>, words: seq<seq<bv8>>, sent: seq<seq<bv8>>, sb: RsParams, lb: nat)
    requires ValidLayout(sb, lb) && Codewords(words, sb, lb) && Codewords(sent, sb, lb)
    requires Nearest(raw, words, sb, lb, sb.ns + lb) && Correctable(raw, sent, sb, lb)
    ensures words == sent
  {
    hide IsCodeword, Distance, Gathered;
    forall i | 0 <= i < |words| ensures words[i] == sent[i] {
      BlockInReach(raw, sent, sb, lb, i);
      assert InReach(Gathered(raw, sb, lb, i), sent[i], Parity(sb));
    }
  }

  lemma SentInReach(raw: seq<bv8>, sent: seq<seq<bv8>>, sb: RsParams, lb: nat, i: nat)
    requires ValidLayout(sb, lb) && Codewords(sent, sb, lb) && Correctable(raw, sent, sb, lb) && i < sb.ns + lb
    ensures !OutOfReach(Gathered(raw, sb, lb, i), Parity(sb))
  {
    hide IsCodeword, Distance, Gathered;
    BlockInReach(raw, sent, sb, lb, i);
    assert InReach(Gathered(raw, sb, lb, i), sent[i], Parity(sb));
  }

  /** The number of long blocks, as codestream_ecc derives it from the size of the stream. */
  function LongBlocks(sb: RsParams, dataBytes: nat): nat
    requires sb.bs * sb.ns <= dataBytes
  {
    (dataBytes - sb.bs * sb.ns) / (sb.bs + 1)
  }

  /** Corrects block i in place; word is what it becomes. */
  method CorrectOne(data: array<bv8>, off: nat, sb: RsParams, i: nat) returns (ok: bool, ghost word: seq<bv8>)
    requires sb.dw < sb.bs < 255 && sb.bs - sb.dw < 64 && off + BlockSize(sb, i) <= data.Length
    modifies data
    ensures data[..off] == old(data[..off])
    ensures |word| == BlockSize(sb, i) && data[..off + DataSize(sb, i)] == old(data[..off]) + word[..DataSize(sb, i)]
    ensures ok ==> IsCodeword(word, sb.bs - sb.dw)
    ensures Becomes(old(data[off..off + BlockSize(sb, i)]), ok, word, Parity(sb))
    ensures !ok ==> OutOfReach(old(data[off..off + BlockSize(sb, i)]), Parity(sb))
  {
    hide Distance, IsCodeword;
    ok := CorrectBlock(data, off, BlockSize(sb, i), DataSize(sb, i));
    word := data[off..off + BlockSize(sb, i)];
    assert data[..off + DataSize(sb, i)] == data[..off] + word[..DataSize(sb, i)];
  }

  lemma DataBeforeZero(sb: RsParams, words: seq<seq<bv8>>)
    requires sb.dw <= sb.bs
    ensures DataBefore(sb, 0) == 0 && DataOf(words, sb, 0) == []
  {}

  lemma DataOfStep(words: seq<seq<bv8>>, sb: RsParams, i: nat)
    requires Sized(words, sb, i + 1)
    ensures DataOf(words, sb, i + 1) == DataOf(words, sb, i) + words[i][..DataSize(sb, i)]
  {}

  lemma BlockInReach(raw: seq<bv8>, words: seq<seq<bv8>>, sb: RsParams, lb: nat, i: nat)
    requires ValidLayout(sb, lb) && Codewords(words, sb, lb) && Correctable(raw, words, sb, lb) && i < |words|
    ensures 2 * Distance(Gathered(raw, sb, lb, i), words[i]) <= sb.bs - sb.dw
  {
    hide Distance, Gathered;
  }

  lemma BlocksFit(sb: RsParams, lb: nat, i: nat)
    requires ValidLayout(sb, lb) && i <= sb.ns + lb
    ensures DataBefore(sb, i) <= StreamSize(sb, lb)
    ensures i < sb.ns + lb ==> DataBefore(sb, i) + BlockSize(sb, i) <= StreamSize(sb, lb)
  {
    hide StreamSize;
    var bc, rows := sb.ns + lb, sb.bs - sb.dw;
    StreamSizeIs(sb, lb);
    MulLe(sb.dw, sb.bs, bc);
    MulLe(i, bc, sb.dw);
    if i < bc {
      MulLe(i + 1, bc, sb.dw);
      DataBeforeStep(sb, i);
      MulLe(1, bc, rows);
      CellSum(sb.dw, rows, bc, 0);
    }
  }

  /** The two copy loops of codestream_ecc. */
  method Gather(raw: array<bv8>, data: array<bv8>, off: nat, sb: RsParams, lb: nat, i: nat, dataBytes: nat)
    requires ValidLayout(sb, lb) && i < sb.ns + lb && dataBytes == StreamSize(sb, lb) <= raw.Length
    requires off + BlockSize(sb, i) <= data.Length && raw != data
    modifies data
    ensures data[..off] == old(data[..off])
    ensures data[off..off + BlockSize(sb, i)] == Gathered(raw[..dataBytes], sb, lb, i)
  {
    hide Cell, StreamSize;
    var bc, dw := sb.ns + lb, DataSize(sb, i);
    ghost var g := Gathered(raw[..dataBytes], sb, lb, i);
    for j := 0 to dw
      invariant unchanged(raw) && data[..off] == old(data[..off])
      invariant data[off..off + j] == g[..j]
    {
      DataCell(sb, lb, i, j);
      assert data[off..off + j] == g[..j];
      data[off + j] := raw[Cell(j, bc, i)];
      assert data[off..off + j] == g[..j] && data[off + j] == g[j];
    }
    GatherEcc(raw, data, off, sb, lb, i, dataBytes);
  }

  method GatherEcc(raw: array<bv8>, data: array<bv8>, off: nat, sb: RsParams, lb: nat, i: nat, dataBytes: nat)
    requires ValidLayout(sb, lb) && i < sb.ns + lb && dataBytes == StreamSize(sb, lb) <= raw.Length
    requires off + BlockSize(sb, i) <= data.Length && raw != data
    requires data[off..off + DataSize(sb, i)] == Gathered(raw[..dataBytes], sb, lb, i)[..DataSize(sb, i)]
    modifies data
    ensures data[..off] == old(data[..off])
    ensures data[off..off + BlockSize(sb, i)] == Gathered(raw[..dataBytes], sb, lb, i)
  {
    hide Cell, StreamSize;
    var bc, dw := sb.ns + lb, DataSize(sb, i);
    var eccOffset := Cell(sb.dw, bc, lb);
    ghost var g := Gathered(raw[..dataBytes], sb, lb, i);
    for j := 0 to sb.bs - sb.dw
      invariant unchanged(raw) && data[..off] == old(data[..off])
      invariant g == Gathered(raw[..dataBytes], sb, lb, i)
      invariant data[off..off + dw + j] == g[..dw + j]
    {
      EccCell(sb, lb, i, j);
      assert g[dw + j] == At(raw[..dataBytes], EccPos(sb, lb, i, j));
      assert data[off..off + dw + j] == g[..dw + j];
      data[off + dw + j] := raw[eccOffset + Cell(j, bc, i)];
      assert data[off..off + dw + j] == g[..dw + j] && data[off + dw + j] == g[dw + j];
    }
  }

  // ----- the encoder's view

  /** Byte i of the blocks from index `from` on. */
  function Column(blocks: seq<seq<bv8>>, i: nat, from: nat): (c: seq<bv8>)
    requires from <= |blocks| && forall k :: 0 <= k < |blocks| ==> i < |blocks[k]|
    ensures |c| == |blocks| - from
    ensures forall t :: 0 <= t < |c| ==> c[t] == blocks[from + t][i]
  {
    seq(|blocks| - from, t requires 0 <= t < |blocks| - from => blocks[from + t][i])
  }

  /** Where row n starts when row `skip` leaves out ns blocks. */
  function RowStart(skip: int, ns: int, bc: int, n: int): int {
    Cell(n, bc, 0) - if n <= skip then 0 else ns
  }

  /** The first n rows of the interleaving: row `skip` leaves out the first ns blocks. */
  function Rows(blocks: seq<seq<bv8>>, skip: nat, ns: nat, n: nat): (r: seq<bv8>)
    requires ns <= |blocks| && forall k :: 0 <= k < |blocks| ==> n <= |blocks[k]|
    ensures |r| == RowStart(skip, ns, |blocks|, n)
  {
    if n == 0 then []
    else
      RowStartStep(skip, ns, |blocks|, n - 1);
      Rows(blocks, skip, ns, n - 1) + Column(blocks, n - 1, if n - 1 == skip then ns else 0)
  }

  lemma RowStartStep(skip: int, ns: int, bc: int, n: int)
    ensures RowStart(skip, ns, bc, n + 1) == RowStart(skip, ns, bc, n) + bc - if n == skip then ns else 0
  {
    assert (n + 1) * bc == n * bc + bc;
  }

  lemma {:induction false} RowStartMonotone(skip: int, ns: int, bc: int, i: int, n: int)
    requires i <= n && 0 <= ns <= bc
    ensures RowStart(skip, ns, bc, i) <= RowStart(skip, ns, bc, n)
    decreases n - i
  {
    hide RowStart;
    if i < n {
      RowStartMonotone(skip, ns, bc, i, n - 1);
      RowStartStep(skip, ns, bc, n - 1);
    }
  }

  lemma {:induction false} RowsAt(blocks: seq<seq<bv8>>, skip: nat, ns: nat, n: nat, i: nat, t: nat)
    requires ns <= |blocks| && forall k :: 0 <= k < |blocks| ==> n <= |blocks[k]|
    requires i < n && t + (if i == skip then ns else 0) < |blocks|
    ensures At(Rows(blocks, skip, ns, n), RowStart(skip, ns, |blocks|, i) + t)
         == blocks[t + if i == skip then ns else 0][i]
    decreases n
  {
    hide RowStart;
    var bc := |blocks|;
    RowStartStep(skip, ns, bc, i);
    RowStartMonotone(skip, ns, bc, 0, i);
    assert RowStart(skip, ns, bc, 0) == |Rows(blocks, skip, ns, 0)| == 0;
    if i < n - 1 {
      RowsAt(blocks, skip, ns, n - 1, i, t);
      RowStartMonotone(skip, ns, bc, i + 1, n - 1);
    }
  }

  lemma RowStarts(sb: RsParams, lb: nat, i: int, j: nat, k: nat)
    requires j <= sb.dw
    ensures RowStart(sb.dw, sb.ns, sb.ns + lb, j) + i == Cell(j, sb.ns + lb, i)
    ensures RowStart(sb.dw, sb.ns, sb.ns + lb, sb.dw + 1 + k) + i == EccPos(sb, lb, i, k)
    ensures sb.dw <= sb.bs ==> RowStart(sb.dw, sb.ns, sb.ns + lb, sb.bs + 1) == StreamSize(sb, lb)
  {
    var bc := sb.ns + lb;
    assert (sb.dw + 1 + k) * bc == sb.dw * bc + bc + k * bc;
    assert (sb.bs + 1) * bc == sb.bs * bc + bc;
    StreamSizeIs(sb, lb);
  }

  /** The rows of padded blocks are the interleaving of the words they were made from. */
  lemma RowsInterleave(blocks: seq<seq<bv8>>, words: seq<seq<bv8>>, sb: RsParams, lb: nat)
    requires ValidLayout(sb, lb) && |blocks| == |words| == sb.ns + lb && Sized(words, sb, |words|)
    requires forall i :: 0 <= i < |words| ==> |blocks[i]| == sb.bs + 1 && Padded(blocks[i], words[i], sb, i)
    ensures Interleaves(Rows(blocks, sb.dw, sb.ns, sb.bs + 1), words, sb, lb)
  {
    hide Cell, StreamSize, RowStart, Padded, Rows;
    var r := Rows(blocks, sb.dw, sb.ns, sb.bs + 1);
    RowStarts(sb, lb, 0, 0, 0);
    forall i, j | 0 <= i < |words| && 0 <= j < DataSize(sb, i)
      ensures At(r, DataPos(sb, lb, i, j)) == words[i][j]
    {
      DataByte(blocks, words, sb, lb, i, j);
    }
    forall i, k | 0 <= i < |words| && 0 <= k < sb.bs - sb.dw
      ensures At(r, EccPos(sb, lb, i, k)) == words[i][DataSize(sb, i) + k]
    {
      EccByte(blocks, words, sb, lb, i, k);
    }
  }

  lemma DataByte(blocks: seq<seq<bv8>>, words: seq<seq<bv8>>, sb: RsParams, lb: nat, i: nat, j: nat)
    requires ValidLayout(sb, lb) && |blocks| == |words| == sb.ns + lb && Sized(words, sb, |words|)
    requires forall i :: 0 <= i < |words| ==> |blocks[i]| == sb.bs + 1 && Padded(blocks[i], words[i], sb, i)
    requires i < |words| && j < DataSize(sb, i)
    ensures At(Rows(blocks, sb.dw, sb.ns, sb.bs + 1), DataPos(sb, lb, i, j)) == words[i][j]
  {
    hide Cell, RowStart, Rows, StreamSize, At, Codewords;
    var t := if j == sb.dw then i - sb.ns else i;
    RowStarts(sb, lb, t, j, 0);
    RowsAt(blocks, sb.dw, sb.ns, sb.bs + 1, j, t);
    assert Padded(blocks[i], words[i], sb, i);
  }

  lemma EccByte(blocks: seq<seq<bv8>>, words: seq<seq<bv8>>, sb: RsParams, lb: nat, i: nat, k: nat)
    requires ValidLayout(sb, lb) && |blocks| == |words| == sb.ns + lb && Sized(words, sb, |words|)
    requires forall i :: 0 <= i < |words| ==> |blocks[i]| == sb.bs + 1 && Padded(blocks[i], words[i], sb, i)
    requires i < |words| && k < sb.bs - sb.dw
    ensures At(Rows(blocks, sb.dw, sb.ns, sb.bs + 1), EccPos(sb, lb, i, k)) == words[i][DataSize(sb, i) + k]
  {
    hide EccPos, RowStart, Rows, StreamSize, At, Codewords;
    var row := sb.dw + 1 + k;
    RowStarts(sb, lb, i, 0, k);
    RowsAt(blocks, sb.dw, sb.ns, sb.bs + 1, row, i);
    assert Padded(blocks[i], words[i], sb, i);
  }

  /** A stored block is its word, with a byte of padding after the data if the block is short. */
  ghost predicate Padded(block: seq<bv8>, word: seq<bv8>, sb: RsParams, i: nat)
    requires |word| == BlockSize(sb, i) && |block| == sb.bs + 1 && sb.dw <= sb.bs
  {
    forall j :: 0 <= j < |block| && (j != sb.dw || sb.ns <= i) ==>
      block[j] == word[if j < sb.dw || sb.ns <= i then j else j - 1]
  }

  /** The block structure that addEccAndInterleave derives from the symbol's three parameters. */
  function LayoutOf(numBlocks: nat, blockEccLen: nat, rawCodewords: nat): RsParams
    requires numBlocks > 0 && blockEccLen <= rawCodewords / numBlocks
  {
    RsParams(rawCodewords / numBlocks, rawCodewords / numBlocks - blockEccLen, numBlocks - rawCodewords % numBlocks)
  }

  lemma LayoutSizes(numBlocks: nat, blockEccLen: nat, rawCodewords: nat)
    requires numBlocks > 0 && blockEccLen <= rawCodewords / numBlocks
    ensures var sb, lb := LayoutOf(numBlocks, blockEccLen, rawCodewords), rawCodewords % numBlocks;
      StreamSize(sb, lb) == rawCodewords && DataBefore(sb, numBlocks) == rawCodewords - blockEccLen * numBlocks
  {
    var q, lb := rawCodewords / numBlocks, rawCodewords % numBlocks;
    var sb := LayoutOf(numBlocks, blockEccLen, rawCodewords);
    StreamSizeIs(sb, lb);
    assert rawCodewords == q * numBlocks + lb;
    assert numBlocks * (q - blockEccLen) == q * numBlocks - blockEccLen * numBlocks;
  }

  /** addEccAndInterleave. The words are the blocks before padding: they carry the data in order,
      every one is a codeword, and the result is their interleaving. */
  method AddEccAndInterleave(data: seq<bv8>, numBlocks: nat, blockEccLen: nat, rawCodewords: nat)
    returns (ok: bool, result: seq<bv8>, ghost words: seq<seq<bv8>>)
    requires numBlocks > 0 && 1 <= blockEccLen < 64 && blockEccLen < rawCodewords / numBlocks < 255
    ensures var sb, lb := LayoutOf(numBlocks, blockEccLen, rawCodewords), rawCodewords % numBlocks;
      && (ok <==> |data| == rawCodewords - blockEccLen * numBlocks)
      && (ok ==> Codewords(words, sb, lb) && Interleaves(result, words, sb, lb) && DataOf(words, sb, numBlocks) == data)
      && (ok ==> IsStreamOf(result, data, sb, lb))
  {
    hide IsCodeword, Interleaves, StreamSize, DataBefore, E.WordEval, E.Generator, E.Remainder, Rows;
    if |data| != rawCodewords - blockEccLen * numBlocks {
      return false, [], [];
    }
    var numShortBlocks := numBlocks - rawCodewords % numBlocks;
    var shortBlockLen := rawCodewords / numBlocks;
    ghost var sb, lb := LayoutOf(numBlocks, blockEccLen, rawCodewords), rawCodewords % numBlocks;
    LayoutSizes(numBlocks, blockEccLen, rawCodewords);
    var blocks;
    blocks, words := SplitAndAppend(data, numBlocks, blockEccLen, shortBlockLen, numShortBlocks, sb);
    ok := true;
    result := InterleaveBlocks(blocks, numBlocks, blockEccLen, shortBlockLen, numShortBlocks);
    RowsInterleave(blocks, words, sb, lb);
    assert IsStreamOf(result, data, sb, lb);
  }

  /** A stream that interleaves codewords with this data. */
  ghost predicate IsStreamOf(raw: seq<bv8>, data: seq<bv8>, sb: RsParams, lb: nat)
    requires ValidLayout(sb, lb)
  {
    exists words :: Codewords(words, sb, lb) && Interleaves(raw, words, sb, lb) && DataOf(words, sb, sb.ns + lb) == data
  }

  /** Which byte of which block stands at position t: data byte j, or parity byte j. */
  lemma Covered(sb: RsParams, lb: nat, t: nat) returns (i: nat, j: nat, isData: bool)
    requires ValidLayout(sb, lb) && t < StreamSize(sb, lb)
    ensures i < sb.ns + lb
    ensures if isData then j < DataSize(sb, i) && DataPos(sb, lb, i, j) == t
            else j < sb.bs - sb.dw && EccPos(sb, lb, i, j) == t
  {
    hide Cell, StreamSize;
    var bc := sb.ns + lb;
    StreamSizeIs(sb, lb);
    if t < Cell(sb.dw, bc, 0) {
      i, j, isData := t % bc, t / bc, true;
      RowBelow(t, bc, sb.dw);
    } else if t < Cell(sb.dw, bc, lb) {
      CellSum(sb.dw, 0, bc, lb);
      i, j, isData := sb.ns + (t - Cell(sb.dw, bc, 0)), sb.dw, true;
      CellSum(sb.dw, 0, bc, i - sb.ns);
    } else {
      var u := t - Cell(sb.dw, bc, lb);
      CellSum(sb.dw, sb.bs - sb.dw, bc, lb);
      CellSum(sb.bs, 0, bc, lb);
      RowBelow(u, bc, sb.bs - sb.dw);
      i, j, isData := u % bc, u / bc, false;
    }
  }

  lemma RowBelow(t: nat, bc: nat, rows: nat)
    requires bc > 0 && t < Cell(rows, bc, 0)
    ensures 0 <= t / bc < rows && 0 <= t % bc < bc && Cell(t / bc, bc, t % bc) == t
  {
    assert t == (t / bc) * bc + t % bc;
    if t / bc >= rows { MulLe(rows, t / bc, bc); }
  }

  lemma {:induction false} DataOfEach(words: seq<seq<bv8>>, words': seq<seq<bv8>>, sb: RsParams, n: nat, i: nat)
    requires Sized(words, sb, n) && Sized(words', sb, n) && DataOf(words, sb, n) == DataOf(words', sb, n)
    requires i < n
    ensures words[i][..DataSize(sb, i)] == words'[i][..DataSize(sb, i)]
  {
    DataBeforeStep(sb, n - 1);
    var k, a, b := DataBefore(sb, n - 1), DataOf(words, sb, n), DataOf(words', sb, n);
    assert a[..k] == DataOf(words, sb, n - 1) && b[..k] == DataOf(words', sb, n - 1);
    assert a[k..] == words[n - 1][..DataSize(sb, n - 1)] && b[k..] == words'[n - 1][..DataSize(sb, n - 1)];
    if i < n - 1 { DataOfEach(words, words', sb, n - 1, i); }
  }

  lemma WordsUnique(words: seq<seq<bv8>>, words': seq<seq<bv8>>, sb: RsParams, lb: nat)
    requires ValidLayout(sb, lb) && Codewords(words, sb, lb) && Codewords(words', sb, lb)
    requires DataOf(words, sb, sb.ns + lb) == DataOf(words', sb, sb.ns + lb)
    ensures words == words'
  {
    hide IsCodeword, DataOf;
    forall i | 0 <= i < sb.ns + lb ensures words[i] == words'[i] {
      var d := DataSize(sb, i);
      DataOfEach(words, words', sb, sb.ns + lb, i);
      assert words[i] == words[i][..d] + words[i][d..] && words'[i] == words'[i][..d] + words'[i][d..];
      E.ParityUnique(words[i][..d], words[i][d..], words'[i][d..]);
    }
  }

  /** There is only one stream for the same data: what addEccAndInterleave returns is determined byte by
      byte by the decoder's notion of a codeword and by the places of the stream. */
  lemma StreamUnique(raw: seq<bv8>, raw': seq<bv8>, data: seq<bv8>, sb: RsParams, lb: nat)
    requires ValidLayout(sb, lb) && IsStreamOf(raw, data, sb, lb) && IsStreamOf(raw', data, sb, lb)
    ensures raw == raw'
  {
    hide DataOf, IsCodeword;
    var words :| Codewords(words, sb, lb) && Interleaves(raw, words, sb, lb) && DataOf(words, sb, sb.ns + lb) == data;
    var words' :| Codewords(words', sb, lb) && Interleaves(raw', words', sb, lb) && DataOf(words', sb, sb.ns + lb) == data;
    WordsUnique(words, words', sb, lb);
    forall t | 0 <= t < |raw| ensures raw[t] == raw'[t] {
      var i, j, isData := Covered(sb, lb, t);
      hide DataPos, EccPos, StreamSize;
      if isData { assert At(raw, DataPos(sb, lb, i, j)) == words[i][j]; }
      else { assert At(raw, EccPos(sb, lb, i, j)) == words[i][DataSize(sb, i) + j]; }
    }
  }

  /** The interleaving loops of addEccAndInterleave. */
  method InterleaveBlocks(blocks: seq<seq<bv8>>, numBlocks: nat, blockEccLen: nat, shortBlockLen: nat, numShortBlocks: nat)
    returns (result: seq<bv8>)
    requires |blocks| == numBlocks && numShortBlocks <= numBlocks && blockEccLen <= shortBlockLen
    requires forall i :: 0 <= i < numBlocks ==> |blocks[i]| == shortBlockLen + 1
    ensures result == Rows(blocks, shortBlockLen - blockEccLen, numShortBlocks, shortBlockLen + 1)
  {
    hide Rows;
    var skip := shortBlockLen - blockEccLen;
    result := [];
    EmptyRows(blocks, skip, numShortBlocks);
    for i := 0 to shortBlockLen + 1
      invariant result == Rows(blocks, skip, numShortBlocks, i)
    {
      ghost var before := result;
      ghost var from := if i == skip then numShortBlocks else 0;
      ghost var c := Column(blocks, i, from);
      for j := 0 to numBlocks
        invariant result == before + c[..if j < from then 0 else j - from]
      {
        if i != skip || j >= numShortBlocks {
          assert c[..j - from] + [c[j - from]] == c[..j + 1 - from];
          result := result + [blocks[j][i]];
        }
      }
      assert c[..numBlocks - from] == c;
      RowsStep(blocks, skip, numShortBlocks, i);
    }
  }

  lemma EmptyRows(blocks: seq<seq<bv8>>, skip: nat, ns: nat)
    requires ns <= |blocks|
    ensures Rows(blocks, skip, ns, 0) == []
  {}

  lemma RowsStep(blocks: seq<seq<bv8>>, skip: nat, ns: nat, i: nat)
    requires ns <= |blocks| && forall k :: 0 <= k < |blocks| ==> i < |blocks[k]|
    ensures Rows(blocks, skip, ns, i + 1) == Rows(blocks, skip, ns, i) + Column(blocks, i, if i == skip then ns else 0)
  {}

  /** The block loop of addEccAndInterleave. */
  method SplitAndAppend(data: seq<bv8>, numBlocks: nat, blockEccLen: nat, shortBlockLen: nat, numShortBlocks: nat, ghost sb: RsParams)
    returns (blocks: seq<seq<bv8>>, ghost words: seq<seq<bv8>>)
    requires 1 <= blockEccLen < shortBlockLen < 255 && numShortBlocks <= numBlocks && blockEccLen < 64
    requires sb == RsParams(shortBlockLen, shortBlockLen - blockEccLen, numShortBlocks)
    requires |data| == DataBefore(sb, numBlocks)
    ensures |blocks| == |words| == numBlocks && Sized(words, sb, numBlocks)
    ensures forall i :: 0 <= i < numBlocks ==> IsCodeword(words[i], blockEccLen)
    ensures forall i :: 0 <= i < numBlocks ==> |blocks[i]| == sb.bs + 1 && Padded(blocks[i], words[i], sb, i)
    ensures DataOf(words, sb, numBlocks) == data
  {
    hide IsCodeword, DataBefore, E.WordEval, E.Generator, E.Remainder, DataOf;
    blocks, words := [], [];
    var rsDiv := E.ComputeDivisor(blockEccLen);
    ghost var g := rsDiv[..];
    var k: nat := 0;
    DataBeforeZero(sb, words);
    for i := 0 to numBlocks
      invariant k == DataBefore(sb, i) <= |data|
      invariant |blocks| == |words| == i && Sized(words, sb, i)
      invariant rsDiv[..] == g
      invariant forall q :: 0 <= q < i ==> IsCodeword(words[q], blockEccLen)
      invariant forall q :: 0 <= q < i ==> |blocks[q]| == sb.bs + 1 && Padded(blocks[q], words[q], sb, q)
      invariant DataOf(words, sb, i) == data[..k]
    {
      var datLen := shortBlockLen - blockEccLen + if i < numShortBlocks then 0 else 1;
      DataBeforeStep(sb, i);
      DataBeforeMonotone(sb, i + 1, numBlocks);
      var dat := data[k..k + datLen];
      ghost var words' := words;
      k := k + datLen;
      var ecc := E.ComputeRemainder(dat, rsDiv);
      E.RemainderMakesCodeword(dat, g, ecc);
      words := words + [dat + ecc];
      if i < numShortBlocks {
        dat := dat + [0];
      }
      dat := dat + ecc;
      blocks := blocks + [dat];
      DataOfStep(words, sb, i);
      SameData(words', words, sb, i);
      assert words[i][..DataSize(sb, i)] == data[k - datLen..k];
      assert data[..k] == data[..k - datLen] + data[k - datLen..k];
    }
    assert data[..k] == data;
  }

  lemma {:induction false} SameData(words: seq<seq<bv8>>, words': seq<seq<bv8>>, sb: RsParams, i: nat)
    requires Sized(words, sb, i) && words <= words'
    ensures DataOf(words, sb, i) == DataOf(words', sb, i)
  {
    if i > 0 {
      SameData(words, words', sb, i - 1);
    }
  }

  lemma {:induction false} DataBeforeMonotone(sb: RsParams, i: nat, j: nat)
    requires i <= j
    ensures DataBefore(sb, i) <= DataBefore(sb, j)
  {
    MulLe(i, j, sb.dw);
  }

  // ----- the round trip

  /** For every block layout whose parity leaves room for one correction, every data sequence of the
      right size, and every received stream in which each block is damaged no further than that: what
      the decoder reads is the data the encoder was given. */
  method RoundTrip(data: seq<bv8>, numBlocks: nat, blockEccLen: nat, rawCodewords: nat, damage: seq<bv8>)
    returns (ok: bool, received: seq<bv8>)
    requires numBlocks > 0 && 2 <= blockEccLen < 64 && blockEccLen < rawCodewords / numBlocks < 254
    requires |data| == rawCodewords - blockEccLen * numBlocks && |damage| == rawCodewords
    ensures var sb, lb := LayoutOf(numBlocks, blockEccLen, rawCodewords), rawCodewords % numBlocks;
      forall sent :: IsStreamOf(sent, data, sb, lb) && |sent| == rawCodewords && Tolerable(sent, damage, sb, lb, blockEccLen)
        ==> ok && received == data
  {
    hide Distance, IsCodeword, Gathered, Interleaves, DataOf, DataBefore, StreamSize, Difference, OutOfReach, Nearest;
    var encoded, stream;
    ghost var words;
    encoded, stream, words := AddEccAndInterleave(data, numBlocks, blockEccLen, rawCodewords);
    ghost var sb, lb := LayoutOf(numBlocks, blockEccLen, rawCodewords), rawCodewords % numBlocks;
    LayoutSizes(numBlocks, blockEccLen, rawCodewords);
    StreamLength(stream, words, sb, lb);
    var arrived := Difference(stream, damage);
    var raw := new bv8[rawCodewords](i requires 0 <= i < rawCodewords => arrived[i]);
    var buffer := new bv8[rawCodewords];
    assert raw[..rawCodewords] == arrived;
    LongBlocksOf(sb, lb, rawCodewords);
    var dataBits;
    ghost var found;
    ok, dataBits, found := CodestreamEcc(raw, buffer, LayoutOf(numBlocks, blockEccLen, rawCodewords), rawCodewords);
    received := buffer[..dataBits / 8];
    ghost var failed := if ok then 0 else FailedBlock(arrived, sb, lb);
    forall sent | IsStreamOf(sent, data, sb, lb) && |sent| == rawCodewords && Tolerable(sent, damage, sb, lb, blockEccLen)
      ensures ok && received == data
    {
      StreamUnique(sent, stream, data, sb, lb);
      DamageCorrectable(arrived, sent, words, sb, lb);
      if ok {
        SentIsNearest(arrived, found, words, sb, lb);
      } else {
        SentInReach(arrived, words, sb, lb, failed);
      }
    }
  }

  ghost function FailedBlock(raw: seq<bv8>, sb: RsParams, lb: nat): (i: nat)
    requires sb.dw <= sb.bs && exists i :: 0 <= i < sb.ns + lb && OutOfReach(Gathered(raw, sb, lb, i), Parity(sb))
    ensures i < sb.ns + lb && OutOfReach(Gathered(raw, sb, lb, i), Parity(sb))
  {
    var i: nat :| i < sb.ns + lb && OutOfReach(Gathered(raw, sb, lb, i), Parity(sb));
    i
  }

  /** The damage leaves room for the misread byte in every long block. */
  ghost predicate Tolerable(sent: seq<bv8>, damage: seq<bv8>, sb: RsParams, lb: nat, blockEccLen: nat)
    requires |damage| == |sent| && sb.dw <= sb.bs
  {
    forall i :: 0 <= i < sb.ns + lb ==>
      2 * (Distance(Gathered(Difference(sent, damage), sb, lb, i), Gathered(sent, sb, lb, i))
           + if i < sb.ns then 0 else 1) <= blockEccLen
  }

  lemma StreamLength(raw: seq<bv8>, words: seq<seq<bv8>>, sb: RsParams, lb: nat)
    requires ValidLayout(sb, lb) && Interleaves(raw, words, sb, lb)
    ensures |raw| == StreamSize(sb, lb)
  {}

  lemma LongBlocksOf(sb: RsParams, lb: nat, dataBytes: nat)
    requires dataBytes == StreamSize(sb, lb)
    ensures sb.bs * sb.ns <= dataBytes && LongBlocks(sb, dataBytes) == lb
  {
    assert dataBytes - sb.bs * sb.ns == (sb.bs + 1) * lb;
    DivExact(sb.bs + 1, lb);
  }

  lemma DivExact(a: nat, b: nat)
    requires a > 0
    ensures (a * b) / a == b
  {
    var q, r := (a * b) / a, (a * b) % a;
    assert a * b == a * q + r;
    assert (q + 1) * a == a * q + a;
    assert (b + 1) * a == a * b + a;
    if q < b {
      MulLe(q + 1, b, a);
    } else if b < q {
      MulLe(b + 1, q, a);
    }
  }

  lemma DamageCorrectable(raw: seq<bv8>, sent: seq<bv8>, words: seq<seq<bv8>>, sb: RsParams, lb: nat)
    requires ValidLayout(sb, lb) && Codewords(words, sb, lb) && Interleaves(sent, words, sb, lb)
    requires forall i :: 0 <= i < |words| ==>
      2 * (Distance(Gathered(raw, sb, lb, i), Gathered(sent, sb, lb, i)) + if i < sb.ns then 0 else 1) <= sb.bs - sb.dw
    ensures Correctable(raw, words, sb, lb)
  {
    hide Distance, IsCodeword, Gathered, Interleaves;
    forall i | 0 <= i < |words|
      ensures 2 * Distance(Gathered(raw, sb, lb, i), words[i]) <= sb.bs - sb.dw
    {
      DamagedNearby(raw, sent, words, sb, lb, i);
    }
  }
}
