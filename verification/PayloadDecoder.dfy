/** decode_payload of 3rdparty/quirc/decode.c and the functions under it: a bit cursor over the
    corrected data, a payload buffer that fills up. */
module PayloadDecoder {
  import opened Bytes
  import opened Zigzag
  import opened Segments
  import P = Payload

  /** The bits of a byte buffer from ptr up to bit n. */
  function BitsFrom(data: seq<bv8>, ptr: nat, n: nat): (b: seq<bool>)
    requires ptr <= n <= 8 * |data|
    ensures |b| == n - ptr && forall k :: 0 <= k < n - ptr ==> b[k] == StreamBit(data, ptr + k)
  {
    seq(n - ptr, k requires 0 <= k < n - ptr => StreamBit(data, ptr + k))
  }

  class Datastream {
    const data: seq<bv8> // the corrected bytes, which the payload decoder only reads
    var dataBits: nat
    var ptr: nat

    ghost predicate Valid()
      reads this
    {
      ptr <= dataBits <= 8 * |data|
    }

    /** The bits still to be read. */
    ghost function Remaining(): (b: seq<bool>)
      requires Valid()
      reads this
      ensures |b| == dataBits - ptr
    {
      BitsFrom(data, ptr, dataBits)
    }

    constructor (d: seq<bv8>, bits: nat)
      requires bits <= 8 * |d|
      ensures Valid() && data == d && dataBits == bits && ptr == 0
    {
      data := d;
      dataBits := bits;
      ptr := 0;
    }
  }

  /** take_bits: the value of the next len bits, or of as many as are left. */
  method TakeBits(ds: Datastream, len: nat) returns (ret: nat)
    requires ds.Valid()
    modifies ds`ptr
    ensures ds.Valid()
    ensures var b := old(ds.Remaining());
      ret == Value(b[..P.Taken(b, len)]) && ds.Remaining() == b[P.Taken(b, len)..]
  {
    hide BitAt, Value;
    ret := 0;
    var left := len;
    ghost var b := ds.Remaining();
    ghost var n := P.Taken(b, len);
    ghost var k: nat := 0;
    assert b[..0] == [];
    NoValue();
    while left > 0 && ds.ptr < ds.dataBits
      invariant ds.Valid() && ds.dataBits == old(ds.dataBits) && ds.ptr == old(ds.ptr) + k && left == len - k
      invariant k <= n
      invariant ret == Value(b[..k])
    {
      var byte := ds.data[ds.ptr / 8];
      var bitpos := ds.ptr % 8;
      TopBit(byte, bitpos);
      assert b[k] == StreamBit(ds.data, ds.ptr);
      assert b[..k + 1] == b[..k] + [b[k]];
      ValueAppend(b[..k], b[k]);
      ret := ret * 2;
      if (byte << bitpos) & 0x80 != 0 {
        ret := ret + 1;
      }
      ds.ptr := ds.ptr + 1;
      left := left - 1;
      k := k + 1;
    }
    assert k == n;
    assert ds.Remaining() == b[n..];
  }

  lemma NoValue()
    ensures Value([]) == 0
  {}

  /** The part of struct quirc_data that the payload decoder fills in. */
  class QuircData {
    var version: int
    const payload: array<char>
    var payloadLen: nat
    var dataType: nat
    var eci: nat

    ghost predicate Valid()
      reads this
    {
      payload.Length == P.MAX_PAYLOAD && payloadLen <= P.MAX_PAYLOAD
    }

    ghost function Text(): (s: string)
      requires Valid()
      reads this, payload
      ensures |s| == payloadLen
    {
      payload[..payloadLen]
    }

    ghost function Gathered(): P.Gathered
      requires Valid()
      reads this, payload
    {
      P.Gathered(Text(), eci, dataType)
    }

    constructor (v: int)
      ensures Valid() && version == v && payloadLen == 0 && dataType == 0 && eci == 0
      ensures fresh(payload)
    {
      version := v;
      payload := new char[P.MAX_PAYLOAD](_ => '\0');
      payloadLen := 0;
      dataType := 0;
      eci := 0;
    }
  }

  datatype Status = Success | Error(e: P.Error)

  /** The decoder did what the step says. */
  ghost predicate Follows(st: Status, s: P.Step, ds: Datastream, d: QuircData)
    requires ds.Valid() && d.Valid()
    reads ds, d, d.payload
  {
    match s
    case Failed(e) => st == Error(e)
    case Next(g, rest) => st == Success && d.Gathered() == g && ds.Remaining() == rest
  }

  // ----- tuples

  /** The loop of numeric_tuple: writes digits from the last to the first. */
  method WriteDigits(buf: array<char>, at: nat, v: nat, digits: nat)
    requires at + digits <= buf.Length
    modifies buf
    ensures buf[..at] == old(buf[..at]) && buf[at..at + digits] == P.Digits(v, digits)
  {
    var tuple := v;
    var i := digits - 1;
    while i >= 0
      invariant -1 <= i < digits
      invariant buf[..at] == old(buf[..at])
      invariant P.Digits(v, digits) == P.Digits(tuple, i + 1) + buf[at + i + 1..at + digits]
    {
      ghost var tail := buf[at + i + 1..at + digits];
      buf[at + i] := ('0' as int + tuple % 10) as char;
      assert buf[at + i..at + digits] == [buf[at + i]] + tail;
      tuple := tuple / 10;
      i := i - 1;
    }
  }

  /** The loop of alpha_tuple. */
  method WriteAlpha(buf: array<char>, at: nat, v: nat, digits: nat)
    requires at + digits <= buf.Length
    modifies buf
    ensures buf[..at] == old(buf[..at]) && buf[at..at + digits] == P.AlphaDigits(v, digits)
  {
    hide AlphaChar;
    var tuple := v;
    for i := 0 to digits
      invariant tuple >= 0
      invariant buf[..at] == old(buf[..at])
      invariant P.AlphaDigits(v, digits) == P.AlphaDigits(tuple, digits - i) + buf[at + digits - i..at + digits]
    {
      ghost var tail := buf[at + digits - i..at + digits];
      buf[at + digits - i - 1] := AlphaChar(tuple % 45);
      assert buf[at + digits - i - 1..at + digits] == [buf[at + digits - i - 1]] + tail;
      tuple := tuple / 45;
    }
  }

  /** numeric_tuple. */
  method NumericTuple(d: QuircData, ds: Datastream, bits: nat, digits: nat) returns (ok: bool)
    requires ds.Valid() && d.Valid() && d.payloadLen + digits <= P.MAX_PAYLOAD
    modifies ds`ptr, d`payloadLen, d.payload
    ensures ds.Valid() && d.Valid()
    ensures ok <==> bits <= |old(ds.Remaining())|
    ensures ok ==>
      && ds.Remaining() == old(ds.Remaining())[bits..]
      && d.Text() == old(d.Text()) + P.Digits(Value(old(ds.Remaining())[..bits]), digits)
  {
    hide Value, BitsFrom, P.Digits;
    if ds.dataBits - ds.ptr < bits {
      return false;
    }
    var tuple := TakeBits(ds, bits);
    ghost var was := d.Text();
    WriteDigits(d.payload, d.payloadLen, tuple, digits);
    assert d.Text() == was;
    Grown(d.payload[..], d.payloadLen, digits);
    d.payloadLen := d.payloadLen + digits;
    ok := true;
  }

  lemma Grown(buf: seq<char>, at: nat, n: nat)
    requires at + n <= |buf|
    ensures buf[..at + n] == buf[..at] + buf[at..at + n]
  {}

  /** alpha_tuple. */
  method AlphaTuple(d: QuircData, ds: Datastream, bits: nat, digits: nat) returns (ok: bool)
    requires ds.Valid() && d.Valid() && d.payloadLen + digits <= P.MAX_PAYLOAD
    modifies ds`ptr, d`payloadLen, d.payload
    ensures ds.Valid() && d.Valid()
    ensures ok <==> bits <= |old(ds.Remaining())|
    ensures ok ==>
      && ds.Remaining() == old(ds.Remaining())[bits..]
      && d.Text() == old(d.Text()) + P.AlphaDigits(Value(old(ds.Remaining())[..bits]), digits)
  {
    hide Value, BitsFrom, P.AlphaDigits;
    if ds.dataBits - ds.ptr < bits {
      return false;
    }
    var tuple := TakeBits(ds, bits);
    ghost var was := d.Text();
    WriteAlpha(d.payload, d.payloadLen, tuple, digits);
    assert d.Text() == was;
    Grown(d.payload[..], d.payloadLen, digits);
    d.payloadLen := d.payloadLen + digits;
    ok := true;
  }

  // ----- segments

  lemma PrependTwice(a: string, b: string, p: P.Piece)
    ensures P.Prepend(a, P.Prepend(b, p)) == P.Prepend(a + b, p)
    ensures P.Prepend("", p) == p
  {
    if p.Piece? {
      assert a + (b + p.text) == a + b + p.text && "" + p.text == p.text;
    }
  }

  /** The piece was read and appended, or the stream was too short. */
  twostate predicate PieceRead(ok: bool, piece: P.Piece, ds: Datastream, d: QuircData)
    requires old(ds.Valid()) && ds.Valid() && old(d.Valid()) && d.Valid()
    reads ds, d, d.payload
  {
    && (ok <==> piece.Piece?)
    && (ok ==> d.Text() == old(d.Text()) + piece.text && ds.Remaining() == piece.rest)
  }

  method DecodeNumeric(d: QuircData, ds: Datastream) returns (st: Status)
    requires ds.Valid() && d.Valid()
    modifies ds`ptr, d`payloadLen, d.payload
    ensures ds.Valid() && d.Valid()
    ensures Follows(st, P.NumericStep(old(ds.Remaining()), d.version, old(d.Gathered())), ds, d)
  {
    hide Value, BitsFrom, P.NumericPiece, QuircData.Text;
    var bits := 14;
    if d.version < 10 {
      bits := 10;
    } else if d.version < 27 {
      bits := 12;
    }
    assert bits == P.NumericCount(d.version);
    hide P.NumericCount;
    var count := TakeBits(ds, bits);
    if d.payloadLen + count + 1 > P.MAX_PAYLOAD {
      return Error(P.DataOverflow);
    }
    var ok := NumericTuples(d, ds, count);
    st := if ok then Success else Error(P.DataUnderflow);
  }

  /** The tuple loops of decode_numeric. */
  method NumericTuples(d: QuircData, ds: Datastream, n: nat) returns (ok: bool)
    requires ds.Valid() && d.Valid() && d.payloadLen + n <= P.MAX_PAYLOAD
    modifies ds`ptr, d`payloadLen, d.payload
    ensures ds.Valid() && d.Valid()
    ensures PieceRead(ok, P.NumericPiece(old(ds.Remaining()), n), ds, d)
  {
    hide Value, BitsFrom, P.Digits, P.NumericPiece;
    ghost var was := d.Text();
    ghost var written: string := "";
    ghost var all := P.NumericPiece(ds.Remaining(), n);
    var count := n;
    PrependTwice("", "", all);
    assert was + "" == was;
    while count >= 3
      invariant ds.Valid() && d.Valid() && d.payloadLen + count <= P.MAX_PAYLOAD
      invariant d.Text() == was + written
      invariant all == P.Prepend(written, P.NumericPiece(ds.Remaining(), count))
    {
      NumericUnfold(ds.Remaining(), count);
      ghost var b := ds.Remaining();
      ok := NumericTuple(d, ds, 10, 3);
      if !ok {
        return;
      }
      written := Extended(was, written, P.Digits(Value(b[..10]), 3), P.NumericPiece(b[10..], count - 3));
      count := count - 3;
    }
    NumericUnfold(ds.Remaining(), count);
    ghost var b := ds.Remaining();
    ok := true;
    if count >= 2 {
      ok := NumericTuple(d, ds, 7, 2);
      count := count - 2;
      written := Extended(was, written, if ok then P.Digits(Value(b[..7]), 2) else "", P.Piece("", ds.Remaining()));
    } else if count != 0 {
      ok := NumericTuple(d, ds, 4, 1);
      count := count - 1;
      written := Extended(was, written, if ok then P.Digits(Value(b[..4]), 1) else "", P.Piece("", ds.Remaining()));
    } else {
      assert written + "" == written;
    }
  }

  /** One more group of characters has been written. */
  ghost method Extended(was: string, written: string, t: string, rest: P.Piece) returns (r: string)
    ensures r == written + t && was + written + t == was + r
    ensures P.Prepend(written, P.Prepend(t, rest)) == P.Prepend(r, rest)
  {
    PrependTwice(written, t, rest);
    r := written + t;
    assert was + written + t == was + r;
  }

  lemma NumericUnfold(b: seq<bool>, count: nat)
    ensures P.NumericPiece(b, count) ==
      if count >= 3 then
        if |b| < 10 then P.Short else P.Prepend(P.Digits(Value(b[..10]), 3), P.NumericPiece(b[10..], count - 3))
      else if count >= 2 then
        if |b| < 7 then P.Short else P.Piece(P.Digits(Value(b[..7]), 2), b[7..])
      else if count == 1 then
        if |b| < 4 then P.Short else P.Piece(P.Digits(Value(b[..4]), 1), b[4..])
      else P.Piece("", b)
  {}

  method DecodeAlpha(d: QuircData, ds: Datastream) returns (st: Status)
    requires ds.Valid() && d.Valid()
    modifies ds`ptr, d`payloadLen, d.payload
    ensures ds.Valid() && d.Valid()
    ensures Follows(st, P.AlphaStep(old(ds.Remaining()), d.version, old(d.Gathered())), ds, d)
  {
    hide Value, BitsFrom, P.AlphaPiece, QuircData.Text;
    var bits := 13;
    if d.version < 10 {
      bits := 9;
    } else if d.version < 27 {
      bits := 11;
    }
    assert bits == P.AlphaCount(d.version);
    hide P.AlphaCount;
    var count := TakeBits(ds, bits);
    if d.payloadLen + count + 1 > P.MAX_PAYLOAD {
      return Error(P.DataOverflow);
    }
    var ok := AlphaTuples(d, ds, count);
    st := if ok then Success else Error(P.DataUnderflow);
  }

  /** The tuple loops of decode_alpha. */
  method AlphaTuples(d: QuircData, ds: Datastream, n: nat) returns (ok: bool)
    requires ds.Valid() && d.Valid() && d.payloadLen + n <= P.MAX_PAYLOAD
    modifies ds`ptr, d`payloadLen, d.payload
    ensures ds.Valid() && d.Valid()
    ensures PieceRead(ok, P.AlphaPiece(old(ds.Remaining()), n), ds, d)
  {
    hide Value, BitsFrom, P.AlphaDigits, P.AlphaPiece;
    ghost var was := d.Text();
    ghost var written: string := "";
    ghost var all := P.AlphaPiece(ds.Remaining(), n);
    var count := n;
    PrependTwice("", "", all);
    assert was + "" == was;
    while count >= 2
      invariant ds.Valid() && d.Valid() && d.payloadLen + count <= P.MAX_PAYLOAD
      invariant d.Text() == was + written
      invariant all == P.Prepend(written, P.AlphaPiece(ds.Remaining(), count))
    {
      AlphaUnfold(ds.Remaining(), count);
      ghost var b := ds.Remaining();
      ok := AlphaTuple(d, ds, 11, 2);
      if !ok {
        return;
      }
      written := Extended(was, written, P.AlphaDigits(Value(b[..11]), 2), P.AlphaPiece(b[11..], count - 2));
      count := count - 2;
    }
    AlphaUnfold(ds.Remaining(), count);
    ghost var b := ds.Remaining();
    ok := true;
    if count != 0 {
      ok := AlphaTuple(d, ds, 6, 1);
      count := count - 1;
      written := Extended(was, written, if ok then P.AlphaDigits(Value(b[..6]), 1) else "", P.Piece("", ds.Remaining()));
    } else {
      assert written + "" == written;
    }
  }

  lemma AlphaUnfold(b: seq<bool>, count: nat)
    ensures P.AlphaPiece(b, count) ==
      if count >= 2 then
        if |b| < 11 then P.Short else P.Prepend(P.AlphaDigits(Value(b[..11]), 2), P.AlphaPiece(b[11..], count - 2))
      else if count == 1 then
        if |b| < 6 then P.Short else P.Piece(P.AlphaDigits(Value(b[..6]), 1), b[6..])
      else P.Piece("", b)
  {}

  lemma {:induction false} ByteTextStep(b: seq<bool>, n: nat)
    requires 8 * (n + 1) <= |b|
    ensures Value(b[8 * n..8 * n + 8]) < 256
    ensures P.ByteText(b, n + 1) == P.ByteText(b, n) + [Value(b[8 * n..8 * n + 8]) as char]
    decreases n
  {
    hide Value;
    P.ByteValue(b[8 * n..8 * n + 8]);
    if n == 0 {
      assert b[0..8] == b[..8];
    } else {
      ByteTextStep(b[8..], n - 1);
      assert b[8..][8 * (n - 1)..8 * (n - 1) + 8] == b[8 * n..8 * n + 8];
    }
  }

  lemma DroppedTwice(b: seq<bool>, n: nat, m: nat)
    requires n + m <= |b|
    ensures b[n..][m..] == b[n + m..]
  {}

  lemma ByteStepCases(b: seq<bool>, version: int, g: P.Gathered, bits: nat)
    requires bits == P.ByteCount(version)
    ensures var n := P.Taken(b, bits);
      var count := Value(b[..n]);
      P.ByteStep(b, version, g) ==
      if |g.text| + count + 1 > P.MAX_PAYLOAD then P.Failed(P.DataOverflow)
      else if |b[n..]| < count * 8 then P.Failed(P.DataUnderflow)
      else P.Next(g.(text := g.text + P.ByteText(b[n..], count)), b[n..][8 * count..])
  {
    hide Value, P.ByteText;
    var n := P.Taken(b, bits);
    var count := Value(b[..n]);
    if count * 8 <= |b[n..]| {
      DroppedTwice(b, n, 8 * count);
    }
  }

  method DecodeByte(d: QuircData, ds: Datastream) returns (st: Status)
    requires ds.Valid() && d.Valid()
    modifies ds`ptr, d`payloadLen, d.payload
    ensures ds.Valid() && d.Valid()
    ensures Follows(st, P.ByteStep(old(ds.Remaining()), d.version, old(d.Gathered())), ds, d)
  {
    hide Value, BitsFrom, P.ByteText, QuircData.Text, P.ByteStep;
    var bits := 16;
    if d.version < 10 {
      bits := 8;
    }
    ghost var b, g := ds.Remaining(), d.Gathered();
    ByteStepCases(b, d.version, g, bits);
    var count := TakeBits(ds, bits);
    if d.payloadLen + count + 1 > P.MAX_PAYLOAD {
      return Error(P.DataOverflow);
    }
    if ds.dataBits - ds.ptr < count * 8 {
      return Error(P.DataUnderflow);
    }
    TakeBytes(d, ds, count);
    st := Success;
  }

  /** The copy loop of decode_byte. */
  method TakeBytes(d: QuircData, ds: Datastream, count: nat)
    requires ds.Valid() && d.Valid() && 8 * count <= ds.dataBits - ds.ptr && d.payloadLen + count <= P.MAX_PAYLOAD
    modifies ds`ptr, d`payloadLen, d.payload
    ensures ds.Valid() && d.Valid()
    ensures ds.Remaining() == old(ds.Remaining())[8 * count..]
    ensures d.Text() == old(d.Text()) + P.ByteText(old(ds.Remaining()), count)
  {
    hide Value, BitsFrom, P.ByteText, QuircData.Text;
    ghost var was, b := d.Text(), ds.Remaining();
    NoBytes(b);
    assert was + "" == was && b[0..] == b;
    for i := 0 to count
      invariant ds.Valid() && d.Valid() && d.payloadLen == old(d.payloadLen) + i
      invariant ds.Remaining() == b[8 * i..]
      invariant d.Text() == was + P.ByteText(b, i)
    {
      ByteTextStep(b, i);
      Slices(b, 8, i);
      var v := TakeBits(ds, 8);
      Append(d, v as char);
    }
  }

  lemma Slices(b: seq<bool>, w: nat, i: nat)
    requires w * i + w <= |b|
    ensures b[w * i..][..w] == b[w * i..w * i + w] && b[w * i..][w..] == b[w * i + w..]
  {}

  lemma NoBytes(b: seq<bool>)
    ensures P.ByteText(b, 0) == "" && P.KanjiText(b, 0) == ""
  {}

  /** `payload[payload_len++] = c`. */
  method Append(d: QuircData, c: char)
    requires d.Valid() && d.payloadLen < P.MAX_PAYLOAD
    modifies d`payloadLen, d.payload
    ensures d.Valid() && d.payloadLen == old(d.payloadLen) + 1 && d.Text() == old(d.Text()) + [c]
  {
    d.payload[d.payloadLen] := c;
    d.payloadLen := d.payloadLen + 1;
  }

  lemma {:induction false} KanjiTextStep(b: seq<bool>, n: nat)
    requires 13 * (n + 1) <= |b|
    ensures var sjw := P.KanjiCode(Value(b[13 * n..13 * n + 13]));
      sjw < 65536 && P.KanjiText(b, n + 1) == P.KanjiText(b, n) + [(sjw / 256) as char] + [(sjw % 256) as char]
    decreases n
  {
    hide Value, P.KanjiCode;
    P.KanjiRange(b[13 * n..13 * n + 13]);
    if n == 0 {
      assert b[0..13] == b[..13];
    } else {
      KanjiTextStep(b[13..], n - 1);
      assert b[13..][13 * (n - 1)..13 * (n - 1) + 13] == b[13 * n..13 * n + 13];
    }
  }

  lemma KanjiStepCases(b: seq<bool>, version: int, g: P.Gathered, bits: nat)
    requires bits == P.KanjiCount(version)
    ensures var n := P.Taken(b, bits);
      var count := Value(b[..n]);
      P.KanjiStep(b, version, g) ==
      if |g.text| + count * 2 + 1 > P.MAX_PAYLOAD then P.Failed(P.DataOverflow)
      else if |b[n..]| < count * 13 then P.Failed(P.DataUnderflow)
      else P.Next(g.(text := g.text + P.KanjiText(b[n..], count)), b[n..][13 * count..])
  {
    hide Value, P.KanjiText;
    var n := P.Taken(b, bits);
    var count := Value(b[..n]);
    if count * 13 <= |b[n..]| {
      DroppedTwice(b, n, 13 * count);
    }
  }

  method DecodeKanji(d: QuircData, ds: Datastream) returns (st: Status)
    requires ds.Valid() && d.Valid()
    modifies ds`ptr, d`payloadLen, d.payload
    ensures ds.Valid() && d.Valid()
    ensures Follows(st, P.KanjiStep(old(ds.Remaining()), d.version, old(d.Gathered())), ds, d)
  {
    hide Value, BitsFrom, P.KanjiText, QuircData.Text, P.KanjiStep, P.KanjiCode;
    var bits := 12;
    if d.version < 10 {
      bits := 8;
    } else if d.version < 27 {
      bits := 10;
    }
    ghost var b, g := ds.Remaining(), d.Gathered();
    KanjiStepCases(b, d.version, g, bits);
    var count := TakeBits(ds, bits);
    if d.payloadLen + count * 2 + 1 > P.MAX_PAYLOAD {
      return Error(P.DataOverflow);
    }
    if ds.dataBits - ds.ptr < count * 13 {
      return Error(P.DataUnderflow);
    }
    TakeKanji(d, ds, count);
    st := Success;
  }

  /** The byte pair of a 13-bit Kanji value. */
  method ToShiftJis(d: nat) returns (sjw: nat)
    ensures sjw == P.KanjiCode(d)
  {
    var msB, lsB := d / 0xc0, d % 0xc0;
    var intermediate := msB * 256 + lsB;
    sjw := if intermediate + 0x8140 <= 0x9ffc then intermediate + 0x8140 else intermediate + 0xc140;
  }

  /** The conversion loop of decode_kanji. */
  method TakeKanji(d: QuircData, ds: Datastream, count: nat)
    requires ds.Valid() && d.Valid() && 13 * count <= ds.dataBits - ds.ptr && d.payloadLen + 2 * count <= P.MAX_PAYLOAD
    modifies ds`ptr, d`payloadLen, d.payload
    ensures ds.Valid() && d.Valid()
    ensures ds.Remaining() == old(ds.Remaining())[13 * count..]
    ensures d.Text() == old(d.Text()) + P.KanjiText(old(ds.Remaining()), count)
  {
    hide Value, BitsFrom, P.KanjiText, P.KanjiCode, QuircData.Text;
    ghost var was, b := d.Text(), ds.Remaining();
    NoBytes(b);
    assert was + "" == was && b[0..] == b;
    for i := 0 to count
      invariant ds.Valid() && d.Valid() && d.payloadLen == old(d.payloadLen) + 2 * i
      invariant ds.Remaining() == b[13 * i..]
      invariant d.Text() == was + P.KanjiText(b, i)
    {
      KanjiTextStep(b, i);
      Slices(b, 13, i);
      var v := TakeBits(ds, 13);
      var sjw := ToShiftJis(v);
      Append(d, (sjw / 256) as char);
      Append(d, (sjw % 256) as char);
    }
  }

  method DecodeEci(d: QuircData, ds: Datastream) returns (st: Status)
    requires ds.Valid() && d.Valid()
    modifies ds`ptr, d`eci
    ensures ds.Valid() && d.Valid()
    ensures Follows(st, P.EciStep(old(ds.Remaining()), old(d.Gathered())), ds, d)
  {
    hide Value, BitsFrom;
    if ds.dataBits - ds.ptr < 8 {
      return Error(P.DataUnderflow);
    }
    ghost var b := ds.Remaining();
    var e := TakeBits(ds, 8);
    d.eci := e;
    if 0x80 <= e < 0xc0 {
      if ds.dataBits - ds.ptr < 8 {
        return Error(P.DataUnderflow);
      }
      var low := TakeBits(ds, 8);
      assert b[8..][..8] == b[8..16] && b[8..][8..] == b[16..];
      d.eci := e * 256 + low;
    } else if 0xc0 <= e < 0xe0 {
      if ds.dataBits - ds.ptr < 16 {
        return Error(P.DataUnderflow);
      }
      var low := TakeBits(ds, 16);
      assert b[8..][..16] == b[8..24] && b[8..][16..] == b[24..];
      d.eci := e * 65536 + low;
    }
    st := Success;
  }

  /** decode_payload: the segment loop, and the terminating zero. */
  method DecodePayload(d: QuircData, ds: Datastream) returns (st: Status)
    requires ds.Valid() && d.Valid() && d.payloadLen < P.MAX_PAYLOAD
    modifies ds`ptr, d`payloadLen, d`dataType, d`eci, d.payload
    ensures ds.Valid() && d.Valid()
    ensures match P.Decode(old(ds.Remaining()), d.version, old(d.Gathered()))
      case Failed(e) => st == Error(e)
      case Next(g, _) => st == Success && (|g.text| < P.MAX_PAYLOAD ==> d.Gathered() == g && d.payload[d.payloadLen] == '\0')
  {
    hide Value, BitsFrom, P.SegmentStep, P.Decode;
    ghost var goal := P.Decode(ds.Remaining(), d.version, d.Gathered());
    var more := true;
    while more && ds.dataBits - ds.ptr >= 4
      invariant ds.Valid() && d.Valid()
      invariant more ==> P.Decode(ds.Remaining(), d.version, d.Gathered()) == goal
      invariant !more ==> goal.Next? && goal.state == d.Gathered()
      decreases more, ds.dataBits - ds.ptr
    {
      ghost var b := ds.Remaining();
      DecodeUnfold(b, d.version, d.Gathered());
      var t := TakeBits(ds, 4);
      if !(t == 1 || t == 2 || t == 4 || t == 7 || t == 8) {
        more := false;
      } else {
        st := DecodeSegment(t, d, ds);
        if st != Success {
          return st;
        }
        if t != 7 && t > d.dataType {
          d.dataType := t;
        }
      }
    }
    DecodeUnfold(ds.Remaining(), d.version, d.Gathered());
    if d.payloadLen >= P.MAX_PAYLOAD {
      d.payloadLen := d.payloadLen - 1;
    }
    ghost var text := d.Text();
    d.payload[d.payloadLen] := '\0';
    assert d.Text() == text;
    st := Success;
  }

  lemma DecodeUnfold(b: seq<bool>, version: int, g: P.Gathered)
    ensures P.Decode(b, version, g) ==
      if |b| < 4 then P.Next(g, b)
      else if !P.IsSegmentType(Value(b[..4])) then P.Next(g, b[4..])
      else
        var t := Value(b[..4]);
        var s := P.SegmentStep(t, b[4..], version, g);
        if s.Failed? then s
        else P.Decode(s.rest, version, s.state.(dataType := if t != 7 && t > g.dataType then t else g.dataType))
  {}

  /** The switch of decode_payload. */
  method DecodeSegment(t: nat, d: QuircData, ds: Datastream) returns (st: Status)
    requires ds.Valid() && d.Valid() && P.IsSegmentType(t)
    modifies ds`ptr, d`payloadLen, d`eci, d.payload
    ensures ds.Valid() && d.Valid()
    ensures Follows(st, P.SegmentStep(t, old(ds.Remaining()), d.version, old(d.Gathered())), ds, d)
  {
    hide P.NumericStep, P.AlphaStep, P.ByteStep, P.KanjiStep, P.EciStep, BitsFrom;
    match t
    case 1 => st := DecodeNumeric(d, ds);
    case 2 => st := DecodeAlpha(d, ds);
    case 4 => st := DecodeByte(d, ds);
    case 8 => st := DecodeKanji(d, ds);
    case _ => st := DecodeEci(d, ds);
  }
}
