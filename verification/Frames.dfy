/** The wire format between the user interface and the core: request frames that Call builds and
    runDispatch reads, response frames that writeResponse writes and processBuffer reads. */
module Frames {
  type byte = i: int | 0 <= i < 256

  const TWO16 := 0x1_0000
  const TWO32 := 0x1_0000_0000

  // ----- little-endian integers

  /** The n low bytes of v, lowest first: writing an integer of n bytes. */
  function LittleEndian(v: nat, n: nat): (b: seq<byte>)
    ensures |b| == n
  {
    if n == 0 then [] else [v % 256] + LittleEndian(v / 256, n - 1)
  }

  function FromLittleEndian(b: seq<byte>): nat {
    if b == [] then 0 else b[0] + 256 * FromLittleEndian(b[1..])
  }

  function Pow256(n: nat): (p: nat)
    ensures p > 0
  {
    if n == 0 then 1 else 256 * Pow256(n - 1)
  }

  /** Writing truncates to n bytes. */
  lemma {:induction false} LittleEndianValue(v: nat, n: nat)
    ensures FromLittleEndian(LittleEndian(v, n)) == v % Pow256(n)
  {
    if n > 0 {
      LittleEndianValue(v / 256, n - 1);
      assert LittleEndian(v, n)[1..] == LittleEndian(v / 256, n - 1);
      LowDigit(v, Pow256(n - 1));
    }
  }

  lemma LowDigit(v: nat, m: nat)
    requires m > 0
    ensures v % 256 + 256 * ((v / 256) % m) == v % (256 * m)
  {
    var q, r := (v / 256) / m, (v / 256) % m;
    assert v / 256 == q * m + r;
    assert 256 * (q * m) == q * (256 * m);
    assert v == q * (256 * m) + (256 * r + v % 256);
    Remainder(v, 256 * m, q, 256 * r + v % 256);
  }

  lemma Remainder(a: nat, b: nat, q: nat, r: nat)
    requires a == q * b + r && r < b
    ensures a % b == r
  {
    var q', r' := a / b, a % b;
    assert a == q' * b + r';
    if q < q' {
      Multiples(b, q, q');
    } else if q' < q {
      Multiples(b, q', q);
    }
  }

  lemma Multiples(b: nat, q: int, q': int)
    requires q < q'
    ensures q * b + b <= q' * b
  {
    assert (q' - q - 1) * b >= 0;
  }

  lemma Widths()
    ensures Pow256(2) == TWO16 && Pow256(4) == TWO32
  {
    assert Pow256(1) == 256 * Pow256(0);
    assert Pow256(3) == 256 * Pow256(2);
  }

  // ----- responses

  datatype Response = Response(id: nat, status: byte, data: seq<byte>)

  predicate ValidResponse(r: Response) {
    r.id < TWO32 && |r.data| < TWO32
  }

  function ResponseHeader(id: nat, status: byte, size: nat): (b: seq<byte>)
    ensures |b| == 9
  {
    LittleEndian(id, 4) + [status] + LittleEndian(size, 4)
  }

  function ResponseFrame(r: Response): seq<byte> {
    ResponseHeader(r.id, r.status, |r.data|) + r.data
  }

  /** The buffer begins with a whole frame. */
  predicate HasFrame(b: seq<byte>) {
    |b| >= 9 && |b| >= 9 + FromLittleEndian(b[5..9])
  }

  function FirstResponse(b: seq<byte>): (r: Response)
    requires HasFrame(b)
  {
    Response(FromLittleEndian(b[..4]), b[4], b[9..9 + FromLittleEndian(b[5..9])])
  }

  function AfterFirst(b: seq<byte>): (rest: seq<byte>)
    requires HasFrame(b)
    ensures |rest| < |b|
  {
    b[9 + FromLittleEndian(b[5..9])..]
  }

  /** The responses in a byte stream, and the bytes of the one that is still incomplete. */
  function Responses(b: seq<byte>): seq<Response>
    decreases |b|
  {
    if HasFrame(b) then [FirstResponse(b)] + Responses(AfterFirst(b)) else []
  }

  function Remnant(b: seq<byte>): seq<byte>
    decreases |b|
  {
    if HasFrame(b) then Remnant(AfterFirst(b)) else b
  }

  lemma FrameAhead(r: Response, tail: seq<byte>)
    requires ValidResponse(r)
    ensures HasFrame(ResponseFrame(r) + tail)
    ensures FirstResponse(ResponseFrame(r) + tail) == r && AfterFirst(ResponseFrame(r) + tail) == tail
  {
    hide LittleEndian, FromLittleEndian, Pow256;
    var b := ResponseFrame(r) + tail;
    Widths();
    LittleEndianValue(r.id, 4);
    LittleEndianValue(|r.data|, 4);
    assert b[..4] == LittleEndian(r.id, 4);
    assert b[5..9] == LittleEndian(|r.data|, 4);
    assert b[9..9 + |r.data|] == r.data;
  }

  /** However a stream is cut into chunks, reading them one after the other finds the same frames. */
  lemma {:induction false} ChunkIndependence(a: seq<byte>, b: seq<byte>)
    ensures Responses(a + b) == Responses(a) + Responses(Remnant(a) + b)
    ensures Remnant(a + b) == Remnant(Remnant(a) + b)
    decreases |a|
  {
    if HasFrame(a) {
      var n := 9 + FromLittleEndian(a[5..9]);
      assert (a + b)[5..9] == a[5..9] && (a + b)[..4] == a[..4] && (a + b)[9..n] == a[9..n];
      assert AfterFirst(a + b) == AfterFirst(a) + b;
      ChunkIndependence(AfterFirst(a), b);
    }
  }

  /** All frames, one after the other. */
  function Stream(rs: seq<Response>): seq<byte> {
    if rs == [] then [] else Stream(rs[..|rs| - 1]) + ResponseFrame(rs[|rs| - 1])
  }

  /** A stream of whole frames is read as exactly these frames. */
  lemma {:induction false} StreamRoundTrip(rs: seq<Response>)
    requires forall k :: 0 <= k < |rs| ==> ValidResponse(rs[k])
    ensures Responses(Stream(rs)) == rs && Remnant(Stream(rs)) == []
  {
    if rs != [] {
      var init, last := rs[..|rs| - 1], rs[|rs| - 1];
      StreamRoundTrip(init);
      ChunkIndependence(Stream(init), ResponseFrame(last));
      assert [] + ResponseFrame(last) == ResponseFrame(last) == ResponseFrame(last) + [];
      FrameAhead(last, []);
      assert rs == init + [last];
    }
  }

  /** What has arrived of a stream holds the first of its frames. */
  lemma ArrivedPrefix(s: seq<byte>, n: nat)
    requires n <= |s|
    ensures Responses(s[..n]) <= Responses(s)
  {
    assert s == s[..n] + s[n..];
    ChunkIndependence(s[..n], s[n..]);
  }

  // ----- the reading end

  /** The io thread's read buffer. */
  class ResponseReader {
    var readBuf: seq<byte>
    var delivered: seq<Response> // in the order in which calls are looked up
    ghost var received: seq<byte> // everything that has arrived on this connection

    ghost predicate Valid()
      reads this
    {
      delivered == Responses(received) && readBuf == Remnant(received)
    }

    constructor ()
      ensures Valid() && received == []
    {
      readBuf, delivered, received := [], [], [];
    }

    /** onReadyRead and processBuffer. */
    method OnReadyRead(chunk: seq<byte>)
      requires Valid() && |readBuf| + |chunk| < 0x8000_0000
      modifies this
      ensures Valid() && received == old(received) + chunk
      ensures delivered == Responses(old(received) + chunk)
    {
      hide HasFrame, FirstResponse, AfterFirst, FromLittleEndian;
      ChunkIndependence(received, chunk);
      ghost var goal, all := received + chunk, Responses(received + chunk);
      readBuf := readBuf + chunk;
      received := goal;
      while |readBuf| >= 9
        invariant delivered + Responses(readBuf) == all
        invariant Remnant(readBuf) == Remnant(goal) && received == goal
        decreases |readBuf|
      {
        HasFrameTest(readBuf);
        var dataLen := FromLittleEndian(readBuf[5..9]);
        var totalSize := 9 + dataLen;
        if |readBuf| < totalSize {
          break;
        }
        ghost var b := readBuf;
        var r := Response(FromLittleEndian(readBuf[..4]), readBuf[4], readBuf[9..9 + dataLen]);
        readBuf := readBuf[totalSize..];
        TakeFrame(b);
        assert delivered + ([r] + Responses(readBuf)) == (delivered + [r]) + Responses(readBuf);
        delivered := delivered + [r];
      }
      HasFrameTest(readBuf);
    }
  }

  lemma HasFrameTest(b: seq<byte>)
    ensures HasFrame(b) <==> |b| >= 9 && |b| >= 9 + FromLittleEndian(b[5..9])
  {}

  lemma TakeFrame(b: seq<byte>)
    requires HasFrame(b)
    ensures |b| >= 9 && var n := FromLittleEndian(b[5..9]);
      && 9 + n <= |b|
      && Responses(b) == [Response(FromLittleEndian(b[..4]), b[4], b[9..9 + n])] + Responses(b[9 + n..])
      && Remnant(b) == Remnant(b[9 + n..])
  {
    hide FromLittleEndian, LittleEndian;
    assert AfterFirst(b) == b[9 + FromLittleEndian(b[5..9])..];
  }

  // ----- requests

  datatype Request = Request(id: nat, name: seq<byte>, payload: seq<byte>)

  /** The request frame that Call builds: the lengths are cut to 16 and 32 bits. */
  function RequestFrame(r: Request): seq<byte> {
    LittleEndian(r.id, 4) + LittleEndian(|r.name|, 2) + r.name + LittleEndian(|r.payload|, 4) + r.payload
  }

  predicate HasRequest(b: seq<byte>) {
    && |b| >= 6 && var m := FromLittleEndian(b[4..6]);
    && |b| >= 10 + m && |b| >= 10 + m + FromLittleEndian(b[6 + m..10 + m])
  }

  function FirstRequest(b: seq<byte>): (r: Request)
    requires HasRequest(b)
  {
    var m := FromLittleEndian(b[4..6]);
    Request(FromLittleEndian(b[..4]), b[6..6 + m], b[10 + m..10 + m + FromLittleEndian(b[6 + m..10 + m])])
  }

  function AfterRequest(b: seq<byte>): (rest: seq<byte>)
    requires HasRequest(b)
    ensures |rest| < |b|
  {
    var m := FromLittleEndian(b[4..6]);
    b[10 + m + FromLittleEndian(b[6 + m..10 + m])..]
  }

  /** The requests that runDispatch reads from a stream before it blocks or the connection ends. */
  function Requests(b: seq<byte>): seq<Request>
    decreases |b|
  {
    if HasRequest(b) then [FirstRequest(b)] + Requests(AfterRequest(b)) else []
  }

  predicate ValidRequest(r: Request) {
    r.id < TWO32 && |r.name| < TWO16 && |r.payload| < TWO32
  }

  lemma RequestAhead(r: Request, tail: seq<byte>)
    requires ValidRequest(r)
    ensures HasRequest(RequestFrame(r) + tail)
    ensures FirstRequest(RequestFrame(r) + tail) == r && AfterRequest(RequestFrame(r) + tail) == tail
  {
    hide LittleEndian, FromLittleEndian, Pow256;
    var b, m := RequestFrame(r) + tail, |r.name|;
    Widths();
    LittleEndianValue(r.id, 4);
    LittleEndianValue(m, 2);
    LittleEndianValue(|r.payload|, 4);
    assert b[..4] == LittleEndian(r.id, 4);
    assert b[4..6] == LittleEndian(m, 2);
    assert b[6..6 + m] == r.name;
    assert b[6 + m..10 + m] == LittleEndian(|r.payload|, 4);
    assert b[10 + m..10 + m + |r.payload|] == r.payload;
  }

  lemma {:induction false} LittleEndianBound(b: seq<byte>)
    ensures FromLittleEndian(b) < Pow256(|b|)
  {
    if b != [] {
      LittleEndianBound(b[1..]);
    }
  }

  /** A request frame is read back exactly when its three fields fit their widths. A longer method
      name, say, is cut off, and its rest is taken for the payload. */
  lemma RequestRoundTrip(r: Request)
    ensures HasRequest(RequestFrame(r)) && FirstRequest(RequestFrame(r)) == r <==> ValidRequest(r)
  {
    var b := RequestFrame(r);
    assert b + [] == b;
    if ValidRequest(r) {
      RequestAhead(r, []);
    }
    if HasRequest(b) && FirstRequest(b) == r {
      Widths();
      var m := FromLittleEndian(b[4..6]);
      LittleEndianBound(b[..4]);
      LittleEndianBound(b[4..6]);
      LittleEndianBound(b[6 + m..10 + m]);
    }
  }

  lemma {:induction false} RequestChunks(a: seq<byte>, b: seq<byte>)
    ensures Requests(a) <= Requests(a + b)
    decreases |a|
  {
    hide FromLittleEndian;
    if HasRequest(a) {
      var m := FromLittleEndian(a[4..6]);
      var n := FromLittleEndian(a[6 + m..10 + m]);
      assert (a + b)[4..6] == a[4..6] && (a + b)[..4] == a[..4] && (a + b)[6..6 + m] == a[6..6 + m];
      assert (a + b)[6 + m..10 + m] == a[6 + m..10 + m] && (a + b)[10 + m..10 + m + n] == a[10 + m..10 + m + n];
      assert AfterRequest(a + b) == AfterRequest(a) + b;
      RequestChunks(AfterRequest(a), b);
    }
  }

  function RequestStream(rs: seq<Request>): seq<byte> {
    if rs == [] then [] else RequestFrame(rs[0]) + RequestStream(rs[1..])
  }

  lemma {:induction false} RequestStreamRoundTrip(rs: seq<Request>)
    requires forall k :: 0 <= k < |rs| ==> ValidRequest(rs[k])
    ensures Requests(RequestStream(rs)) == rs
  {
    if rs != [] {
      RequestAhead(rs[0], RequestStream(rs[1..]));
      RequestStreamRoundTrip(rs[1..]);
    }
  }

  /** What has arrived at the server holds the first of the requests sent. */
  lemma RequestPrefix(rs: seq<Request>, n: nat)
    requires n <= |RequestStream(rs)| && forall k :: 0 <= k < |rs| ==> ValidRequest(rs[k])
    ensures Requests(RequestStream(rs)[..n]) <= rs
  {
    var s := RequestStream(rs);
    RequestStreamRoundTrip(rs);
    assert s == s[..n] + s[n..];
    RequestChunks(s[..n], s[n..]);
  }

  /** The frame reader of runDispatch: field by field, until the connection ends. */
  method ReadRequests(conn: seq<byte>) returns (requests: seq<Request>)
    ensures requests == Requests(conn)
  {
    hide FromLittleEndian;
    requests := [];
    var at: nat := 0;
    while true
      invariant at <= |conn|
      invariant requests + Requests(conn[at..]) == Requests(conn)
      decreases |conn| - at
    {
      ghost var b := conn[at..];
      if |conn| - at < 4 {
        return;
      }
      var id := FromLittleEndian(conn[at..at + 4]);
      if |conn| - (at + 4) < 2 {
        return;
      }
      assert b[..4] == conn[at..at + 4] && b[4..6] == conn[at + 4..at + 6];
      var methodLen := FromLittleEndian(conn[at + 4..at + 6]);
      if |conn| - (at + 6) < methodLen {
        return;
      }
      var name := conn[at + 6..at + 6 + methodLen];
      var p := at + 6 + methodLen;
      if |conn| - p < 4 {
        return;
      }
      assert b[6..6 + methodLen] == name && b[6 + methodLen..10 + methodLen] == conn[p..p + 4];
      var payloadLen := FromLittleEndian(conn[p..p + 4]);
      if |conn| - (p + 4) < payloadLen {
        return;
      }
      var payload := conn[p + 4..p + 4 + payloadLen];
      assert b[10 + methodLen..10 + methodLen + payloadLen] == payload;
      var r := Request(id, name, payload);
      assert FirstRequest(b) == r && AfterRequest(b) == conn[p + 4 + payloadLen..];
      assert requests + ([r] + Requests(AfterRequest(b))) == (requests + [r]) + Requests(AfterRequest(b));
      requests := requests + [r];
      at := p + 4 + payloadLen;
    }
  }

  // ----- the frames, byte by byte

  function TwoBytes(v: nat): seq<byte> {
    [v % 256, v / 256 % 256]
  }

  function FourBytes(v: nat): seq<byte> {
    [v % 256, v / 256 % 256, v / 65536 % 256, v / 16777216 % 256]
  }

  lemma Bytewise(v: nat)
    ensures LittleEndian(v, 2) == TwoBytes(v) && LittleEndian(v, 4) == FourBytes(v)
  {
    var a := v / 256;
    var b := a / 256;
    var c := b / 256;
    assert b == v / 65536 && c == v / 16777216;
    assert LittleEndian(c, 1) == [c % 256] + LittleEndian(c / 256, 0);
    assert LittleEndian(b, 2) == [b % 256] + LittleEndian(c, 1);
    assert LittleEndian(a, 3) == [a % 256] + LittleEndian(b, 2);
    assert LittleEndian(a, 1) == [a % 256] + LittleEndian(b, 0);
    assert LittleEndian(v, 2) == [v % 256] + LittleEndian(a, 1);
    assert LittleEndian(v, 4) == [v % 256] + LittleEndian(a, 3);
  }

  /** A response on the wire: id, status, length and data, the numbers with their lowest byte first. */
  lemma ResponseLayout(r: Response)
    ensures ResponseFrame(r) == FourBytes(r.id) + [r.status] + FourBytes(|r.data|) + r.data
  {
    hide LittleEndian, FourBytes;
    Bytewise(r.id);
    Bytewise(|r.data|);
  }

  /** A request on the wire: id, length and bytes of the method, length and bytes of the payload. */
  lemma RequestLayout(q: Request)
    ensures RequestFrame(q) == FourBytes(q.id) + TwoBytes(|q.name|) + q.name + FourBytes(|q.payload|) + q.payload
  {
    hide LittleEndian, FourBytes, TwoBytes;
    Bytewise(q.id);
    Bytewise(|q.name|);
    Bytewise(|q.payload|);
  }
}
