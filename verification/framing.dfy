/**
  The wire format of one frame pair: a 4-byte big-endian length and the depth
  payload, then a 4-byte big-endian length and the colour payload. Height and
  width are not on the wire; both ends are configured for 640x480.
 */
module Framing {
  import opened Wrappers
  import opened Bytes
  import opened Grid
  import opened PlaneCodec
  import opened Stream

  const Height: nat := 480
  const Width: nat := 640
  const HeaderBytes: nat := 4
  /** 480 * 640 * 2: the only depth length `reshape(480, 640)` accepts. */
  const DepthBytes: nat := DepthSampleBytes * (Height * Width)
  /** 480 * 640 * 3: the only colour length `reshape(480, 640, 3)` accepts. */
  const ColorBytes: nat := ColorSampleBytes * (Height * Width)

  datatype FramePair = FramePair(depth: DepthPlane, color: ColorPlane)

  /** Both planes have the configured 480x640 shape. */
  predicate WellShaped(p: FramePair)
  {
    IsGrid(p.depth, Height, Width) && IsGrid(p.color, Height, Width)
  }

  /** Why reading a pair ended the session. */
  datatype Failure =
    | ConnectionClosed   // `recvall` returned None: the peer closed first
    | FrameFormatError   // a payload length that the fixed reshape rejects

  datatype PairRead = Got(pair: FramePair, rest: seq<Chunk>) | Stop(reason: Failure)

  /** Regrouping a concatenation; stated once so that proofs can call it in a busy context. */
  lemma ConcatAssoc<T>(a: seq<T>, b: seq<T>, c: seq<T>)
    ensures a + (b + c) == (a + b) + c
  {
  }

  /** One length-prefixed message: header immediately followed by its payload. */
  function EncodeMessage(payload: seq<Byte>): (r: seq<Byte>)
    requires |payload| < U32Range
    ensures |r| == HeaderBytes + |payload|
    ensures r[HeaderBytes..] == payload
    ensures Unpack32(r[..HeaderBytes]) == |payload|
  {
    Pack32(|payload|) + payload
  }

  /** The depth header followed by the depth payload. */
  function DepthMessage(d: DepthPlane): (r: seq<Byte>)
    requires IsGrid(d, Height, Width)
    ensures |r| == HeaderBytes + DepthBytes
    ensures Unpack32(r[..HeaderBytes]) == DepthBytes
    ensures r[HeaderBytes..] == EncodeDepth(d)
  {
    DepthRoundTrip(d, Height, Width);
    EncodeMessage(EncodeDepth(d))
  }

  /** The colour header followed by the colour payload. */
  function ColorMessage(c: ColorPlane): (r: seq<Byte>)
    requires IsGrid(c, Height, Width)
    ensures |r| == HeaderBytes + ColorBytes
    ensures Unpack32(r[..HeaderBytes]) == ColorBytes
    ensures r[HeaderBytes..] == EncodeColor(c)
  {
    ColorRoundTrip(c, Height, Width);
    EncodeMessage(EncodeColor(c))
  }

  /** What the sender writes for one pair: the depth message, then the colour message. */
  function EncodePair(p: FramePair): (r: seq<Byte>)
    requires WellShaped(p)
    ensures |r| == HeaderBytes + DepthBytes + HeaderBytes + ColorBytes
    ensures Unpack32(r[..HeaderBytes]) == DepthBytes
    ensures r[HeaderBytes..HeaderBytes + DepthBytes] == EncodeDepth(p.depth)
    ensures Unpack32(r[HeaderBytes + DepthBytes..HeaderBytes + DepthBytes + HeaderBytes]) == ColorBytes
    ensures r[HeaderBytes + DepthBytes + HeaderBytes..] == EncodeColor(p.color)
  {
    var dm, cm := DepthMessage(p.depth), ColorMessage(p.color);
    var r := dm + cm;
    assert r[..HeaderBytes] == dm[..HeaderBytes];
    assert r[HeaderBytes..HeaderBytes + DepthBytes] == dm[HeaderBytes..];
    assert r[HeaderBytes + DepthBytes..HeaderBytes + DepthBytes + HeaderBytes] == cm[..HeaderBytes];
    assert r[HeaderBytes + DepthBytes + HeaderBytes..] == cm[HeaderBytes..];
    r
  }

  /** `recvall(conn, 4)`, `struct.unpack('!I', ...)`, then `recvall(conn, size)`. */
  function ReadMessage(conn: seq<Chunk>): (r: Option<(seq<Byte>, seq<Chunk>)>)
    ensures r.Some? ==> |r.value.0| < U32Range
    ensures r.Some? ==> Flatten(conn) == EncodeMessage(r.value.0) + Flatten(r.value.1)
  {
    var h := RecvAll(conn, HeaderBytes);
    if h.None? then None
    else
      var header := h.value.0;
      var r := RecvAll(h.value.1, Unpack32(header));
      if r.None? then None
      else
        assert Pack32(|r.value.0|) == header by {
          PackOfUnpack(header);
        }
        var payload, rest := r.value.0, Flatten(r.value.1);
        assert EncodeMessage(payload) == header + payload;
        ConcatAssoc(header, payload, rest);
        r
  }

  /**
    One iteration of the receive loop up to the colour reshape. The depth
    payload is read and checked before the colour header is read, so a bad
    depth length ends the session without touching the colour message.
   */
  function ReadPair(conn: seq<Chunk>): (r: PairRead)
    ensures r.Got? ==> WellShaped(r.pair)
    ensures r.Got? ==> Flatten(conn) == EncodePair(r.pair) + Flatten(r.rest)
  {
    match ReadMessage(conn)
    case None => Stop(ConnectionClosed)
    case Some((depthBytes, afterDepth)) =>
      match DecodeDepth(depthBytes, Height, Width)
      case None => Stop(FrameFormatError)
      case Some(depth) =>
        match ReadMessage(afterDepth)
        case None => Stop(ConnectionClosed)
        case Some((colorBytes, afterColor)) =>
          match DecodeColor(colorBytes, Height, Width)
          case None => Stop(FrameFormatError)
          case Some(color) =>
            assert DepthMessage(depth) == EncodeMessage(depthBytes);
            assert ColorMessage(color) == EncodeMessage(colorBytes);
            ConcatAssoc(DepthMessage(depth), ColorMessage(color), Flatten(afterColor));
            Got(FramePair(depth, color), afterColor)
  }

  /** A complete message at the head of the stream is read back intact, whatever the chunking. */
  lemma ReadMessageOfEncoded(conn: seq<Chunk>, payload: seq<Byte>, tail: seq<Byte>)
    requires |payload| < U32Range
    requires Flatten(conn) == EncodeMessage(payload) + tail
    ensures ReadMessage(conn).Some?
    ensures ReadMessage(conn).value.0 == payload
    ensures Flatten(ReadMessage(conn).value.1) == tail
  {
    var header := Pack32(|payload|);
    ConcatAssoc(header, payload, tail);
    var r1 := RecvAll(conn, HeaderBytes);
    assert r1.value.0 + Flatten(r1.value.1) == header + (payload + tail);
    assert r1.value.0 == header;
    assert Flatten(r1.value.1) == payload + tail;
  }

  /** A message cut short by the peer closing is never delivered. */
  lemma ReadMessageTruncated(conn: seq<Chunk>, payload: seq<Byte>, k: nat)
    requires |payload| < U32Range
    requires k < |EncodeMessage(payload)|
    requires Flatten(conn) == EncodeMessage(payload)[..k]
    ensures ReadMessage(conn).None?
  {
    var m := EncodeMessage(payload);
    if k >= HeaderBytes {
      var r1 := RecvAll(conn, HeaderBytes);
      assert r1.value.0 == m[..HeaderBytes];
    }
  }

  /** Decoding what the sender wrote gives back the sender's pair. */
  lemma ReadPairOfEncoded(conn: seq<Chunk>, p: FramePair, tail: seq<Byte>)
    requires WellShaped(p)
    requires Flatten(conn) == EncodePair(p) + tail
    ensures ReadPair(conn).Got? && ReadPair(conn).pair == p
    ensures Flatten(ReadPair(conn).rest) == tail
  {
    DepthRoundTrip(p.depth, Height, Width);
    ColorRoundTrip(p.color, Height, Width);
    var dm := DepthMessage(p.depth);
    var cm := ColorMessage(p.color);
    ConcatAssoc(dm, cm, tail);
    ReadMessageOfEncoded(conn, EncodeDepth(p.depth), cm + tail);
    var afterDepth := ReadMessage(conn).value.1;
    ReadMessageOfEncoded(afterDepth, EncodeColor(p.color), tail);
    assert DecodeDepth(ReadMessage(conn).value.0, Height, Width) == Some(p.depth);
    assert DecodeColor(ReadMessage(afterDepth).value.0, Height, Width) == Some(p.color);
  }

  /**
    A stream that closes anywhere inside a pair (after the depth header but
    before its payload completes, say) ends with `ConnectionClosed`; no partial
    plane is handed on.
   */
  lemma ReadPairTruncated(conn: seq<Chunk>, p: FramePair, k: nat)
    requires WellShaped(p)
    requires k < |EncodePair(p)|
    requires Flatten(conn) == EncodePair(p)[..k]
    ensures ReadPair(conn) == Stop(ConnectionClosed)
  {
    var dm, cm := DepthMessage(p.depth), ColorMessage(p.color);
    assert EncodePair(p) == dm + cm;
    if k < |dm| {
      assert Flatten(conn) == dm[..k];
      DepthRoundTrip(p.depth, Height, Width);
      ReadMessageTruncated(conn, EncodeDepth(p.depth), k);
    } else {
      assert Flatten(conn) == dm + cm[..k - |dm|];
      ReadPairTruncatedInColor(conn, p, k - |dm|);
    }
  }

  /** A whole depth message followed by part of the colour message ends with `ConnectionClosed`. */
  lemma ReadPairTruncatedInColor(conn: seq<Chunk>, p: FramePair, j: nat)
    requires WellShaped(p)
    requires j < HeaderBytes + ColorBytes
    requires Flatten(conn) == DepthMessage(p.depth) + ColorMessage(p.color)[..j]
    ensures ReadPair(conn) == Stop(ConnectionClosed)
  {
    DepthRoundTrip(p.depth, Height, Width);
    ColorRoundTrip(p.color, Height, Width);
    var cm := ColorMessage(p.color);
    ReadMessageOfEncoded(conn, EncodeDepth(p.depth), cm[..j]);
    var afterDepth := ReadMessage(conn).value.1;
    ReadMessageTruncated(afterDepth, EncodeColor(p.color), j);
  }

  /** A depth length other than 480*640*2 is a protocol error, once its payload has been read. */
  lemma ReadPairBadDepthLength(conn: seq<Chunk>, payload: seq<Byte>, tail: seq<Byte>)
    requires |payload| < U32Range && |payload| != DepthBytes
    requires Flatten(conn) == EncodeMessage(payload) + tail
    ensures ReadPair(conn) == Stop(FrameFormatError)
  {
    ReadMessageOfEncoded(conn, payload, tail);
  }

  /** A colour length other than 480*640*3 after a valid depth message is a protocol error. */
  lemma ReadPairBadColorLength(conn: seq<Chunk>, depth: DepthPlane, payload: seq<Byte>, tail: seq<Byte>)
    requires IsGrid(depth, Height, Width)
    requires |payload| < U32Range && |payload| != ColorBytes
    requires Flatten(conn) == DepthMessage(depth) + EncodeMessage(payload) + tail
    ensures ReadPair(conn) == Stop(FrameFormatError)
  {
    DepthRoundTrip(depth, Height, Width);
    var cm := EncodeMessage(payload);
    ConcatAssoc(DepthMessage(depth), cm, tail);
    ReadMessageOfEncoded(conn, EncodeDepth(depth), cm + tail);
    ReadMessageOfEncoded(ReadMessage(conn).value.1, payload, tail);
  }
}
