/**
  The byte layout of the two image planes.

  The depth plane (`z16`) is a grid of unsigned 16-bit samples, two bytes per
  sample; both ends of the link use the same fixed byte order, least
  significant byte first. The colour plane (`bgr8`) is a grid of pixels of
  three 8-bit channels in blue, green, red order.
 */
module PlaneCodec {
  import opened Wrappers
  import opened Bytes
  import opened Grid

  datatype Pixel = Pixel(b: Byte, g: Byte, r: Byte)

  type DepthPlane = seq<seq<U16>>
  type ColorPlane = seq<seq<Pixel>>

  const DepthSampleBytes: nat := 2
  const ColorSampleBytes: nat := 3

  function EncodeSamples(xs: seq<U16>): (r: seq<Byte>)
    ensures |r| == DepthSampleBytes * |xs|
  {
    if |xs| == 0 then []
    else [xs[0] % 0x100, xs[0] / 0x100] + EncodeSamples(xs[1..])
  }

  /** `np.frombuffer(b, dtype=np.uint16)` on a buffer of even length. */
  function DecodeSamples(b: seq<Byte>): (xs: seq<U16>)
    requires |b| % DepthSampleBytes == 0
    ensures DepthSampleBytes * |xs| == |b|
    ensures EncodeSamples(xs) == b
  {
    if |b| == 0 then []
    else [b[0] + 0x100 * (b[1] as int)] + DecodeSamples(b[2..])
  }

  lemma {:induction false} DecodeEncodeSamples(xs: seq<U16>)
    ensures DecodeSamples(EncodeSamples(xs)) == xs
  {
    if |xs| > 0 {
      var b := EncodeSamples(xs);
      assert b[2..] == EncodeSamples(xs[1..]);
      DecodeEncodeSamples(xs[1..]);
    }
  }

  function EncodePixels(ps: seq<Pixel>): (r: seq<Byte>)
    ensures |r| == ColorSampleBytes * |ps|
  {
    if |ps| == 0 then []
    else [ps[0].b, ps[0].g, ps[0].r] + EncodePixels(ps[1..])
  }

  /** `np.frombuffer(b, dtype=np.uint8)` grouped into three channels. */
  function DecodePixels(b: seq<Byte>): (ps: seq<Pixel>)
    requires |b| % ColorSampleBytes == 0
    ensures ColorSampleBytes * |ps| == |b|
    ensures EncodePixels(ps) == b
  {
    if |b| == 0 then []
    else [Pixel(b[0], b[1], b[2])] + DecodePixels(b[3..])
  }

  lemma {:induction false} DecodeEncodePixels(ps: seq<Pixel>)
    ensures DecodePixels(EncodePixels(ps)) == ps
  {
    if |ps| > 0 {
      var b := EncodePixels(ps);
      assert b[3..] == EncodePixels(ps[1..]);
      DecodeEncodePixels(ps[1..]);
    }
  }

  /** `depth_image.tobytes()` */
  function EncodeDepth(d: DepthPlane): seq<Byte>
  {
    EncodeSamples(Flat(d))
  }

  /** `color_image.tobytes()` */
  function EncodeColor(c: ColorPlane): seq<Byte>
  {
    EncodePixels(Flat(c))
  }

  /**
    `np.frombuffer(b, np.uint16).reshape(h, w)`: fails (numpy raises) unless
    the buffer holds exactly `h * w` samples.
   */
  function DecodeDepth(b: seq<Byte>, h: nat, w: nat): (r: Option<DepthPlane>)
    ensures r.Some? <==> |b| == DepthSampleBytes * (h * w)
    ensures r.Some? ==> IsGrid(r.value, h, w) && EncodeDepth(r.value) == b
  {
    if |b| != DepthSampleBytes * (h * w) then None
    else Some(Rows(DecodeSamples(b), h, w))
  }

  /** `np.frombuffer(b, np.uint8).reshape(h, w, 3)` */
  function DecodeColor(b: seq<Byte>, h: nat, w: nat): (r: Option<ColorPlane>)
    ensures r.Some? <==> |b| == ColorSampleBytes * (h * w)
    ensures r.Some? ==> IsGrid(r.value, h, w) && EncodeColor(r.value) == b
  {
    if |b| != ColorSampleBytes * (h * w) then None
    else Some(Rows(DecodePixels(b), h, w))
  }

  /** A depth plane of the configured shape survives encoding, sample for sample. */
  lemma DepthRoundTrip(d: DepthPlane, h: nat, w: nat)
    requires IsGrid(d, h, w)
    ensures |EncodeDepth(d)| == DepthSampleBytes * (h * w)
    ensures DecodeDepth(EncodeDepth(d), h, w) == Some(d)
  {
    RowsOfFlat(d, h, w);
    DecodeEncodeSamples(Flat(d));
  }

  lemma ColorRoundTrip(c: ColorPlane, h: nat, w: nat)
    requires IsGrid(c, h, w)
    ensures |EncodeColor(c)| == ColorSampleBytes * (h * w)
    ensures DecodeColor(EncodeColor(c), h, w) == Some(c)
  {
    RowsOfFlat(c, h, w);
    DecodeEncodePixels(Flat(c));
  }
}
