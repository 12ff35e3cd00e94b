/**
  The camera side: for every capture that delivered both planes, the depth
  message and then the colour message; a capture missing either plane is
  skipped whole.
 */
module Sender {
  import opened Wrappers
  import opened Bytes
  import opened Grid
  import opened PlaneCodec
  import opened Framing

  /** One `wait_for_frames()` result; a plane the camera did not deliver is `None`. */
  datatype Capture = Capture(depth: Option<DepthPlane>, color: Option<ColorPlane>)

  predicate Complete(c: Capture)
  {
    c.depth.Some? && c.color.Some?
  }

  /** The camera is configured for 640x480 `z16` depth and `bgr8` colour. */
  predicate Configured(c: Capture)
  {
    (c.depth.Some? ==> IsGrid(c.depth.value, Height, Width))
    && (c.color.Some? ==> IsGrid(c.color.value, Height, Width))
  }

  predicate AllConfigured(caps: seq<Capture>)
  {
    forall i :: 0 <= i < |caps| ==> Configured(caps[i])
  }

  /** The pair a complete capture puts on the wire. */
  function PairOf(c: Capture): FramePair
    requires Complete(c)
  {
    FramePair(c.depth.value, c.color.value)
  }

  /** The pairs that make it onto the wire, in capture order. */
  function CompletePairs(caps: seq<Capture>): (ps: seq<FramePair>)
    requires AllConfigured(caps)
    ensures |ps| <= |caps|
    ensures forall i :: 0 <= i < |ps| ==> WellShaped(ps[i])
    ensures (forall i :: 0 <= i < |caps| ==> Complete(caps[i])) ==> |ps| == |caps|
  {
    if |caps| == 0 then []
    else if Complete(caps[0]) then [PairOf(caps[0])] + CompletePairs(caps[1..])
    else CompletePairs(caps[1..])
  }

  /** `p` is the pair of one of the complete captures in `caps`. */
  predicate PairOfSome(caps: seq<Capture>, p: FramePair)
    requires AllConfigured(caps)
  {
    exists i :: 0 <= i < |caps| && Complete(caps[i]) && p == PairOf(caps[i])
  }

  /**
    Exactly the complete captures are sent: each one's pair is among the
    pairs, and every pair is that of some complete capture.
   */
  lemma {:induction false} CompletePairsMembers(caps: seq<Capture>)
    requires AllConfigured(caps)
    ensures forall i :: 0 <= i < |caps| && Complete(caps[i]) ==> PairOf(caps[i]) in CompletePairs(caps)
    ensures forall k :: 0 <= k < |CompletePairs(caps)| ==> PairOfSome(caps, CompletePairs(caps)[k])
  {
    if |caps| > 0 {
      CompletePairsMembers(caps[1..]);
      var rest := CompletePairs(caps[1..]);
      var ps := CompletePairs(caps);
      assert forall i :: 1 <= i < |caps| ==> caps[i] == caps[1..][i - 1];
      forall i | 0 <= i < |caps| && Complete(caps[i])
        ensures PairOf(caps[i]) in ps
      {
        if i > 0 {
          assert caps[1..][i - 1] == caps[i];
          assert PairOf(caps[i]) in rest;
        }
      }
      forall k | 0 <= k < |ps|
        ensures PairOfSome(caps, ps[k])
      {
        if Complete(caps[0]) && k == 0 {
          assert ps[0] == PairOf(caps[0]);
        } else {
          var k' := if Complete(caps[0]) then k - 1 else k;
          assert ps[k] == rest[k'];
          assert PairOfSome(caps[1..], rest[k']);
          var i :| 0 <= i < |caps[1..]| && Complete(caps[1..][i]) && rest[k'] == PairOf(caps[1..][i]);
          assert caps[i + 1] == caps[1..][i];
          assert 0 <= i + 1 < |caps| && Complete(caps[i + 1]) && ps[k] == PairOf(caps[i + 1]);
        }
      }
    }
  }

  /** A capture taken after the others is sent after them, and only if it is complete. */
  lemma {:induction false} CompletePairsAppend(caps: seq<Capture>, c: Capture)
    requires AllConfigured(caps) && Configured(c)
    ensures AllConfigured(caps + [c])
    ensures CompletePairs(caps + [c]) == CompletePairs(caps) + (if Complete(c) then [PairOf(c)] else [])
  {
    var all := caps + [c];
    assert forall i :: 0 <= i < |all| ==> all[i] == if i < |caps| then caps[i] else c;
    if |caps| > 0 {
      assert all[1..] == caps[1..] + [c];
      CompletePairsAppend(caps[1..], c);
    } else {
      assert all[1..] == [];
    }
  }

  /** The bytes `main` writes to the socket for a run of captures. */
  function Send(caps: seq<Capture>): (bytes: seq<Byte>)
    requires AllConfigured(caps)
    ensures |bytes| == |CompletePairs(caps)| * (HeaderBytes + DepthBytes + HeaderBytes + ColorBytes)
  {
    if |caps| == 0 then []
    else if !Complete(caps[0]) then Send(caps[1..])
    else EncodePair(PairOf(caps[0])) + Send(caps[1..])
  }

  /** The wire image of a sequence of pairs, each encoded in full. */
  function EncodeAll(ps: seq<FramePair>): (bytes: seq<Byte>)
    requires forall i :: 0 <= i < |ps| ==> WellShaped(ps[i])
    ensures |bytes| == |ps| * (HeaderBytes + DepthBytes + HeaderBytes + ColorBytes)
  {
    if |ps| == 0 then [] else EncodePair(ps[0]) + EncodeAll(ps[1..])
  }

  /**
    The stream carries whole pairs only: exactly the complete captures, in
    order, each as its depth message followed by its colour message.
   */
  lemma {:induction false} SendIsCompletePairs(caps: seq<Capture>)
    requires AllConfigured(caps)
    ensures Send(caps) == EncodeAll(CompletePairs(caps))
  {
    if |caps| > 0 {
      SendIsCompletePairs(caps[1..]);
      if Complete(caps[0]) {
        var ps := CompletePairs(caps);
        assert ps[1..] == CompletePairs(caps[1..]);
      }
    }
  }

  /** The payload sizes the camera configuration yields are the sizes the receiver's reshapes accept. */
  lemma PayloadSizesMatchReceiver(p: FramePair)
    requires WellShaped(p)
    ensures |EncodeDepth(p.depth)| == DepthBytes == 614400
    ensures |EncodeColor(p.color)| == ColorBytes == 921600
  {
    DepthRoundTrip(p.depth, Height, Width);
    ColorRoundTrip(p.color, Height, Width);
  }
}
