/**
  The receive loop of `receive_rgbd_frames`: read a pair, count it, and on
  every third pair segment the colour plane, gate the depth plane and send
  `b'g'` over the BLE link when something is nearer than 400.

  The segmentation network and the BLE link are parameters: the network is a
  function from colour planes to 480x640 masks (`None` when the call raises),
  and the link is the status found at each frame (connected, disconnected, or
  connected but failing the write).
 */
module Receiver {
  import opened Wrappers
  import opened Bytes
  import opened Grid
  import opened PlaneCodec
  import opened Stream
  import opened Framing
  import opened Proximity
  import opened Sender
  import opened Signal

  /** `FRAMES_BEFORE_TRIGGER` */
  const Cadence: nat := 3

  /** A segmentation result: one confidence value in 0..255 per pixel. */
  type Mask = m: seq<seq<Byte>> | IsGrid(m, Height, Width) witness seq(Height, i => seq(Width, j => 0))

  type Segmenter = ColorPlane -> Option<Mask>

  datatype LinkStatus =
    | Connected      // `client.is_connected` and the write goes through
    | Disconnected   // `client.is_connected` is false: nothing is written
    | WriteFails     // the write raises; the exception is caught and printed

  /** The link's status when the trigger at a given frame count is dispatched. */
  type Link = nat -> LinkStatus

  /** One evaluation frame: where it happened, what it saw, what it sent. */
  datatype Evaluation = Evaluation(frame: nat, minDepth: Option<int>, triggered: bool, delivered: bool)

  /** The connection-scoped state: the frame counter, the evaluations so far, and the bytes written to the link. */
  datatype RxState = RxState(frameCount: nat, evaluations: seq<Evaluation>, written: seq<Byte>)

  datatype EndReason =
    | StreamEnded(failure: Failure)   // recvall returned None, or a reshape rejected a payload
    | SegmentationFailed              // the segmentation call raised

  /** `frame_count = 0` once the client is accepted. */
  function Start(): RxState
  {
    RxState(0, [], [])
  }

  predicate IsEvaluationFrame(frameCount: nat)
  {
    frameCount % Cadence == 0
  }

  /** `send_bluetooth_signal`: the bytes that reach the ESP32. */
  function SendSignal(status: LinkStatus): (written: seq<Byte>)
  {
    if status == Connected then [SignalByte] else []
  }

  /** Segment, gate and, if near, dispatch, on the pair just counted. */
  function Evaluated(st: RxState, depth: DepthPlane, mask: Mask, link: Link): (r: RxState)
    requires IsGrid(depth, Height, Width)
    ensures r.frameCount == st.frameCount
    ensures |r.evaluations| == |st.evaluations| + 1
    ensures r.evaluations[..|st.evaluations|] == st.evaluations
    ensures r.evaluations[|st.evaluations|].frame == st.frameCount
    ensures r.evaluations[|st.evaluations|].delivered <==>
      r.evaluations[|st.evaluations|].triggered && link(st.frameCount) == Connected
    ensures r.written == st.written + (if r.evaluations[|st.evaluations|].delivered then [SignalByte] else [])
  {
    var a := Evaluate(depth, mask);
    var out := if a.triggered then SendSignal(link(st.frameCount)) else [];
    RxState(st.frameCount, st.evaluations + [Evaluation(st.frameCount, a.minDepth, a.triggered, out != [])], st.written + out)
  }

  /** The evaluation record holds the gated-minimum decision of `Evaluate` for the pair's planes. */
  lemma EvaluatedRecordsDecision(st: RxState, depth: DepthPlane, mask: Mask, link: Link)
    requires IsGrid(depth, Height, Width)
    ensures Evaluated(st, depth, mask, link).evaluations[|st.evaluations|].minDepth == Evaluate(depth, mask).minDepth
    ensures Evaluated(st, depth, mask, link).evaluations[|st.evaluations|].triggered == Evaluate(depth, mask).triggered
  {
  }

  /** Where one pass of the loop body leaves the session. */
  datatype Step =
    | Continue(rest: seq<Chunk>, next: RxState)
    | Finish(last: RxState, end: EndReason)

  /**
    The loop body after a pair has been read: count it, and on an evaluation
    frame segment, gate and dispatch.
   */
  function Process(st: RxState, pair: FramePair, rest: seq<Chunk>, seg: Segmenter, link: Link): (s: Step)
    requires WellShaped(pair)
    ensures s.Continue? ==> s.rest == rest && s.next.frameCount == st.frameCount + 1
    ensures s.Finish? ==>
      s == Finish(st.(frameCount := st.frameCount + 1), SegmentationFailed) && IsEvaluationFrame(st.frameCount + 1)
    ensures !IsEvaluationFrame(st.frameCount + 1) ==> s == Continue(rest, st.(frameCount := st.frameCount + 1))
    ensures IsEvaluationFrame(st.frameCount + 1) ==> (s.Finish? <==> seg(pair.color).None?)
    ensures IsEvaluationFrame(st.frameCount + 1) && seg(pair.color).Some? ==>
      s == Continue(rest, Evaluated(st.(frameCount := st.frameCount + 1), pair.depth, seg(pair.color).value, link))
  {
    var counted := st.(frameCount := st.frameCount + 1);
    if !IsEvaluationFrame(counted.frameCount) then Continue(rest, counted)
    else
      match seg(pair.color)
      case None => Finish(counted, SegmentationFailed)
      case Some(mask) => Continue(rest, Evaluated(counted, pair.depth, mask, link))
  }

  /** One pass of the loop body: read a pair, then process it. */
  function Iterate(conn: seq<Chunk>, st: RxState, seg: Segmenter, link: Link): (s: Step)
    ensures s.Continue? ==> |Flatten(s.rest)| < |Flatten(conn)|
  {
    match ReadPair(conn)
    case Stop(failure) => Finish(st, StreamEnded(failure))
    case Got(pair, rest) => Process(st, pair, rest, seg, link)
  }

  /**
    The `while True` loop. It ends only through an exception, which the
    `except`/`finally` turns into the end of the session (the connection is
    closed); the state reached so far is returned with the reason.
   */
  function Run(conn: seq<Chunk>, st: RxState, seg: Segmenter, link: Link): (out: (RxState, EndReason))
    ensures out.0.frameCount >= st.frameCount
    decreases |Flatten(conn)|
  {
    match Iterate(conn, st, seg, link)
    case Finish(last, end) => (last, end)
    case Continue(rest, next) => Run(rest, next, seg, link)
  }

  /** The counter and the evaluations agree: the k-th evaluation ran at pair 3(k+1), and no multiple of 3 was skipped. */
  predicate CadenceInvariant(st: RxState)
  {
    |st.evaluations| == st.frameCount / Cadence && FramesAtCadence(st)
  }

  /** The k-th evaluation ran at pair 3(k+1). */
  predicate FramesAtCadence(st: RxState)
  {
    forall k :: 0 <= k < |st.evaluations| ==> st.evaluations[k].frame == Cadence * (k + 1)
  }

  /** Processing one pair keeps the counter and the evaluation records in step. */
  lemma ProcessKeepsCadence(st: RxState, pair: FramePair, rest: seq<Chunk>, seg: Segmenter, link: Link)
    requires WellShaped(pair)
    requires CadenceInvariant(st)
    ensures var s := Process(st, pair, rest, seg, link);
      && (s.Continue? ==> CadenceInvariant(s.next))
      && (s.Finish? ==> |s.last.evaluations| + 1 == s.last.frameCount / Cadence && FramesAtCadence(s.last))
  {
    var s := Process(st, pair, rest, seg, link);
    if IsEvaluationFrame(st.frameCount + 1) {
      assert (st.frameCount + 1) / Cadence == st.frameCount / Cadence + 1;
      if s.Continue? {
        var next := s.next;
        forall k | 0 <= k < |next.evaluations|
          ensures next.evaluations[k].frame == Cadence * (k + 1)
        {
          if k < |st.evaluations| {
            assert next.evaluations[k] == next.evaluations[..|st.evaluations|][k];
          }
        }
      }
    }
  }

  lemma IterateKeepsCadence(conn: seq<Chunk>, st: RxState, seg: Segmenter, link: Link)
    requires CadenceInvariant(st)
    ensures var s := Iterate(conn, st, seg, link);
      && (s.Continue? ==> CadenceInvariant(s.next))
      && (s.Finish? && s.end.StreamEnded? ==> CadenceInvariant(s.last))
      && (s.Finish? && s.end == SegmentationFailed ==>
            |s.last.evaluations| + 1 == s.last.frameCount / Cadence && FramesAtCadence(s.last))
  {
    match ReadPair(conn)
    case Stop(_) =>
    case Got(pair, rest) => ProcessKeepsCadence(st, pair, rest, seg, link);
  }

  lemma {:induction false} RunKeepsCadence(conn: seq<Chunk>, st: RxState, seg: Segmenter, link: Link)
    requires CadenceInvariant(st)
    ensures var (last, end) := Run(conn, st, seg, link);
      && (end != SegmentationFailed ==> CadenceInvariant(last))
      && (end == SegmentationFailed ==> |last.evaluations| + 1 == last.frameCount / Cadence && FramesAtCadence(last))
    decreases |Flatten(conn)|
  {
    IterateKeepsCadence(conn, st, seg, link);
    match Iterate(conn, st, seg, link)
    case Finish(_, _) =>
    case Continue(rest, next) =>
      RunKeepsCadence(rest, next, seg, link);
  }

  function Deliveries(evals: seq<Evaluation>): nat
  {
    if |evals| == 0 then 0
    else Deliveries(evals[..|evals| - 1]) + (if evals[|evals| - 1].delivered then 1 else 0)
  }

  /** What reached the link is exactly one `g` per evaluation that triggered while connected. */
  predicate DispatchInvariant(st: RxState, link: Link)
  {
    && (forall k :: 0 <= k < |st.evaluations| ==>
          (st.evaluations[k].delivered <==> st.evaluations[k].triggered && link(st.evaluations[k].frame) == Connected))
    && |st.written| == Deliveries(st.evaluations)
    && forall b :: b in st.written ==> b == SignalByte
  }

  lemma ProcessKeepsDispatch(st: RxState, pair: FramePair, rest: seq<Chunk>, seg: Segmenter, link: Link)
    requires WellShaped(pair)
    requires DispatchInvariant(st, link)
    ensures var s := Process(st, pair, rest, seg, link);
      && (s.Continue? ==> DispatchInvariant(s.next, link))
      && (s.Finish? ==> DispatchInvariant(s.last, link))
  {
    var s := Process(st, pair, rest, seg, link);
    if s.Continue? && IsEvaluationFrame(st.frameCount + 1) {
      var next := s.next;
      assert next.evaluations[..|next.evaluations| - 1] == st.evaluations;
      forall k | 0 <= k < |st.evaluations|
        ensures next.evaluations[k] == st.evaluations[k]
      {
        assert next.evaluations[k] == next.evaluations[..|st.evaluations|][k];
      }
    }
  }

  lemma IterateKeepsDispatch(conn: seq<Chunk>, st: RxState, seg: Segmenter, link: Link)
    requires DispatchInvariant(st, link)
    ensures var s := Iterate(conn, st, seg, link);
      && (s.Continue? ==> DispatchInvariant(s.next, link))
      && (s.Finish? ==> DispatchInvariant(s.last, link))
  {
    match ReadPair(conn)
    case Stop(_) =>
    case Got(pair, rest) => ProcessKeepsDispatch(st, pair, rest, seg, link);
  }

  lemma {:induction false} RunKeepsDispatch(conn: seq<Chunk>, st: RxState, seg: Segmenter, link: Link)
    requires DispatchInvariant(st, link)
    ensures DispatchInvariant(Run(conn, st, seg, link).0, link)
    decreases |Flatten(conn)|
  {
    IterateKeepsDispatch(conn, st, seg, link);
    match Iterate(conn, st, seg, link)
    case Finish(_, _) =>
    case Continue(rest, next) =>
      RunKeepsDispatch(rest, next, seg, link);
  }

  /**
    One accepted connection, from a zero frame counter. The k-th evaluation
    ran on pair 3(k+1), however the session ended; unless segmentation
    failed there were n / 3 of them after n pairs, and a failure leaves out
    exactly the failing pair's. In every case the link received one `g` per
    evaluation that triggered while the client was connected, and nothing
    else.
   */
  function Session(conn: seq<Chunk>, seg: Segmenter, link: Link): (out: (RxState, EndReason))
    ensures out.1 != SegmentationFailed ==> |out.0.evaluations| == out.0.frameCount / Cadence
    ensures out.1 == SegmentationFailed ==> |out.0.evaluations| + 1 == out.0.frameCount / Cadence
    ensures forall k :: 0 <= k < |out.0.evaluations| ==> out.0.evaluations[k].frame == Cadence * (k + 1)
    ensures forall k :: 0 <= k < |out.0.evaluations| ==>
      (out.0.evaluations[k].delivered <==> out.0.evaluations[k].triggered && link(out.0.evaluations[k].frame) == Connected)
    ensures |out.0.written| == Deliveries(out.0.evaluations)
    ensures forall b :: b in out.0.written ==> b == SignalByte
  {
    RunKeepsCadence(conn, Start(), seg, link);
    RunKeepsDispatch(conn, Start(), seg, link);
    Run(conn, Start(), seg, link)
  }

  /** Processing a pair counts and ends the same way whatever the link does and whatever was recorded before. */
  lemma ProcessIgnoresLink(st1: RxState, st2: RxState, pair: FramePair, rest: seq<Chunk>, seg: Segmenter, link1: Link, link2: Link)
    requires WellShaped(pair)
    requires st1.frameCount == st2.frameCount && |st1.evaluations| == |st2.evaluations|
    ensures var s1, s2 := Process(st1, pair, rest, seg, link1), Process(st2, pair, rest, seg, link2);
      && s1.Continue? == s2.Continue?
      && (s1.Continue? ==> s1.rest == s2.rest && s1.next.frameCount == s2.next.frameCount
                            && |s1.next.evaluations| == |s2.next.evaluations|)
      && (s1.Finish? ==> s1.end == s2.end && s1.last.frameCount == s2.last.frameCount
                          && |s1.last.evaluations| == |s2.last.evaluations|)
  {
  }

  lemma IterateIgnoresLink(conn: seq<Chunk>, st1: RxState, st2: RxState, seg: Segmenter, link1: Link, link2: Link)
    requires st1.frameCount == st2.frameCount && |st1.evaluations| == |st2.evaluations|
    ensures var s1, s2 := Iterate(conn, st1, seg, link1), Iterate(conn, st2, seg, link2);
      && s1.Continue? == s2.Continue?
      && (s1.Continue? ==> s1.rest == s2.rest && s1.next.frameCount == s2.next.frameCount
                            && |s1.next.evaluations| == |s2.next.evaluations|)
      && (s1.Finish? ==> s1.end == s2.end && s1.last.frameCount == s2.last.frameCount
                          && |s1.last.evaluations| == |s2.last.evaluations|)
  {
    match ReadPair(conn)
    case Stop(_) =>
    case Got(pair, rest) => ProcessIgnoresLink(st1, st2, pair, rest, seg, link1, link2);
  }

  /** Two runs of records hold the same decisions: the same pairs, nearest depths and triggers, in the same order. */
  predicate SameDecisions(a: seq<Evaluation>, b: seq<Evaluation>)
  {
    && |a| == |b|
    && forall k :: 0 <= k < |a| ==>
      a[k].frame == b[k].frame && a[k].minDepth == b[k].minDepth && a[k].triggered == b[k].triggered
  }

  /** Processing a pair makes the same decision whatever the link does; only whether it was delivered can differ. */
  lemma ProcessSameDecisions(st1: RxState, st2: RxState, pair: FramePair, rest: seq<Chunk>, seg: Segmenter, link1: Link, link2: Link)
    requires WellShaped(pair)
    requires st1.frameCount == st2.frameCount && SameDecisions(st1.evaluations, st2.evaluations)
    ensures var s1, s2 := Process(st1, pair, rest, seg, link1), Process(st2, pair, rest, seg, link2);
      && s1.Continue? == s2.Continue?
      && (s1.Continue? ==> s1.rest == s2.rest && s1.next.frameCount == s2.next.frameCount
                            && SameDecisions(s1.next.evaluations, s2.next.evaluations))
      && (s1.Finish? ==> s1.end == s2.end && s1.last.frameCount == s2.last.frameCount
                          && SameDecisions(s1.last.evaluations, s2.last.evaluations))
  {
    var s1, s2 := Process(st1, pair, rest, seg, link1), Process(st2, pair, rest, seg, link2);
    if IsEvaluationFrame(st1.frameCount + 1) && seg(pair.color).Some? {
      var mask := seg(pair.color).value;
      var c1, c2 := st1.(frameCount := st1.frameCount + 1), st2.(frameCount := st2.frameCount + 1);
      EvaluatedRecordsDecision(c1, pair.depth, mask, link1);
      EvaluatedRecordsDecision(c2, pair.depth, mask, link2);
      var e1, e2 := Evaluated(c1, pair.depth, mask, link1).evaluations, Evaluated(c2, pair.depth, mask, link2).evaluations;
      forall k | 0 <= k < |e1|
        ensures e1[k].frame == e2[k].frame && e1[k].minDepth == e2[k].minDepth && e1[k].triggered == e2[k].triggered
      {
        if k < |st1.evaluations| {
          assert e1[k] == e1[..|st1.evaluations|][k] && e2[k] == e2[..|st2.evaluations|][k];
        }
      }
    }
  }

  lemma IterateSameDecisions(conn: seq<Chunk>, st1: RxState, st2: RxState, seg: Segmenter, link1: Link, link2: Link)
    requires st1.frameCount == st2.frameCount && SameDecisions(st1.evaluations, st2.evaluations)
    ensures var s1, s2 := Iterate(conn, st1, seg, link1), Iterate(conn, st2, seg, link2);
      && s1.Continue? == s2.Continue?
      && (s1.Continue? ==> s1.rest == s2.rest && s1.next.frameCount == s2.next.frameCount
                            && SameDecisions(s1.next.evaluations, s2.next.evaluations))
      && (s1.Finish? ==> s1.end == s2.end && s1.last.frameCount == s2.last.frameCount
                          && SameDecisions(s1.last.evaluations, s2.last.evaluations))
  {
    match ReadPair(conn)
    case Stop(_) =>
    case Got(pair, rest) => ProcessSameDecisions(st1, st2, pair, rest, seg, link1, link2);
  }

  /**
    Whatever the link does, the session makes the same decisions: the same
    pairs are evaluated, with the same nearest depths and the same triggers,
    and it ends the same way; only what was delivered can differ.
   */
  lemma {:induction false} LinkDoesNotAffectDecisions(conn: seq<Chunk>, st1: RxState, st2: RxState, seg: Segmenter, link1: Link, link2: Link)
    requires st1.frameCount == st2.frameCount && SameDecisions(st1.evaluations, st2.evaluations)
    ensures Run(conn, st1, seg, link1).0.frameCount == Run(conn, st2, seg, link2).0.frameCount
    ensures Run(conn, st1, seg, link1).1 == Run(conn, st2, seg, link2).1
    ensures SameDecisions(Run(conn, st1, seg, link1).0.evaluations, Run(conn, st2, seg, link2).0.evaluations)
    decreases |Flatten(conn)|
  {
    IterateSameDecisions(conn, st1, st2, seg, link1, link2);
    var s1, s2 := Iterate(conn, st1, seg, link1), Iterate(conn, st2, seg, link2);
    if s1.Continue? {
      LinkDoesNotAffectDecisions(s1.rest, s1.next, s2.next, seg, link1, link2);
    }
  }

  /**
    A failing or missing link never ends the session: the pairs counted, the
    number of evaluations and the end reason are the same whatever the link
    does.
   */
  lemma {:induction false} LinkDoesNotAffectLoop(conn: seq<Chunk>, st1: RxState, st2: RxState, seg: Segmenter, link1: Link, link2: Link)
    requires st1.frameCount == st2.frameCount && |st1.evaluations| == |st2.evaluations|
    ensures Run(conn, st1, seg, link1).0.frameCount == Run(conn, st2, seg, link2).0.frameCount
    ensures Run(conn, st1, seg, link1).1 == Run(conn, st2, seg, link2).1
    ensures |Run(conn, st1, seg, link1).0.evaluations| == |Run(conn, st2, seg, link2).0.evaluations|
    decreases |Flatten(conn)|
  {
    IterateIgnoresLink(conn, st1, st2, seg, link1, link2);
    var s1, s2 := Iterate(conn, st1, seg, link1), Iterate(conn, st2, seg, link2);
    if s1.Continue? {
      LinkDoesNotAffectLoop(s1.rest, s1.next, s2.next, seg, link1, link2);
    }
  }

  /**
    Evaluation `e` was made on pair `j` of `ps`, where `j` is `e`'s frame
    counted from `base` (the counter before `ps[0]`): its minimum and its
    decision are those of that pair's depth plane under the mask the
    segmenter gives for that pair's colour plane.
   */
  predicate RecordOf(e: Evaluation, base: nat, ps: seq<FramePair>, seg: Segmenter)
  {
    0 <= e.frame - base - 1 < |ps| && EvaluatedOn(e, ps[e.frame - base - 1], seg)
  }

  /** `e` records the proximity decision on the planes of pair `p`. */
  predicate EvaluatedOn(e: Evaluation, p: FramePair, seg: Segmenter)
  {
    && WellShaped(p)
    && seg(p.color).Some?
    && e.minDepth == Evaluate(p.depth, seg(p.color).value).minDepth
    && e.triggered == Evaluate(p.depth, seg(p.color).value).triggered
  }

  /** `last` extends `st`'s records, and every record added was made on the pair its frame names. */
  predicate RecordsPairs(st: RxState, last: RxState, ps: seq<FramePair>, seg: Segmenter)
  {
    && |st.evaluations| <= |last.evaluations|
    && last.evaluations[..|st.evaluations|] == st.evaluations
    && forall k :: |st.evaluations| <= k < |last.evaluations| ==> RecordOf(last.evaluations[k], st.frameCount, ps, seg)
  }

  lemma RecordOfShift(e: Evaluation, base: nat, ps: seq<FramePair>, seg: Segmenter)
    requires |ps| > 0
    requires RecordOf(e, base + 1, ps[1..], seg)
    ensures RecordOf(e, base, ps, seg)
  {
    var j := e.frame - base - 2;
    assert ps[1..][j] == ps[j + 1];
  }

  /** One processed pair followed by a run that records the remaining pairs records all of them. */
  lemma RecordsStep(st: RxState, ps: seq<FramePair>, rest: seq<Chunk>, seg: Segmenter, link: Link, last: RxState)
    requires |ps| > 0 && WellShaped(ps[0])
    requires forall c :: seg(c).Some?
    requires Process(st, ps[0], rest, seg, link).Continue?
    requires RecordsPairs(Process(st, ps[0], rest, seg, link).next, last, ps[1..], seg)
    ensures RecordsPairs(st, last, ps, seg)
  {
    var next := Process(st, ps[0], rest, seg, link).next;
    var n := |st.evaluations|;
    assert last.evaluations[..n] == st.evaluations by {
      assert last.evaluations[..n] == last.evaluations[..|next.evaluations|][..n];
    }
    if IsEvaluationFrame(st.frameCount + 1) {
      var counted := st.(frameCount := st.frameCount + 1);
      var mask := seg(ps[0].color).value;
      assert next == Evaluated(counted, ps[0].depth, mask, link);
      EvaluatedRecordsDecision(counted, ps[0].depth, mask, link);
      assert last.evaluations[n] == next.evaluations[n] by {
        assert last.evaluations[..|next.evaluations|][n] == last.evaluations[n];
      }
      assert RecordOf(last.evaluations[n], st.frameCount, ps, seg);
    }
    forall k | n <= k < |last.evaluations|
      ensures RecordOf(last.evaluations[k], st.frameCount, ps, seg)
    {
      if k >= |next.evaluations| {
        RecordOfShift(last.evaluations[k], st.frameCount, ps, seg);
      }
    }
  }

  /** The first of a run of encoded pairs is read whole, leaving the others. */
  lemma FirstPairRead(conn: seq<Chunk>, ps: seq<FramePair>, tail: seq<Byte>) returns (rest: seq<Chunk>)
    requires |ps| > 0 && forall i :: 0 <= i < |ps| ==> WellShaped(ps[i])
    requires Flatten(conn) == EncodeAll(ps) + tail
    ensures ReadPair(conn) == Got(ps[0], rest)
    ensures Flatten(rest) == EncodeAll(ps[1..]) + tail
  {
    ConcatAssoc(EncodePair(ps[0]), EncodeAll(ps[1..]), tail);
    ReadPairOfEncoded(conn, ps[0], EncodeAll(ps[1..]) + tail);
    rest := ReadPair(conn).rest;
  }

  /** The loop reads and processes the first of a run of encoded pairs and carries on with the rest. */
  lemma RunFirstPair(conn: seq<Chunk>, ps: seq<FramePair>, tail: seq<Byte>, st: RxState, seg: Segmenter, link: Link)
    returns (rest: seq<Chunk>)
    requires |ps| > 0 && forall i :: 0 <= i < |ps| ==> WellShaped(ps[i])
    requires Flatten(conn) == EncodeAll(ps) + tail
    requires forall c :: seg(c).Some?
    ensures Flatten(rest) == EncodeAll(ps[1..]) + tail
    ensures Process(st, ps[0], rest, seg, link).Continue?
    ensures Run(conn, st, seg, link) == Run(rest, Process(st, ps[0], rest, seg, link).next, seg, link)
  {
    rest := FirstPairRead(conn, ps, tail);
    var s := Process(st, ps[0], rest, seg, link);
    assert Iterate(conn, st, seg, link) == s;
    assert s.Continue?;
  }

  /**
    A stream made of whole encoded pairs followed by something the reader
    rejects with `f`: every pair is received and counted, whatever the
    chunking, and the session ends with `f` right after the last one.
   */
  lemma {:induction false} RunOverPairs(conn: seq<Chunk>, ps: seq<FramePair>, tail: seq<Byte>, st: RxState, seg: Segmenter, link: Link, f: Failure)
    requires forall i :: 0 <= i < |ps| ==> WellShaped(ps[i])
    requires Flatten(conn) == EncodeAll(ps) + tail
    requires forall c: seq<Chunk> :: Flatten(c) == tail ==> ReadPair(c) == Stop(f)
    requires forall c :: seg(c).Some?
    ensures Run(conn, st, seg, link).1 == StreamEnded(f)
    ensures Run(conn, st, seg, link).0.frameCount == st.frameCount + |ps|
    ensures RecordsPairs(st, Run(conn, st, seg, link).0, ps, seg)
    decreases |ps|
  {
    if |ps| == 0 {
      assert Flatten(conn) == tail;
      assert Run(conn, st, seg, link) == (st, StreamEnded(f));
      assert st.evaluations[..|st.evaluations|] == st.evaluations;
    } else {
      var rest := RunFirstPair(conn, ps, tail, st, seg, link);
      var next := Process(st, ps[0], rest, seg, link).next;
      RunOverPairs(rest, ps[1..], tail, next, seg, link, f);
      RecordsStep(st, ps, rest, seg, link, Run(conn, st, seg, link).0);
    }
  }

  /** An exhausted stream is a closed connection. */
  lemma EmptyStreamCloses(conn: seq<Chunk>)
    requires Flatten(conn) == []
    ensures ReadPair(conn) == Stop(ConnectionClosed)
  {
  }

  /** With evaluations at pairs 3, 6, 9, ..., the k-th record is that of pair 3(k+1), the one at index 3(k+1) - 1. */
  lemma RecordsAtCadence(st: RxState, ps: seq<FramePair>, seg: Segmenter)
    requires RecordsPairs(Start(), st, ps, seg)
    requires forall k :: 0 <= k < |st.evaluations| ==> st.evaluations[k].frame == Cadence * (k + 1)
    ensures Cadence * |st.evaluations| <= |ps|
    ensures forall k :: 0 <= k < |st.evaluations| ==> EvaluatedOn(st.evaluations[k], ps[Cadence * (k + 1) - 1], seg)
  {
    if |st.evaluations| > 0 {
      assert RecordOf(st.evaluations[|st.evaluations| - 1], Start().frameCount, ps, seg);
    }
    forall k | 0 <= k < |st.evaluations|
      ensures EvaluatedOn(st.evaluations[k], ps[Cadence * (k + 1) - 1], seg)
    {
      assert RecordOf(st.evaluations[k], Start().frameCount, ps, seg);
    }
  }

  /**
    A stream of whole encoded pairs that then closes: every pair is received
    and counted, whatever the chunking; one evaluation runs per three pairs,
    the k-th on the planes of pair 3(k+1); and the session ends with the
    connection closed, never with a format error.
   */
  lemma SessionOverPairs(conn: seq<Chunk>, ps: seq<FramePair>, seg: Segmenter, link: Link)
    requires forall i :: 0 <= i < |ps| ==> WellShaped(ps[i])
    requires Flatten(conn) == EncodeAll(ps)
    requires forall c :: seg(c).Some?
    ensures Session(conn, seg, link).1 == StreamEnded(ConnectionClosed)
    ensures Session(conn, seg, link).0.frameCount == |ps|
    ensures |Session(conn, seg, link).0.evaluations| == |ps| / Cadence
    ensures var evals := Session(conn, seg, link).0.evaluations;
      forall k :: 0 <= k < |evals| ==> EvaluatedOn(evals[k], ps[Cadence * (k + 1) - 1], seg)
  {
    assert Flatten(conn) == EncodeAll(ps) + [];
    forall c: seq<Chunk> | Flatten(c) == []
      ensures ReadPair(c) == Stop(ConnectionClosed)
    {
      EmptyStreamCloses(c);
    }
    RunOverPairs(conn, ps, [], Start(), seg, link, ConnectionClosed);
    var out := Session(conn, seg, link);
    assert out == Run(conn, Start(), seg, link);
    RecordsAtCadence(out.0, ps, seg);
  }

  /**
    Receiving what the sender sent: every complete capture is received and
    counted, in order, whatever the chunking; one evaluation runs per three
    complete captures, the k-th on the planes of complete capture 3(k+1); and
    the session ends when the sender closes, never with a format error.
   */
  lemma SessionOverSenderStream(caps: seq<Capture>, conn: seq<Chunk>, seg: Segmenter, link: Link)
    requires AllConfigured(caps)
    requires Flatten(conn) == Send(caps)
    requires forall c :: seg(c).Some?
    ensures Session(conn, seg, link).1 == StreamEnded(ConnectionClosed)
    ensures Session(conn, seg, link).0.frameCount == |CompletePairs(caps)|
    ensures |Session(conn, seg, link).0.evaluations| == |CompletePairs(caps)| / Cadence
    ensures var evals, ps := Session(conn, seg, link).0.evaluations, CompletePairs(caps);
      forall k :: 0 <= k < |evals| ==> EvaluatedOn(evals[k], ps[Cadence * (k + 1) - 1], seg)
  {
    SendIsCompletePairs(caps);
    SessionOverPairs(conn, CompletePairs(caps), seg, link);
  }

  /**
    A depth header announcing any length other than 480*640*2 ends the
    session with a format error after the pairs before it; the bad plane is
    never evaluated.
   */
  lemma SessionStopsOnBadDepthLength(conn: seq<Chunk>, ps: seq<FramePair>, payload: seq<Byte>, tail: seq<Byte>, seg: Segmenter, link: Link)
    requires forall i :: 0 <= i < |ps| ==> WellShaped(ps[i])
    requires |payload| < U32Range && |payload| != DepthBytes
    requires Flatten(conn) == EncodeAll(ps) + (EncodeMessage(payload) + tail)
    requires forall c :: seg(c).Some?
    ensures Session(conn, seg, link).1 == StreamEnded(FrameFormatError)
    ensures Session(conn, seg, link).0.frameCount == |ps|
  {
    forall c: seq<Chunk> | Flatten(c) == EncodeMessage(payload) + tail
      ensures ReadPair(c) == Stop(FrameFormatError)
    {
      ReadPairBadDepthLength(c, payload, tail);
    }
    RunOverPairs(conn, ps, EncodeMessage(payload) + tail, Start(), seg, link, FrameFormatError);
  }

  /** Once a pair has been read, the pass is the processing of that pair, and the loop goes on from there. */
  lemma ReadThenProcess(conn: seq<Chunk>, st: RxState, seg: Segmenter, link: Link)
    ensures ReadPair(conn).Got? ==>
      var s := Process(st, ReadPair(conn).pair, ReadPair(conn).rest, seg, link);
      && Iterate(conn, st, seg, link) == s
      && (s.Continue? ==> Run(conn, st, seg, link) == Run(s.rest, s.next, seg, link))
      && (s.Finish? ==> Run(conn, st, seg, link) == (s.last, s.end))
  {
  }

  /** Helper: the off-cadence case of `Process`, restated so that the session proofs can call it in a busy context. */
  lemma OffCadenceCounts(st: RxState, pair: FramePair, rest: seq<Chunk>, seg: Segmenter, link: Link)
    requires WellShaped(pair) && !IsEvaluationFrame(st.frameCount + 1)
    ensures Process(st, pair, rest, seg, link) == Continue(rest, st.(frameCount := st.frameCount + 1))
  {
  }

  /** Helper: the failed-segmentation case of `Process`, restated for the same reason. */
  lemma FailedSegmentationEnds(st: RxState, pair: FramePair, rest: seq<Chunk>, seg: Segmenter, link: Link)
    requires WellShaped(pair) && IsEvaluationFrame(st.frameCount + 1) && seg(pair.color).None?
    ensures Process(st, pair, rest, seg, link) == Finish(st.(frameCount := st.frameCount + 1), SegmentationFailed)
  {
  }

  /** An encoded pair off the cadence is read and counted, and the loop carries on with what follows it. */
  lemma PassOffCadence(conn: seq<Chunk>, p: FramePair, more: seq<Byte>, st: RxState, seg: Segmenter, link: Link)
    returns (rest: seq<Chunk>)
    requires WellShaped(p) && Flatten(conn) == EncodePair(p) + more
    requires !IsEvaluationFrame(st.frameCount + 1)
    ensures Flatten(rest) == more
    ensures Run(conn, st, seg, link) == Run(rest, st.(frameCount := st.frameCount + 1), seg, link)
  {
    ReadPairOfEncoded(conn, p, more);
    rest := ReadPair(conn).rest;
    ReadThenProcess(conn, st, seg, link);
    OffCadenceCounts(st, p, rest, seg, link);
  }

  /** An encoded pair on the cadence whose segmentation fails is counted and ends the session. */
  lemma PassFailingSegmentation(conn: seq<Chunk>, p: FramePair, more: seq<Byte>, st: RxState, seg: Segmenter, link: Link)
    requires WellShaped(p) && Flatten(conn) == EncodePair(p) + more
    requires IsEvaluationFrame(st.frameCount + 1) && seg(p.color).None?
    ensures Run(conn, st, seg, link) == (st.(frameCount := st.frameCount + 1), SegmentationFailed)
  {
    ReadPairOfEncoded(conn, p, more);
    var rest := ReadPair(conn).rest;
    ReadThenProcess(conn, st, seg, link);
    FailedSegmentationEnds(st, p, rest, seg, link);
  }

  /**
    A segmentation failure on the third pair ends the session there: the
    pair has been counted, nothing has been evaluated, and nothing after it
    is read. The first two pairs are never segmented, so the segmenter's
    answer for them does not matter.
   */
  lemma SessionStopsOnSegmentationFailure(conn: seq<Chunk>, p1: FramePair, p2: FramePair, p3: FramePair, tail: seq<Byte>, seg: Segmenter, link: Link)
    requires WellShaped(p1) && WellShaped(p2) && WellShaped(p3)
    requires Flatten(conn) == EncodePair(p1) + (EncodePair(p2) + (EncodePair(p3) + tail))
    requires seg(p3.color).None?
    ensures Session(conn, seg, link).1 == SegmentationFailed
    ensures Session(conn, seg, link).0.frameCount == Cadence
    ensures Session(conn, seg, link).0.evaluations == []
  {
    RunStopsAtThirdPair(conn, p1, p2, p3, tail, seg, link);
    assert Session(conn, seg, link) == Run(conn, Start(), seg, link);
  }

  /** The loop from the start: two pairs counted, then the third's failed segmentation ends it. */
  lemma RunStopsAtThirdPair(conn: seq<Chunk>, p1: FramePair, p2: FramePair, p3: FramePair, tail: seq<Byte>, seg: Segmenter, link: Link)
    requires WellShaped(p1) && WellShaped(p2) && WellShaped(p3)
    requires Flatten(conn) == EncodePair(p1) + (EncodePair(p2) + (EncodePair(p3) + tail))
    requires seg(p3.color).None?
    ensures Run(conn, Start(), seg, link) == (Start().(frameCount := Cadence), SegmentationFailed)
  {
    var st0 := Start();
    var st1 := st0.(frameCount := 1);
    var st2 := st0.(frameCount := 2);
    assert st0.frameCount + 1 == 1 && !IsEvaluationFrame(1);
    assert st1.frameCount + 1 == 2 && !IsEvaluationFrame(2);
    assert st2.frameCount + 1 == 3 && IsEvaluationFrame(3);
    var rest1 := PassOffCadence(conn, p1, EncodePair(p2) + (EncodePair(p3) + tail), st0, seg, link);
    var rest2 := PassOffCadence(rest1, p2, EncodePair(p3) + tail, st1, seg, link);
    PassFailingSegmentation(rest2, p3, tail, st2, seg, link);
  }

  /**
    A peer that closes part-way through a pair (after the depth header, say)
    ends the session with `ConnectionClosed`; the half-received pair is never
    counted or evaluated.
   */
  lemma SessionStopsOnTruncatedPair(conn: seq<Chunk>, ps: seq<FramePair>, p: FramePair, k: nat, seg: Segmenter, link: Link)
    requires forall i :: 0 <= i < |ps| ==> WellShaped(ps[i])
    requires WellShaped(p) && k < |EncodePair(p)|
    requires Flatten(conn) == EncodeAll(ps) + EncodePair(p)[..k]
    requires forall c :: seg(c).Some?
    ensures Session(conn, seg, link).1 == StreamEnded(ConnectionClosed)
    ensures Session(conn, seg, link).0.frameCount == |ps|
  {
    forall c: seq<Chunk> | Flatten(c) == EncodePair(p)[..k]
      ensures ReadPair(c) == Stop(ConnectionClosed)
    {
      ReadPairTruncated(c, p, k);
    }
    RunOverPairs(conn, ps, EncodePair(p)[..k], Start(), seg, link, ConnectionClosed);
  }
}
