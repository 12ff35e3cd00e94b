/**
  The proximity decision made on evaluation frames: depth pixels the
  segmentation mask is not confident about (mask value at most 253) are
  zeroed, and the nearest remaining non-zero depth is compared strictly
  against 400.
 */
module Proximity {
  import opened Wrappers
  import opened Grid

  const MaskThreshold: int := 253
  const TriggerDepth: int := 400

  /** Pixel (i, j) survives the mask and carries a usable (non-zero) depth. */
  predicate Retained(depth: seq<seq<int>>, mask: seq<seq<int>>, i: int, j: int)
    requires SameShape(depth, mask)
    requires 0 <= i < |depth| && 0 <= j < |depth[i]|
  {
    mask[i][j] > MaskThreshold && depth[i][j] > 0
  }

  /**
    `depth_image.copy()` with `depth_image[np.where(mask <= 253)] = 0`: a new
    plane of the same shape; the received plane itself is a value and is not
    changed.
   */
  function ApplyMask(depth: seq<seq<int>>, mask: seq<seq<int>>): (r: seq<seq<int>>)
    requires SameShape(depth, mask)
    ensures SameShape(r, depth)
    ensures forall i, j :: 0 <= i < |r| && 0 <= j < |r[i]| ==> (r[i][j] > 0 <==> Retained(depth, mask, i, j))
    ensures forall i, j :: 0 <= i < |r| && 0 <= j < |r[i]| && r[i][j] != 0 ==> r[i][j] == depth[i][j]
  {
    seq(|depth|, i requires 0 <= i < |depth| =>
      seq(|depth[i]|, j requires 0 <= j < |depth[i]| =>
        if mask[i][j] <= MaskThreshold then 0 else depth[i][j]))
  }

  /** `np.min(v[v > 0])`, or `None` when there is no positive value. */
  function MinPositive(s: seq<int>): (r: Option<int>)
    ensures r.None? <==> forall x :: x in s ==> x <= 0
    ensures r.Some? ==> r.value > 0 && r.value in s
    ensures r.Some? ==> forall x :: x in s && x > 0 ==> r.value <= x
  {
    if |s| == 0 then None
    else
      var rest := MinPositive(s[1..]);
      assert s[0] in s;
      assert forall x :: x in s <==> x == s[0] || x in s[1..];
      if s[0] <= 0 then rest
      else if rest.None? || s[0] < rest.value then Some(s[0])
      else rest
  }

  /** What one evaluation frame concluded. */
  datatype Assessment = Assessment(minDepth: Option<int>, triggered: bool)

  /** The confidence-gated nearest depth and the trigger decision; `EvaluateGatedMinimum` states what they mean. */
  function Evaluate(depth: seq<seq<int>>, mask: seq<seq<int>>): (a: Assessment)
    requires SameShape(depth, mask)
    ensures a.minDepth.Some? ==> a.minDepth.value > 0
    ensures a.triggered ==> a.minDepth.Some? && a.minDepth.value < TriggerDepth
  {
    var m := MinPositive(Flat(ApplyMask(depth, mask)));
    Assessment(m, m.Some? && m.value < TriggerDepth)
  }

  /**
    `minDepth` is absent exactly when no pixel is retained; otherwise it is the
    smallest retained depth. The trigger fires iff that minimum is below 400.
   */
  lemma EvaluateGatedMinimum(depth: seq<seq<int>>, mask: seq<seq<int>>)
    requires SameShape(depth, mask)
    ensures var a := Evaluate(depth, mask);
      && (a.minDepth.None? <==>
            forall i, j :: 0 <= i < |depth| && 0 <= j < |depth[i]| ==> !Retained(depth, mask, i, j))
      && (a.minDepth.Some? ==>
            exists i, j :: 0 <= i < |depth| && 0 <= j < |depth[i]| && Retained(depth, mask, i, j) && depth[i][j] == a.minDepth.value)
      && (a.minDepth.Some? ==>
            forall i, j :: 0 <= i < |depth| && 0 <= j < |depth[i]| && Retained(depth, mask, i, j) ==> a.minDepth.value <= depth[i][j])
      && (a.triggered <==> a.minDepth.Some? && a.minDepth.value < TriggerDepth)
  {
    var masked := ApplyMask(depth, mask);
    EvaluateCorrect(depth, mask, masked, MinPositive(Flat(masked)));
  }

  /** Ties the flat minimum of the masked plane back to pixels of the received plane. */
  lemma EvaluateCorrect(depth: seq<seq<int>>, mask: seq<seq<int>>, masked: seq<seq<int>>, m: Option<int>)
    requires SameShape(depth, mask)
    requires masked == ApplyMask(depth, mask)
    requires m == MinPositive(Flat(masked))
    ensures m.None? <==>
      forall i, j :: 0 <= i < |depth| && 0 <= j < |depth[i]| ==> !Retained(depth, mask, i, j)
    ensures m.Some? ==>
      exists i, j :: 0 <= i < |depth| && 0 <= j < |depth[i]| && Retained(depth, mask, i, j) && depth[i][j] == m.value
    ensures m.Some? ==>
      forall i, j :: 0 <= i < |depth| && 0 <= j < |depth[i]| && Retained(depth, mask, i, j) ==> m.value <= depth[i][j]
  {
    forall i, j | 0 <= i < |depth| && 0 <= j < |depth[i]|
      ensures masked[i][j] in Flat(masked)
      ensures Retained(depth, mask, i, j) <==> masked[i][j] > 0
      ensures masked[i][j] > 0 ==> masked[i][j] == depth[i][j]
    {
      InFlat(masked, masked[i][j]);
    }
    if m.Some? {
      InFlat(masked, m.value);
      var i, j :| 0 <= i < |masked| && 0 <= j < |masked[i]| && masked[i][j] == m.value;
      assert Retained(depth, mask, i, j);
    } else {
      forall i, j | 0 <= i < |depth| && 0 <= j < |depth[i]|
        ensures !Retained(depth, mask, i, j)
      {
        assert masked[i][j] in Flat(masked);
      }
    }
  }

  /** If every pixel is masked out, nothing is retained and nothing triggers. */
  lemma AllMaskedNeverTriggers(depth: seq<seq<int>>, mask: seq<seq<int>>)
    requires SameShape(depth, mask)
    requires forall i, j :: 0 <= i < |mask| && 0 <= j < |mask[i]| ==> mask[i][j] <= MaskThreshold
    ensures Evaluate(depth, mask).minDepth.None?
    ensures !Evaluate(depth, mask).triggered
  {
    EvaluateGatedMinimum(depth, mask);
  }

  /**
    An object at exactly 400 does not trigger: if the nearest retained pixel
    is at 400, the recorded minimum is 400 and the strict comparison fails.
   */
  lemma ThresholdIsStrict(depth: seq<seq<int>>, mask: seq<seq<int>>, i: nat, j: nat)
    requires SameShape(depth, mask)
    requires 0 <= i < |depth| && 0 <= j < |depth[i]|
    requires Retained(depth, mask, i, j) && depth[i][j] == TriggerDepth
    requires forall i', j' :: 0 <= i' < |depth| && 0 <= j' < |depth[i']| && Retained(depth, mask, i', j') ==> depth[i'][j'] >= TriggerDepth
    ensures Evaluate(depth, mask) == Assessment(Some(TriggerDepth), false)
  {
    EvaluateGatedMinimum(depth, mask);
  }

  /**
    The gate matters: a near background pixel the mask rejects never
    triggers, however close it is.
   */
  lemma BackgroundIgnored(depth: seq<seq<int>>, mask: seq<seq<int>>, i: nat, j: nat)
    requires SameShape(depth, mask)
    requires 0 <= i < |depth| && 0 <= j < |depth[i]|
    requires mask[i][j] <= MaskThreshold
    requires forall i', j' :: 0 <= i' < |depth| && 0 <= j' < |depth[i']| && (i', j') != (i, j) ==> depth[i'][j'] == 0
    ensures Evaluate(depth, mask) == Assessment(None, false)
  {
    EvaluateGatedMinimum(depth, mask);
  }

  /**
    The 2x2 case: depth [[500, 300], [0, 200]] under mask [[255, 0], [0, 255]]
    keeps 500 and 200, so the minimum is 200 and the trigger fires.
   */
  lemma TwoByTwoExample()
    ensures Evaluate([[500, 300], [0, 200]], [[255, 0], [0, 255]]) == Assessment(Some(200), true)
  {
    var depth, mask := [[500, 300], [0, 200]], [[255, 0], [0, 255]];
    var masked := ApplyMask(depth, mask);
    assert masked[0] == [500, 0] && masked[1] == [0, 200];
    assert masked == [[500, 0], [0, 200]];
    assert masked[1..] == [[0, 200]] && masked[1..][1..] == [];
    assert Flat(masked[1..]) == [0, 200] + Flat([]);
    assert Flat(masked) == [500, 0, 0, 200];
    var flat: seq<int> := [500, 0, 0, 200];
    assert flat[1..] == [0, 0, 200] && flat[2..] == [0, 200] && flat[3..] == [200];
    assert MinPositive([200]) == Some(200);
    assert MinPositive(flat) == Some(200);
  }
}
