/** The stateless hand-pose classifier of services/gestureService.ts. */
module GestureService {
  import opened Wrappers
  import opened Geometry
  import opened Types

  const Wrist: nat := 0
  const ThumbTip: nat := 4
  const IndexTip: nat := 8
  const PinkyTip: nat := 20
  /** Tips of the index, middle, ring and little finger, and the PIP joint of each. */
  const FingerTips: seq<nat> := [8, 12, 16, 20]
  const FingerJoints: seq<nat> := [6, 10, 14, 18]
  const HandSize: nat := 21

  /** Squared distance in the image plane; `z` is ignored, as in `dist`. */
  function PlanarDistSq(p: Landmark, q: Landmark): real {
    (p.x - q.x) * (p.x - q.x) + (p.y - q.y) * (p.y - q.y)
  }

  /** What the source's callers hand over: nothing, an empty list, or a
      full skeleton. */
  predicate WellFormed(landmarks: Option<seq<Landmark>>) {
    landmarks.None? || |landmarks.value| == 0 || |landmarks.value| >= HandSize
  }

  /** Finger `f` is folded when its tip is strictly nearer the wrist than its joint. */
  predicate Folded(lm: seq<Landmark>, f: nat)
    requires |lm| >= HandSize && f < 4
  {
    PlanarDistSq(lm[FingerTips[f]], lm[Wrist]) < PlanarDistSq(lm[FingerJoints[f]], lm[Wrist])
  }

  /** The folded fingers among the first `k`. */
  ghost function FoldedAmong(lm: seq<Landmark>, k: nat): set<nat>
    requires |lm| >= HandSize && k <= 4
  {
    set f: nat | f < k && Folded(lm, f)
  }

  /** The loop at lines 26-32, over the first `k` fingers. */
  function CountFolded(lm: seq<Landmark>, k: nat): (n: nat)
    requires |lm| >= HandSize && k <= 4
    ensures n == |FoldedAmong(lm, k)|
    ensures n <= k
  {
    if k == 0 then
      assert FoldedAmong(lm, 0) == {};
      0
    else
      var before := FoldedAmong(lm, k - 1);
      assert k - 1 !in before;
      if Folded(lm, k - 1) then
        assert FoldedAmong(lm, k) == before + {k - 1};
        CountFolded(lm, k - 1) + 1
      else
        assert FoldedAmong(lm, k) == before;
        CountFolded(lm, k - 1)
  }

  function FoldedFingers(lm: seq<Landmark>): nat
    requires |lm| >= HandSize
  {
    CountFolded(lm, 4)
  }

  predicate ThumbFolded(lm: seq<Landmark>)
    requires |lm| >= HandSize
  {
    PlanarDistSq(lm[ThumbTip], lm[PinkyTip]) < 0.04
  }

  function PinchDistSq(lm: seq<Landmark>): real
    requires |lm| >= HandSize
  {
    PlanarDistSq(lm[ThumbTip], lm[IndexTip])
  }

  predicate FistPose(lm: seq<Landmark>)
    requires |lm| >= HandSize
  {
    FoldedFingers(lm) >= 3 && ThumbFolded(lm)
  }

  predicate PinchPose(lm: seq<Landmark>)
    requires |lm| >= HandSize
  {
    PinchDistSq(lm) < 0.0025
  }

  predicate OpenPose(lm: seq<Landmark>)
    requires |lm| >= HandSize
  {
    FoldedFingers(lm) == 0 && PinchDistSq(lm) > 0.01
  }

  /** `detectGesture`: the thresholds 0.2, 0.05 and 0.1 of the source are
      compared here as squared distances 0.04, 0.0025 and 0.01. */
  function DetectGesture(landmarks: Option<seq<Landmark>>): (g: GestureType)
    requires WellFormed(landmarks)
    ensures g != Pointing
    ensures landmarks.None? || |landmarks.value| == 0 ==> g == NoGesture
    ensures landmarks.Some? && |landmarks.value| >= HandSize ==>
      var lm := landmarks.value;
      && (g == Fist <==> FistPose(lm))
      && (g == Pinch <==> !FistPose(lm) && PinchPose(lm))
      && (g == OpenPalm <==> !FistPose(lm) && !PinchPose(lm) && OpenPose(lm))
  {
    if landmarks.None? || |landmarks.value| == 0 then NoGesture
    else
      var lm := landmarks.value;
      if FistPose(lm) then Fist
      else if PinchPose(lm) then Pinch
      else if OpenPose(lm) then OpenPalm
      else NoGesture
  }

  /** An open palm has every finger extended; a fist has at least three folded. */
  lemma PoseMeaning(lm: seq<Landmark>)
    requires |lm| >= HandSize
    ensures DetectGesture(Some(lm)) == OpenPalm ==> forall f :: 0 <= f < 4 ==> !Folded(lm, f)
    ensures DetectGesture(Some(lm)) == Fist ==> |FoldedAmong(lm, 4)| >= 3
    ensures DetectGesture(Some(lm)) == Fist ==> PlanarDistSq(lm[ThumbTip], lm[PinkyTip]) < 0.04
  {
    if DetectGesture(Some(lm)) == OpenPalm {
      assert FoldedAmong(lm, 4) == {};
      forall f | 0 <= f < 4
        ensures !Folded(lm, f)
      {
        assert f !in FoldedAmong(lm, 4);
      }
    }
  }

  /** Two skeletons of equal size whose points are pairwise at the same
      planar distances. */
  ghost predicate SameShape(a: seq<Landmark>, b: seq<Landmark>) {
    && |a| == |b|
    && forall i, j :: 0 <= i < |a| && 0 <= j < |a| ==> PlanarDistSq(a[i], a[j]) == PlanarDistSq(b[i], b[j])
  }

  lemma {:induction false} CountFoldedShape(a: seq<Landmark>, b: seq<Landmark>, k: nat)
    requires |a| >= HandSize && k <= 4 && SameShape(a, b)
    ensures CountFolded(a, k) == CountFolded(b, k)
  {
    if k > 0 {
      CountFoldedShape(a, b, k - 1);
      var f := k - 1;
      assert PlanarDistSq(a[FingerTips[f]], a[Wrist]) == PlanarDistSq(b[FingerTips[f]], b[Wrist]);
      assert PlanarDistSq(a[FingerJoints[f]], a[Wrist]) == PlanarDistSq(b[FingerJoints[f]], b[Wrist]);
    }
  }

  /** The classification depends only on the planar distances between points. */
  lemma DetectDependsOnlyOnShape(a: seq<Landmark>, b: seq<Landmark>)
    requires |a| >= HandSize && SameShape(a, b)
    ensures DetectGesture(Some(a)) == DetectGesture(Some(b))
  {
    CountFoldedShape(a, b, 4);
    assert PlanarDistSq(a[ThumbTip], a[PinkyTip]) == PlanarDistSq(b[ThumbTip], b[PinkyTip]);
    assert PlanarDistSq(a[ThumbTip], a[IndexTip]) == PlanarDistSq(b[ThumbTip], b[IndexTip]);
  }

  /** Depth never matters: replacing every `z` leaves the gesture unchanged. */
  lemma DepthIgnored(a: seq<Landmark>, depths: seq<real>)
    requires |a| >= HandSize && |depths| == |a|
    ensures DetectGesture(Some(a)) ==
            DetectGesture(Some(seq(|a|, i requires 0 <= i < |a| => a[i].(z := depths[i]))))
  {
    var b := seq(|a|, i requires 0 <= i < |a| => a[i].(z := depths[i]));
    assert SameShape(a, b);
    DetectDependsOnlyOnShape(a, b);
  }

  function Mirror(lm: seq<Landmark>): (r: seq<Landmark>)
    ensures |r| == |lm|
  {
    seq(|lm|, i requires 0 <= i < |lm| => lm[i].(x := 1.0 - lm[i].x))
  }

  /** A left hand and its mirror image are classified alike. */
  lemma MirrorInvariant(lm: seq<Landmark>)
    requires |lm| >= HandSize
    ensures DetectGesture(Some(Mirror(lm))) == DetectGesture(Some(lm))
  {
    var b := Mirror(lm);
    forall i, j | 0 <= i < |lm| && 0 <= j < |lm|
      ensures PlanarDistSq(lm[i], lm[j]) == PlanarDistSq(b[i], b[j])
    {
      var d := lm[i].x - lm[j].x;
      assert b[i].x - b[j].x == -d;
      assert (-d) * (-d) == d * d;
    }
    DetectDependsOnlyOnShape(lm, b);
  }

  /** Moving the whole hand across the image does not change the gesture. */
  lemma TranslationInvariant(lm: seq<Landmark>, dx: real, dy: real)
    requires |lm| >= HandSize
    ensures DetectGesture(Some(seq(|lm|, i requires 0 <= i < |lm| => Landmark(lm[i].x + dx, lm[i].y + dy, lm[i].z))))
         == DetectGesture(Some(lm))
  {
    var b := seq(|lm|, i requires 0 <= i < |lm| => Landmark(lm[i].x + dx, lm[i].y + dy, lm[i].z));
    forall i, j | 0 <= i < |lm| && 0 <= j < |lm|
      ensures PlanarDistSq(lm[i], lm[j]) == PlanarDistSq(b[i], b[j])
    {
      assert b[i].x - b[j].x == lm[i].x - lm[j].x;
      assert b[i].y - b[j].y == lm[i].y - lm[j].y;
    }
    DetectDependsOnlyOnShape(lm, b);
  }

  /** The source's `dist`, with the host's square root. */
  function Dist(m: MathLib, p: Landmark, q: Landmark): real {
    m.sqrt(PlanarDistSq(p, q))
  }

  /** `detectGesture` exactly as written, with square roots and the
      unsquared thresholds. */
  function DetectGestureBySqrt(m: MathLib, landmarks: Option<seq<Landmark>>): GestureType
    requires WellFormed(landmarks)
  {
    if landmarks.None? || |landmarks.value| == 0 then NoGesture
    else
      var lm := landmarks.value;
      var folded := |set f: nat | f < 4 && Dist(m, lm[FingerTips[f]], lm[Wrist]) < Dist(m, lm[FingerJoints[f]], lm[Wrist])|;
      var pinchDist := Dist(m, lm[ThumbTip], lm[IndexTip]);
      if folded >= 3 && Dist(m, lm[ThumbTip], lm[PinkyTip]) < 0.2 then Fist
      else if pinchDist < 0.05 then Pinch
      else if folded == 0 && pinchDist > 0.1 then OpenPalm
      else NoGesture
  }

  lemma PlanarDistSqNonNegative(p: Landmark, q: Landmark)
    ensures 0.0 <= PlanarDistSq(p, q)
  {
    SquareFacts(p.x - q.x);
    SquareFacts(p.y - q.y);
  }

  /** Comparing square roots is comparing their arguments. */
  lemma SqrtLess(m: MathLib, a: real, b: real)
    requires Lawful(m) && 0.0 <= a && 0.0 <= b
    ensures m.sqrt(a) < m.sqrt(b) <==> a < b
  {
    SquareMonotone(m.sqrt(a), m.sqrt(b));
  }

  lemma SqrtThreshold(m: MathLib, a: real, t: real)
    requires Lawful(m) && 0.0 <= a && 0.0 <= t
    ensures m.sqrt(a) < t <==> a < t * t
    ensures t < m.sqrt(a) <==> t * t < a
  {
    SquareMonotone(m.sqrt(a), t);
    SquareMonotone(t, m.sqrt(a));
  }

  /** The squared-distance classifier is the source's classifier. */
  lemma SquaredThresholdsAgree(m: MathLib, landmarks: Option<seq<Landmark>>)
    requires Lawful(m) && WellFormed(landmarks)
    ensures DetectGestureBySqrt(m, landmarks) == DetectGesture(landmarks)
  {
    if landmarks.Some? && |landmarks.value| > 0 {
      var lm := landmarks.value;
      forall f: nat | f < 4
        ensures (Dist(m, lm[FingerTips[f]], lm[Wrist]) < Dist(m, lm[FingerJoints[f]], lm[Wrist])) == Folded(lm, f)
      {
        PlanarDistSqNonNegative(lm[FingerTips[f]], lm[Wrist]);
        PlanarDistSqNonNegative(lm[FingerJoints[f]], lm[Wrist]);
        SqrtLess(m, PlanarDistSq(lm[FingerTips[f]], lm[Wrist]), PlanarDistSq(lm[FingerJoints[f]], lm[Wrist]));
      }
      assert (set f: nat | f < 4 && Dist(m, lm[FingerTips[f]], lm[Wrist]) < Dist(m, lm[FingerJoints[f]], lm[Wrist]))
          == FoldedAmong(lm, 4);
      PlanarDistSqNonNegative(lm[ThumbTip], lm[PinkyTip]);
      PlanarDistSqNonNegative(lm[ThumbTip], lm[IndexTip]);
      SqrtThreshold(m, PlanarDistSq(lm[ThumbTip], lm[PinkyTip]), 0.2);
      SqrtThreshold(m, PinchDistSq(lm), 0.05);
      SqrtThreshold(m, PinchDistSq(lm), 0.1);
    }
  }
}
