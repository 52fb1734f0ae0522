/** The MediaPipe glue of components/HandTracker.tsx: what `onResults`
    reports to the app for one batch of detected hands, and the mounted
    guard of `onFrame`. Drawing on the canvas is left out. */
module HandTracker {
  import opened Wrappers
  import opened Types
  import opened GestureService
  import opened App

  /** One callback invocation towards the app, in the order they happen. */
  datatype Report = GestureReport(g: GestureType) | MoveReport(x: real, y: real)

  /** Wrist `x` in [0, 1] to scene `x` in [-1, 1], mirrored. */
  function MapX(x: real): (r: real)
    ensures 0.0 <= x <= 1.0 ==> -1.0 <= r <= 1.0
    ensures x < 0.5 <==> r > 0.0
  {
    (1.0 - x) * 2.0 - 1.0
  }

  /** Wrist `y` in [0, 1], growing downwards, to scene `y` in [-1, 1], growing upwards. */
  function MapY(y: real): (r: real)
    ensures 0.0 <= y <= 1.0 ==> -1.0 <= r <= 1.0
    ensures y < 0.5 <==> r > 0.0
  {
    -(y * 2.0 - 1.0)
  }

  /** The inverse of both maps: the image coordinate a scene coordinate came from. */
  function Unmap(r: real): (v: real)
    ensures -1.0 <= r <= 1.0 ==> 0.0 <= v <= 1.0
  {
    (1.0 - r) / 2.0
  }

  /** The two maps are the same affine map, the mirroring undoing the
      flip that `y` needs; both are invertible, send the image edges to
      the scene edges and the image centre to the scene centre. */
  lemma MapsRoundTrip(v: real, r: real)
    ensures MapX(v) == MapY(v)
    ensures Unmap(MapX(v)) == v && MapX(Unmap(r)) == r
    ensures MapX(0.0) == 1.0 && MapX(1.0) == -1.0 && MapX(0.5) == 0.0
    ensures MapY(0.0) == 1.0 && MapY(1.0) == -1.0
  {
  }

  /** Moving the wrist to the right of the (mirrored) image moves the scene
      target the same way: `MapX` reverses order. */
  lemma MapXReverses(a: real, b: real)
    ensures a < b <==> MapX(b) < MapX(a)
  {
  }

  /** Every detected hand is a full skeleton, as MediaPipe delivers them. */
  predicate FullHands(hands: seq<seq<Landmark>>) {
    forall i :: 0 <= i < |hands| ==> |hands[i]| >= HandSize
  }

  /** The two reports of the loop body for one hand: its gesture, then
      its mapped wrist position. */
  function HandPair(lm: seq<Landmark>): (pair: seq<Report>)
    requires |lm| >= HandSize
    ensures |pair| == 2
    ensures pair[0] == GestureReport(DetectGesture(Some(lm)))
    ensures pair[1] == MoveReport(MapX(lm[Wrist].x), MapY(lm[Wrist].y))
  {
    [GestureReport(DetectGesture(Some(lm))), MoveReport(MapX(lm[Wrist].x), MapY(lm[Wrist].y))]
  }

  /** The reports for hands `hands`, in loop order. */
  function HandReports(hands: seq<seq<Landmark>>): (out: seq<Report>)
    requires FullHands(hands)
    ensures |out| == 2 * |hands|
    ensures forall i :: 0 <= i < |hands| ==> out[2 * i] == HandPair(hands[i])[0] && out[2 * i + 1] == HandPair(hands[i])[1]
  {
    if |hands| == 0 then []
    else
      var here := HandPair(hands[0]);
      var rest := HandReports(hands[1..]);
      assert forall i :: 1 <= i < |hands| ==> hands[1..][i - 1] == hands[i];
      here + rest
  }

  /** Gestures and moves alternate, a gesture first. */
  lemma ReportsAlternate(hands: seq<seq<Landmark>>)
    requires FullHands(hands)
    ensures forall j :: 0 <= j < |HandReports(hands)| ==> (HandReports(hands)[j].GestureReport? <==> j % 2 == 0)
  {
    var out := HandReports(hands);
    forall j | 0 <= j < |out|
      ensures out[j].GestureReport? <==> j % 2 == 0
    {
      var i := j / 2;
      assert i < |hands|;
      if j % 2 == 0 {
        assert j == 2 * i;
        assert out[2 * i] == HandPair(hands[i])[0];
      } else {
        assert j == 2 * i + 1;
        assert out[2 * i + 1] == HandPair(hands[i])[1];
      }
    }
  }

  /** `onResults`. `mounted` is the effect's `isMounted` flag and
      `hasContext` whether the canvas gave a 2-D context. */
  function OnResults(mounted: bool, hasContext: bool, hands: Option<seq<seq<Landmark>>>): (out: seq<Report>)
    requires hands.Some? ==> FullHands(hands.value)
    ensures !mounted || !hasContext ==> out == []
    ensures mounted && hasContext && (hands.None? || |hands.value| == 0) ==> out == [GestureReport(NoGesture)]
    ensures mounted && hasContext && hands.Some? && |hands.value| > 0 ==> out == HandReports(hands.value)
    ensures forall i :: 0 <= i < |out| ==> (out[i].GestureReport? <==> i % 2 == 0)
  {
    if !mounted || !hasContext then []
    else if hands.None? || |hands.value| == 0 then [GestureReport(NoGesture)]
    else
      ReportsAlternate(hands.value);
      HandReports(hands.value)
  }

  /** `onFrame`: a camera frame goes to the detector only while mounted and
      after the detector exists. */
  function OnFrame(mounted: bool, detectorReady: bool): (send: bool)
    ensures send ==> mounted
    ensures !detectorReady ==> !send
    ensures mounted && detectorReady ==> send
  {
    mounted && detectorReady
  }

  /** The app's handlers applied to a batch of reports. */
  function Deliver(s: AppState, out: seq<Report>): AppState
    decreases |out|
  {
    if |out| == 0 then s
    else
      var t := match out[0]
        case GestureReport(g) => HandleGesture(s, g)
        case MoveReport(x, y) => HandleHandMove(s, x, y);
      Deliver(t, out[1..])
  }

  /** A frame with no hand only records `NONE`: it never changes the mode,
      the grab, the lock, the hand position or the photos. */
  lemma LostHandKeepsScene(s: AppState, mounted: bool, hasContext: bool, hands: Option<seq<seq<Landmark>>>)
    requires hands.None? || (hands.Some? && |hands.value| == 0)
    ensures var r := Deliver(s, OnResults(mounted, hasContext, hands));
      r == (if mounted && hasContext then s.(lastGesture := NoGesture) else s)
  {
    var out := OnResults(mounted, hasContext, hands);
    if mounted && hasContext {
      assert out[1..] == [];
    }
  }

  /** One detected hand acts on the app exactly as its gesture followed by
      its wrist position. */
  lemma {:induction false} OneHandFrame(s: AppState, lm: seq<Landmark>)
    requires |lm| >= HandSize
    ensures
      var r := Deliver(s, OnResults(true, true, Some([lm])));
      var g := DetectGesture(Some(lm));
      && r == HandleHandMove(HandleGesture(s, g), MapX(lm[Wrist].x), MapY(lm[Wrist].y))
      && r.lastGesture == g
      && r.handPos == Some(HandPos(MapX(lm[Wrist].x), MapY(lm[Wrist].y)))
  {
    var g := DetectGesture(Some(lm));
    var x, y := MapX(lm[Wrist].x), MapY(lm[Wrist].y);
    var out := OnResults(true, true, Some([lm]));
    assert FullHands([lm]);
    assert out == [GestureReport(g), MoveReport(x, y)];
    var t := HandleGesture(s, g);
    assert Deliver(s, out) == Deliver(t, [MoveReport(x, y)]);
    assert Deliver(t, [MoveReport(x, y)]) == Deliver(HandleHandMove(t, x, y), []);
  }

  /** Once unmounted, nothing reaches the detector and nothing reaches the app. */
  lemma UnmountedSilent(s: AppState, ready: bool, hasContext: bool, hands: Option<seq<seq<Landmark>>>)
    requires hands.Some? ==> FullHands(hands.value)
    ensures !OnFrame(false, ready)
    ensures Deliver(s, OnResults(false, hasContext, hands)) == s
  {
  }
}
