/** How the parts fit together in App.tsx: the state the controller
    reaches drives the particle scene's highlight and camera. */
module Scene {
  import opened Wrappers
  import opened Geometry
  import opened Types
  import opened App
  import opened ParticleLayout
  import opened FrameAnimator

  /** In every reachable zoom state with photos, the camera aims at the
      first uploaded photo, that photo alone is highlighted, and the scene's
      photo list is the upload list in order. With no photos, the zoom
      camera stays where it is. */
  lemma ReachableZoomAgrees(es: seq<Input>, m: MathLib, d: seq<real>, hand: Option<HandPos>, cam: Vec3, time: real)
    requires Lawful(m) && UnitDraws(d) && |d| >= DrawBudget(|Run(Initial, es).photos|)
    ensures
      var s := Run(Initial, es);
      var photos := PhotoData(Build(m, s.photos, d));
      s.mode == PhotoZoom ==>
        && |photos| == |s.photos|
        && (|photos| == 0 ==> CameraStep(m, s.mode, hand, s.grabbedIndex, photos, cam, time) == Hold)
        && (|photos| > 0 ==>
              && photos[0].photoUrl == Some(s.photos[0])
              && CameraStep(m, s.mode, hand, s.grabbedIndex, photos, cam, time).Move?
              && CameraStep(m, s.mode, hand, s.grabbedIndex, photos, cam, time).lookAt == photos[0].scatteredPos
              && PhotoMaterial(s.mode, s.grabbedIndex, 0, photos[0].photoUrl).intensity == 1.0
              && forall i :: 0 < i < |photos| ==> PhotoMaterial(s.mode, s.grabbedIndex, i, photos[i].photoUrl).intensity == 2.0)
  {
    var s := Run(Initial, es);
    ReachableGrab(es);
    BuiltSplit(m, s.photos, d);
    var photos := PhotoData(Build(m, s.photos, d));
    if s.mode == PhotoZoom {
      assert s.grabbedIndex == Some(0);
      ZoomOnFirst(m, photos, hand, cam, time);
    }
  }
}
