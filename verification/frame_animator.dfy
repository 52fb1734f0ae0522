/** The per-frame rules of components/TreeParticles.tsx: where each photo and
    ornament is drawn, how photos are lit, and how the camera moves in each
    mode. One call is one `useFrame` callback; `time` is the clock reading. */
module FrameAnimator {
  import opened Wrappers
  import opened Geometry
  import opened Types

  /** The position a particle is pulled towards in `mode`. */
  function FrameTarget(mode: AppMode, p: Particle): Vec3 {
    if mode == Tree then p.initialPos else p.scatteredPos
  }

  // ---------------------------------------------------------------- photos

  /** One frame of a photo: `position.lerp(target, LERP_SPEED)`. */
  function PhotoStep(mode: AppMode, p: Particle, pos: Vec3): (r: Vec3)
    ensures Sub(FrameTarget(mode, p), r) == Scale(Sub(FrameTarget(mode, p), pos), 0.95)
    ensures DistSq(FrameTarget(mode, p), r) == 0.9025 * DistSq(FrameTarget(mode, p), pos)
  {
    LerpContracts(pos, FrameTarget(mode, p), LerpSpeed);
    LerpVec(pos, FrameTarget(mode, p), LerpSpeed)
  }

  function PhotoFrames(mode: AppMode, p: Particle, pos: Vec3, n: nat): Vec3 {
    if n == 0 then pos else PhotoStep(mode, p, PhotoFrames(mode, p, pos, n - 1))
  }

  /** While the mode holds, a photo closes its offset to the target by a
      factor 0.95 every frame. */
  lemma {:induction false} PhotoSettles(mode: AppMode, p: Particle, pos: Vec3, n: nat)
    ensures Sub(FrameTarget(mode, p), PhotoFrames(mode, p, pos, n))
         == Scale(Sub(FrameTarget(mode, p), pos), Pow(0.95, n))
  {
    PhotoFramesAreLerps(mode, p, pos, n);
    LerpFramesGeometric(pos, FrameTarget(mode, p), LerpSpeed, n);
  }

  lemma {:induction false} PhotoFramesAreLerps(mode: AppMode, p: Particle, pos: Vec3, n: nat)
    ensures PhotoFrames(mode, p, pos, n) == LerpFrames(pos, FrameTarget(mode, p), LerpSpeed, n)
  {
    if n > 0 {
      PhotoFramesAreLerps(mode, p, pos, n - 1);
    }
  }

  /** The photo's orientation: a slow spin about the vertical axis in the
      tree, otherwise `None`, meaning it turns to face the camera. */
  function PhotoRotation(mode: AppMode, p: Particle, time: real): (r: Option<Vec3>)
    ensures r.Some? <==> mode == Tree
    ensures r.Some? ==> r.value.x == 0.0 && r.value.z == 0.0
  {
    if mode != Tree then None else Some(Vec3(0.0, p.id as real * 0.1 + time * 0.5, 0.0))
  }

  /** Base colour, emissive colour and emissive intensity of a photo's material. */
  datatype PhotoLook = PhotoLook(base: Colour, emissive: Colour, intensity: real)

  /** The material of the photo drawn at position `index` of the photo list. */
  function PhotoMaterial(mode: AppMode, grabbed: Option<nat>, index: nat, url: Option<Url>): (look: PhotoLook)
    ensures url.Some? ==> look.base == White && look.emissive == Black
    ensures url.None? ==> look.base == Glow && look.emissive == Amber
    ensures look.intensity == 1.0 <==> mode == PhotoZoom && grabbed == Some(index)
    ensures look.intensity == 0.5 <==> mode == Tree
    ensures look.intensity == 2.0 <==> mode != Tree && !(mode == PhotoZoom && grabbed == Some(index))
  {
    var isGrabbed := mode == PhotoZoom && grabbed == Some(index);
    var isGlowing := mode == Scattered || mode == PhotoZoom;
    var glowColour := if url.Some? then (if isGrabbed then White else DarkGrey) else Amber;
    PhotoLook(
      if url.Some? then White else Glow,
      if url.Some? then Black else glowColour,
      if isGrabbed then 1.0 else if isGlowing then 2.0 else 0.5)
  }

  /** At most one photo is highlighted. */
  lemma HighlightUnique(mode: AppMode, grabbed: Option<nat>, i: nat, j: nat, u: Option<Url>, v: Option<Url>)
    requires PhotoMaterial(mode, grabbed, i, u).intensity == 1.0
    requires PhotoMaterial(mode, grabbed, j, v).intensity == 1.0
    ensures i == j && mode == PhotoZoom
  {
  }

  // ----------------------------------------------------------------- camera

  /** `photoData[grabbedIndex % photoData.length]`, undefined when the list is empty. */
  function SelectGrabbed(photos: seq<Particle>, g: nat): (r: Option<Particle>)
    ensures r.Some? <==> |photos| > 0
    ensures g < |photos| ==> r == Some(photos[g])
    ensures r.Some? ==> r.value in photos
  {
    if |photos| == 0 then None else Some(photos[g % |photos|])
  }

  /** The selection wraps around the photo list. */
  lemma SelectPeriodic(photos: seq<Particle>, g: nat)
    ensures SelectGrabbed(photos, g + |photos|) == SelectGrabbed(photos, g)
  {
    if |photos| > 0 {
      ModShift(g, |photos|);
    }
  }

  lemma ModShift(g: nat, n: nat)
    requires n > 0
    ensures (g + n) % n == g % n
  {
    var q, r := g / n, g % n;
    assert g == q * n + r;
    assert g + n == (q + 1) * n + r;
    ModUnique(g + n, n, q + 1, r);
  }

  /** Euclidean division has one remainder. */
  lemma ModUnique(g: int, n: int, q: int, r: int)
    requires n > 0 && g == q * n + r && 0 <= r < n
    ensures g % n == r
  {
    var q', r' := g / n, g % n;
    assert g == q' * n + r';
    assert (q - q') * n == r' - r;
    if q - q' >= 1 {
      MulAtLeast(q - q', n);
    } else if q' - q >= 1 {
      MulAtLeast(q' - q, n);
    }
  }

  lemma MulAtLeast(d: int, n: int)
    requires d >= 1 && n > 0
    ensures d * n >= n
  {
    assert d * n == n + (d - 1) * n;
  }

  /** The photo the camera zooms on is the highlighted one exactly when the
      grab is inside the list. */
  lemma HighlightMatchesCamera(photos: seq<Particle>, g: nat, i: nat)
    requires i < |photos|
    ensures PhotoMaterial(PhotoZoom, Some(g), i, photos[i].photoUrl).intensity == 1.0
        <==> g < |photos| && SelectGrabbed(photos, g) == Some(photos[i]) && g == i
  {
  }

  /** A grab past the end of the list lights no photo, yet the camera still
      zooms on photo `g % n`. */
  lemma GrabBeyondListUnlit(photos: seq<Particle>, g: nat)
    requires 0 < |photos| <= g
    ensures forall i :: 0 <= i < |photos| ==> PhotoMaterial(PhotoZoom, Some(g), i, photos[i].photoUrl).intensity == 2.0
    ensures SelectGrabbed(photos, g) == Some(photos[g % |photos|])
  {
  }

  /** With the grab at the first photo, the zoom camera aims at photo 0 and
      only photo 0 is highlighted; with no photos the camera holds. */
  lemma ZoomOnFirst(m: MathLib, photos: seq<Particle>, hand: Option<HandPos>, cam: Vec3, time: real)
    requires Lawful(m)
    ensures |photos| == 0 ==> CameraStep(m, PhotoZoom, hand, Some(0), photos, cam, time) == Hold
    ensures |photos| > 0 ==>
      && CameraStep(m, PhotoZoom, hand, Some(0), photos, cam, time).lookAt == photos[0].scatteredPos
      && PhotoMaterial(PhotoZoom, Some(0), 0, photos[0].photoUrl).intensity == 1.0
      && forall i :: 0 < i < |photos| ==> PhotoMaterial(PhotoZoom, Some(0), i, photos[i].photoUrl).intensity == 2.0
  {
    if |photos| > 0 {
      assert 0 % |photos| == 0;
    }
  }

  /** The direction from the photo towards the camera, as `normalize` gives
      it, replaced by +z when it is (nearly) zero. */
  function ZoomDirection(m: MathLib, cam: Vec3, tPos: Vec3): (dir: Vec3)
    requires Lawful(m)
    ensures LengthSq(m.normalize(Sub(cam, tPos))) < 0.001 <==> cam == tPos
    ensures LengthSq(dir) == 1.0
    ensures cam == tPos ==> dir == Vec3(0.0, 0.0, 1.0)
    ensures cam != tPos ==> Cross(dir, Sub(cam, tPos)) == Origin && 0.0 < Dot(dir, Sub(cam, tPos))
  {
    DirectionFacts(m, cam, tPos);
    var n := m.normalize(Sub(cam, tPos));
    if LengthSq(n) < 0.001 then Vec3(0.0, 0.0, 1.0) else n
  }

  /** The `lengthSq() < 0.001` fallback fires exactly when the camera sits
      on the photo, and the direction is a unit vector either way. */
  lemma DirectionFacts(m: MathLib, cam: Vec3, tPos: Vec3)
    requires Lawful(m)
    ensures var n := m.normalize(Sub(cam, tPos));
      var dir := if LengthSq(n) < 0.001 then Vec3(0.0, 0.0, 1.0) else n;
      && (LengthSq(n) < 0.001 <==> cam == tPos)
      && LengthSq(dir) == 1.0
      && (cam == tPos ==> dir == Vec3(0.0, 0.0, 1.0))
      && (cam != tPos ==> Cross(dir, Sub(cam, tPos)) == Origin && 0.0 < Dot(dir, Sub(cam, tPos)))
  {
    NormalizeLaw(m, Sub(cam, tPos));
    UnitFallback(m.normalize(Sub(cam, tPos)), cam, tPos);
  }

  lemma UnitFallback(n: Vec3, cam: Vec3, tPos: Vec3)
    requires UnitOrZero(n, Sub(cam, tPos))
    ensures var dir := if LengthSq(n) < 0.001 then Vec3(0.0, 0.0, 1.0) else n;
      && (LengthSq(n) < 0.001 <==> cam == tPos)
      && LengthSq(dir) == 1.0
      && (cam == tPos ==> dir == Vec3(0.0, 0.0, 1.0))
      && (cam != tPos ==> Cross(dir, Sub(cam, tPos)) == Origin && 0.0 < Dot(dir, Sub(cam, tPos)))
  {
    SubZero(cam, tPos);
    if cam == tPos {
      assert n == Origin;
      assert LengthSq(n) == 0.0;
    } else {
      assert LengthSq(n) == 1.0;
    }
  }

  lemma NormalizeLaw(m: MathLib, v: Vec3)
    requires Lawful(m)
    ensures UnitOrZero(m.normalize(v), v)
  {
  }

  /** The camera goal in zoom mode: 2.5 units from the photo, on the ray from
      the photo through the current camera position. */
  function ZoomTarget(m: MathLib, cam: Vec3, tPos: Vec3): (r: Vec3)
    requires Lawful(m)
    ensures DistSq(r, tPos) == 6.25
    ensures cam == tPos ==> r == Add(tPos, Vec3(0.0, 0.0, 2.5))
    ensures cam != tPos ==> Cross(Sub(r, tPos), Sub(cam, tPos)) == Origin && 0.0 < Dot(Sub(r, tPos), Sub(cam, tPos))
  {
    var dir := ZoomDirection(m, cam, tPos);
    ZoomOffset(dir, cam, tPos);
    Add(tPos, Scale(dir, 2.5))
  }

  /** Stepping 2.5 along a unit direction from the photo. */
  lemma ZoomOffset(dir: Vec3, cam: Vec3, tPos: Vec3)
    requires LengthSq(dir) == 1.0
    requires cam != tPos ==> Cross(dir, Sub(cam, tPos)) == Origin && 0.0 < Dot(dir, Sub(cam, tPos))
    ensures var r := Add(tPos, Scale(dir, 2.5));
      && DistSq(r, tPos) == 6.25
      && (cam != tPos ==> Cross(Sub(r, tPos), Sub(cam, tPos)) == Origin && 0.0 < Dot(Sub(r, tPos), Sub(cam, tPos)))
  {
    var r := Add(tPos, Scale(dir, 2.5));
    assert Sub(r, tPos) == Scale(dir, 2.5);
    ZoomDistance(dir, 2.5);
    if cam != tPos {
      ZoomAlong(dir, Sub(cam, tPos), 2.5);
    }
  }

  lemma ZoomDistance(dir: Vec3, k: real)
    requires LengthSq(dir) == 1.0
    ensures LengthSq(Scale(dir, k)) == k * k
  {
    ScaleLengthSq(dir, k);
  }

  lemma ZoomAlong(dir: Vec3, v: Vec3, k: real)
    requires Cross(dir, v) == Origin && 0.0 < Dot(dir, v) && 0.0 < k
    ensures Cross(Scale(dir, k), v) == Origin && 0.0 < Dot(Scale(dir, k), v)
  {
    CrossScale(dir, v, k);
    DotScale(dir, v, k);
    ProductPositive(k, Dot(dir, v));
  }

  /** The point the tree-mode camera orbits towards at clock `time`. */
  function Orbit(m: MathLib, time: real): (o: Vec3)
    requires Lawful(m)
    ensures o.y == 2.0 && HorizontalSq(o) == 400.0
  {
    var s, c := m.sin(time * 0.15), m.cos(time * 0.15);
    assert s * s + c * c == 1.0;
    assert (s * 20.0) * (s * 20.0) + (c * 20.0) * (c * 20.0) == 400.0 * (s * s + c * c);
    Vec3(s * 20.0, 2.0, c * 20.0)
  }

  /** In the scattered cloud the camera follows the hand in x and y only. */
  function HandTarget(h: HandPos, cam: Vec3): Vec3 {
    Vec3(h.x * 5.0, h.y * 5.0, cam.z)
  }

  /** What the camera does in one frame: nothing, or move and aim. */
  datatype CameraMove = Hold | Move(position: Vec3, lookAt: Vec3)

  function CameraStep(m: MathLib, mode: AppMode, hand: Option<HandPos>, grabbed: Option<nat>,
                      photos: seq<Particle>, cam: Vec3, time: real): (mv: CameraMove)
    requires Lawful(m)
    ensures mv.Move? <==>
      (mode == Scattered && hand.Some?) || mode == Tree || (mode == PhotoZoom && grabbed.Some? && |photos| > 0)
    ensures mv.Move? && mode != PhotoZoom ==> mv.lookAt == Origin
    ensures mode == Scattered && hand.Some? ==>
      && mv.position.z == cam.z
      && Sub(HandTarget(hand.value, cam), mv.position) == Scale(Sub(HandTarget(hand.value, cam), cam), 0.9)
    ensures mode == Tree ==> Sub(Orbit(m, time), mv.position) == Scale(Sub(Orbit(m, time), cam), 0.98)
    ensures mode == PhotoZoom && grabbed.Some? && |photos| > 0 ==>
      var tPos := photos[grabbed.value % |photos|].scatteredPos;
      && mv.lookAt == tPos
      && Sub(ZoomTarget(m, cam, tPos), mv.position) == Scale(Sub(ZoomTarget(m, cam, tPos), cam), 0.95)
  {
    if mode == Scattered && hand.Some? then
      var targetX, targetY := hand.value.x * 5.0, hand.value.y * 5.0;
      var x := cam.x + (targetX - cam.x) * CameraSmoothing;
      var y := cam.y + (targetY - cam.y) * CameraSmoothing;
      Move(Vec3(x, y, cam.z), Origin)
    else if mode == Tree then
      Move(LerpVec(cam, Orbit(m, time), 0.02), Origin)
    else if mode == PhotoZoom && grabbed.Some? then
      match SelectGrabbed(photos, grabbed.value)
      case None => Hold
      case Some(p) =>
        var tPos := p.scatteredPos;
        Move(LerpVec(cam, ZoomTarget(m, cam, tPos), 0.05), tPos)
    else
      Hold
  }

  /** Where the camera is after applying a move. */
  function Settle(cam: Vec3, mv: CameraMove): Vec3 {
    if mv.Hold? then cam else mv.position
  }

  /** The camera after one frame per clock reading in `times`, inputs fixed. */
  function CameraRun(m: MathLib, mode: AppMode, hand: Option<HandPos>, grabbed: Option<nat>,
                     photos: seq<Particle>, cam: Vec3, times: seq<real>): Vec3
    requires Lawful(m)
    decreases |times|
  {
    if |times| == 0 then cam
    else
      var prev := CameraRun(m, mode, hand, grabbed, photos, cam, times[..|times| - 1]);
      Settle(prev, CameraStep(m, mode, hand, grabbed, photos, prev, times[|times| - 1]))
  }

  /** With the hand held still, the scattered camera keeps its depth and
      closes its offset to the hand target by a factor 0.9 per frame. */
  lemma {:induction false} HandCameraSettles(m: MathLib, h: HandPos, grabbed: Option<nat>,
                                            photos: seq<Particle>, cam: Vec3, times: seq<real>)
    requires Lawful(m)
    ensures CameraRun(m, Scattered, Some(h), grabbed, photos, cam, times)
         == LerpFrames(cam, HandTarget(h, cam), CameraSmoothing, |times|)
    ensures Sub(HandTarget(h, cam), CameraRun(m, Scattered, Some(h), grabbed, photos, cam, times))
         == Scale(Sub(HandTarget(h, cam), cam), Pow(0.9, |times|))
    decreases |times|
  {
    var target := HandTarget(h, cam);
    if |times| > 0 {
      var k := |times| - 1;
      var prev := CameraRun(m, Scattered, Some(h), grabbed, photos, cam, times[..k]);
      HandCameraSettles(m, h, grabbed, photos, cam, times[..k]);
      assert |times[..k]| == k;
      LerpFramesGeometric(cam, target, CameraSmoothing, k);
      assert prev.z == cam.z;
      assert HandTarget(h, prev) == target;
      var mv := CameraStep(m, Scattered, Some(h), grabbed, photos, prev, times[k]);
      assert Sub(target, mv.position) == Sub(target, LerpVec(prev, target, CameraSmoothing));
    }
    LerpFramesGeometric(cam, target, CameraSmoothing, |times|);
  }

  // -------------------------------------------------------------- ornaments

  /** Where an ornament instance is drawn in one frame, and how. */
  datatype Pose = Pose(position: Vec3, rotation: Vec3, scale: real, color: Colour)

  /** The tree-mode wobble `sin(2 time + id) * 0.1`. */
  function Breath(m: MathLib, time: real, id: nat): real {
    m.sin(time * 2.0 + id as real) * 0.1
  }

  /** One iteration of the `ornaments.forEach` body. */
  function OrnamentPose(m: MathLib, mode: AppMode, p: Particle, time: real): (pose: Pose)
    requires Lawful(m)
    ensures pose.position.x == FrameTarget(mode, p).x && pose.position.z == FrameTarget(mode, p).z
    ensures mode == Scattered ==> -0.5 <= pose.position.y - FrameTarget(mode, p).y <= 0.5
    ensures mode != Scattered ==> -0.1 <= pose.position.y - FrameTarget(mode, p).y <= 0.1
    ensures -0.1 <= pose.rotation.x - time * p.rotationSpeed.x <= 0.1
    ensures mode != Scattered ==>
      pose.rotation.x - time * p.rotationSpeed.x == pose.position.y - FrameTarget(mode, p).y
    ensures pose.rotation.y == time * p.rotationSpeed.y && pose.rotation.z == time * p.rotationSpeed.z
    ensures pose.scale == p.scale && pose.color == p.color
  {
    var base := FrameTarget(mode, p);
    var breath := Breath(m, time, p.id);
    SinBounded(m, time * 2.0 + p.id as real);
    SinBounded(m, time + p.id as real);
    var lift := if mode == Scattered then m.sin(time + p.id as real) * 0.5 else breath;
    var rotation := Vec3(time * p.rotationSpeed.x + breath, time * p.rotationSpeed.y, time * p.rotationSpeed.z);
    Pose(Add(base, Vec3(0.0, lift, 0.0)), rotation, p.scale, p.color)
  }

  /** The whole `forEach`: instance `i` is drawn from ornament `i`, next to
      that ornament's target, with its scale and colour. */
  function OrnamentFrame(m: MathLib, mode: AppMode, ornaments: seq<Particle>, time: real): (poses: seq<Pose>)
    requires Lawful(m)
    ensures |poses| == |ornaments|
    ensures forall i :: 0 <= i < |poses| ==>
      && poses[i].position.x == FrameTarget(mode, ornaments[i]).x
      && poses[i].position.z == FrameTarget(mode, ornaments[i]).z
      && -0.5 <= poses[i].position.y - FrameTarget(mode, ornaments[i]).y <= 0.5
      && (mode != Scattered ==> -0.1 <= poses[i].position.y - FrameTarget(mode, ornaments[i]).y <= 0.1)
      && -0.1 <= poses[i].rotation.x - time * ornaments[i].rotationSpeed.x <= 0.1
      && poses[i].scale == ornaments[i].scale
      && poses[i].color == ornaments[i].color
  {
    seq(|ornaments|, i requires 0 <= i < |ornaments| => OrnamentPose(m, mode, ornaments[i], time))
  }

  /** The shared emissive colour and intensity of the instanced ornaments. */
  datatype Emission = Emission(colour: Colour, intensity: real)

  function OrnamentEmission(mode: AppMode): (e: Emission)
    ensures e.intensity == 2.0 <==> mode != Tree
    ensures e.colour == Orange <==> mode != Tree
    ensures mode == Tree ==> e == Emission(Maroon, 0.3)
  {
    var isGlowing := mode == Scattered || mode == PhotoZoom;
    if isGlowing then Emission(Orange, 2.0) else Emission(Maroon, 0.3)
  }

  /** Photos and ornaments glow together: every photo is brighter than the
      tree-mode level exactly when the ornaments glow. */
  lemma GlowTogether(mode: AppMode, grabbed: Option<nat>, index: nat, url: Option<Url>)
    ensures PhotoMaterial(mode, grabbed, index, url).intensity > 0.5 <==> OrnamentEmission(mode).intensity == 2.0
  {
  }
}
