# Gesture-driven Christmas tree: a Dafny model of the scene logic

The system is a browser scene. A Christmas tree made of about 150 ornaments,
plus the user's uploaded photos, is controlled by hand gestures seen through a
webcam:

- a **fist** assembles the tree;
- an **open palm** scatters the particles into a cloud;
- a **pinch** in the cloud zooms the camera onto a photo.

This project models the four pieces of sequential logic behind that behaviour,
as pure Dafny functions over `real` numbers, and proves what they promise.

| module | Dafny file | models |
|---|---|---|
| `Wrappers` | wrappers.dfy | `Option`, used for the nullable values of the source |
| `Geometry` | geometry.dfy | `Vec3`; three.js `lerp`; iterated lerping; the host's `sin`/`cos`/`sqrt`/`normalize` as an injected `MathLib` with the laws the model relies on (`Lawful`) |
| `Types` | types.dfy | from types.ts and constants.ts: `AppMode`, `GestureType`, particle kinds, colour tags, `ParticleData`, and the `CONFIG` constants |
| `GestureService` | gesture_service.dfy | from services/gestureService.ts: `detectGesture`, with the folded-finger count and the FIST → PINCH → OPEN_PALM → NONE priority chain |
| `App` | app.dfy | from App.tsx: `handleGesture` with its transition lock, the lock timer as an explicit `LockTimeout` input, `handleHandMove`, the photo append, and runs of inputs |
| `ParticleLayout` | particle_layout.dfy | from components/TreeParticles.tsx: the `useMemo` that builds the photo and ornament entities and places them on the spiral; the photo/ornament filters |
| `FrameAnimator` | frame_animator.dfy | from components/TreeParticles.tsx: the per-frame rules, namely photo and ornament targets, the breathing offset, photo glow, grabbed-photo selection, and the three camera behaviours |
| `HandTracker` | hand_tracker.dfy | from components/HandTracker.tsx: `onResults`, which decides what reaches the app for one batch of hands, and the wrist-to-scene mapping; the `onFrame` liveness guard |
| `Scene` | scene.dfy | from App.tsx and components/TreeParticles.tsx together: how the controller's reachable states drive the zoom camera and the highlight |

Randomness, trigonometry and time are handled as follows:

- **`Math.random()`** is a parameter: a sequence of draws in [0, 1), consumed in
  the exact order JavaScript evaluates the calls.
  - Each photo takes three scatter draws, then two spin draws.
  - Each ornament takes a gold draw, then a red draw only when it is not gold
    (the `&&` short-circuits), then a kind draw, three scatter draws, a scale
    draw and three spin draws.
  - The spiral pass takes one jitter draw per particle.
- **`Math.sin`, `Math.cos`, `Math.sqrt` and `Vector3.normalize`** are the fields
  of a `MathLib` value. Only their laws are assumed:
  - sin² + cos² = 1;
  - `sqrt` returns the non-negative root;
  - `normalize` maps zero to zero and anything else to a unit vector pointing
    the same way.
- **The clock reading** of a frame is a `time` parameter.
- **The 1500 ms lock timer** is the `LockTimeout` input.

The gesture thresholds 0.2, 0.05 and 0.1 are compared as squared distances
(0.04, 0.0025, 0.01). `GestureService.SquaredThresholdsAgree` proves that
classifier equal to a literal transcription that takes square roots.

## Model

| member | source | states |
|---|---|---|
| `GestureService.CountFolded` | services/gestureService.ts:26-32 | the loop's count equals the number of fingers (tips 8/12/16/20, joints 6/10/14/18) whose tip is strictly nearer the wrist than their joint, and is at most 4 |
| `GestureService.DetectGesture` | services/gestureService.ts:8-53 | absent or empty landmarks give NONE; FIST iff ≥3 folded and thumb–pinky closer than 0.2, whatever the pinch distance; PINCH iff not FIST and thumb–index closer than 0.05; OPEN_PALM iff neither, no finger folded and thumb–index farther than 0.1; POINTING is never produced |
| `GestureService.PoseMeaning` | services/gestureService.ts:36-50 | an OPEN_PALM result means no finger is folded; a FIST result means at least three folded fingers and the thumb near the pinky |
| `GestureService.DetectDependsOnlyOnShape` | services/gestureService.ts:4-6 | two skeletons with the same pairwise planar distances are classified alike |
| `GestureService.DepthIgnored` | services/gestureService.ts:4-6 | replacing every landmark's `z` never changes the gesture |
| `GestureService.MirrorInvariant` | services/gestureService.ts:4-6 | a hand and its horizontal mirror image get the same gesture |
| `GestureService.TranslationInvariant` | services/gestureService.ts:4-6 | shifting the whole hand in the image plane does not change the gesture |
| `GestureService.SquaredThresholdsAgree` | services/gestureService.ts:35-48 | with a lawful square root, the source's sqrt-and-threshold classifier equals the squared-distance classifier |
| `App.HandleGesture` | App.tsx:21-44 | `lastGesture` is always the incoming gesture, even while locked; a locked or inert call changes nothing else; FIST outside TREE goes to TREE and OPEN_PALM outside SCATTERED goes to SCATTERED, both clearing the grab and locking; PINCH in SCATTERED goes to PHOTO_ZOOM with grab 0 or prev+1 and locks; the lock engages exactly when the mode changes |
| `App.Unlock` | App.tsx:46-51 | the timer callback clears the lock and leaves every other field alone |
| `App.HandleHandMove` | App.tsx:53-55 | the hand position becomes the reported point and nothing else changes |
| `App.UploadPhoto` | App.tsx:57-62 | with a chosen file, exactly one URL is appended at the end and earlier photos are kept; without one the state is unchanged; no other field changes |
| `App.RunKeepsGrabConsistent` | App.tsx:26-42 | every input preserves "no grab in TREE/SCATTERED, grab 0 in PHOTO_ZOOM" |
| `App.ReachableGrab` | App.tsx:11-42 | from the initial state, every reachable state satisfies that invariant, so a pinch only ever yields grab 0 |
| `App.LockedFreezes` | App.tsx:24 | while locked and before the timeout, no input changes mode or grab, and the lock stays set |
| `App.SingleFlight` | App.tsx:21-51 | between two lock timeouts at most one mode change happens, and none once locked |
| `App.GestureIdempotent` | App.tsx:26-43 | delivering the same gesture twice is the same as delivering it once |
| `App.HeldGestureActsOnce` | App.tsx:21-44 | a gesture held for any number of frames acts exactly as one delivery and changes the mode at most once |
| `ParticleLayout.PhotoParticle` | components/TreeParticles.tsx:134-147 | a photo entity is of kind PHOTO, carries its URL, is white with scale 1.5, scatters within [-7.5, 7.5) on each axis and spins below 0.02 with no z spin; it uses exactly five draws |
| `ParticleLayout.OrnamentColour` | components/TreeParticles.tsx:151-156 | exactly one colour: gold iff the first draw exceeds 0.6, red iff not gold and the second draw exceeds 0.5, green otherwise; the second draw is consumed only when not gold |
| `ParticleLayout.OrnamentKind` | components/TreeParticles.tsx:158 | the kind is SPHERE below 1/3, CANDY from 2/3, CUBE between |
| `ParticleLayout.Ornament` | components/TreeParticles.tsx:150-173 | an ornament has a non-photo kind, no URL, one of the three colours, scale in [0.3, 0.8), scatter within [-15, 15) and spin below 0.02; it uses nine or ten draws, from the front |
| `ParticleLayout.Photos` | components/TreeParticles.tsx:134-147 | one photo entity per URL, in order, with ids equal to positions, using five draws each |
| `ParticleLayout.Ornaments` | components/TreeParticles.tsx:150-173 | exactly `n` ornaments with consecutive ids after the photos |
| `ParticleLayout.TreeT` | components/TreeParticles.tsx:182 | `t = i/total` lies in [0, 1) and `t·total = i` |
| `ParticleLayout.TreeHeightBound` | components/TreeParticles.tsx:182-192 | the tree height of every index below the total, the last included, lies in (-6, 6] |
| `ParticleLayout.TreeHeightOrder` | components/TreeParticles.tsx:192 | for any two indices both heights lie in (-6, 6], and the later one is strictly lower |
| `ParticleLayout.TreeRadiusBand` | components/TreeParticles.tsx:188-190 | with a jitter draw in [0, 1), the radius lies in [5t, 5t + 1.5(1-t)) and so in [0, 5) |
| `ParticleLayout.SpiralIsOnTree` | components/TreeParticles.tsx:179-197 | with lawful trig, the spiral point has the tree height and a horizontal distance from the trunk inside the radius band |
| `ParticleLayout.AssignTree` | components/TreeParticles.tsx:175-197 | the spiral pass sets only `initialPos` of each particle and puts it on the tree |
| `ParticleLayout.Build` | components/TreeParticles.tsx:129-200 | the photos come first, in upload order, then exactly 150 ornaments; the entity at position i has id i; every entity sits on the tree |
| `ParticleLayout.PhotosAboveOrnaments` | components/TreeParticles.tsx:176-192 | every photo hangs higher in the tree than every ornament |
| `ParticleLayout.RebuildStable` | components/TreeParticles.tsx:129-200 | rebuilding from the same photo list keeps the count, ids, photo/ornament split, URLs and every tree height; only drawn values may differ |
| `ParticleLayout.NoPhotosScenario` | components/TreeParticles.tsx:177-192 | with no photos there are 150 entities, the first at height 6 and the last at height -5.92 |
| `ParticleLayout.FilterSplit` | components/TreeParticles.tsx:203-205 | on a list with photos first, the two filters return exactly the photo prefix and the ornament suffix |
| `ParticleLayout.BuiltSplit` | components/TreeParticles.tsx:203-205 | the scene's photo list is the built prefix, one per upload and in upload order, and the ornament list is the rest |
| `FrameAnimator.PhotoStep` | components/TreeParticles.tsx:78-85 | one frame shrinks a photo's offset to its mode's target by the factor 0.95, so the squared distance by 0.9025 |
| `FrameAnimator.PhotoSettles` | components/TreeParticles.tsx:85 | after n frames in one mode the offset is the initial offset times 0.95ⁿ |
| `FrameAnimator.PhotoRotation` | components/TreeParticles.tsx:88-93 | an explicit spin about the vertical axis exactly in TREE mode; otherwise the photo faces the camera |
| `FrameAnimator.PhotoMaterial` | components/TreeParticles.tsx:98-110 | intensity 1.0 iff PHOTO_ZOOM with the grab equal to the raw list index; else 2.0 in SCATTERED/PHOTO_ZOOM; 0.5 exactly in TREE; a photo with a URL is white with black emission |
| `FrameAnimator.HighlightUnique` | components/TreeParticles.tsx:98 | at most one photo is highlighted, and only in PHOTO_ZOOM |
| `FrameAnimator.SelectGrabbed` | components/TreeParticles.tsx:227-228 | a photo is selected iff the list is non-empty; the selection is a member of the list and is `photos[g]` when `g` is in range |
| `FrameAnimator.SelectPeriodic` | components/TreeParticles.tsx:227 | the selection wraps: `g` and `g + n` select the same photo |
| `FrameAnimator.HighlightMatchesCamera` | components/TreeParticles.tsx:98 | in PHOTO_ZOOM, photo i is highlighted iff the grab is in range, equals i, and is the photo the camera selects |
| `FrameAnimator.GrabBeyondListUnlit` | components/TreeParticles.tsx:227 | a grab past the end lights no photo while the camera still zooms on photo `g mod n` |
| `FrameAnimator.ZoomOnFirst` | components/TreeParticles.tsx:226-245 | with grab 0 the camera aims at photo 0 and only photo 0 is lit; with no photos the camera holds |
| `FrameAnimator.ZoomDirection` | components/TreeParticles.tsx:233-236 | the zoom direction is a unit vector; the `lengthSq() < 0.001` fallback fires exactly when the camera sits on the photo, and then the direction is +z; otherwise it points from the photo to the camera (which may itself be +z) |
| `FrameAnimator.ZoomTarget` | components/TreeParticles.tsx:229-239 | the zoom goal is 2.5 from the photo, on the ray from the photo through the camera, or 2.5 along +z when the camera sits on the photo |
| `FrameAnimator.Orbit` | components/TreeParticles.tsx:222-224 | the tree-mode orbit point is at height 2 and horizontal distance 20 from the trunk |
| `FrameAnimator.CameraStep` | components/TreeParticles.tsx:214-247 | the camera moves iff SCATTERED with a hand, TREE, or PHOTO_ZOOM with a grab and photos. It follows the hand in x and y by 0.1 with z fixed, lerps to the orbit by 0.02, or lerps to the zoom goal by 0.05 looking at the selected photo. It looks at the origin otherwise |
| `FrameAnimator.HandCameraSettles` | components/TreeParticles.tsx:214-219 | with the hand held still, the scattered camera keeps its depth and its offset to the hand target shrinks by 0.9 per frame |
| `FrameAnimator.OrnamentPose` | components/TreeParticles.tsx:249-268 | an ornament is drawn at its mode's target moved only vertically: within ±0.5 in SCATTERED, within ±0.1 (the breath) in TREE and PHOTO_ZOOM; in every mode its x-tilt exceeds `time·speed` by at most ±0.1, and outside SCATTERED by exactly the vertical lift; scale and colour are kept |
| `FrameAnimator.OrnamentFrame` | components/TreeParticles.tsx:249-274 | one pose per ornament, instance `i` from ornament `i`: at the target's x and z, within ±0.5 of its height (±0.1 outside SCATTERED), x-tilt within ±0.1 of `time·speed`, with the ornament's own scale and colour |
| `FrameAnimator.OrnamentEmission` | components/TreeParticles.tsx:302-303 | the ornaments glow orange at intensity 2.0 iff not in TREE mode, and are maroon at 0.3 in TREE |
| `FrameAnimator.GlowTogether` | components/TreeParticles.tsx:99-103 | every photo is brighter than the tree level exactly when the ornaments glow |
| `HandTracker.MapX` | components/HandTracker.tsx:52 | maps [0, 1] into [-1, 1]; the left half of the image maps to the positive side |
| `HandTracker.MapY` | components/HandTracker.tsx:53 | maps [0, 1] into [-1, 1]; the upper half of the image maps to the positive side |
| `HandTracker.MapsRoundTrip` | components/HandTracker.tsx:50-53 | both maps are the same invertible map: 0→1, 0.5→0, 1→-1, undone by `(1-r)/2` |
| `HandTracker.MapXReverses` | components/HandTracker.tsx:52 | the x map reverses order |
| `HandTracker.HandReports` | components/HandTracker.tsx:37-55 | one gesture-then-move pair per hand, in list order |
| `HandTracker.ReportsAlternate` | components/HandTracker.tsx:38-54 | gesture and move reports alternate, a gesture first |
| `HandTracker.OnResults` | components/HandTracker.tsx:27-60 | nothing while unmounted or without a canvas context; exactly one NONE with no hands; otherwise the pairs of every hand |
| `HandTracker.OnFrame` | components/HandTracker.tsx:92 | a frame is sent only while mounted and after the detector exists, and always then |
| `HandTracker.LostHandKeepsScene` | components/HandTracker.tsx:56-57 | a frame with no hand only records NONE and never changes mode, grab, lock, hand position or photos |
| `HandTracker.OneHandFrame` | components/HandTracker.tsx:43-54 | one detected hand acts on the app as its gesture followed by its mapped wrist position |
| `HandTracker.UnmountedSilent` | components/HandTracker.tsx:28 | after unmounting nothing is sent to the detector and nothing reaches the app |
| `Scene.ReachableZoomAgrees` | components/TreeParticles.tsx:226-245 | in every reachable zoom state the scene lists one photo per upload; with photos, the camera aims at the first one and only it is lit; with none, the camera holds |
| `Geometry.LerpVec` | components/TreeParticles.tsx:85 | a lerp step leaves the offset to the target scaled by 1 - α |
| `Geometry.LerpContracts` | components/TreeParticles.tsx:242 | a lerp step scales the squared distance to the target by (1 - α)² |
| `Geometry.LerpFramesGeometric` | components/TreeParticles.tsx:85 | n lerp steps towards a fixed target scale the offset by (1 - α)ⁿ |

## Left out

- Rendering is not modelled: JSX, materials, lights, the top star, sparkles,
  stars, bloom, orbit controls and the on-screen instructions. These are
  presentation only.
- The instanced-matrix and colour-buffer writes are not modelled. The ornament
  pose (position, tilt, scale, colour) that feeds them is.
- MediaPipe is not modelled: initialisation, camera start and stop, canvas
  drawing and the async `hands.send`. These are foreign calls and async I/O.
  `maxNumHands: 1` is configuration of that library; the model accepts any
  number of hands.
- The timer's 1500 ms duration is not modelled. The timer is the `LockTimeout`
  input and may arrive at any point.
- Floating point is not modelled: `Math.random`, `sin`, `cos`, `sqrt`, IEEE
  rounding. Draws are parameters, trig is injected, and arithmetic is on
  `real`.
- three.js internals are not modelled: `lookAt`, the photo billboard turn,
  and the numerics of `normalize` beyond the unit-or-zero law. The camera's
  aim point is modelled as `lookAt` in `FrameAnimator.CameraMove`.
- `URL.createObjectURL` and texture loading are not modelled. URLs are opaque
  strings, and they are never empty: `createObjectURL` does not return `""`.
  So `FrameAnimator.PhotoMaterial` treats every `Some(url)` as present, where
  JavaScript's truthiness test would treat `""` as absent.
- React semantics are not modelled: `useMemo` caching, `useCallback`
  closures over a stale `mode`, and state batching. Each handler call is one
  atomic step.
- GestureService.DetectGesture: requires the landmark list to be absent,
  empty, or at least 21 points long.
  - The code guards only the absent and empty cases. A shorter list makes it
    read fields of `undefined`.
  - Such a frame throws instead of yielding a gesture. The model keeps it
    out through the precondition rather than inventing a result.
- App.UploadPhoto: the upload leaves `grabbedIndex` as it was. The code does
  not reset the grab when the photo list changes.
- ParticleLayout.OrnamentColour: states the branches, not the frequencies.
  With uniform draws they give gold 0.4, red 0.3 and green 0.3.
- ParticleLayout.Build: requires enough draws up front, `6·photos + 11·150`.
  The source has an unbounded random source; the bound covers the worst case
  of every ornament using two colour draws.
- FrameAnimator.PhotoRotation: states which axes turn, not the angle. The
  tree-mode angle `data.id * 0.1 + time * 0.5` is only computed.
- FrameAnimator.OrnamentPose: states the y and z spin angles only as the
  formulas they are. The SCATTERED lift `sin(time + id)·0.5` and the breath
  `sin(2·time + id)·0.1` are stated as bounds, because `sin` is injected and
  only its laws are known.
- HandTracker.OnResults: requires every reported hand to have at least 21
  landmarks. MediaPipe always delivers 21 per hand. For an empty hand the
  code would call `detectGesture`, get NONE, and then read `landmarks[0].x`
  of `undefined`.
