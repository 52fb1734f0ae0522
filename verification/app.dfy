/** The mode controller of App.tsx: `handleGesture` with its transition
    lock, `lockTransition`, `handleHandMove` and the append in
    `handlePhotoUpload`. Each handler call is one atomic step; the 1500 ms
    timer that releases the lock is the explicit `LockTimeout` input. */
module App {
  import opened Wrappers
  import opened Types

  datatype AppState = AppState(
    mode: AppMode,
    lastGesture: GestureType,
    handPos: Option<HandPos>,
    photos: seq<Url>,
    grabbedIndex: Option<nat>,
    locked: bool)

  /** The `useState`/`useRef` initial values. */
  const Initial := AppState(Tree, NoGesture, None, [], None, false)

  /** The gesture cannot move the scene in mode `mode`, whatever the lock. */
  predicate Inert(mode: AppMode, g: GestureType) {
    || g == NoGesture || g == Pointing
    || (g == Fist && mode == Tree)
    || (g == OpenPalm && mode == Scattered)
    || (g == Pinch && mode != Scattered)
  }

  /** `handleGesture` followed, when it fires, by `lockTransition`. */
  function HandleGesture(s: AppState, g: GestureType): (r: AppState)
    ensures r.lastGesture == g
    ensures r.handPos == s.handPos && r.photos == s.photos
    ensures s.locked || Inert(s.mode, g) ==> r == s.(lastGesture := g)
    ensures !s.locked ==> (r.locked <==> r.mode != s.mode)
    ensures !s.locked && g == Fist && s.mode != Tree ==>
      r.mode == Tree && r.grabbedIndex == None && r.locked
    ensures !s.locked && g == OpenPalm && s.mode != Scattered ==>
      r.mode == Scattered && r.grabbedIndex == None && r.locked
    ensures !s.locked && g == Pinch && s.mode == Scattered ==>
      && r.mode == PhotoZoom && r.locked
      && r.grabbedIndex == Some(if s.grabbedIndex.None? then 0 else s.grabbedIndex.value + 1)
  {
    var s := s.(lastGesture := g);
    if s.locked then s
    else if g == Fist && s.mode != Tree then
      s.(mode := Tree, grabbedIndex := None, locked := true)
    else if g == OpenPalm && s.mode != Scattered then
      s.(mode := Scattered, grabbedIndex := None, locked := true)
    else if g == Pinch && s.mode == Scattered then
      var next := if s.grabbedIndex.None? then 0 else s.grabbedIndex.value + 1;
      s.(mode := PhotoZoom, grabbedIndex := Some(next), locked := true)
    else s
  }

  /** The timer callback of `lockTransition`: it clears the flag and nothing else. */
  function Unlock(s: AppState): (r: AppState)
    ensures !r.locked
    ensures r.(locked := s.locked) == s
  {
    s.(locked := false)
  }

  /** `handleHandMove`. */
  function HandleHandMove(s: AppState, x: real, y: real): (r: AppState)
    ensures r.handPos == Some(HandPos(x, y))
    ensures r.(handPos := s.handPos) == s
  {
    s.(handPos := Some(HandPos(x, y)))
  }

  /** `handlePhotoUpload`: `file` is the object URL of the first chosen file,
      if there is one. */
  function UploadPhoto(s: AppState, file: Option<Url>): (r: AppState)
    ensures file.None? ==> r == s
    ensures file.Some? ==> |r.photos| == |s.photos| + 1
    ensures file.Some? ==> r.photos[..|s.photos|] == s.photos && r.photos[|s.photos|] == file.value
    ensures r.(photos := s.photos) == s
  {
    match file
    case None => s
    case Some(url) => s.(photos := s.photos + [url])
  }

  /** Everything that can happen to the app state. */
  datatype Input =
    | GestureSeen(g: GestureType)
    | LockTimeout
    | HandMoved(x: real, y: real)
    | PhotoChosen(file: Option<Url>)

  function Step(s: AppState, e: Input): AppState {
    match e
    case GestureSeen(g) => HandleGesture(s, g)
    case LockTimeout => Unlock(s)
    case HandMoved(x, y) => HandleHandMove(s, x, y)
    case PhotoChosen(file) => UploadPhoto(s, file)
  }

  function Run(s: AppState, es: seq<Input>): AppState
    decreases |es|
  {
    if |es| == 0 then s else Run(Step(s, es[0]), es[1..])
  }

  /** The grab is present exactly in zoom mode, and then it is the first photo. */
  ghost predicate GrabConsistent(s: AppState) {
    if s.mode == PhotoZoom then s.grabbedIndex == Some(0) else s.grabbedIndex == None
  }

  lemma StepKeepsGrabConsistent(s: AppState, e: Input)
    requires GrabConsistent(s)
    ensures GrabConsistent(Step(s, e))
  {
  }

  lemma {:induction false} RunKeepsGrabConsistent(s: AppState, es: seq<Input>)
    requires GrabConsistent(s)
    ensures GrabConsistent(Run(s, es))
    decreases |es|
  {
    if |es| > 0 {
      StepKeepsGrabConsistent(s, es[0]);
      RunKeepsGrabConsistent(Step(s, es[0]), es[1..]);
    }
  }

  /** Every reachable state has no grab in `Tree` and `Scattered` and grab 0
      in `PhotoZoom`; hence a pinch never advances past the first photo. */
  lemma ReachableGrab(es: seq<Input>)
    ensures GrabConsistent(Run(Initial, es))
    ensures HandleGesture(Run(Initial, es), Pinch).grabbedIndex in {None, Some(0)}
  {
    RunKeepsGrabConsistent(Initial, es);
  }

  predicate NoTimeout(es: seq<Input>) {
    forall i :: 0 <= i < |es| ==> !es[i].LockTimeout?
  }

  /** How many of the steps of `es` from `s` change the mode. */
  function ModeChanges(s: AppState, es: seq<Input>): nat
    decreases |es|
  {
    if |es| == 0 then 0
    else
      var t := Step(s, es[0]);
      (if t.mode != s.mode then 1 else 0) + ModeChanges(t, es[1..])
  }

  /** While locked, inputs other than the timeout change neither mode nor grab. */
  lemma {:induction false} LockedFreezes(s: AppState, es: seq<Input>)
    requires s.locked && NoTimeout(es)
    ensures Run(s, es).locked
    ensures Run(s, es).mode == s.mode && Run(s, es).grabbedIndex == s.grabbedIndex
    ensures ModeChanges(s, es) == 0
    decreases |es|
  {
    if |es| > 0 {
      assert !es[0].LockTimeout?;
      var t := Step(s, es[0]);
      assert NoTimeout(es[1..]) by {
        forall i | 0 <= i < |es[1..]| ensures !es[1..][i].LockTimeout? {
          assert es[1..][i] == es[i + 1];
        }
      }
      LockedFreezes(t, es[1..]);
    }
  }

  /** Single flight: between two lock timeouts at most one mode change
      happens, and none once the lock is engaged. */
  lemma {:induction false} SingleFlight(s: AppState, es: seq<Input>)
    requires NoTimeout(es)
    ensures ModeChanges(s, es) <= 1
    ensures s.locked ==> ModeChanges(s, es) == 0
    decreases |es|
  {
    if s.locked {
      LockedFreezes(s, es);
    } else if |es| > 0 {
      var t := Step(s, es[0]);
      assert NoTimeout(es[1..]) by {
        forall i | 0 <= i < |es[1..]| ensures !es[1..][i].LockTimeout? {
          assert es[1..][i] == es[i + 1];
        }
      }
      if t.mode != s.mode {
        assert t.locked;
        LockedFreezes(t, es[1..]);
      } else {
        SingleFlight(t, es[1..]);
      }
    }
  }

  /** Delivering the same gesture twice is the same as delivering it once. */
  lemma GestureIdempotent(s: AppState, g: GestureType)
    ensures HandleGesture(HandleGesture(s, g), g) == HandleGesture(s, g)
  {
  }

  function Repeat(g: GestureType, n: nat): (es: seq<Input>)
    ensures |es| == n && forall i :: 0 <= i < n ==> es[i] == GestureSeen(g)
  {
    if n == 0 then [] else [GestureSeen(g)] + Repeat(g, n - 1)
  }

  /** A gesture held over any number of frames acts exactly once. */
  lemma {:induction false} HeldGestureActsOnce(s: AppState, g: GestureType, n: nat)
    requires n >= 1
    ensures Run(s, Repeat(g, n)) == HandleGesture(s, g)
    ensures ModeChanges(s, Repeat(g, n)) <= 1
  {
    if n == 1 {
      assert Repeat(g, 1)[1..] == [];
    } else {
      HeldGestureActsOnce(s, g, n - 1);
      assert Repeat(g, n)[1..] == Repeat(g, n - 1);
      RunRepeatFixed(HandleGesture(s, g), g, n - 1);
    }
    assert NoTimeout(Repeat(g, n));
    SingleFlight(s, Repeat(g, n));
  }

  lemma {:induction false} RunRepeatFixed(s: AppState, g: GestureType, n: nat)
    requires HandleGesture(s, g) == s
    ensures Run(s, Repeat(g, n)) == s
  {
    if n > 0 {
      assert Repeat(g, n)[1..] == Repeat(g, n - 1);
      RunRepeatFixed(s, g, n - 1);
    }
  }
}
