/** Particle generation of components/TreeParticles.tsx (the `useMemo` that
    builds the entity set) and the photo/ornament split that follows it.
    Every `Math.random()` result is taken, in evaluation order, from a
    sequence of draws in [0, 1). */
module ParticleLayout {
  import opened Wrappers
  import opened Geometry
  import opened Types

  /** `Math.PI` as a double. */
  const Pi: real := 3.141592653589793

  const OrnamentKinds: seq<ParticleKind> := [Sphere, Cube, Candy]

  ghost predicate UnitDraws(d: seq<real>) {
    forall k :: 0 <= k < |d| ==> 0.0 <= d[k] < 1.0
  }

  /** A generated value and the draws left after generating it. */
  datatype Drawn<T> = Drawn(value: T, rest: seq<real>)

  /** Every coordinate lies in [-h, h). */
  predicate WithinHalfExtent(v: Vec3, h: real) {
    -h <= v.x < h && -h <= v.y < h && -h <= v.z < h
  }

  /** `(Math.random() - 0.5) * extent`. */
  function Scatter(r: real, extent: real): (c: real)
    requires 0.0 <= r < 1.0 && 0.0 < extent
    ensures -extent / 2.0 <= c < extent / 2.0
  {
    (r - 0.5) * extent
  }

  function Spin(r: real): (c: real)
    requires 0.0 <= r < 1.0
    ensures 0.0 <= c < 0.02
  {
    r * 0.02
  }

  /** What every photo particle carries. */
  ghost predicate IsPhotoFor(p: Particle, url: Url) {
    && p.kind == Photo
    && p.photoUrl == Some(url)
    && p.color == White
    && p.scale == 1.5
    && WithinHalfExtent(p.scatteredPos, ScatterRadius / 2.0)
    && 0.0 <= p.rotationSpeed.x < 0.02 && 0.0 <= p.rotationSpeed.y < 0.02 && p.rotationSpeed.z == 0.0
  }

  /** What every ornament carries. */
  ghost predicate IsOrnament(p: Particle) {
    && p.kind in {Sphere, Cube, Candy}
    && p.photoUrl.None?
    && p.color in {MetallicGold, ChristmasRed, MatteGreen}
    && 0.3 <= p.scale < 0.8
    && WithinHalfExtent(p.scatteredPos, ScatterRadius)
    && 0.0 <= p.rotationSpeed.x < 0.02 && 0.0 <= p.rotationSpeed.y < 0.02
    && 0.0 <= p.rotationSpeed.z < 0.02
  }

  /** One element of `userPhotos.map(...)`: three scatter draws, two spin draws. */
  function PhotoParticle(url: Url, id: nat, d: seq<real>): (r: Drawn<Particle>)
    requires |d| >= 5 && UnitDraws(d)
    ensures r.value.id == id && IsPhotoFor(r.value, url)
    ensures r.rest == d[5..]
  {
    var extent := ScatterRadius;
    var scatter := Vec3(Scatter(d[0], extent), Scatter(d[1], extent), Scatter(d[2], extent));
    var spin := Vec3(Spin(d[3]), Spin(d[4]), 0.0);
    Drawn(Particle(id, Origin, scatter, Photo, White, 1.5, spin, Some(url)), d[5..])
  }

  /** The colour draws: gold on a first draw above 0.6; otherwise a second
      draw decides between red (above 0.5) and green. */
  function OrnamentColour(d: seq<real>): (r: Drawn<Colour>)
    requires |d| >= 2
    ensures r.value == MetallicGold <==> d[0] > 0.6
    ensures r.value == ChristmasRed <==> d[0] <= 0.6 && d[1] > 0.5
    ensures r.value == MatteGreen <==> d[0] <= 0.6 && d[1] <= 0.5
    ensures r.rest == if d[0] > 0.6 then d[1..] else d[2..]
  {
    var isGold := d[0] > 0.6;
    if isGold then Drawn(MetallicGold, d[1..])
    else
      var isRed := d[1] > 0.5;
      Drawn(if isRed then ChristmasRed else MatteGreen, d[2..])
  }

  /** `geometryTypes[Math.floor(Math.random() * 3)]`. */
  function OrnamentKind(r: real): (k: ParticleKind)
    requires 0.0 <= r < 1.0
    ensures k in {Sphere, Cube, Candy}
    ensures k == Sphere <==> r < 1.0 / 3.0
    ensures k == Candy <==> r >= 2.0 / 3.0
  {
    var i := (r * 3.0).Floor;
    assert 0 <= i < 3;
    OrnamentKinds[i]
  }

  /** One iteration of the ornament loop: colour (one or two draws), kind,
      three scatter draws, scale, three spin draws. */
  function Ornament(id: nat, d: seq<real>): (r: Drawn<Particle>)
    requires |d| >= 10 && UnitDraws(d)
    ensures r.value.id == id && IsOrnament(r.value)
    ensures r.value.color == OrnamentColour(d).value
    ensures |r.rest| == |d| - 9 || |r.rest| == |d| - 10
    ensures r.rest == d[|d| - |r.rest|..]
  {
    var colour := OrnamentColour(d);
    var e := colour.rest;
    assert e == d[|d| - |e|..];
    var kind := OrnamentKind(e[0]);
    var extent := ScatterRadius * 2.0;
    var scatter := Vec3(Scatter(e[1], extent), Scatter(e[2], extent), Scatter(e[3], extent));
    var scale := e[4] * 0.5 + 0.3;
    var spin := Vec3(Spin(e[5]), Spin(e[6]), Spin(e[7]));
    Drawn(Particle(id, Origin, scatter, kind, colour.value, scale, spin, None), e[8..])
  }

  /** The photo particles for `urls[k..]`, with ids `k..`. */
  function Photos(urls: seq<Url>, k: nat, d: seq<real>): (r: Drawn<seq<Particle>>)
    requires k <= |urls| && |d| >= 5 * (|urls| - k) && UnitDraws(d)
    ensures |r.value| == |urls| - k
    ensures forall i :: 0 <= i < |r.value| ==> r.value[i].id == k + i && IsPhotoFor(r.value[i], urls[k + i])
    ensures r.rest == d[5 * (|urls| - k)..]
    decreases |urls| - k
  {
    if k == |urls| then Drawn([], d)
    else
      var p := PhotoParticle(urls[k], k, d);
      var more := Photos(urls, k + 1, p.rest);
      Drawn([p.value] + more.value, more.rest)
  }

  /** `n` ornaments with ids `firstId..`. */
  function Ornaments(n: nat, firstId: nat, d: seq<real>): (r: Drawn<seq<Particle>>)
    requires |d| >= 10 * n && UnitDraws(d)
    ensures |r.value| == n
    ensures forall i :: 0 <= i < n ==> r.value[i].id == firstId + i && IsOrnament(r.value[i])
    ensures |r.rest| >= |d| - 10 * n && UnitDraws(r.rest)
  {
    if n == 0 then Drawn([], d)
    else
      var o := Ornament(firstId, d);
      var more := Ornaments(n - 1, firstId + 1, o.rest);
      Drawn([o.value] + more.value, more.rest)
  }

  /** `t = i / total`, 0 at the apex and approaching 1 at the base. */
  function TreeT(i: nat, total: nat): (t: real)
    requires i < total
    ensures 0.0 <= t < 1.0
    ensures t * total as real == i as real
  {
    var t := i as real / total as real;
    RatioBelowOne(i as real, total as real);
    t
  }

  lemma RatioBelowOne(a: real, b: real)
    requires 0.0 <= a < b
    ensures 0.0 <= a / b < 1.0
    ensures (a / b) * b == a
  {
  }

  /** `(1 - t) * TREE_HEIGHT - TREE_HEIGHT / 2`. */
  function TreeY(i: nat, total: nat): real
    requires i < total
  {
    (1.0 - TreeT(i, total)) * TreeHeight - TreeHeight / 2.0
  }

  /** `t * TREE_RADIUS + jitter * 1.5 * (1 - t)`. */
  function TreeRadiusAt(i: nat, total: nat, jitter: real): real
    requires i < total
  {
    var t := TreeT(i, total);
    t * TreeRadius + jitter * 1.5 * (1.0 - t)
  }

  /** One step of the spiral loop. */
  function SpiralPoint(m: MathLib, i: nat, total: nat, jitter: real): Vec3
    requires i < total
  {
    var t := TreeT(i, total);
    var angle := t * Pi * 25.0;
    var radius := TreeRadiusAt(i, total, jitter);
    Vec3(m.cos(angle) * radius, TreeY(i, total), m.sin(angle) * radius)
  }

  /** Every tree height, the last included, lies in (-6, 6]. */
  lemma TreeHeightBound(i: nat, total: nat)
    requires i < total
    ensures -TreeHeight / 2.0 < TreeY(i, total) <= TreeHeight / 2.0
  {
  }

  /** The tree heights lie in (-6, 6] and strictly fall with the index. */
  lemma TreeHeightOrder(i: nat, j: nat, total: nat)
    requires i < j < total
    ensures -TreeHeight / 2.0 < TreeY(i, total) <= TreeHeight / 2.0
    ensures -TreeHeight / 2.0 < TreeY(j, total) <= TreeHeight / 2.0
    ensures TreeY(j, total) < TreeY(i, total)
  {
    TreeHeightBound(i, total);
    TreeHeightBound(j, total);
    var ti, tj := TreeT(i, total), TreeT(j, total);
    assert (tj - ti) * total as real == (j - i) as real;
  }

  /** The radius grows from `5t` by at most the jitter band `1.5 (1 - t)`,
      so it always lies in [0, 5). */
  lemma TreeRadiusBand(i: nat, total: nat, jitter: real)
    requires i < total && 0.0 <= jitter < 1.0
    ensures var t := TreeT(i, total);
      t * TreeRadius <= TreeRadiusAt(i, total, jitter) < t * TreeRadius + 1.5 * (1.0 - t)
    ensures 0.0 <= TreeRadiusAt(i, total, jitter) < TreeRadius
  {
    JitterBand(TreeT(i, total), jitter);
  }

  lemma JitterBand(t: real, jitter: real)
    requires 0.0 <= t < 1.0 && 0.0 <= jitter < 1.0
    ensures t * TreeRadius <= t * TreeRadius + jitter * 1.5 * (1.0 - t) < t * TreeRadius + 1.5 * (1.0 - t)
    ensures 0.0 <= t * TreeRadius + jitter * 1.5 * (1.0 - t) < TreeRadius
  {
    JitterGap(t, jitter);
    ProductNonNegative(jitter, 1.0 - t);
    assert jitter * (1.0 - t) == jitter - jitter * t;
    assert jitter * 1.5 * (1.0 - t) == 1.5 * jitter - 1.5 * (jitter * t);
  }

  /** `jitter (1 - t) < 1 - t`, written out so the solver sees it linearly. */
  lemma JitterGap(t: real, jitter: real)
    requires 0.0 <= t < 1.0 && 0.0 <= jitter < 1.0
    ensures jitter - jitter * t < 1.0 - t
  {
    ProductPositive(1.0 - jitter, 1.0 - t);
    assert (1.0 - jitter) * (1.0 - t) == 1.0 - t - jitter + jitter * t;
  }

  /** The point sits at distance `radius` from the trunk. */
  lemma SpiralOnCircle(m: MathLib, i: nat, total: nat, jitter: real)
    requires Lawful(m) && i < total
    ensures HorizontalSq(SpiralPoint(m, i, total, jitter))
         == TreeRadiusAt(i, total, jitter) * TreeRadiusAt(i, total, jitter)
  {
    var t := TreeT(i, total);
    var angle := t * Pi * 25.0;
    var c, s, r := m.cos(angle), m.sin(angle), TreeRadiusAt(i, total, jitter);
    assert c * c + s * s == 1.0;
    calc {
      (c * r) * (c * r) + (s * r) * (s * r);
      (c * c + s * s) * (r * r);
      r * r;
    }
  }

  /** Where the spiral puts the particle at index `i` of `total`. */
  ghost predicate OnTree(pos: Vec3, i: nat, total: nat)
    requires i < total
  {
    var t := TreeT(i, total);
    var low := t * TreeRadius;
    var high := low + 1.5 * (1.0 - t);
    && pos.y == TreeY(i, total)
    && low * low <= HorizontalSq(pos) < high * high
  }

  lemma SquareBand(low: real, r: real, high: real)
    requires 0.0 <= low <= r < high
    ensures low * low <= r * r < high * high
  {
    SquareMonotone(r, high);
    if low < r {
      SquareMonotone(low, r);
    }
  }

  lemma SpiralIsOnTree(m: MathLib, i: nat, total: nat, jitter: real)
    requires Lawful(m) && i < total && 0.0 <= jitter < 1.0
    ensures OnTree(SpiralPoint(m, i, total, jitter), i, total)
  {
    var t := TreeT(i, total);
    var low := t * TreeRadius;
    var high := low + 1.5 * (1.0 - t);
    var r := TreeRadiusAt(i, total, jitter);
    var pos := SpiralPoint(m, i, total, jitter);
    TreeRadiusBand(i, total, jitter);
    SpiralOnCircle(m, i, total, jitter);
    assert HorizontalSq(pos) == r * r;
    SquareBand(low, r, high);
    assert pos.y == TreeY(i, total);
  }

  /** The second loop: positions `k..` of `ps` get their spiral point, one
      jitter draw each; nothing else about a particle changes. */
  function AssignTree(m: MathLib, ps: seq<Particle>, k: nat, d: seq<real>): (r: seq<Particle>)
    requires Lawful(m) && k <= |ps| && |d| >= |ps| - k && UnitDraws(d)
    ensures |r| == |ps| - k
    ensures forall i :: 0 <= i < |r| ==> r[i] == ps[k + i].(initialPos := r[i].initialPos)
    ensures forall i :: 0 <= i < |r| ==> OnTree(r[i].initialPos, k + i, |ps|)
    decreases |ps| - k
  {
    if k == |ps| then []
    else
      SpiralIsOnTree(m, k, |ps|, d[0]);
      var p := ps[k].(initialPos := SpiralPoint(m, k, |ps|, d[0]));
      [p] + AssignTree(m, ps, k + 1, d[1..])
  }

  /** How many draws generation may need for `photos` photos. */
  function DrawBudget(photos: nat): nat {
    6 * photos + 11 * ParticleCount
  }

  /** The `useMemo` body: photos first, then the ornaments, then the spiral. */
  function Build(m: MathLib, urls: seq<Url>, d: seq<real>): (r: seq<Particle>)
    requires Lawful(m) && UnitDraws(d) && |d| >= DrawBudget(|urls|)
    ensures |r| == |urls| + ParticleCount
    ensures forall i :: 0 <= i < |r| ==> r[i].id == i
    ensures forall i :: 0 <= i < |urls| ==> IsPhotoFor(r[i], urls[i])
    ensures forall i :: |urls| <= i < |r| ==> IsOrnament(r[i])
    ensures forall i :: 0 <= i < |r| ==> OnTree(r[i].initialPos, i, |r|)
  {
    var photos := Photos(urls, 0, d);
    assert UnitDraws(photos.rest);
    var ornaments := Ornaments(ParticleCount, |urls|, photos.rest);
    PlacedFacts(m, urls, photos.value, ornaments.value, ornaments.rest);
    AssignTree(m, photos.value + ornaments.value, 0, ornaments.rest)
  }

  /** The spiral pass keeps what generation established about each particle. */
  lemma PlacedFacts(m: MathLib, urls: seq<Url>, photos: seq<Particle>, ornaments: seq<Particle>, d: seq<real>)
    requires Lawful(m) && UnitDraws(d)
    requires |photos| == |urls| && |d| >= |photos| + |ornaments|
    requires forall i :: 0 <= i < |photos| ==> photos[i].id == i && IsPhotoFor(photos[i], urls[i])
    requires forall i :: 0 <= i < |ornaments| ==> ornaments[i].id == |urls| + i && IsOrnament(ornaments[i])
    ensures var r := AssignTree(m, photos + ornaments, 0, d);
      && |r| == |photos| + |ornaments|
      && (forall i :: 0 <= i < |r| ==> r[i].id == i)
      && (forall i :: 0 <= i < |urls| ==> IsPhotoFor(r[i], urls[i]))
      && (forall i :: |urls| <= i < |r| ==> IsOrnament(r[i]))
      && (forall i :: 0 <= i < |r| ==> OnTree(r[i].initialPos, i, |r|))
  {
    var all := photos + ornaments;
    var r := AssignTree(m, all, 0, d);
    assert forall i :: 0 <= i < |urls| ==> all[i] == photos[i];
    assert forall i :: |urls| <= i < |all| ==> all[i] == ornaments[i - |urls|];
    assert forall i :: 0 <= i < |r| ==> r[i] == all[i].(initialPos := r[i].initialPos);
  }

  /** Every photo hangs higher in the tree than every ornament. */
  lemma PhotosAboveOrnaments(m: MathLib, urls: seq<Url>, d: seq<real>, i: nat, j: nat)
    requires Lawful(m) && UnitDraws(d) && |d| >= DrawBudget(|urls|)
    requires i < |urls| <= j < |urls| + ParticleCount
    ensures Build(m, urls, d)[i].initialPos.y > Build(m, urls, d)[j].initialPos.y
  {
    TreeHeightOrder(i, j, |urls| + ParticleCount);
  }

  /** Rebuilding from the same photo list reproduces the count, the ids, the
      photo/ornament split, the photo handles and every tree height; only
      drawn values (jitter, scatter, colour, scale, spin) may differ. */
  lemma RebuildStable(m1: MathLib, m2: MathLib, urls: seq<Url>, d1: seq<real>, d2: seq<real>)
    requires Lawful(m1) && UnitDraws(d1) && |d1| >= DrawBudget(|urls|)
    requires Lawful(m2) && UnitDraws(d2) && |d2| >= DrawBudget(|urls|)
    ensures var a, b := Build(m1, urls, d1), Build(m2, urls, d2);
      && |a| == |b|
      && forall i :: 0 <= i < |a| ==>
           && a[i].id == b[i].id
           && (a[i].kind == Photo <==> b[i].kind == Photo)
           && a[i].photoUrl == b[i].photoUrl
           && a[i].initialPos.y == b[i].initialPos.y
  {
    var a, b := Build(m1, urls, d1), Build(m2, urls, d2);
    forall i | 0 <= i < |a|
      ensures a[i].id == b[i].id
      ensures a[i].kind == Photo <==> b[i].kind == Photo
      ensures a[i].photoUrl == b[i].photoUrl
      ensures a[i].initialPos.y == b[i].initialPos.y
    {
      assert OnTree(a[i].initialPos, i, |a|) && OnTree(b[i].initialPos, i, |b|);
      if i < |urls| {
        assert IsPhotoFor(a[i], urls[i]) && IsPhotoFor(b[i], urls[i]);
      } else {
        assert IsOrnament(a[i]) && IsOrnament(b[i]);
      }
    }
  }

  /** With no photos: 150 ornaments, the first at the apex (height 6), the
      last at `t = 149/150` (height -5.92). */
  lemma NoPhotosScenario(m: MathLib, d: seq<real>)
    requires Lawful(m) && UnitDraws(d) && |d| >= DrawBudget(0)
    ensures |Build(m, [], d)| == 150
    ensures Build(m, [], d)[0].initialPos.y == 6.0
    ensures Build(m, [], d)[149].initialPos.y == -5.92
    ensures TreeT(149, 150) == 149.0 / 150.0
  {
    var r := Build(m, [], d);
    assert OnTree(r[0].initialPos, 0, 150);
    assert OnTree(r[149].initialPos, 149, 150);
  }

  /** `particles.filter(p => p.type === 'PHOTO')`. */
  function PhotoData(ps: seq<Particle>): (r: seq<Particle>)
    ensures forall i :: 0 <= i < |r| ==> r[i].kind == Photo
    ensures |r| <= |ps|
  {
    if |ps| == 0 then []
    else (if ps[0].kind == Photo then [ps[0]] else []) + PhotoData(ps[1..])
  }

  /** `particles.filter(p => p.type !== 'PHOTO')`. */
  function OrnamentData(ps: seq<Particle>): (r: seq<Particle>)
    ensures forall i :: 0 <= i < |r| ==> r[i].kind != Photo
    ensures |r| <= |ps|
  {
    if |ps| == 0 then []
    else (if ps[0].kind != Photo then [ps[0]] else []) + OrnamentData(ps[1..])
  }

  lemma {:induction false} FilterSplit(ps: seq<Particle>, k: nat)
    requires k <= |ps|
    requires forall i :: 0 <= i < k ==> ps[i].kind == Photo
    requires forall i :: k <= i < |ps| ==> ps[i].kind != Photo
    ensures PhotoData(ps) == ps[..k]
    ensures OrnamentData(ps) == ps[k..]
    decreases |ps|
  {
    if |ps| > 0 {
      if k > 0 {
        FilterSplit(ps[1..], k - 1);
        assert ps[..k] == [ps[0]] + ps[1..][..k - 1];
        assert ps[k..] == ps[1..][k - 1..];
      } else {
        FilterSplit(ps[1..], 0);
        assert ps == [ps[0]] + ps[1..];
      }
    }
  }

  /** The photo list the scene renders is exactly the built prefix, in
      upload order, and the instanced ornaments are the rest. */
  lemma BuiltSplit(m: MathLib, urls: seq<Url>, d: seq<real>)
    requires Lawful(m) && UnitDraws(d) && |d| >= DrawBudget(|urls|)
    ensures PhotoData(Build(m, urls, d)) == Build(m, urls, d)[..|urls|]
    ensures OrnamentData(Build(m, urls, d)) == Build(m, urls, d)[|urls|..]
    ensures |PhotoData(Build(m, urls, d))| == |urls|
    ensures forall i :: 0 <= i < |urls| ==> PhotoData(Build(m, urls, d))[i].photoUrl == Some(urls[i])
  {
    FilterSplit(Build(m, urls, d), |urls|);
  }
}
