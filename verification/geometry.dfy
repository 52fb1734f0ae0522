/** Vectors over the reals, the `Vector3` operations the scene uses, and the
    host's transcendental functions, which are injected rather than defined. */
module Geometry {

  datatype Vec3 = Vec3(x: real, y: real, z: real)

  const Origin := Vec3(0.0, 0.0, 0.0)

  function Add(a: Vec3, b: Vec3): Vec3 {
    Vec3(a.x + b.x, a.y + b.y, a.z + b.z)
  }

  function Sub(a: Vec3, b: Vec3): Vec3 {
    Vec3(a.x - b.x, a.y - b.y, a.z - b.z)
  }

  function Scale(v: Vec3, k: real): Vec3 {
    Vec3(v.x * k, v.y * k, v.z * k)
  }

  function Dot(a: Vec3, b: Vec3): real {
    a.x * b.x + a.y * b.y + a.z * b.z
  }

  function Cross(a: Vec3, b: Vec3): Vec3 {
    Vec3(a.y * b.z - a.z * b.y, a.z * b.x - a.x * b.z, a.x * b.y - a.y * b.x)
  }

  function LengthSq(v: Vec3): real {
    Dot(v, v)
  }

  function DistSq(a: Vec3, b: Vec3): real {
    LengthSq(Sub(a, b))
  }

  /** Squared distance from the vertical axis through the origin. */
  function HorizontalSq(v: Vec3): real {
    v.x * v.x + v.z * v.z
  }

  /** One scalar interpolation step `x + (t - x) * alpha`. */
  function Lerp(x: real, t: real, alpha: real): (r: real)
    ensures t - r == (1.0 - alpha) * (t - x)
  {
    x + (t - x) * alpha
  }

  /** `Vector3.lerp`: every component moves the fraction `alpha` towards `t`. */
  function LerpVec(v: Vec3, t: Vec3, alpha: real): (r: Vec3)
    ensures Sub(t, r) == Scale(Sub(t, v), 1.0 - alpha)
  {
    Vec3(Lerp(v.x, t.x, alpha), Lerp(v.y, t.y, alpha), Lerp(v.z, t.z, alpha))
  }

  lemma ScaleLengthSq(v: Vec3, k: real)
    ensures LengthSq(Scale(v, k)) == k * k * LengthSq(v)
  {
    calc {
      LengthSq(Scale(v, k));
      (v.x * k) * (v.x * k) + (v.y * k) * (v.y * k) + (v.z * k) * (v.z * k);
      k * k * (v.x * v.x) + k * k * (v.y * v.y) + k * k * (v.z * v.z);
    }
  }

  /** A lerp step shrinks the distance to the target by the factor `1 - alpha`. */
  lemma LerpContracts(v: Vec3, t: Vec3, alpha: real)
    ensures DistSq(t, LerpVec(v, t, alpha)) == (1.0 - alpha) * (1.0 - alpha) * DistSq(t, v)
  {
    ScaleLengthSq(Sub(t, v), 1.0 - alpha);
  }

  function Pow(b: real, n: nat): real {
    if n == 0 then 1.0 else b * Pow(b, n - 1)
  }

  /** `n` consecutive frames of lerping towards a target that stays put. */
  function LerpFrames(v: Vec3, t: Vec3, alpha: real, n: nat): Vec3 {
    if n == 0 then v else LerpVec(LerpFrames(v, t, alpha, n - 1), t, alpha)
  }

  lemma ScaleScale(d: Vec3, p: real, q: real)
    ensures Scale(Scale(d, p), q) == Scale(d, q * p)
  {
    assert (d.x * p) * q == d.x * (q * p);
    assert (d.y * p) * q == d.y * (q * p);
    assert (d.z * p) * q == d.z * (q * p);
  }

  /** After `n` frames the remaining offset to the target is the initial
      offset scaled by `(1 - alpha)^n`. */
  lemma {:induction false} LerpFramesGeometric(v: Vec3, t: Vec3, alpha: real, n: nat)
    ensures Sub(t, LerpFrames(v, t, alpha, n)) == Scale(Sub(t, v), Pow(1.0 - alpha, n))
  {
    var d := Sub(t, v);
    if n == 0 {
      assert Scale(d, 1.0) == d;
    } else {
      var q := 1.0 - alpha;
      var p := Pow(q, n - 1);
      var prev := LerpFrames(v, t, alpha, n - 1);
      LerpFramesGeometric(v, t, alpha, n - 1);
      assert Sub(t, prev) == Scale(d, p);
      assert LerpFrames(v, t, alpha, n) == LerpVec(prev, t, alpha);
      assert Sub(t, LerpVec(prev, t, alpha)) == Scale(Sub(t, prev), q);
      ScaleScale(d, p, q);
      assert Pow(q, n) == q * p;
    }
  }

  /** The host's `Math.sin`, `Math.cos`, `Math.sqrt` and three.js's
      `Vector3.normalize`, passed in as values rather than defined. */
  datatype MathLib = MathLib(
    sin: real -> real,
    cos: real -> real,
    sqrt: real -> real,
    normalize: Vec3 -> Vec3)

  /** The only facts about the host's functions that the model relies on:
      the Pythagorean identity, that `sqrt` is the non-negative root, and
      that `normalize` leaves the zero vector alone and otherwise returns the
      unit vector pointing the same way as its argument. */
  ghost predicate Lawful(m: MathLib) {
    && (forall a :: m.sin(a) * m.sin(a) + m.cos(a) * m.cos(a) == 1.0)
    && (forall u :: 0.0 <= u ==> 0.0 <= m.sqrt(u) && m.sqrt(u) * m.sqrt(u) == u)
    && (forall v :: UnitOrZero(m.normalize(v), v))
  }

  /** `n` is what normalising `v` yields: zero for zero, otherwise a unit
      vector parallel to `v` and pointing the same way. */
  ghost predicate UnitOrZero(n: Vec3, v: Vec3) {
    if v == Origin then n == Origin
    else LengthSq(n) == 1.0 && Cross(n, v) == Origin && 0.0 < Dot(n, v)
  }

  lemma SubZero(a: Vec3, b: Vec3)
    ensures Sub(a, b) == Origin <==> a == b
  {
    if Sub(a, b) == Origin {
      assert a.x - b.x == 0.0 && a.y - b.y == 0.0 && a.z - b.z == 0.0;
    }
  }

  lemma CrossScale(n: Vec3, v: Vec3, k: real)
    ensures Cross(Scale(n, k), v) == Scale(Cross(n, v), k)
  {
    var l, r := Cross(Scale(n, k), v), Scale(Cross(n, v), k);
    assert l.x == r.x by { ScaledMinor(n.y, v.z, n.z, v.y, k); }
    assert l.y == r.y by { ScaledMinor(n.z, v.x, n.x, v.z, k); }
    assert l.z == r.z by { ScaledMinor(n.x, v.y, n.y, v.x, k); }
  }

  /** One component of a cross product, with the left factor scaled by `k`. */
  lemma ScaledMinor(a: real, b: real, c: real, d: real, k: real)
    ensures (a * k) * b - (c * k) * d == (a * b - c * d) * k
  {
    calc {
      (a * k) * b - (c * k) * d;
    ==  (a * b) * k - (c * d) * k;
    ==  (a * b - c * d) * k;
    }
  }

  lemma DotScale(n: Vec3, v: Vec3, k: real)
    ensures Dot(Scale(n, k), v) == k * Dot(n, v)
  {
    assert (n.x * k) * v.x + (n.y * k) * v.y + (n.z * k) * v.z == k * (n.x * v.x + n.y * v.y + n.z * v.z);
  }

  lemma ProductPositive(a: real, b: real)
    requires 0.0 < a && 0.0 < b
    ensures 0.0 < a * b
  {
  }

  lemma ProductNonNegative(a: real, b: real)
    requires 0.0 <= a && 0.0 <= b
    ensures 0.0 <= a * b
  {
  }

  lemma SquareFacts(a: real)
    ensures 0.0 <= a * a
    ensures a != 0.0 ==> 0.0 < a * a
  {
    if a < 0.0 {
      assert a * a == (-a) * (-a);
    }
  }

  /** For non-negative reals, `<` agrees with `<` on squares. */
  lemma SquareMonotone(u: real, v: real)
    requires 0.0 <= u && 0.0 <= v
    ensures u < v <==> u * u < v * v
  {
    assert v * v - u * u == (v - u) * (v + u);
    if u < v {
      assert 0.0 < v - u && 0.0 < v + u;
      assert 0.0 < (v - u) * (v + u);
    } else {
      assert 0.0 <= u - v && 0.0 <= u + v;
      assert 0.0 <= (u - v) * (u + v);
    }
  }

  lemma SinBounded(m: MathLib, a: real)
    requires Lawful(m)
    ensures -1.0 <= m.sin(a) <= 1.0
    ensures -1.0 <= m.cos(a) <= 1.0
  {
    var s, c := m.sin(a), m.cos(a);
    assert s * s + c * c == 1.0;
    SquareFacts(s);
    SquareFacts(c);
    var absS, absC := if s < 0.0 then -s else s, if c < 0.0 then -c else c;
    assert absS * absS == s * s && absC * absC == c * c;
    SquareMonotone(1.0, absS);
    SquareMonotone(1.0, absC);
  }
}
