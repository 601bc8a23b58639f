/** Engine value types used by the input command and the producer: 2D and 3D
    vectors, a rotator, and the scalar helpers the plugin calls on them
    (round-to-nearest, clamp, lerp). Floats are modelled as reals. */
module Vectors {

  datatype Vec2 = Vec2(x: real, y: real)

  datatype Vec3 = Vec3(x: real, y: real, z: real)

  /** A pitch/yaw/roll triple in degrees; arithmetic on it does not normalise angles. */
  datatype Rotator = Rotator(pitch: real, yaw: real, roll: real)

  const Zero2: Vec2 := Vec2(0.0, 0.0)
  const Zero3: Vec3 := Vec3(0.0, 0.0, 0.0)
  const ZeroRotator: Rotator := Rotator(0.0, 0.0, 0.0)

  /** Round to the nearest integer, halves rounded up (floor of x + 1/2). */
  function RoundHalfUp(x: real): (k: int)
    ensures x - 0.5 < k as real <= x + 0.5
  {
    (x + 0.5).Floor
  }

  /** x is a whole number of hundredths. */
  predicate OnGrid(x: real) {
    (x * 100.0).Floor as real == x * 100.0
  }

  predicate OnGrid3(v: Vec3) {
    OnGrid(v.x) && OnGrid(v.y) && OnGrid(v.z)
  }

  /** Two-decimal quantization of one axis: round(x * 100) / 100. */
  function Quantize(x: real): (r: real)
    ensures OnGrid(r)
    ensures -0.005 < r - x <= 0.005
    ensures OnGrid(x) ==> r == x
  {
    QuantizeFacts(x);
    RoundHalfUp(x * 100.0) as real / 100.0
  }

  lemma QuantizeFacts(x: real)
    ensures var r := RoundHalfUp(x * 100.0) as real / 100.0;
      && OnGrid(r)
      && -0.005 < r - x <= 0.005
      && (OnGrid(x) ==> r == x)
  {
    var k := RoundHalfUp(x * 100.0);
    var r := k as real / 100.0;
    assert r * 100.0 == k as real;
    assert (k as real).Floor == k;
    if OnGrid(x) {
      var n := (x * 100.0).Floor;
      assert x * 100.0 == n as real;
      assert (n as real + 0.5).Floor == n;
      assert k == n;
    }
  }

  function Quantize3(v: Vec3): (r: Vec3)
    ensures OnGrid3(r)
    ensures -0.005 < r.x - v.x <= 0.005
    ensures -0.005 < r.y - v.y <= 0.005
    ensures -0.005 < r.z - v.z <= 0.005
    ensures OnGrid3(v) ==> r == v
  {
    Vec3(Quantize(v.x), Quantize(v.y), Quantize(v.z))
  }

  function Min(a: real, b: real): real { if a <= b then a else b }
  function Max(a: real, b: real): real { if a <= b then b else a }

  /** FMath::Clamp: lo when below, hi when above, otherwise unchanged. */
  function Clamp(x: real, lo: real, hi: real): (r: real)
    ensures x < lo ==> r == lo
    ensures lo <= x <= hi ==> r == x
    ensures lo <= hi && hi < x ==> r == hi
    ensures lo <= hi ==> lo <= r <= hi
  {
    if x < lo then lo else if x < hi then x else hi
  }

  predicate InUnitBox(v: Vec2) {
    -1.0 <= v.x <= 1.0 && -1.0 <= v.y <= 1.0
  }

  /** FVector2D::ClampAxes(-1, 1): each axis clamped to [-1, 1]. */
  function ClampUnit(v: Vec2): (r: Vec2)
    ensures InUnitBox(r)
    ensures InUnitBox(v) ==> r == v
    ensures v.x < -1.0 ==> r.x == -1.0
    ensures v.x > 1.0 ==> r.x == 1.0
    ensures v.y < -1.0 ==> r.y == -1.0
    ensures v.y > 1.0 ==> r.y == 1.0
  {
    Vec2(Clamp(v.x, -1.0, 1.0), Clamp(v.y, -1.0, 1.0))
  }

  function Abs(x: real): real { if x < 0.0 then -x else x }

  lemma MulNonneg(a: real, b: real)
    requires 0.0 <= a && 0.0 <= b
    ensures 0.0 <= a * b
  {
  }

  /** FMath::Lerp: a + t * (b - a). */
  function Lerp(a: real, b: real, t: real): (r: real)
    ensures t == 0.0 ==> r == a
    ensures t == 1.0 ==> r == b
    ensures 0.0 <= t <= 1.0 ==> Min(a, b) <= r <= Max(a, b)
  {
    LerpBetween(a, b, t);
    a + t * (b - a)
  }

  lemma LerpBetween(a: real, b: real, t: real)
    ensures 0.0 <= t <= 1.0 ==> Min(a, b) <= a + t * (b - a) <= Max(a, b)
  {
    if 0.0 <= t <= 1.0 {
      MulNonneg(t, Abs(b - a));
      MulNonneg(1.0 - t, Abs(b - a));
      assert t * Abs(b - a) + (1.0 - t) * Abs(b - a) == Abs(b - a);
      if a <= b {
        assert t * (b - a) == t * Abs(b - a);
      } else {
        assert t * (b - a) == -(t * Abs(b - a));
      }
    }
  }

  function Lerp3(a: Vec3, b: Vec3, t: real): (r: Vec3)
    ensures t == 0.0 ==> r == a
    ensures t == 1.0 ==> r == b
  {
    Vec3(Lerp(a.x, b.x, t), Lerp(a.y, b.y, t), Lerp(a.z, b.z, t))
  }

  /** Componentwise rotator lerp (the engine's shortest-path normalisation is not modelled). */
  function LerpRotator(a: Rotator, b: Rotator, t: real): (r: Rotator)
    ensures t == 0.0 ==> r == a
    ensures t == 1.0 ==> r == b
  {
    Rotator(Lerp(a.pitch, b.pitch, t), Lerp(a.yaw, b.yaw, t), Lerp(a.roll, b.roll, t))
  }

  /** FVector *= scalar. */
  function Scale3(v: Vec3, f: real): (r: Vec3)
    ensures f == 1.0 ==> r == v
    ensures f == 0.0 ==> r == Zero3
    ensures 0.0 <= f <= 1.0 ==> Abs(r.x) <= Abs(v.x) && Abs(r.y) <= Abs(v.y) && Abs(r.z) <= Abs(v.z)
  {
    ScaleShrinks(v.x, f);
    ScaleShrinks(v.y, f);
    ScaleShrinks(v.z, f);
    Vec3(v.x * f, v.y * f, v.z * f)
  }

  lemma ScaleShrinks(x: real, f: real)
    ensures 0.0 <= f <= 1.0 ==> Abs(x * f) <= Abs(x)
  {
    if 0.0 <= f <= 1.0 {
      MulNonneg(Abs(x), f);
      MulNonneg(Abs(x), 1.0 - f);
      assert Abs(x) * f + Abs(x) * (1.0 - f) == Abs(x);
      if x < 0.0 {
        assert x * f == -(Abs(x) * f);
      } else {
        assert x * f == Abs(x) * f;
      }
    }
  }
}
