/**
 * The parts of Unity's `Mathf` and `Vector3` that the camera rig relies on,
 * over real numbers. The definitions follow Unity's documented behaviour:
 * `Mathf.Clamp(value, min, max)` returns `min` below the range, `max` above it
 * and `value` otherwise; `Mathf.Clamp01(t)` is `Clamp(t, 0, 1)`; and
 * `Mathf.Lerp(a, b, t)` is `a + (b - a) * Clamp01(t)`, so its interpolation
 * factor is clamped to [0, 1]. That last fact is an assumption about the engine.
 */
module UnityMath {

  /** `Mathf.Clamp`: tested against `min` first, then against `max`. */
  function Clamp(value: real, min: real, max: real): (r: real)
    ensures min <= max ==> min <= r <= max
    ensures min <= value <= max ==> r == value
    ensures value < min ==> r == min
    ensures min <= max < value ==> r == max
  {
    if value < min then min else if value > max then max else value
  }

  /** `Mathf.Clamp01`: an interpolation factor forced into [0, 1]. */
  function Clamp01(t: real): (r: real)
    ensures 0.0 <= r <= 1.0
    ensures 0.0 <= t <= 1.0 ==> r == t
    ensures 1.0 <= t ==> r == 1.0
    ensures t <= 0.0 ==> r == 0.0
  {
    Clamp(t, 0.0, 1.0)
  }

  function Abs(x: real): real
  {
    if x < 0.0 then -x else x
  }

  /** `x` lies in the closed interval spanned by `a` and `b`, in either order. */
  predicate Between(x: real, a: real, b: real)
  {
    (a <= b && a <= x <= b) || (b <= a && b <= x <= a)
  }

  /**
   * `Mathf.Lerp`: never leaves the interval between its end points, stays at
   * `a` for a factor at or below 0 and reaches `b` for a factor at or above 1.
   */
  function Lerp(a: real, b: real, t: real): (r: real)
    ensures Between(r, a, b)
    ensures t <= 0.0 ==> r == a
    ensures 1.0 <= t ==> r == b
  {
    BlendStaysBetween(a, b, Clamp01(t));
    a + (b - a) * Clamp01(t)
  }

  /** Moving a fraction `c` in [0, 1] of the way from `a` to `b` ends between them. */
  lemma BlendStaysBetween(a: real, b: real, c: real)
    requires 0.0 <= c <= 1.0
    ensures Between(a + (b - a) * c, a, b)
  {
    assert b - (a + (b - a) * c) == (b - a) * (1.0 - c);
    if a <= b {
      ProductNonNegative(b - a, c);
      ProductNonNegative(b - a, 1.0 - c);
    } else {
      ProductNonNegative(a - b, c);
      ProductNonNegative(a - b, 1.0 - c);
    }
  }

  lemma ProductNonNegative(x: real, y: real)
    requires 0.0 <= x && 0.0 <= y
    ensures 0.0 <= x * y
  {
  }

  /**
   * One blend step never moves away from the target: the remaining distance
   * to `b` is the old distance scaled by `1 - Clamp01(t)`, and the result is
   * on the same side of `b` as `a` was.
   */
  lemma LerpApproaches(a: real, b: real, t: real)
    ensures Abs(Lerp(a, b, t) - b) == Abs(a - b) * (1.0 - Clamp01(t))
    ensures Abs(Lerp(a, b, t) - b) <= Abs(a - b)
    ensures a <= b ==> Lerp(a, b, t) <= b
    ensures b <= a ==> b <= Lerp(a, b, t)
  {
  }

  /** Unity's `Vector3`. */
  datatype Vector3 = Vector3(x: real, y: real, z: real)

  /** `Vector3 * float`: every component scaled by `k`. */
  function Scale(v: Vector3, k: real): Vector3
  {
    Vector3(v.x * k, v.y * k, v.z * k)
  }

  /** Scaling twice is scaling once by the product, in either order. */
  lemma ScaleCommutes(v: Vector3, j: real, k: real)
    ensures Scale(Scale(v, j), k) == Scale(Scale(v, k), j)
    ensures Scale(Scale(v, j), k) == Scale(v, j * k)
  {
    assert v.x * j * k == v.x * k * j == v.x * (j * k);
    assert v.y * j * k == v.y * k * j == v.y * (j * k);
    assert v.z * j * k == v.z * k * j == v.z * (j * k);
  }
}
