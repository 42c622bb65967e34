/** The server's generic math helpers, over exact reals: `Max`, `Min`,
    `Clamp` (the lower bound applied last) and `SmoothLerp`. */
module AceMath {

  /** `(B < A) ? A : B`: on a tie the second argument is returned. */
  function Max(a: real, b: real): (r: real)
    ensures a <= r && b <= r
    ensures r == a || r == b
    ensures r == a <==> b <= a
  {
    if b < a then a else b
  }

  /** `(A < B) ? A : B`: on a tie the second argument is returned. */
  function Min(a: real, b: real): (r: real)
    ensures r <= a && r <= b
    ensures r == a || r == b
    ensures r == a <==> a <= b
  {
    if a < b then a else b
  }

  /** `Max(Min(X, MaxValue), MinValue)`. */
  function Clamp(x: real, lo: real, hi: real): (r: real)
    ensures lo <= hi ==> lo <= r <= hi
    ensures lo <= x <= hi ==> r == x
    ensures hi < lo ==> r == lo
    ensures lo <= hi && x < lo ==> r == lo
    ensures lo <= hi && hi < x ==> r == hi
  {
    Max(Min(x, hi), lo)
  }

  /** Clamping twice clamps once, whatever the bounds: with an empty range
      every value clamps to the lower bound. */
  lemma ClampIdempotent(x: real, lo: real, hi: real)
    ensures Clamp(Clamp(x, lo, hi), lo, hi) == Clamp(x, lo, hi)
  {
  }

  /** Below this squared distance the target is returned outright. */
  const SnapDistanceSquared: real := 0.00000001

  /** `SmoothLerp`: no speed jumps to the target; so does a squared distance
      under the snap threshold; otherwise the current value moves towards
      the target by the distance times `DeltaTime * InterpSpeed` clamped to
      [0, 1]. */
  function SmoothLerp(current: real, target: real, deltaTime: real, interpSpeed: real): (r: real)
    ensures interpSpeed <= 0.0 ==> r == target
    ensures (target - current) * (target - current) < SnapDistanceSquared ==> r == target
    ensures deltaTime * interpSpeed >= 1.0 ==> r == target
    ensures Min(current, target) <= r <= Max(current, target)
  {
    if interpSpeed <= 0.0 then target
    else
      var dist := target - current;
      if dist * dist < SnapDistanceSquared then target
      else
        var step := Clamp(deltaTime * interpSpeed, 0.0, 1.0);
        StepBetween(current, target, step);
        current + dist * step
  }

  /** Moving a fraction in [0, 1] of the way stays between the two ends. */
  lemma StepBetween(current: real, target: real, step: real)
    requires 0.0 <= step <= 1.0
    ensures Min(current, target) <= current + (target - current) * step <= Max(current, target)
  {
    var dist := target - current;
    assert dist * (1.0 - step) == dist - dist * step;
    if current <= target {
      NonNegativeProduct(dist, step);
      NonNegativeProduct(dist, 1.0 - step);
    } else {
      NonNegativeProduct(-dist, step);
      NonNegativeProduct(-dist, 1.0 - step);
    }
  }

  lemma NonNegativeProduct(a: real, b: real)
    requires 0.0 <= a && 0.0 <= b
    ensures 0.0 <= a * b
  {
  }

  /** A positive speed whose step is non-positive leaves the value where it
      is; between the extremes the result moves strictly towards the target. */
  lemma SmoothLerpProgress(current: real, target: real, deltaTime: real, interpSpeed: real)
    requires interpSpeed > 0.0
    requires (target - current) * (target - current) >= SnapDistanceSquared
    ensures deltaTime * interpSpeed <= 0.0 ==> SmoothLerp(current, target, deltaTime, interpSpeed) == current
    ensures 0.0 < deltaTime * interpSpeed < 1.0 ==>
              var r := SmoothLerp(current, target, deltaTime, interpSpeed);
              Min(current, target) < r < Max(current, target)
  {
    var dist := target - current;
    var step := deltaTime * interpSpeed;
    if 0.0 < step < 1.0 {
      assert dist != 0.0;
      if current < target {
        assert 0.0 < dist * step < dist;
      } else {
        assert dist < dist * step < 0.0;
      }
    }
  }
}

/** The sample server's `Clamp`, which tests the upper bound first. */
module SampleMath {

  import AceMath

  function Clamp(value: real, min: real, max: real): (r: real)
    ensures max < value ==> r == max
    ensures value <= max && value < min ==> r == min
    ensures min <= value <= max ==> r == value
    ensures min <= max ==> min <= r <= max
  {
    if value > max then max
    else if value < min then min
    else value
  }

  /** With a non-empty range clamping twice clamps once. */
  lemma ClampIdempotent(value: real, min: real, max: real)
    requires min <= max
    ensures Clamp(Clamp(value, min, max), min, max) == Clamp(value, min, max)
  {
  }

  /** With an empty range the sample's clamp is not idempotent: a value
      above `max` becomes `max`, which then lies below `min`. */
  lemma ClampNotIdempotentOnEmptyRange()
    ensures Clamp(Clamp(2.0, 1.0, 0.0), 1.0, 0.0) != Clamp(2.0, 1.0, 0.0)
  {
  }

  /** The two clamps agree exactly when the range is non-empty or the value
      is not above `max`; with an empty range the sample's upper bound wins
      where the server's lower bound does. */
  lemma ClampsAgree(value: real, min: real, max: real)
    ensures min <= max ==> Clamp(value, min, max) == AceMath.Clamp(value, min, max)
    ensures max < min && max < value ==> Clamp(value, min, max) == max != AceMath.Clamp(value, min, max)
    ensures max < min && value <= max ==> Clamp(value, min, max) == AceMath.Clamp(value, min, max)
  {
  }
}
