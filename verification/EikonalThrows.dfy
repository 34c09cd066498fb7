/** When the eikonal solver throws, told from the neighbours, the spacing and the speed. */
module EikonalThrows {
  import opened Wrappers
  import opened Marching
  import opened Upwind
  import opened Distance
  import opened Eikonal
  import opened EikonalCausal

  /** Some axis has an estimate before the time zero, or none has an estimate. */
  predicate StepBeforeZero(h: seq<real>, speed: real, ms: seq<Option<real>>)
    requires |ms| == |h| && speed > 0.0
  {
    || (forall k :: 0 <= k < |ms| ==> ms[k].None?)
    || exists k :: 0 <= k < |ms| && ms[k].Some? && ms[k].value + h[k] / speed < 0.0
  }

  lemma {:induction false} OneAxisSome(ms: seq<Option<real>>, h: seq<real>, speed: real, n: nat)
    requires n <= |ms| == |h| && speed > 0.0
    ensures OneAxis(ms, h, speed, n).Some? <==> exists k :: 0 <= k < n && ms[k].Some?
  {
    if n > 0 {
      OneAxisSome(ms, h, speed, n - 1);
    }
  }

  /** The one-axis estimate is missing or negative exactly then. */
  lemma OneAxisThrows(h: seq<real>, speed: real, ms: seq<Option<real>>)
    requires |ms| == |h| && speed > 0.0
    ensures var t := OneAxis(ms, h, speed, |ms|);
            t.None? || t.value < 0.0 <==> StepBeforeZero(h, speed, ms)
  {
    OneAxisSome(ms, h, speed, |ms|);
    OneAxisAtLeast(ms, h, speed, |ms|, 0.0);
  }

  /**
   The solver throws exactly when there is no root at or after zero and, with several frozen axes, the fallback is off
   or, otherwise, a step along some frozen axis ends before zero.
   */
  lemma ThrownIff(sqrt: real -> real, fallback: bool, h: seq<real>, speed: real, ms: seq<Option<real>>)
    requires ExactSqrt(sqrt) && |ms| == |h| && ValidSpacing(h) && speed > 0.0
    ensures EikonalSolve(sqrt, fallback, h, speed, ms).Thrown? <==>
              && !RootUsable(true, h, speed, ms)
              && ((Count(ms, |ms|) > 1 && !fallback) || StepBeforeZero(h, speed, ms))
  {
    UsesRootIff(sqrt, true, h, speed, ms);
    OneAxisThrows(h, speed, ms);
  }

  /** With the fallback on it never throws where a neighbour is frozen and none before zero. */
  lemma NeverBeforeZero(sqrt: real -> real, h: seq<real>, speed: real, ms: seq<Option<real>>)
    requires ExactSqrt(sqrt) && |ms| == |h| && ValidSpacing(h) && speed > 0.0
    requires (exists k :: 0 <= k < |ms| && ms[k].Some?)
    requires forall k :: 0 <= k < |ms| && ms[k].Some? ==> ms[k].value >= 0.0
    ensures EikonalSolve(sqrt, true, h, speed, ms).Time?
  {
    ThrownIff(sqrt, true, h, speed, ms);
    forall k | 0 <= k < |ms| && ms[k].Some?
      ensures ms[k].value + h[k] / speed >= 0.0
    {
      DividePositive(h[k], speed);
    }
  }

  /** The time it returns is the estimate, whose lower bounds are exact. */
  lemma ReturnsIff(sqrt: real -> real, fallback: bool, h: seq<real>, speed: real, ms: seq<Option<real>>, t: real)
    requires ExactSqrt(sqrt) && |ms| == |h| && ValidSpacing(h) && speed > 0.0
    requires EikonalSolve(sqrt, fallback, h, speed, ms) == Time(t)
    ensures t >= 0.0 && forall l: real :: l <= t <==> AtLeastGuard(fallback, h, speed, ms, l)
  {
    forall l: real
      ensures l <= t <==> AtLeastGuard(fallback, h, speed, ms, l)
    {
      EstimateAtLeastIff(sqrt, fallback, h, speed, ms, l);
    }
  }
}
