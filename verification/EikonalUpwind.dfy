/**
 The upwind form of the eikonal equation counts only neighbours below the value. When the value of the eikonal solver
 solves that form, told from the neighbours.
 */
module EikonalUpwind {
  import opened Wrappers
  import opened Marching
  import opened Upwind
  import opened Distance
  import opened Eikonal
  import opened EikonalCausal

  /** The squared slope from a neighbour, if that lies below t. */
  function WindSlope(m: Option<real>, h: real, t: real): real
    requires h > 0.0
  {
    if m.Some? && m.value < t then Slope(m, h, t) else 0.0
  }

  function WindSlopes(ms: seq<Option<real>>, h: seq<real>, t: real, n: nat): real
    requires n <= |ms| == |h| && ValidSpacing(h)
  {
    if n == 0 then 0.0 else WindSlopes(ms, h, t, n - 1) + WindSlope(ms[n - 1], h[n - 1], t)
  }

  lemma WindAtMost(m: Option<real>, h: real, t: real)
    requires h > 0.0
    ensures 0.0 <= WindSlope(m, h, t) <= Slope(m, h, t)
    ensures WindSlope(m, h, t) == Slope(m, h, t) <==> m.None? || m.value <= t
    ensures WindSlope(m, h, t) == 0.0 <==> m.None? || t <= m.value
  {
    InversePositive(h);
    if m.Some? {
      SlopeSign(t - m.value, InverseSquared(h));
    }
  }

  lemma SlopeSign(x: real, g: real)
    requires g > 0.0
    ensures Squared(x) * g >= 0.0 && (Squared(x) * g == 0.0 <==> x == 0.0)
  {
    if x != 0.0 {
      MulIsPositive(if x > 0.0 then x else -x, if x > 0.0 then x else -x);
      MulIsPositive(Squared(x), g);
    }
  }

  /** The upwind form is not above the full one, and equal to it just where t is not below a neighbour. */
  lemma {:induction false} WindBelow(ms: seq<Option<real>>, h: seq<real>, t: real, n: nat)
    requires n <= |ms| == |h| && ValidSpacing(h)
    ensures 0.0 <= WindSlopes(ms, h, t, n) <= Slopes(ms, h, t, n)
    ensures WindSlopes(ms, h, t, n) == Slopes(ms, h, t, n) <==> forall k :: 0 <= k < n && ms[k].Some? ==>
             ms[k].value <= t
  {
    if n > 0 {
      WindBelow(ms, h, t, n - 1);
      WindAtMost(ms[n - 1], h[n - 1], t);
    }
  }

  /** It is at least the slope of one axis, and equal to it just where no other neighbour lies below t. */
  lemma {:induction false} WindOfOne(ms: seq<Option<real>>, h: seq<real>, t: real, n: nat, k: nat)
    requires n <= |ms| == |h| && ValidSpacing(h) && k < |ms|
    ensures var one := if k < n then WindSlope(ms[k], h[k], t) else 0.0;
            && WindSlopes(ms, h, t, n) >= one
            && (WindSlopes(ms, h, t, n) == one <==> forall j :: 0 <= j < n && j != k && ms[j].Some? ==>
               t <= ms[j].value)
  {
    if n > 0 {
      WindOfOne(ms, h, t, n - 1, k);
      WindAtMost(ms[n - 1], h[n - 1], t);
    }
  }

  /** A frozen axis with the smallest one-axis estimate. */
  lemma {:induction false} SmallestAxis(ms: seq<Option<real>>, h: seq<real>, speed: real, n: nat) returns (k: nat)
    requires n <= |ms| == |h| && speed > 0.0 && OneAxis(ms, h, speed, n).Some?
    ensures k < n && ms[k].Some? && OneAxis(ms, h, speed, n).value == ms[k].value + h[k] / speed
  {
    if ms[n - 1].None? || (OneAxis(ms, h, speed, n - 1).Some?
                           && OneAxis(ms, h, speed, n - 1).value <= ms[n - 1].value + h[n - 1] / speed) {
      k := SmallestAxis(ms, h, speed, n - 1);
    } else {
      k := n - 1;
    }
  }

  /** One axis whose estimate no other neighbour lies below. */
  predicate OneAhead(h: seq<real>, speed: real, ms: seq<Option<real>>)
    requires |ms| == |h| && speed > 0.0
  {
    exists k :: 0 <= k < |ms| && Ahead(h, speed, ms, k)
  }

  predicate Ahead(h: seq<real>, speed: real, ms: seq<Option<real>>, k: nat)
    requires k < |ms| == |h| && speed > 0.0
  {
    ms[k].Some? && forall j :: 0 <= j < |ms| && j != k && ms[j].Some? ==> ms[k].value + h[k] / speed <= ms[j].value
  }

  lemma AheadIsSmallest(h: seq<real>, speed: real, ms: seq<Option<real>>, k: nat)
    requires k < |ms| == |h| && ValidSpacing(h) && speed > 0.0 && Ahead(h, speed, ms, k)
    ensures OneAxis(ms, h, speed, |ms|) == Some(ms[k].value + h[k] / speed)
  {
    var l := ms[k].value + h[k] / speed;
    OneAxisAtMost(ms, h, speed, |ms|, k);
    forall j | 0 <= j < |ms| && ms[j].Some?
      ensures l <= ms[j].value + h[j] / speed
    {
      DividePositive(h[j], speed);
    }
    OneAxisAtLeast(ms, h, speed, |ms|, l);
  }

  lemma StepWind(m: real, h: real, speed: real)
    requires h > 0.0 && speed > 0.0
    ensures WindSlope(Some(m), h, m + h / speed) == InverseSquared(speed)
  {
    DividePositive(h, speed);
    SlopeAfterStep(m, h, speed, h / speed);
  }

  /** The smallest one-axis estimate solves the upwind form exactly when no other neighbour lies below it. */
  lemma FallbackSolvesIff(h: seq<real>, speed: real, ms: seq<Option<real>>, t: real)
    requires |ms| == |h| && ValidSpacing(h) && speed > 0.0 && OneAxis(ms, h, speed, |ms|) == Some(t)
    ensures WindSlopes(ms, h, t, |ms|) == InverseSquared(speed) <==> OneAhead(h, speed, ms)
  {
    var k := SmallestAxis(ms, h, speed, |ms|);
    StepWind(ms[k].value, h[k], speed);
    WindOfOne(ms, h, t, |ms|, k);
    if WindSlopes(ms, h, t, |ms|) == InverseSquared(speed) {
      assert Ahead(h, speed, ms, k);
    }
    if j :| 0 <= j < |ms| && Ahead(h, speed, ms, j) {
      AheadIsSmallest(h, speed, ms, j);
      StepWind(ms[j].value, h[j], speed);
      WindOfOne(ms, h, t, |ms|, j);
    }
  }

  /** Every neighbour lies where the root is not below it. */
  ghost predicate AllBehind(h: seq<real>, speed: real, ms: seq<Option<real>>)
    requires |ms| == |h| && ValidSpacing(h) && speed > 0.0
  {
    forall k :: 0 <= k < |ms| && ms[k].Some? ==> Guard(h, speed, ms, ms[k].value)
  }

  /** The root solves the upwind form exactly when it is not below a neighbour. */
  lemma RootSolvesIff(sqrt: real -> real, h: seq<real>, speed: real, ms: seq<Option<real>>, t: real)
    requires ExactSqrt(sqrt) && |ms| == |h| && ValidSpacing(h) && speed > 0.0 && Count(ms, |ms|) > 0
    requires Root(sqrt, h, speed, ms) == Some(t)
    ensures WindSlopes(ms, h, t, |ms|) == InverseSquared(speed) <==> AllBehind(h, speed, ms)
  {
    RootExact(sqrt, h, speed, ms, t);
    WindBelow(ms, h, t, |ms|);
    forall k | 0 <= k < |ms| && ms[k].Some?
      ensures ms[k].value <= t <==> Guard(h, speed, ms, ms[k].value)
    {
      GuardIff(sqrt, h, speed, ms, ms[k].value);
    }
  }

  /**
   A returned time solves the upwind form exactly when the root is used and not below a neighbour, or one axis is so
   far ahead that no other neighbour lies below its estimate.
   */
  lemma SolvesUpwindIff(sqrt: real -> real, fallback: bool, h: seq<real>, speed: real, ms: seq<Option<real>>, t: real)
    requires ExactSqrt(sqrt) && |ms| == |h| && ValidSpacing(h) && speed > 0.0 && Count(ms, |ms|) > 0
    requires EikonalSolve(sqrt, fallback, h, speed, ms) == Time(t)
    ensures WindSlopes(ms, h, t, |ms|) == InverseSquared(speed) <==>
              if RootUsable(fallback, h, speed, ms) then AllBehind(h, speed, ms) else OneAhead(h, speed, ms)
  {
    UsesRootIff(sqrt, fallback, h, speed, ms);
    if RootUsable(fallback, h, speed, ms) {
      RootSolvesIff(sqrt, h, speed, ms, t);
    } else {
      FallbackSolvesIff(h, speed, ms, t);
    }
  }
}
