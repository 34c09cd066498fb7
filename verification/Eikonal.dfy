/** The eikonal solver for any dimension, spacing and speed, over exact reals. */
module Eikonal {
  import opened Wrappers
  import opened Grids
  import opened NarrowBands
  import opened Marching
  import opened Upwind
  import opened Distance

  function InverseSquared(x: real): real
    requires x > 0.0
  {
    MulIsPositive(x, x);
    1.0 / (x * x)
  }

  ghost predicate ValidSpacing(h: seq<real>)
  {
    forall k :: 0 <= k < |h| ==> h[k] > 0.0
  }

  function Count(ms: seq<Option<real>>, n: nat): nat
    requires n <= |ms|
  {
    if n == 0 then 0 else Count(ms, n - 1) + if ms[n - 1].Some? then 1 else 0
  }

  /** What one axis adds to the coefficients of the quadratic; an axis without a frozen neighbour adds nothing. */
  function T0(m: Option<real>, h: real): real
    requires h > 0.0
  {
    if m.Some? then Squared(m.value) * InverseSquared(h) else 0.0
  }

  function T1(m: Option<real>, h: real): real
    requires h > 0.0
  {
    if m.Some? then -2.0 * m.value * InverseSquared(h) else 0.0
  }

  function T2(m: Option<real>, h: real): real
    requires h > 0.0
  {
    if m.Some? then InverseSquared(h) else 0.0
  }

  /** Coefficients of the quadratic over the first n axes. */
  function Q0(ms: seq<Option<real>>, h: seq<real>, n: nat): real
    requires n <= |ms| == |h| && ValidSpacing(h)
  {
    if n == 0 then 0.0 else Q0(ms, h, n - 1) + T0(ms[n - 1], h[n - 1])
  }

  function Q1(ms: seq<Option<real>>, h: seq<real>, n: nat): real
    requires n <= |ms| == |h| && ValidSpacing(h)
  {
    if n == 0 then 0.0 else Q1(ms, h, n - 1) + T1(ms[n - 1], h[n - 1])
  }

  function Q2(ms: seq<Option<real>>, h: seq<real>, n: nat): real
    requires n <= |ms| == |h| && ValidSpacing(h)
  {
    if n == 0 then 0.0 else Q2(ms, h, n - 1) + T2(ms[n - 1], h[n - 1])
  }

  /** Smallest one-axis estimate over the first n axes. */
  function OneAxis(ms: seq<Option<real>>, h: seq<real>, speed: real, n: nat): (t: Option<real>)
    requires n <= |ms| == |h| && speed > 0.0
  {
    if n == 0 then None
    else if ms[n - 1].None? then OneAxis(ms, h, speed, n - 1)
    else Lower(OneAxis(ms, h, speed, n - 1), ms[n - 1].value + h[n - 1] / speed)
  }

  /** The larger real root of q0 + q1 x + q2 x^2; None stands for NaN. */
  function SolveEikonalQuadratic(sqrt: real -> real, q0: real, q1: real, q2: real): Option<real>
    requires q2 > 0.0
  {
    var discriminant := q1 * q1 - 4.0 * q2 * q0;
    if discriminant < 0.0 then None else Some((-q1 + sqrt(discriminant)) / (2.0 * q2))
  }

  lemma {:induction false} Q2Positive(ms: seq<Option<real>>, h: seq<real>, n: nat)
    requires n <= |ms| == |h| && ValidSpacing(h)
    ensures Q2(ms, h, n) >= 0.0 && (Count(ms, n) > 0 ==> Q2(ms, h, n) > 0.0)
  {
    if n > 0 {
      Q2Positive(ms, h, n - 1);
      InversePositive(h[n - 1]);
    }
  }

  lemma InversePositive(x: real)
    requires x > 0.0
    ensures InverseSquared(x) > 0.0
  {
    MulIsPositive(x, x);
    assert x * x == Mul(x, x);
  }

  /** The larger root of the eikonal equation multiplied out. */
  function Root(sqrt: real -> real, h: seq<real>, speed: real, ms: seq<Option<real>>): Option<real>
    requires |ms| == |h| && ValidSpacing(h) && speed > 0.0 && Count(ms, |ms|) > 0
  {
    Q2Positive(ms, h, |ms|);
    SolveEikonalQuadratic(sqrt, -InverseSquared(speed) + Q0(ms, h, |ms|), Q1(ms, h, |ms|), Q2(ms, h, |ms|))
  }

  /** The root, or the one-axis fallback where the root is NaN or negative. */
  function Estimate(sqrt: real -> real, fallback: bool, h: seq<real>, speed: real, ms: seq<Option<real>>): Option<real>
    requires |ms| == |h| && ValidSpacing(h) && speed > 0.0
  {
    if Count(ms, |ms|) <= 1 then OneAxis(ms, h, speed, |ms|)
    else
      var root := Root(sqrt, h, speed, ms);
      if fallback && !(root.Some? && root.value >= 0.0) then OneAxis(ms, h, speed, |ms|) else root
  }

  function EikonalSolve(sqrt: real -> real, fallback: bool, h: seq<real>, speed: real, ms: seq<Option<real>>): Solved
    requires |ms| == |h| && ValidSpacing(h) && speed > 0.0
  {
    var t := Estimate(sqrt, fallback, h, speed, ms);
    if t.Some? && t.value >= 0.0 then Time(t.value) else Thrown
  }

  /** The squared slope from the frozen neighbour of one axis up to t. */
  function Slope(m: Option<real>, h: real, t: real): real
    requires h > 0.0
  {
    if m.Some? then Squared(t - m.value) * InverseSquared(h) else 0.0
  }

  /** The left side of the eikonal equation over the first n axes. */
  function Slopes(ms: seq<Option<real>>, h: seq<real>, t: real, n: nat): real
    requires n <= |ms| == |h| && ValidSpacing(h)
  {
    if n == 0 then 0.0 else Slopes(ms, h, t, n - 1) + Slope(ms[n - 1], h[n - 1], t)
  }

  function Quadratic(q0: real, q1: real, q2: real, x: real): real
  {
    q2 * (x * x) + q1 * x + q0
  }

  /** The quadratic that is solved is the eikonal equation multiplied out. */
  lemma {:induction false} SlopesQuadratic(ms: seq<Option<real>>, h: seq<real>, t: real, n: nat)
    requires n <= |ms| == |h| && ValidSpacing(h)
    ensures Slopes(ms, h, t, n) == Quadratic(Q0(ms, h, n), Q1(ms, h, n), Q2(ms, h, n), t)
  {
    if n > 0 {
      SlopesQuadratic(ms, h, t, n - 1);
      SlopeQuadratic(ms[n - 1], h[n - 1], t);
      QuadraticsAdd(Q0(ms, h, n - 1), Q1(ms, h, n - 1), Q2(ms, h, n - 1),
                    T0(ms[n - 1], h[n - 1]), T1(ms[n - 1], h[n - 1]), T2(ms[n - 1], h[n - 1]), t);
    }
  }

  lemma SlopeQuadratic(m: Option<real>, h: real, t: real)
    requires h > 0.0
    ensures Slope(m, h, t) == Quadratic(T0(m, h), T1(m, h), T2(m, h), t)
  {
    if m.Some? {
      SquareScaled(t, m.value, InverseSquared(h));
    }
  }

  lemma QuadraticsAdd(q0: real, q1: real, q2: real, p0: real, p1: real, p2: real, t: real)
    ensures Quadratic(q0 + p0, q1 + p1, q2 + p2, t) == Quadratic(q0, q1, q2, t) + Quadratic(p0, p1, p2, t)
  {
    DistributeQuadratic(q2, p2, t * t);
    DistributeQuadratic(q1, p1, t);
  }

  lemma SquareScaled(t: real, m: real, g: real)
    ensures Squared(t - m) * g == g * (t * t) + -2.0 * m * g * t + Squared(m) * g
  {
    SquareDifference(t, m);
    var a, b, c := t * t, t * m, m * m;
    assert (a - 2.0 * b + c) * g == a * g - 2.0 * (b * g) + c * g;
    assert -2.0 * m * g * t == -2.0 * (b * g);
  }

  lemma DistributeQuadratic(a: real, b: real, x: real)
    ensures (a + b) * x == a * x + b * x
  {
  }

  /** The slope of the quadratic at l. */
  function SlopeAt(q1: real, q2: real, l: real): real
  {
    2.0 * q2 * l + q1
  }

  /** The quadratic is not yet growing at l. */
  predicate Falling(q1: real, q2: real, l: real)
  {
    SlopeAt(q1, q2, l) <= 0.0
  }

  /**
   For a quadratic opening upwards, the larger root is at least l exactly when l is below the vertex or between the
   roots.
   */
  lemma RootAtLeast(sqrt: real -> real, q0: real, q1: real, q2: real, l: real)
    requires ExactSqrt(sqrt) && q2 > 0.0 && q1 * q1 - 4.0 * q2 * q0 >= 0.0
    ensures var t := SolveEikonalQuadratic(sqrt, q0, q1, q2).value;
            && Quadratic(q0, q1, q2, t) == 0.0
            && (l <= t <==> Falling(q1, q2, l) || Quadratic(q0, q1, q2, l) <= 0.0)
  {
    var d := q1 * q1 - 4.0 * q2 * q0;
    var r := sqrt(d);
    var t := (-q1 + r) / (2.0 * q2);
    var w := 2.0 * q2 * l + q1;
    assert 2.0 * q2 * t == -q1 + r;
    CompletedSquare(q0, q1, q2, t, r);
    CompletedSquare(q0, q1, q2, l, w);
    ScaledOrder(q2, l, t);
    ScaledSign(q2, Quadratic(q0, q1, q2, l));
    ScaledSign(q2, Quadratic(q0, q1, q2, t));
    if w > 0.0 {
      SquareCompare(w, r);
    }
  }

  lemma CompletedSquare(q0: real, q1: real, q2: real, x: real, w: real)
    requires w == 2.0 * q2 * x + q1
    ensures w * w - (q1 * q1 - 4.0 * q2 * q0) == 4.0 * (q2 * Quadratic(q0, q1, q2, x))
  {
    var y := q2 * x;
    assert w * w == 4.0 * (y * y) + 4.0 * (y * q1) + q1 * q1;
    assert q2 * (q2 * (x * x)) == y * y;
    assert q2 * (q1 * x) == y * q1;
    assert q2 * (q2 * (x * x) + q1 * x + q0) == q2 * (q2 * (x * x)) + q2 * (q1 * x) + q2 * q0;
  }

  lemma ScaledOrder(q: real, l: real, t: real)
    requires q > 0.0
    ensures l <= t <==> 2.0 * q * l <= 2.0 * q * t
  {
  }

  lemma ScaledSign(q: real, f: real)
    requires q > 0.0
    ensures f <= 0.0 <==> q * f <= 0.0
    ensures f == 0.0 <==> q * f == 0.0
  {
  }

  lemma SquareCompare(w: real, r: real)
    requires w >= 0.0 && r >= 0.0
    ensures w <= r <==> w * w <= r * r
  {
    if w <= r {
      SquareGrows(w, r);
    } else {
      SquareGrows(r, w);
    }
  }

  lemma RootShifted(sqrt: real -> real, q0: real, q1: real, q2: real, w: real, l: real)
    requires ExactSqrt(sqrt) && q2 > 0.0 && SolveEikonalQuadratic(sqrt, -w + q0, q1, q2).Some?
    ensures var t := SolveEikonalQuadratic(sqrt, -w + q0, q1, q2).value;
            && Quadratic(q0, q1, q2, t) == w
            && (l <= t <==> Falling(q1, q2, l) || Quadratic(q0, q1, q2, l) <= w)
  {
    RootAtLeast(sqrt, -w + q0, q1, q2, l);
  }

  /** The root solves the eikonal equation, and it is at least l exactly when the guard on l holds. */
  lemma RootExact(sqrt: real -> real, h: seq<real>, speed: real, ms: seq<Option<real>>, l: real)
    requires ExactSqrt(sqrt) && |ms| == |h| && ValidSpacing(h) && speed > 0.0 && Count(ms, |ms|) > 0
    requires Root(sqrt, h, speed, ms).Some?
    ensures Slopes(ms, h, Root(sqrt, h, speed, ms).value, |ms|) == InverseSquared(speed)
    ensures l <= Root(sqrt, h, speed, ms).value <==>
              Falling(Q1(ms, h, |ms|), Q2(ms, h, |ms|), l) || Slopes(ms, h, l, |ms|) <= InverseSquared(speed)
  {
    Q2Positive(ms, h, |ms|);
    RootShifted(sqrt, Q0(ms, h, |ms|), Q1(ms, h, |ms|), Q2(ms, h, |ms|), InverseSquared(speed), l);
    SlopesQuadratic(ms, h, Root(sqrt, h, speed, ms).value, |ms|);
    SlopesQuadratic(ms, h, l, |ms|);
  }

  /** Whatever the solver returns solves the eikonal equation or is the smallest one-axis estimate. */
  lemma EstimateMeans(sqrt: real -> real, fallback: bool, h: seq<real>, speed: real, ms: seq<Option<real>>)
    requires ExactSqrt(sqrt) && |ms| == |h| && ValidSpacing(h) && speed > 0.0
    requires Estimate(sqrt, fallback, h, speed, ms).Some?
    ensures var t := Estimate(sqrt, fallback, h, speed, ms);
            Slopes(ms, h, t.value, |ms|) == InverseSquared(speed) || t == OneAxis(ms, h, speed, |ms|)
  {
    if Count(ms, |ms|) > 1 && Root(sqrt, h, speed, ms).Some? {
      RootExact(sqrt, h, speed, ms, 0.0);
    }
  }

  lemma SlopeNonNegative(m: Option<real>, h: real, t: real)
    requires h > 0.0
    ensures Slope(m, h, t) >= 0.0
  {
    if m.Some? {
      InversePositive(h);
      ScaledNonNegative(Squared(t - m.value), InverseSquared(h));
    }
  }

  lemma ScaledNonNegative(x: real, g: real)
    requires x >= 0.0 && g > 0.0
    ensures Mul(x, g) >= 0.0 && Mul(x, g) == x * g
  {
  }

  lemma {:induction false} SlopeAtMostSum(ms: seq<Option<real>>, h: seq<real>, t: real, n: nat, k: nat)
    requires k < n <= |ms| == |h| && ValidSpacing(h)
    ensures 0.0 <= Slope(ms[k], h[k], t) <= Slopes(ms, h, t, n)
  {
    SlopeNonNegative(ms[n - 1], h[n - 1], t);
    if k < n - 1 {
      SlopeAtMostSum(ms, h, t, n - 1, k);
    } else {
      SlopesNonNegative(ms, h, t, n - 1);
    }
  }

  lemma {:induction false} SlopesNonNegative(ms: seq<Option<real>>, h: seq<real>, t: real, n: nat)
    requires n <= |ms| == |h| && ValidSpacing(h)
    ensures Slopes(ms, h, t, n) >= 0.0
  {
    if n > 0 {
      SlopeNonNegative(ms[n - 1], h[n - 1], t);
      SlopesNonNegative(ms, h, t, n - 1);
    }
  }

  /** A rise whose squared slope is at most 1/speed^2 is at most h/speed. */
  lemma RiseBounded(x: real, h: real, speed: real)
    requires h > 0.0 && speed > 0.0
    ensures Squared(x) * InverseSquared(h) <= InverseSquared(speed) ==> x <= h / speed
    ensures 0.0 <= x <= h / speed ==> Squared(x) * InverseSquared(h) <= InverseSquared(speed)
  {
    if x >= 0.0 {
      var y := x * speed;
      ClearDenominators(x, h, speed);
      SquareCompare(y, h);
      DivideOrder(x, h, speed);
    } else {
      DividePositive(h, speed);
    }
  }

  lemma DividePositive(h: real, speed: real)
    requires h > 0.0 && speed > 0.0
    ensures h / speed > 0.0
  {
  }

  lemma DivideOrder(x: real, h: real, speed: real)
    requires speed > 0.0
    ensures x * speed <= h <==> x <= h / speed
  {
    assert h / speed * speed == h;
  }

  lemma ClearDenominators(x: real, h: real, speed: real)
    requires h > 0.0 && speed > 0.0
    ensures Squared(x) * InverseSquared(h) <= InverseSquared(speed) <==> (x * speed) * (x * speed) <= h * h
  {
    var a := h * h;
    var b := speed * speed;
    MulIsPositive(h, h);
    MulIsPositive(speed, speed);
    assert a == Mul(h, h) && b == Mul(speed, speed);
    CrossMultiply(Squared(x), a, b);
    assert Squared(x) * b == (x * speed) * (x * speed);
  }

  lemma CrossMultiply(x: real, a: real, b: real)
    requires a > 0.0 && b > 0.0
    ensures x * (1.0 / a) <= 1.0 / b <==> x * b <= a
  {
    var u := 1.0 / a;
    var v := 1.0 / b;
    assert u * a == 1.0 && v * b == 1.0;
    MulIsPositive(a, b);
    var ab := Mul(a, b);
    assert x * u * ab == x * b * (u * a);
    assert v * ab == a * (v * b);
    ScaleBoth(x * u, v, ab);
  }

  lemma ScaleBoth(x: real, y: real, c: real)
    requires c > 0.0
    ensures x <= y <==> x * c <= y * c
  {
  }

  lemma {:induction false} OneAxisAtMost(ms: seq<Option<real>>, h: seq<real>, speed: real, n: nat, k: nat)
    requires k < n <= |ms| == |h| && speed > 0.0 && ms[k].Some?
    ensures OneAxis(ms, h, speed, n).Some? && OneAxis(ms, h, speed, n).value <= ms[k].value + h[k] / speed
  {
    if k < n - 1 {
      OneAxisAtMost(ms, h, speed, n - 1, k);
    }
  }

  lemma SlopeBounded(m: real, h: real, speed: real, t: real)
    requires h > 0.0 && speed > 0.0 && Slope(Some(m), h, t) <= InverseSquared(speed)
    ensures t <= m + h / speed
  {
    RiseBounded(t - m, h, speed);
  }

  /** A solve value is never more than one step beyond any frozen neighbour, in any dimension. */
  lemma EstimateAtMostStep(sqrt: real -> real, fallback: bool, h: seq<real>, speed: real, ms: seq<Option<real>>, k: nat)
    requires ExactSqrt(sqrt) && |ms| == |h| && ValidSpacing(h) && speed > 0.0
    requires k < |ms| && ms[k].Some? && Estimate(sqrt, fallback, h, speed, ms).Some?
    ensures Estimate(sqrt, fallback, h, speed, ms).value <= ms[k].value + h[k] / speed
  {
    var t := Estimate(sqrt, fallback, h, speed, ms).value;
    EstimateMeans(sqrt, fallback, h, speed, ms);
    if Slopes(ms, h, t, |ms|) == InverseSquared(speed) {
      SlopeAtMostSum(ms, h, t, |ms|, k);
      SlopeBounded(ms[k].value, h[k], speed, t);
    } else {
      OneAxisAtMost(ms, h, speed, |ms|, k);
    }
  }

  /** Whether the solver uses the root of the full equation rather than a one-axis estimate. */
  predicate UsesRoot(sqrt: real -> real, fallback: bool, h: seq<real>, speed: real, ms: seq<Option<real>>)
    requires |ms| == |h| && ValidSpacing(h) && speed > 0.0
  {
    Count(ms, |ms|) > 1 && Root(sqrt, h, speed, ms).Some? && (!fallback || Root(sqrt, h, speed, ms).value >= 0.0)
  }

  lemma {:induction false} OneAxisAtLeast(ms: seq<Option<real>>, h: seq<real>, speed: real, n: nat, l: real)
    requires n <= |ms| == |h| && speed > 0.0
    ensures (OneAxis(ms, h, speed, n).Some? ==> l <= OneAxis(ms, h, speed, n).value) <==>
              forall k :: 0 <= k < n && ms[k].Some? ==> l <= ms[k].value + h[k] / speed
  {
    if n > 0 {
      OneAxisAtLeast(ms, h, speed, n - 1, l);
    }
  }
}
