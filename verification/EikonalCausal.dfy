/**
 When the eikonal solver solves the equation, and when freezing a neighbour at the time l can bring its estimate
 below l. Only the one-axis fallback on three or more axes can.
 */
module EikonalCausal {
  import opened Wrappers
  import opened Marching
  import opened Upwind
  import opened Distance
  import opened Eikonal

  /** With no frozen axis among the first n, nothing adds to the equation. */
  lemma {:induction false} NoAxis(ms: seq<Option<real>>, h: seq<real>, t: real, n: nat)
    requires n <= |ms| == |h| && ValidSpacing(h) && Count(ms, n) == 0
    ensures Slopes(ms, h, t, n) == Vertex(ms, h, t, n) == 0.0
    ensures forall k :: 0 <= k < n ==> ms[k].None?
  {
    if n > 0 {
      NoAxis(ms, h, t, n - 1);
    }
  }

  /** With one, only that axis does. */
  lemma {:induction false} SingleAxis(ms: seq<Option<real>>, h: seq<real>, t: real, n: nat) returns (k: nat)
    requires n <= |ms| == |h| && ValidSpacing(h) && Count(ms, n) == 1
    ensures k < n && ms[k].Some? && forall j :: 0 <= j < n && j != k ==> ms[j].None?
    ensures Slopes(ms, h, t, n) == Slope(ms[k], h[k], t)
    ensures Vertex(ms, h, t, n) == VertexOf(ms[k], h[k], t)
  {
    if ms[n - 1].Some? {
      NoAxis(ms, h, t, n - 1);
      k := n - 1;
    } else {
      k := SingleAxis(ms, h, t, n - 1);
    }
  }

  lemma {:induction false} OnlyEstimate(ms: seq<Option<real>>, h: seq<real>, speed: real, n: nat, k: nat)
    requires k < n <= |ms| == |h| && speed > 0.0 && ms[k].Some? && forall j :: 0 <= j < n && j != k ==> ms[j].None?
    ensures OneAxis(ms, h, speed, n) == Some(ms[k].value + h[k] / speed)
  {
    if k < n - 1 {
      OnlyEstimate(ms, h, speed, n - 1, k);
    } else {
      NoEstimate(ms, h, speed, k);
    }
  }

  lemma {:induction false} NoEstimate(ms: seq<Option<real>>, h: seq<real>, speed: real, n: nat)
    requires n <= |ms| == |h| && speed > 0.0 && forall j :: 0 <= j < n ==> ms[j].None?
    ensures OneAxis(ms, h, speed, n) == None
  {
    if n > 0 {
      NoEstimate(ms, h, speed, n - 1);
    }
  }

  /** One step along an axis has exactly the slope that the speed allows. */
  lemma StepSlope(h: real, speed: real)
    requires h > 0.0 && speed > 0.0
    ensures Squared(h / speed) * InverseSquared(h) == InverseSquared(speed)
  {
    RiseBounded(h / speed, h, speed);
    DividePositive(h, speed);
    StepSlopeAtLeast(h, speed);
  }

  lemma StepSlopeAtLeast(h: real, speed: real)
    requires h > 0.0 && speed > 0.0
    ensures Squared(h / speed) * InverseSquared(h) >= InverseSquared(speed)
  {
    var x := h / speed;
    assert x * speed == h;
    var a, b := h * h, speed * speed;
    MulIsPositive(h, h);
    MulIsPositive(speed, speed);
    assert Mul(h, h) == a && Mul(speed, speed) == b;
    assert Squared(x) * b == (x * speed) * (x * speed);
    ExactRatio(Squared(x), a, b);
  }

  lemma ExactRatio(x: real, a: real, b: real)
    requires a > 0.0 && b > 0.0 && x * b == a
    ensures x * (1.0 / a) >= 1.0 / b
  {
    var u, v := 1.0 / a, 1.0 / b;
    assert u * a == 1.0 && v * b == 1.0;
    assert x == x * (b * v) == (x * b) * v;
    assert x == a * v;
    assert x * u == (a * u) * v;
  }

  /** The discriminant of the equation and the side of the vertex, as a caller can work them out from the neighbours. */
  predicate RootUsable(fallback: bool, h: seq<real>, speed: real, ms: seq<Option<real>>)
    requires |ms| == |h| && ValidSpacing(h) && speed > 0.0
  {
    var q0, q1, q2 := Q0(ms, h, |ms|), Q1(ms, h, |ms|), Q2(ms, h, |ms|);
    && Count(ms, |ms|) > 1 && q1 * q1 >= 4.0 * q2 * (q0 - InverseSquared(speed))
    && (!fallback || q1 <= 0.0 || q0 <= InverseSquared(speed))
  }

  lemma UsesRootIff(sqrt: real -> real, fallback: bool, h: seq<real>, speed: real, ms: seq<Option<real>>)
    requires ExactSqrt(sqrt) && |ms| == |h| && ValidSpacing(h) && speed > 0.0
    ensures UsesRoot(sqrt, fallback, h, speed, ms) <==> RootUsable(fallback, h, speed, ms)
  {
    if Count(ms, |ms|) > 1 {
      Q2Positive(ms, h, |ms|);
      if Root(sqrt, h, speed, ms).Some? {
        RootExact(sqrt, h, speed, ms, 0.0);
        SlopesQuadratic(ms, h, 0.0, |ms|);
      }
    }
  }

  /** Where the slopes are within the bound, there is a root, and it is not below. */
  lemma BelowRoot(sqrt: real -> real, h: seq<real>, speed: real, ms: seq<Option<real>>, t: real)
    requires ExactSqrt(sqrt) && |ms| == |h| && ValidSpacing(h) && speed > 0.0 && Count(ms, |ms|) > 0
    requires Slopes(ms, h, t, |ms|) <= InverseSquared(speed)
    ensures Root(sqrt, h, speed, ms).Some? && t <= Root(sqrt, h, speed, ms).value
  {
    Q2Positive(ms, h, |ms|);
    SlopesQuadratic(ms, h, t, |ms|);
    RealRoots(sqrt, Q0(ms, h, |ms|), Q1(ms, h, |ms|), Q2(ms, h, |ms|), InverseSquared(speed), t);
    RootExact(sqrt, h, speed, ms, t);
  }

  lemma RealRoots(sqrt: real -> real, q0: real, q1: real, q2: real, w: real, t: real)
    requires q2 > 0.0 && Quadratic(q0, q1, q2, t) <= w
    ensures SolveEikonalQuadratic(sqrt, -w + q0, q1, q2).Some?
  {
    var f := Quadratic(-w + q0, q1, q2, t);
    var p := 2.0 * q2 * t + q1;
    CompletedSquare(-w + q0, q1, q2, t, p);
    ScaledSign(q2, f);
    SquareNotNegative(p);
  }

  lemma SquareNotNegative(x: real)
    ensures x * x >= 0.0
  {
  }

  /** With one frozen axis a step along it solves the equation. */
  lemma SingleSolves(h: seq<real>, speed: real, ms: seq<Option<real>>, t: real)
    requires |ms| == |h| && ValidSpacing(h) && speed > 0.0 && Count(ms, |ms|) == 1
    requires OneAxis(ms, h, speed, |ms|) == Some(t)
    ensures Slopes(ms, h, t, |ms|) == InverseSquared(speed)
  {
    var k := SingleAxis(ms, h, t, |ms|);
    OnlyEstimate(ms, h, speed, |ms|, k);
    SlopeAfterStep(ms[k].value, h[k], speed, h[k] / speed);
  }

  lemma SlopeAfterStep(m: real, h: real, speed: real, x: real)
    requires h > 0.0 && speed > 0.0 && x == h / speed
    ensures Slope(Some(m), h, m + x) == InverseSquared(speed)
  {
    assert m + x - m == x;
    StepSlope(h, speed);
  }

  /** A returned time solves the equation exactly when one axis is frozen or the root of several is used. */
  lemma SolvesIff(sqrt: real -> real, fallback: bool, h: seq<real>, speed: real, ms: seq<Option<real>>, t: real)
    requires ExactSqrt(sqrt) && |ms| == |h| && ValidSpacing(h) && speed > 0.0 && Count(ms, |ms|) > 0
    requires EikonalSolve(sqrt, fallback, h, speed, ms) == Time(t)
    ensures Slopes(ms, h, t, |ms|) == InverseSquared(speed) <==>
              Count(ms, |ms|) == 1 || RootUsable(fallback, h, speed, ms)
  {
    if Count(ms, |ms|) == 1 {
      SingleSolves(h, speed, ms, t);
    } else {
      UsesRootIff(sqrt, fallback, h, speed, ms);
      SeveralSolve(sqrt, fallback, h, speed, ms, t);
    }
  }

  lemma SeveralSolve(sqrt: real -> real, fallback: bool, h: seq<real>, speed: real, ms: seq<Option<real>>, t: real)
    requires ExactSqrt(sqrt) && |ms| == |h| && ValidSpacing(h) && speed > 0.0 && Count(ms, |ms|) > 1
    requires EikonalSolve(sqrt, fallback, h, speed, ms) == Time(t)
    ensures Slopes(ms, h, t, |ms|) == InverseSquared(speed) <==> UsesRoot(sqrt, fallback, h, speed, ms)
  {
    if UsesRoot(sqrt, fallback, h, speed, ms) {
      RootExact(sqrt, h, speed, ms, t);
    } else if Slopes(ms, h, t, |ms|) == InverseSquared(speed) {
      BelowRoot(sqrt, h, speed, ms, t);
    }
  }

  lemma TwiceSum(a: real, b: real, l: real)
    ensures 2.0 * (a + b) * l == 2.0 * a * l + 2.0 * b * l
  {
  }

  /** Twice the slope of the quadratic at l, axis by axis. */
  function Vertex(ms: seq<Option<real>>, h: seq<real>, l: real, n: nat): real
    requires n <= |ms| == |h| && ValidSpacing(h)
  {
    if n == 0 then 0.0 else Vertex(ms, h, l, n - 1) + VertexOf(ms[n - 1], h[n - 1], l)
  }

  function VertexOf(m: Option<real>, h: real, l: real): real
    requires h > 0.0
  {
    2.0 * T2(m, h) * l + T1(m, h)
  }

  lemma {:induction false} VertexSums(ms: seq<Option<real>>, h: seq<real>, l: real, n: nat)
    requires n <= |ms| == |h| && ValidSpacing(h)
    ensures Vertex(ms, h, l, n) == SlopeAt(Q1(ms, h, n), Q2(ms, h, n), l)
  {
    if n > 0 {
      VertexSums(ms, h, l, n - 1);
      TwiceSum(Q2(ms, h, n - 1), T2(ms[n - 1], h[n - 1]), l);
    }
  }

  /** At l the quadratic is still falling, or has not grown beyond the bound. */
  ghost predicate Guard(h: seq<real>, speed: real, ms: seq<Option<real>>, l: real)
    requires |ms| == |h| && ValidSpacing(h) && speed > 0.0
  {
    Vertex(ms, h, l, |ms|) <= 0.0 || Slopes(ms, h, l, |ms|) <= InverseSquared(speed)
  }

  /** The guard says when the root is at least l. */
  lemma GuardIff(sqrt: real -> real, h: seq<real>, speed: real, ms: seq<Option<real>>, l: real)
    requires ExactSqrt(sqrt) && |ms| == |h| && ValidSpacing(h) && speed > 0.0 && Count(ms, |ms|) > 0
    requires Root(sqrt, h, speed, ms).Some?
    ensures l <= Root(sqrt, h, speed, ms).value <==> Guard(h, speed, ms, l)
  {
    RootExact(sqrt, h, speed, ms, l);
    VertexSums(ms, h, l, |ms|);
  }

  /** With one axis the guard says that l is within a step of it. */
  lemma SingleGuard(h: seq<real>, speed: real, ms: seq<Option<real>>, l: real)
    requires |ms| == |h| && ValidSpacing(h) && speed > 0.0 && Count(ms, |ms|) == 1
    requires OneAxis(ms, h, speed, |ms|).Some? && l <= OneAxis(ms, h, speed, |ms|).value
    ensures Guard(h, speed, ms, l)
  {
    var k := SingleAxis(ms, h, l, |ms|);
    OnlyEstimate(ms, h, speed, |ms|, k);
    var m, g := ms[k].value, InverseSquared(h[k]);
    if m <= l {
      RiseBounded(l - m, h[k], speed);
    } else {
      InversePositive(h[k]);
      ScaledNonNegative(m - l, g);
      VertexOne(m, g, l);
    }
  }

  lemma VertexOne(m: real, g: real, l: real)
    ensures 2.0 * g * l + -2.0 * m * g == -2.0 * Mul(m - l, g)
  {
    assert Mul(m - l, g) == m * g - l * g;
  }

  /** What an axis adds at l, when it is lowered to l. */
  function Dropped(m: Option<real>, l: real): real
  {
    if m.Some? then m.value - l else 0.0
  }

  /** Lowering an axis to l takes its squared slope at l away. */
  lemma {:induction false} LoweredSlopes(ms: seq<Option<real>>, h: seq<real>, l: real, axis: nat, n: nat)
    requires axis < |ms| == |h| && n <= |ms| && ValidSpacing(h)
    ensures Slopes(ms[axis := Some(l)], h, l, n) ==
            Slopes(ms, h, l, n) - if axis < n then Mul(Squared(Dropped(ms[axis], l)), InverseSquared(h[axis])) else 0.0
  {
    if n > 0 {
      LoweredSlopes(ms, h, l, axis, n - 1);
      if n - 1 == axis {
        LoweredSlope(ms[axis], h[axis], l);
      }
    }
  }

  /** The vertex moves down with it. */
  lemma {:induction false} LoweredVertex(ms: seq<Option<real>>, h: seq<real>, l: real, axis: nat, n: nat)
    requires axis < |ms| == |h| && n <= |ms| && ValidSpacing(h)
    ensures Vertex(ms[axis := Some(l)], h, l, n) ==
            Vertex(ms, h, l, n) + if axis < n then 2.0 * Mul(Dropped(ms[axis], l), InverseSquared(h[axis])) else 0.0
  {
    if n > 0 {
      LoweredVertex(ms, h, l, axis, n - 1);
      if n - 1 == axis {
        LoweredVertexOf(ms[axis], h[axis], l);
      }
    }
  }

  lemma LoweredSlope(m: Option<real>, h: real, l: real)
    requires h > 0.0
    ensures Slope(Some(l), h, l) == Slope(m, h, l) - Mul(Squared(Dropped(m, l)), InverseSquared(h))
  {
    assert Squared(l - l) == 0.0;
    if m.Some? {
      assert Squared(l - m.value) == Squared(m.value - l);
    }
  }

  lemma LoweredVertexOf(m: Option<real>, h: real, l: real)
    requires h > 0.0
    ensures VertexOf(Some(l), h, l) == VertexOf(m, h, l) + 2.0 * Mul(Dropped(m, l), InverseSquared(h))
  {
    var g := InverseSquared(h);
    assert 2.0 * g * l + -2.0 * l * g == 0.0;
    if m.Some? {
      VertexOne(m.value, g, l);
    }
  }

  /**
   The step of the argument: where the quadratic has a root, taking the slope of one of its axes away keeps l on
   the left of the vertex or inside the roots.
   */
  lemma GuardLowered(q2: real, g: real, d: real, p: real, s: real, w: real)
    requires 0.0 < g <= q2 && d >= 0.0 && Rooted(q2, p, s - w) && (p <= 0.0 || s <= w)
    ensures p + 2.0 * Mul(d, g) <= 0.0 || s - Mul(Squared(d), g) <= w
  {
    var x, y := Mul(d, g), Mul(Squared(d), g);
    ScaledNonNegative(d, g);
    SquareNotNegative(d);
    ScaledNonNegative(Squared(d), g);
    if p + 2.0 * x > 0.0 && s > w {
      assert -p >= 0.0 && -p < 2.0 * x;
      SquareGrows(-p, 2.0 * x);
      assert x * x == g * y;
      ScaleBoth(g, q2, 1.0);
      ScaledLess(g, q2, y);
      assert 4.0 * (q2 * (s - w)) <= 4.0 * (q2 * y);
      ScaleBoth(s - w, y, q2);
    }
  }

  lemma ScaledLess(a: real, b: real, y: real)
    requires a <= b && y >= 0.0
    ensures a * y <= b * y
  {
  }

  lemma {:induction false} AxisAtMostSum(ms: seq<Option<real>>, h: seq<real>, n: nat, k: nat)
    requires k < n <= |ms| == |h| && ValidSpacing(h)
    ensures 0.0 <= T2(ms[k], h[k]) <= Q2(ms, h, n)
  {
    Q2Positive(ms, h, n - 1);
    InversePositive(h[n - 1]);
    if k < n - 1 {
      AxisAtMostSum(ms, h, n - 1, k);
    }
  }

  /** A quadratic of leading coefficient q2 that has f for its value and p for its slope somewhere has a root. */
  ghost predicate Rooted(q2: real, p: real, f: real)
  {
    p * p >= Mul(4.0, Mul(q2, f))
  }

  /** What a root above or below l says of the value at l. */
  lemma RootAround(sqrt: real -> real, h: seq<real>, speed: real, ms: seq<Option<real>>, l: real)
    requires ExactSqrt(sqrt) && |ms| == |h| && ValidSpacing(h) && speed > 0.0 && Count(ms, |ms|) > 0
    requires Root(sqrt, h, speed, ms).Some?
    ensures Rooted(Q2(ms, h, |ms|), Vertex(ms, h, l, |ms|), Slopes(ms, h, l, |ms|) - InverseSquared(speed))
  {
    Q2Positive(ms, h, |ms|);
    VertexSums(ms, h, l, |ms|);
    SlopesQuadratic(ms, h, l, |ms|);
    AboveParabola(sqrt, Q0(ms, h, |ms|), Q1(ms, h, |ms|), Q2(ms, h, |ms|), InverseSquared(speed), l,
                  Vertex(ms, h, l, |ms|), Slopes(ms, h, l, |ms|));
  }

  lemma AboveParabola(sqrt: real -> real, q0: real, q1: real, q2: real, w: real, l: real, p: real, s: real)
    requires q2 > 0.0 && SolveEikonalQuadratic(sqrt, -w + q0, q1, q2).Some?
    requires p == SlopeAt(q1, q2, l) && s == Quadratic(q0, q1, q2, l)
    ensures Rooted(q2, p, s - w)
  {
    CompletedSquare(-w + q0, q1, q2, l, p);
    assert Quadratic(-w + q0, q1, q2, l) == s - w;
  }

  /** Where several axes have a root at or above l, lowering one of them to l keeps the guard. */
  lemma RootGuardLowered(sqrt: real -> real, h: seq<real>, speed: real, ms: seq<Option<real>>, axis: nat, l: real)
    requires ExactSqrt(sqrt) && |ms| == |h| && ValidSpacing(h) && speed > 0.0 && Count(ms, |ms|) > 0 && axis < |ms|
    requires Root(sqrt, h, speed, ms).Some? && l <= Root(sqrt, h, speed, ms).value
    requires ms[axis].Some? && l < ms[axis].value
    ensures Guard(h, speed, ms[axis := Some(l)], l)
  {
    var n := |ms|;
    GuardIff(sqrt, h, speed, ms, l);
    RootAround(sqrt, h, speed, ms, l);
    AxisAtMostSum(ms, h, n, axis);
    InversePositive(h[axis]);
    GuardLowered(Q2(ms, h, n), InverseSquared(h[axis]), ms[axis].value - l, Vertex(ms, h, l, n), Slopes(ms, h, l, n),
                 InverseSquared(speed));
    LoweredSlopes(ms, h, l, axis, n);
    LoweredVertex(ms, h, l, axis, n);
  }

  lemma MulZero(x: real)
    ensures Mul(Squared(0.0), x) == 0.0 == Mul(0.0, x)
  {
    assert Squared(0.0) == 0.0;
  }

  /** An axis that had no frozen neighbour leaves the guard alone. */
  lemma GuardExtended(h: seq<real>, speed: real, ms: seq<Option<real>>, axis: nat, l: real)
    requires |ms| == |h| && ValidSpacing(h) && speed > 0.0 && axis < |ms| && ms[axis].None?
    ensures Guard(h, speed, ms[axis := Some(l)], l) <==> Guard(h, speed, ms, l)
  {
    LoweredSlopes(ms, h, l, axis, |ms|);
    LoweredVertex(ms, h, l, axis, |ms|);
    MulZero(InverseSquared(h[axis]));
  }

  /**
   What keeps an estimate from falling below l: where the root is used, the guard at l; otherwise every axis
   separately.
   */
  ghost predicate AtLeastGuard(fallback: bool, h: seq<real>, speed: real, ms: seq<Option<real>>, l: real)
    requires |ms| == |h| && ValidSpacing(h) && speed > 0.0
  {
    if RootUsable(fallback, h, speed, ms) then Guard(h, speed, ms, l)
    else forall k :: 0 <= k < |ms| && ms[k].Some? ==> l <= ms[k].value + h[k] / speed
  }

  /** In any dimension: exactly when an estimate is not below l. */
  lemma EstimateAtLeastIff(sqrt: real -> real, fallback: bool, h: seq<real>, speed: real, ms: seq<Option<real>>,
                           l: real)
    requires ExactSqrt(sqrt) && |ms| == |h| && ValidSpacing(h) && speed > 0.0
    requires Estimate(sqrt, fallback, h, speed, ms).Some?
    ensures l <= Estimate(sqrt, fallback, h, speed, ms).value <==> AtLeastGuard(fallback, h, speed, ms, l)
  {
    UsesRootIff(sqrt, fallback, h, speed, ms);
    if UsesRoot(sqrt, fallback, h, speed, ms) {
      GuardIff(sqrt, h, speed, ms, l);
    } else {
      OneAxisAtLeast(ms, h, speed, |ms|, l);
    }
  }

  /** The estimate is not the fallback for three or more axes. */
  predicate Steady(fallback: bool, h: seq<real>, speed: real, ms: seq<Option<real>>)
    requires |ms| == |h| && ValidSpacing(h) && speed > 0.0
  {
    !fallback || Count(ms, |ms|) <= 2 || RootUsable(fallback, h, speed, ms)
  }

  /** The estimate of a cell, as far as there is one, is at least l. */
  ghost predicate NoneOrAtLeast(sqrt: real -> real, fallback: bool, h: seq<real>, speed: real, ms: seq<Option<real>>,
                                l: real)
    requires |ms| == |h| && ValidSpacing(h) && speed > 0.0
  {
    var t := Estimate(sqrt, fallback, h, speed, ms);
    t.Some? ==> l <= t.value
  }

  lemma {:induction false} CountChanged(ms: seq<Option<real>>, axis: nat, l: real, n: nat)
    requires axis < |ms| && n <= |ms|
    ensures Count(ms[axis := Some(l)], n) == Count(ms, n) + if axis < n && ms[axis].None? then 1 else 0
  {
    if n > 0 {
      CountChanged(ms, axis, l, n - 1);
    }
  }

  /** One-axis estimates never fall below l: the others were at least the old estimate, and the new one starts at l. */
  lemma OneAxisLowered(sqrt: real -> real, fallback: bool, h: seq<real>, speed: real, ms: seq<Option<real>>, axis: nat,
                       l: real)
    requires ExactSqrt(sqrt) && |ms| == |h| && ValidSpacing(h) && speed > 0.0 && axis < |ms|
    requires Estimate(sqrt, fallback, h, speed, ms).Some? && l <= Estimate(sqrt, fallback, h, speed, ms).value
    ensures var t := OneAxis(ms[axis := Some(l)], h, speed, |ms|);
            t.Some? && l <= t.value
  {
    var after := ms[axis := Some(l)];
    forall k | 0 <= k < |ms| && after[k].Some?
      ensures l <= after[k].value + h[k] / speed
    {
      if k == axis {
        DividePositive(h[k], speed);
      } else {
        EstimateAtMostStep(sqrt, fallback, h, speed, ms, k);
      }
    }
    OneAxisAtLeast(after, h, speed, |ms|, l);
    OneAxisAtMost(after, h, speed, |ms|, axis);
  }

  lemma {:induction false} AxisAdded(ms: seq<Option<real>>, h: seq<real>, l: real, t: real, axis: nat, n: nat)
    requires axis < |ms| == |h| && n <= |ms| && ValidSpacing(h) && ms[axis].None?
    ensures Slopes(ms[axis := Some(l)], h, t, n) ==
            Slopes(ms, h, t, n) + if axis < n then Slope(Some(l), h[axis], t) else 0.0
  {
    if n > 0 {
      AxisAdded(ms, h, l, t, axis, n - 1);
    }
  }

  /** One more axis takes no root into use: a root with it is a place within the bound without it. */
  lemma RootWithout(sqrt: real -> real, fallback: bool, h: seq<real>, speed: real, ms: seq<Option<real>>, axis: nat,
                    l: real)
    requires ExactSqrt(sqrt) && |ms| == |h| && ValidSpacing(h) && speed > 0.0 && axis < |ms| && ms[axis].None?
    requires Count(ms, |ms|) > 1 && UsesRoot(sqrt, fallback, h, speed, ms[axis := Some(l)])
    ensures UsesRoot(sqrt, fallback, h, speed, ms)
  {
    var after := ms[axis := Some(l)];
    var r := Root(sqrt, h, speed, after).value;
    RootExact(sqrt, h, speed, after, r);
    AxisAdded(ms, h, l, r, axis, |ms|);
    SlopeNonNegative(Some(l), h[axis], r);
    BelowRoot(sqrt, h, speed, ms, r);
  }

  lemma GuardWithNew(sqrt: real -> real, fallback: bool, h: seq<real>, speed: real, ms: seq<Option<real>>, axis: nat,
                     l: real)
    requires ExactSqrt(sqrt) && |ms| == |h| && ValidSpacing(h) && speed > 0.0 && axis < |ms| && ms[axis].None?
    requires Estimate(sqrt, fallback, h, speed, ms).Some? && l <= Estimate(sqrt, fallback, h, speed, ms).value
    requires Count(ms, |ms|) > 0 && UsesRoot(sqrt, fallback, h, speed, ms[axis := Some(l)])
    ensures Guard(h, speed, ms[axis := Some(l)], l)
  {
    if Count(ms, |ms|) == 1 {
      SingleGuard(h, speed, ms, l);
    } else {
      RootWithout(sqrt, fallback, h, speed, ms, axis, l);
      GuardIff(sqrt, h, speed, ms, l);
    }
    GuardExtended(h, speed, ms, axis, l);
  }

  lemma SteadyCases(sqrt: real -> real, fallback: bool, h: seq<real>, speed: real, ms: seq<Option<real>>)
    requires ExactSqrt(sqrt) && |ms| == |h| && ValidSpacing(h) && speed > 0.0 && Steady(fallback, h, speed, ms)
    requires Estimate(sqrt, fallback, h, speed, ms).Some? && Count(ms, |ms|) > 1
    ensures UsesRoot(sqrt, fallback, h, speed, ms) || Count(ms, |ms|) == 2
    ensures UsesRoot(sqrt, fallback, h, speed, ms) ==>
              Root(sqrt, h, speed, ms).Some? && Estimate(sqrt, fallback, h, speed, ms) == Root(sqrt, h, speed, ms)
  {
    UsesRootIff(sqrt, fallback, h, speed, ms);
  }

  /** The guard at l holds after an axis is lowered to it. */
  lemma GuardKept(sqrt: real -> real, fallback: bool, h: seq<real>, speed: real, ms: seq<Option<real>>, axis: nat,
                  l: real)
    requires ExactSqrt(sqrt) && |ms| == |h| && ValidSpacing(h) && speed > 0.0 && axis < |ms|
    requires Estimate(sqrt, fallback, h, speed, ms).Some? && l <= Estimate(sqrt, fallback, h, speed, ms).value
    requires Count(ms, |ms|) > 0 && Steady(fallback, h, speed, ms) && (ms[axis].Some? ==> l < ms[axis].value)
    requires UsesRoot(sqrt, fallback, h, speed, ms[axis := Some(l)])
    ensures Guard(h, speed, ms[axis := Some(l)], l)
  {
    if ms[axis].None? {
      GuardWithNew(sqrt, fallback, h, speed, ms, axis, l);
    } else {
      CountChanged(ms, axis, l, |ms|);
      SteadyCases(sqrt, fallback, h, speed, ms);
      if UsesRoot(sqrt, fallback, h, speed, ms) {
        RootGuardLowered(sqrt, h, speed, ms, axis, l);
      } else {
        OtherGuard(sqrt, fallback, h, speed, ms, axis, l);
      }
    }
  }

  /** Of two frozen axes, one lowered to l: what counts is the distance of l from the other. */
  lemma OtherGuard(sqrt: real -> real, fallback: bool, h: seq<real>, speed: real, ms: seq<Option<real>>, axis: nat,
                   l: real)
    requires ExactSqrt(sqrt) && |ms| == |h| && ValidSpacing(h) && speed > 0.0 && axis < |ms| && ms[axis].Some?
    requires Estimate(sqrt, fallback, h, speed, ms).Some? && l <= Estimate(sqrt, fallback, h, speed, ms).value
    requires Count(ms, |ms|) == 2
    ensures Guard(h, speed, ms[axis := Some(l)], l)
  {
    var other := ms[axis := None];
    assert other[axis := ms[axis]] == ms && other[axis := Some(l)] == ms[axis := Some(l)];
    CountChanged(other, axis, ms[axis].value, |ms|);
    var k := SingleAxis(other, h, l, |ms|);
    EstimateAtMostStep(sqrt, fallback, h, speed, ms, k);
    OnlyEstimate(other, h, speed, |ms|, k);
    SingleGuard(h, speed, other, l);
    GuardExtended(h, speed, other, axis, l);
  }

  /**
   In any dimension: an estimate that is at least l, and that is not the fallback for three or more axes, stays at
   least l when one of its axes is lowered to l.
   */
  lemma Causal(sqrt: real -> real, fallback: bool, h: seq<real>, speed: real, ms: seq<Option<real>>, axis: nat, l: real)
    requires ExactSqrt(sqrt) && |ms| == |h| && ValidSpacing(h) && speed > 0.0 && axis < |ms|
    requires Count(ms, |ms|) > 0 ==> Estimate(sqrt, fallback, h, speed, ms).Some? && Steady(fallback, h, speed, ms)
    requires NoneOrAtLeast(sqrt, fallback, h, speed, ms, l)
    ensures NoneOrAtLeast(sqrt, fallback, h, speed, ms[axis := Lower(ms[axis], l)], l)
  {
    var after := ms[axis := Lower(ms[axis], l)];
    if ms[axis].Some? && ms[axis].value <= l {
      assert after == ms;
    } else if Count(ms, |ms|) == 0 {
      NoAxis(ms, h, l, |ms|);
      OnlyEstimate(after, h, speed, |ms|, axis);
      CountChanged(ms, axis, l, |ms|);
      DividePositive(h[axis], speed);
    } else {
      CausalLower(sqrt, fallback, h, speed, ms, axis, l);
    }
  }

  lemma CausalLower(sqrt: real -> real, fallback: bool, h: seq<real>, speed: real, ms: seq<Option<real>>, axis: nat,
                    l: real)
    requires ExactSqrt(sqrt) && |ms| == |h| && ValidSpacing(h) && speed > 0.0 && axis < |ms|
    requires Estimate(sqrt, fallback, h, speed, ms).Some? && l <= Estimate(sqrt, fallback, h, speed, ms).value
    requires Count(ms, |ms|) > 0 && Steady(fallback, h, speed, ms) && (ms[axis].Some? ==> l < ms[axis].value)
    ensures NoneOrAtLeast(sqrt, fallback, h, speed, ms[axis := Some(l)], l)
  {
    var after := ms[axis := Some(l)];
    OneAxisLowered(sqrt, fallback, h, speed, ms, axis, l);
    if UsesRoot(sqrt, fallback, h, speed, after) {
      GuardKept(sqrt, fallback, h, speed, ms, axis, l);
      GuardIff(sqrt, h, speed, after, l);
    }
  }
}
