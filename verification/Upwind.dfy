/** The upwind stencil: the smallest frozen time on each axis, and the discrete equation over them. */
module Upwind {
  import opened Wrappers
  import opened Grids
  import opened Marching

  function Smaller(a: Option<real>, b: Option<real>): Option<real>
  {
    if a.None? then b
    else if b.None? then a
    else if b.value < a.value then b else a
  }

  function TimeAt(times: Times, c: Index): Option<real>
  {
    if c in times then times[c] else None
  }

  /** The smaller frozen time of the two neighbours of c on one axis. */
  function AxisMin(times: Times, c: Index, axis: nat): Option<real>
    requires axis < |c|
  {
    Smaller(TimeAt(times, Shift(c, axis, -1)), TimeAt(times, Shift(c, axis, 1)))
  }

  function Minima(times: Times, c: Index): (m: seq<Option<real>>)
    ensures |m| == |c|
  {
    seq(|c|, axis requires 0 <= axis < |c| => AxisMin(times, c, axis))
  }

  function Lower(a: Option<real>, t: real): Option<real>
  {
    Smaller(a, Some(t))
  }

  /** Freezing c lowers the minimum of its neighbours on the shared axis, and changes nothing else. */
  lemma MinimaLowered(times: Times, c: Index, t: real, y: Index, axis: nat)
    requires Open(times, c) && AdjacentOn(c, y, axis)
    ensures Minima(Freeze(times, c, t), y) == Minima(times, y)[axis := Lower(Minima(times, y)[axis], t)]
  {
    AdjacentOnSymmetric(c, y, axis);
    var after := Minima(Freeze(times, c, t), y);
    forall k | 0 <= k < |y| && k != axis
      ensures after[k] == Minima(times, y)[k]
    {
      assert Shift(y, k, -1)[k] != c[k] && Shift(y, k, 1)[k] != c[k];
    }
    assert Shift(y, axis, -1)[axis] != Shift(y, axis, 1)[axis];
  }

  lemma MinimaKept(times: Times, c: Index, t: real, y: Index)
    requires Open(times, c) && !Adjacent(c, y)
    ensures Minima(Freeze(times, c, t), y) == Minima(times, y)
  {
    forall k: nat | k < |y|
      ensures Shift(y, k, -1) != c && Shift(y, k, 1) != c
    {
      if AdjacentOn(y, c, k) {
        AdjacentOnSymmetric(y, c, k);
      }
    }
  }

  lemma FrozenBounds(times: Times, y: Index, n: Index, axis: nat)
    requires Frozen(times, n) && AdjacentOn(n, y, axis)
    ensures AxisMin(times, y, axis).Some? && AxisMin(times, y, axis).value <= times[n].value
  {
    AdjacentOnSymmetric(n, y, axis);
  }

  lemma SolvableIffMinimum(times: Times, y: Index)
    requires Open(times, y)
    ensures Solvable(times, y) <==> exists k :: 0 <= k < |y| && Minima(times, y)[k].Some?
  {
    if Solvable(times, y) {
      var n :| Frozen(times, n) && Adjacent(y, n);
      var axis: nat :| AdjacentOn(y, n, axis);
      AdjacentOnSymmetric(y, n, axis);
      FrozenBounds(times, y, n, axis);
      assert Minima(times, y)[axis].Some?;
    }
    if k :| 0 <= k < |y| && Minima(times, y)[k].Some? {
      var n := if Frozen(times, Shift(y, k, -1)) then Shift(y, k, -1) else Shift(y, k, 1);
      assert AdjacentOn(y, n, k);
      assert Frozen(times, n) && Adjacent(y, n);
    }
  }

  /** What one axis contributes to the discrete equation: the square of the rise above its minimum. */
  function Rise(m: Option<real>, t: real): real
  {
    if m.Some? && m.value < t then (t - m.value) * (t - m.value) else 0.0
  }

  /** Sum over the axes of max(t - m, 0) squared; an axis without a frozen neighbour adds nothing. */
  function Residual(ms: seq<Option<real>>, t: real): real
  {
    if ms == [] then 0.0 else Rise(ms[0], t) + Residual(ms[1..], t)
  }

  lemma RiseMonotone(m: Option<real>, t: real, u: real)
    requires t <= u
    ensures 0.0 <= Rise(m, t) <= Rise(m, u)
    ensures t < u && Rise(m, t) > 0.0 ==> Rise(m, t) < Rise(m, u)
  {
    if m.Some? && m.value < t {
      SquareGrows(t - m.value, u - m.value);
    }
  }

  lemma SquareGrows(a: real, b: real)
    requires 0.0 <= a <= b
    ensures 0.0 <= a * a <= b * b
    ensures a < b ==> a * a < b * b
  {
    assert b * b - a * a == (b - a) * (b + a);
    if a < b {
      RealProductPositive(b - a, b + a);
    }
  }

  lemma RealProductPositive(x: real, y: real)
    requires x > 0.0 && y > 0.0
    ensures x * y > 0.0
  {
  }

  lemma {:induction false} ResidualMonotone(ms: seq<Option<real>>, t: real, u: real)
    requires t <= u
    ensures 0.0 <= Residual(ms, t) <= Residual(ms, u)
    ensures t < u && Residual(ms, t) > 0.0 ==> Residual(ms, t) < Residual(ms, u)
  {
    if ms != [] {
      RiseMonotone(ms[0], t, u);
      ResidualMonotone(ms[1..], t, u);
    }
  }

  /** The discrete equation has at most one solution for a positive right-hand side. */
  lemma RootUnique(ms: seq<Option<real>>, t: real, u: real)
    requires Residual(ms, t) == Residual(ms, u) > 0.0
    ensures t == u
  {
    if t < u {
      ResidualMonotone(ms, t, u);
    } else {
      ResidualMonotone(ms, u, t);
    }
  }

  lemma {:induction false} ResidualLowered(ms: seq<Option<real>>, axis: nat, l: real, t: real)
    requires axis < |ms|
    ensures Residual(ms[axis := Lower(ms[axis], l)], t) >= Residual(ms, t)
    ensures t <= l ==> Residual(ms[axis := Lower(ms[axis], l)], t) == Residual(ms, t)
  {
    var after := ms[axis := Lower(ms[axis], l)];
    if axis == 0 {
      assert after[1..] == ms[1..];
      RiseLowered(ms[0], l, t);
    } else {
      assert after[1..] == ms[1..][axis - 1 := Lower(ms[axis], l)];
      ResidualLowered(ms[1..], axis - 1, l, t);
    }
  }

  lemma RiseLowered(m: Option<real>, l: real, t: real)
    ensures Rise(Lower(m, l), t) >= Rise(m, t)
    ensures t <= l ==> Rise(Lower(m, l), t) == Rise(m, t)
  {
    if l < t {
      if m.Some? && l < m.value < t {
        SquareGrows(t - m.value, t - l);
      } else {
        SquareGrows(0.0, t - l);
      }
    }
  }

  lemma {:induction false} ResidualNeedsMinimum(ms: seq<Option<real>>, t: real)
    requires Residual(ms, t) > 0.0
    ensures exists k :: 0 <= k < |ms| && ms[k].Some?
  {
    if ms[0].None? {
      ResidualNeedsMinimum(ms[1..], t);
      var k :| 0 <= k < |ms[1..]| && ms[1..][k].Some?;
      assert ms[k + 1].Some?;
    }
  }
}
