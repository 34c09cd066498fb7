/** The solver as a loop over the frozen neighbours, proved to compute `EikonalSolve`. */
module EikonalCode {
  import opened Wrappers
  import opened Grids
  import opened NarrowBands
  import opened Marching
  import opened Upwind
  import opened Distance
  import opened Eikonal

  datatype FrozenAxis = FrozenAxis(distance: real, axis: nat)

  /** The frozen minima of the first n axes, each with its axis. */
  function FrozenAxes(ms: seq<Option<real>>, n: nat): (list: seq<FrozenAxis>)
    requires n <= |ms|
    ensures |list| == Count(ms, n) <= n
    ensures forall k :: 0 <= k < |list| ==> list[k].axis < n
  {
    if n == 0 then []
    else FrozenAxes(ms, n - 1) + if ms[n - 1].Some? then [FrozenAxis(ms[n - 1].value, n - 1)] else []
  }

  ghost predicate AxesIn(list: seq<FrozenAxis>, h: seq<real>)
  {
    ValidSpacing(h) && forall k :: 0 <= k < |list| ==> list[k].axis < |h|
  }

  ghost function L0(list: seq<FrozenAxis>, h: seq<real>, i: nat): real
    requires i <= |list| && AxesIn(list, h)
  {
    if i == 0 then 0.0 else L0(list, h, i - 1) + T0(Some(list[i - 1].distance), h[list[i - 1].axis])
  }

  ghost function L1(list: seq<FrozenAxis>, h: seq<real>, i: nat): real
    requires i <= |list| && AxesIn(list, h)
  {
    if i == 0 then 0.0 else L1(list, h, i - 1) + T1(Some(list[i - 1].distance), h[list[i - 1].axis])
  }

  ghost function L2(list: seq<FrozenAxis>, h: seq<real>, i: nat): real
    requires i <= |list| && AxesIn(list, h)
  {
    if i == 0 then 0.0 else L2(list, h, i - 1) + T2(Some(list[i - 1].distance), h[list[i - 1].axis])
  }

  ghost function LMin(list: seq<FrozenAxis>, h: seq<real>, speed: real, i: nat): Option<real>
    requires i <= |list| && AxesIn(list, h) && speed > 0.0
  {
    if i == 0 then None
    else Lower(LMin(list, h, speed, i - 1), list[i - 1].distance + h[list[i - 1].axis] / speed)
  }

  lemma {:induction false} SumsOfPrefix(list: seq<FrozenAxis>, x: FrozenAxis, h: seq<real>, speed: real, i: nat)
    requires i <= |list| && AxesIn(list + [x], h) && speed > 0.0
    ensures AxesIn(list, h)
    ensures L0(list + [x], h, i) == L0(list, h, i) && L1(list + [x], h, i) == L1(list, h, i)
    ensures L2(list + [x], h, i) == L2(list, h, i) && LMin(list + [x], h, speed, i) == LMin(list, h, speed, i)
  {
    assert forall k :: 0 <= k < |list| ==> (list + [x])[k] == list[k];
    if i > 0 {
      SumsOfPrefix(list, x, h, speed, i - 1);
    }
  }

  lemma SumsOfSnoc(list: seq<FrozenAxis>, x: FrozenAxis, h: seq<real>, speed: real)
    requires AxesIn(list, h) && x.axis < |h| && speed > 0.0
    ensures var more := list + [x];
            && AxesIn(more, h)
            && L0(more, h, |more|) == L0(list, h, |list|) + T0(Some(x.distance), h[x.axis])
            && L1(more, h, |more|) == L1(list, h, |list|) + T1(Some(x.distance), h[x.axis])
            && L2(more, h, |more|) == L2(list, h, |list|) + T2(Some(x.distance), h[x.axis])
            && LMin(more, h, speed, |more|) == Lower(LMin(list, h, speed, |list|), x.distance + h[x.axis] / speed)
  {
    SumsOfPrefix(list, x, h, speed, |list|);
    assert (list + [x])[|list|] == x;
  }

  /** The list of frozen axes carries the same coefficients as the axes themselves. */
  ghost predicate Sums(list: seq<FrozenAxis>, ms: seq<Option<real>>, h: seq<real>, speed: real, n: nat)
    requires n <= |ms| == |h| && ValidSpacing(h) && speed > 0.0
  {
    && AxesIn(list, h)
    && L0(list, h, |list|) == Q0(ms, h, n) && L1(list, h, |list|) == Q1(ms, h, n)
    && L2(list, h, |list|) == Q2(ms, h, n) && LMin(list, h, speed, |list|) == OneAxis(ms, h, speed, n)
  }

  lemma SumsNext(list: seq<FrozenAxis>, ms: seq<Option<real>>, h: seq<real>, speed: real, n: nat)
    requires n < |ms| == |h| && ValidSpacing(h) && speed > 0.0 && Sums(list, ms, h, speed, n) && ms[n].Some?
    ensures Sums(list + [FrozenAxis(ms[n].value, n)], ms, h, speed, n + 1)
  {
    SumsOfSnoc(list, FrozenAxis(ms[n].value, n), h, speed);
  }

  lemma SumsSkip(list: seq<FrozenAxis>, ms: seq<Option<real>>, h: seq<real>, speed: real, n: nat)
    requires n < |ms| == |h| && ValidSpacing(h) && speed > 0.0 && Sums(list, ms, h, speed, n) && ms[n].None?
    ensures Sums(list, ms, h, speed, n + 1)
  {
  }

  lemma {:induction false} SumsOverAxes(ms: seq<Option<real>>, h: seq<real>, speed: real, n: nat)
    requires n <= |ms| == |h| && ValidSpacing(h) && speed > 0.0
    ensures Sums(FrozenAxes(ms, n), ms, h, speed, n)
  {
    if n > 0 {
      SumsOverAxes(ms, h, speed, n - 1);
      if ms[n - 1].Some? {
        SumsNext(FrozenAxes(ms, n - 1), ms, h, speed, n - 1);
      } else {
        SumsSkip(FrozenAxes(ms, n - 1), ms, h, speed, n - 1);
        assert FrozenAxes(ms, n) == FrozenAxes(ms, n - 1);
      }
    }
  }

  /** The smallest frozen neighbour of each axis that has one. */
  method FindFrozenAxes(grid: TimeGrid, index: Index) returns (list: seq<FrozenAxis>)
    requires grid.Valid() && |index| == |grid.size|
    ensures list == FrozenAxes(Minima(grid.contents, index), |index|)
  {
    list := [];
    for axis := 0 to |index|
      invariant list == FrozenAxes(Minima(grid.contents, index), axis)
    {
      var least := SmallestNeighbor(grid, index, axis);
      if least.Some? {
        list := list + [FrozenAxis(least.value, axis)];
      }
    }
  }

  /** Sums the coefficients over the frozen axes; the constant term starts at -1/speed^2. */
  method SumCoefficients(list: seq<FrozenAxis>, speed: real, h: seq<real>) returns (q0: real, q1: real, q2: real)
    requires AxesIn(list, h) && speed > 0.0
    ensures q0 == -InverseSquared(speed) + L0(list, h, |list|)
    ensures q1 == L1(list, h, |list|) && q2 == L2(list, h, |list|)
  {
    q0, q1, q2 := -InverseSquared(speed), 0.0, 0.0;
    for i := 0 to |list|
      invariant q0 == -InverseSquared(speed) + L0(list, h, i)
      invariant q1 == L1(list, h, i) && q2 == L2(list, h, i)
    {
      var alpha := InverseSquared(h[list[i].axis]);
      q0 := q0 + Squared(list[i].distance) * alpha;
      q1 := q1 + -2.0 * list[i].distance * alpha;
      q2 := q2 + alpha;
    }
  }

  /** The smallest one-axis estimate. */
  method SmallestOneAxis(list: seq<FrozenAxis>, speed: real, h: seq<real>) returns (t: real)
    requires AxesIn(list, h) && speed > 0.0 && list != []
    ensures Some(t) == LMin(list, h, speed, |list|)
  {
    t := list[0].distance + h[list[0].axis] / speed;
    assert LMin(list, h, speed, 0) == None;
    assert LMin(list, h, speed, 1) == Some(t);
    for i := 1 to |list|
      invariant Some(t) == LMin(list, h, speed, i)
    {
      var next := list[i].distance + h[list[i].axis] / speed;
      t := if next < t then next else t;
    }
  }

  /** What the solver has found, before it is checked to be a time. */
  method SolveFrozenAxes(sqrt: real -> real, fallback: bool, list: seq<FrozenAxis>, speed: real, h: seq<real>,
                         ghost ms: seq<Option<real>>)
    returns (arrival: Option<real>)
    requires |ms| == |h| && ValidSpacing(h) && speed > 0.0
    requires list != [] && list == FrozenAxes(ms, |ms|) && Sums(list, ms, h, speed, |ms|) && Q2(ms, h, |ms|) > 0.0
    ensures arrival == Estimate(sqrt, fallback, h, speed, ms)
  {
    if |list| == 1 {
      arrival := Some(list[0].distance + h[list[0].axis] / speed);
      assert LMin(list, h, speed, 0) == None;
      assert LMin(list, h, speed, 1) == arrival;
    } else {
      var q0, q1, q2 := SumCoefficients(list, speed, h);
      arrival := SolveEikonalQuadratic(sqrt, q0, q1, q2);
      if fallback && !(arrival.Some? && arrival.value >= 0.0) {
        var t := SmallestOneAxis(list, speed, h);
        arrival := Some(t);
      }
    }
  }

  method SolveEikonal(sqrt: real -> real, fallback: bool, grid: TimeGrid, index: Index, speed: real, h: seq<real>)
    returns (r: Solved)
    requires grid.Valid() && |h| == |grid.size| && ValidSpacing(h) && speed > 0.0
    requires Solvable(grid.contents, index)
    ensures |index| == |h| && r == EikonalSolve(sqrt, fallback, h, speed, Minima(grid.contents, index))
  {
    ghost var ms := Minima(grid.contents, index);
    SolvableCounts(grid.contents, index);
    SumsOverAxes(ms, h, speed, |ms|);
    Q2Positive(ms, h, |ms|);
    var list := FindFrozenAxes(grid, index);
    var arrival := SolveFrozenAxes(sqrt, fallback, list, speed, h, ms);
    r := if arrival.Some? && arrival.value >= 0.0 then Time(arrival.value) else Thrown;
  }

  lemma SolvableCounts(times: Times, c: Index)
    requires Solvable(times, c)
    ensures Count(Minima(times, c), |c|) > 0
  {
    SolvableIffMinimum(times, c);
    var k :| 0 <= k < |c| && Minima(times, c)[k].Some?;
    CountsSome(Minima(times, c), |c|, k);
  }

  lemma {:induction false} CountsSome(ms: seq<Option<real>>, n: nat, k: nat)
    requires k < n <= |ms| && ms[k].Some?
    ensures Count(ms, n) > 0
  {
    if k < n - 1 {
      CountsSome(ms, n - 1, k);
    }
  }
}
