/**
 Marches that the solver cannot stop: from times that are not negative every time is at or after zero, and a solver
 that throws only for negative times never throws.
 */
module SafeMarches {
  import opened Wrappers
  import opened Grids
  import opened NarrowBands
  import opened Marching
  import opened MarchReach
  import opened NarrowBandSeeds
  import opened Upwind
  import opened Distance
  import opened Eikonal
  import opened EikonalThrows
  import opened ArrivalTimes
  import opened SolverTheorems
  import EikonalMarch

  /** No frozen face neighbour of the cell has a negative time. */
  ghost predicate NoneNegative(times: Times, c: Index)
  {
    forall n :: Frozen(times, n) && Adjacent(c, n) ==> times[n].value >= 0.0
  }

  /** Where no neighbour has a negative time, the solver gives a time, and none that is negative. */
  ghost predicate Safe(p: Problem)
    requires p.Valid()
  {
    forall times: Times, c: Index :: Covers(p.size, times) && Solvable(times, c) && NoneNegative(times, c) ==>
        p.Value(times, c).Time? && p.Value(times, c).time >= 0.0
  }

  /** No entry of the band has a negative time, and no open cell a frozen neighbour with one. */
  ghost predicate Friendly(s: State)
  {
    && (forall e :: e in s.heap ==> e.time >= 0.0)
    && FriendlyTimes(s.times)
  }

  ghost predicate FriendlyTimes(times: Times)
  {
    forall y :: Open(times, y) ==> NoneNegative(times, y)
  }

  lemma FrozenFriendly(times: Times, c: Index, t: real)
    requires FriendlyTimes(times) && t >= 0.0
    ensures FriendlyTimes(Freeze(times, c, t))
  {
    var after := Freeze(times, c, t);
    forall y | Open(after, y)
      ensures NoneNegative(after, y)
    {
      assert Open(times, y);
    }
  }

  lemma {:induction false} PushedSafe(p: Problem, times: Times, c: Index, n: nat)
    requires p.Valid() && Safe(p) && Covers(p.size, times) && Frozen(times, c) && n <= 2 * |c| && FriendlyTimes(times)
    ensures Pushed(p, times, c, n).Some?
    ensures forall e :: e in Pushed(p, times, c, n).value ==> e.time >= 0.0
  {
    if n > 0 {
      PushedSafe(p, times, c, n - 1);
      if Open(times, Face(c, n - 1)) {
        FaceSolvable(times, c, n - 1);
      }
    }
  }

  lemma StepFriendly(p: Problem, s: State, e: Entry)
    requires p.Valid() && Safe(p) && p.InGrid(s) && e in s.heap && Friendly(s)
    ensures Step(p, s, e).Some? && Friendly(Step(p, s, e).value)
  {
    if !Frozen(s.times, e.cell) {
      var times := Freeze(s.times, e.cell, e.time);
      FrozenFriendly(s.times, e.cell, e.time);
      PushedSafe(p, times, e.cell, 2 * |e.cell|);
    }
  }

  /** Every turn of such a march goes through. */
  lemma {:induction false} RunFriendly(p: Problem, s0: State, pops: seq<Entry>)
    requires p.Valid() && Safe(p) && p.InGrid(s0) && Friendly(s0) && Exec(p, s0, pops).Some?
    ensures Friendly(Exec(p, s0, pops).value)
  {
    if pops != [] {
      var n := |pops| - 1;
      RunFriendly(p, s0, pops[..n]);
      StepFriendly(p, Exec(p, s0, pops[..n]).value, pops[n]);
    }
  }

  lemma StartFriendly(p: Problem, t0: Times, seeds: seq<Index>, s0: State)
    requires p.Valid() && Safe(p) && StartsFrom(p, t0, seeds, s0) && FriendlyTimes(t0)
    ensures Friendly(s0)
  {
  }

  /** The solver does not stop a march from times without a negative one beside an open cell. */
  lemma NoThrowFrom(p: Problem, t0: Times, seeds: seq<Index>, m: MarchTrace)
    requires p.Valid() && Safe(p) && FriendlyTimes(t0)
    ensures !Threw(p, t0, seeds, m)
  {
    if ThrewInTurn(p, t0, seeds, m) {
      StartFriendly(p, t0, seeds, m.s0);
      var n := |m.pops| - 1;
      RunFriendly(p, m.s0, m.pops[..n]);
      FrozenFriendly(Exec(p, m.s0, m.pops[..n]).value.times, m.pops[n].cell, m.pops[n].time);
    }
  }

  /**
   Boundary times do not count against the direction of a march: at most zero for one inside, at least for one
   outside.
   */
  ghost predicate RightSigns(times: seq<real>, trace: Trace)
  {
    && (trace.inside != [] ==> forall i :: 0 <= i < |times| ==> times[i] <= 0.0)
    && (trace.outside != [] ==> forall i :: 0 <= i < |times| ==> times[i] >= 0.0)
  }

  lemma ScaledSign(x: real)
    ensures Scaled(-1.0, x) == -x && Scaled(1.0, x) == x
  {
  }

  lemma InnerFriendly(size: seq<nat>, boundary: seq<Index>, times: seq<real>)
    requires |boundary| == |times| && Distinct(boundary) && forall b :: b in boundary ==> Inside(b, size)
    requires forall i :: 0 <= i < |times| ==> times[i] <= 0.0
    ensures FriendlyTimes(SetCells(BlankTimes(size), boundary, times, -1.0, |boundary|))
  {
    var t0 := SetCells(BlankTimes(size), boundary, times, -1.0, |boundary|);
    BlankSetCells(size, BlankTimes(size), boundary, times, -1.0);
    forall n | Frozen(t0, n)
      ensures t0[n].value >= 0.0
    {
      var i :| 0 <= i < |boundary| && boundary[i] == n;
      SetCellsValue(BlankTimes(size), boundary, times, -1.0, |boundary|, i);
      ScaledSign(times[i]);
    }
  }

  lemma OuterFriendly(size: seq<nat>, boundary: seq<Index>, times: seq<real>, inside: seq<Index>, t1: Times)
    requires |boundary| == |times| && InsideDone(size, boundary, times, inside, t1)
    requires forall i :: 0 <= i < |times| ==> times[i] >= 0.0
    ensures FriendlyTimes(t1)
  {
    forall y, n | Open(t1, y) && Frozen(t1, n) && Adjacent(y, n)
      ensures t1[n].value >= 0.0
    {
      AdjacentBack(y, n);
      assert y !in boundary;
      if n in boundary {
        var i :| 0 <= i < |boundary| && boundary[i] == n;
        assert t1[boundary[i]] == Some(times[i]);
      }
    }
  }

  lemma OuterStartFriendly(p: Problem, boundary: seq<Index>, times: seq<real>, trace: Trace)
    requires |boundary| == |times| && Distinct(boundary) && forall b :: b in boundary ==> Inside(b, p.size)
    requires InnerEnded(p, boundary, times, trace) && forall i :: 0 <= i < |times| ==> times[i] >= 0.0
    ensures FriendlyTimes(SetCells(OuterGrid(p.size, trace), boundary, times, 1.0, |boundary|))
  {
    var grid := OuterGrid(p.size, trace);
    BlankIsBefore(p, boundary, times, trace.inside, trace.inner, grid);
    BoundaryRewritten(p.size, boundary, times, trace.inside, grid);
    OuterFriendly(p.size, boundary, times, trace.inside, SetCells(grid, boundary, times, 1.0, |boundary|));
  }

  /** With boundary times of the right sign such a solver stops no computation. */
  lemma SolverNeverStops(p: Problem, boundary: seq<Index>, times: seq<real>, trace: Trace)
    requires p.Valid() && Safe(p) && |boundary| == |times| && forall b :: b in boundary ==> Inside(b, p.size)
    requires RightSigns(times, trace)
    ensures !FailsFor(p, boundary, times, trace, SolverThrew)
  {
    if FailsFor(p, boundary, times, trace, SolverThrew) {
      if trace.inside != [] {
        InnerFriendly(p.size, boundary, times);
        NoThrowFrom(p, SetCells(BlankTimes(p.size), boundary, times, -1.0, |boundary|), trace.inside, trace.inner);
      }
      if OuterThrew(p, boundary, times, trace) {
        OuterStartFriendly(p, boundary, times, trace);
        NoThrowFrom(p, SetCells(OuterGrid(p.size, trace), boundary, times, 1.0, |boundary|), trace.outside,
                    trace.outer);
      }
    }
  }

  /** Then a computation with a seed delivers a grid exactly for distinct boundaries that contain none another. */
  lemma SafeDeliversIff(p: Problem, boundary: seq<Index>, times: seq<real>, trace: Trace, r: Arrival)
    requires p.Valid() && Safe(p) && |boundary| == |times| && forall b :: b in boundary ==> Inside(b, p.size)
    requires RightSigns(times, trace) && (trace.inside != [] || trace.outside != [])
    requires Outcome(p, boundary, times, trace, r)
    ensures r.Arrived? <==> Distinct(boundary) && !Contained(p.size, boundary, trace.plan)
    ensures r.Failed? ==> r.failure == if Distinct(boundary) then FrozenSeed else DuplicateBoundary
  {
    SolverNeverStops(p, boundary, times, trace);
  }

  /** The minimum on an axis is the time of a frozen neighbour. */
  lemma MinimumNotNegative(times: Times, c: Index, k: nat)
    requires NoneNegative(times, c) && k < |c| && Minima(times, c)[k].Some?
    ensures Minima(times, c)[k].value >= 0.0
  {
    assert AdjacentOn(c, Shift(c, k, -1), k) && AdjacentOn(c, Shift(c, k, 1), k);
    assert Adjacent(c, Shift(c, k, -1)) && Adjacent(c, Shift(c, k, 1));
  }

  lemma {:induction false} NothingRises(ms: seq<Option<real>>, t: real)
    requires forall k :: 0 <= k < |ms| && ms[k].Some? ==> t <= ms[k].value
    ensures Residual(ms, t) == 0.0
  {
    if ms != [] {
      NothingRises(ms[1..], t);
    }
  }

  /** The distance solver is such a solver, in up to three dimensions. */
  lemma DistanceIsSafe(d: DistanceSolver, size: seq<nat>)
    requires d.Valid() && |size| <= 3
    ensures d.ToProblem(size).Valid() && Safe(d.ToProblem(size))
  {
    DistanceSolvesUpwind(d, size);
    var p := d.ToProblem(size);
    forall times: Times, c: Index | Covers(size, times) && Solvable(times, c) && NoneNegative(times, c)
      ensures p.Value(times, c).Time? && p.Value(times, c).time >= 0.0
    {
      SolvableContributes(times, c);
      DistanceSafeAt(d, times, c);
    }
  }

  lemma DistanceSafeAt(d: DistanceSolver, times: Times, c: Index)
    requires d.Valid() && |c| <= 3 && Contributing(Minima(times, c)) != [] && NoneNegative(times, c)
    ensures DistanceSolve(d.sqrt, d.dx, c, times).Time? && DistanceSolve(d.sqrt, d.dx, c, times).time >= 0.0
  {
    var ms := Minima(times, c);
    var root := DistanceRoot(d.sqrt, d.dx, Contributing(ms));
    DistanceSolveExact(d.sqrt, d.dx, c, times, root);
    SquaredPositive(d.dx);
    if root < 0.0 {
      forall k | 0 <= k < |ms| && ms[k].Some?
        ensures root <= ms[k].value
      {
        MinimumNotNegative(times, c, k);
      }
      NothingRises(ms, root);
    }
  }

  /** So is the eikonal solver with the fallback, in any dimension and for any speeds. */
  lemma EikonalIsSafe(m: EikonalMarch.Medium, size: seq<nat>)
    requires m.Valid(size) && m.fallback
    ensures m.ToProblem(size).Valid() && Safe(m.ToProblem(size))
  {
    EikonalMarch.ProblemValid(m, size);
    var p := m.ToProblem(size);
    forall times: Times, c: Index | Covers(size, times) && Solvable(times, c) && NoneNegative(times, c)
      ensures p.Value(times, c).Time? && p.Value(times, c).time >= 0.0
    {
      EikonalMarch.ValueIsSolve(m, size, times, c);
      EikonalSafeAt(m, times, c);
    }
  }

  lemma EikonalSafeAt(m: EikonalMarch.Medium, times: Times, c: Index)
    requires ExactSqrt(m.sqrt) && ValidSpacing(m.h) && m.fallback && m.Defined(c)
    requires Solvable(times, c) && NoneNegative(times, c)
    ensures m.Solve(c, times).Time? && m.Solve(c, times).time >= 0.0
  {
    var ms := Minima(times, c);
    SolvableIffMinimum(times, c);
    forall k | 0 <= k < |ms| && ms[k].Some?
      ensures ms[k].value >= 0.0
    {
      MinimumNotNegative(times, c, k);
    }
    NeverBeforeZero(m.sqrt, m.h, m.speed(c), ms);
    ReturnsIff(m.sqrt, m.fallback, m.h, m.speed(c), ms, m.Solve(c, times).time);
  }

  /** From boundary times of the right sign, distances in up to three dimensions are always found. */
  lemma DistancesDelivered(d: DistanceSolver, size: seq<nat>, boundary: seq<Index>, times: seq<real>, trace: Trace,
                           r: Arrival)
    requires d.Valid() && |size| <= 3 && |boundary| == |times| && forall b :: b in boundary ==> Inside(b, size)
    requires d.ToProblem(size).Valid() && Outcome(d.ToProblem(size), boundary, times, trace, r)
    requires RightSigns(times, trace) && (trace.inside != [] || trace.outside != [])
    ensures r.Arrived? <==> Distinct(boundary) && !Contained(size, boundary, trace.plan)
  {
    DistanceIsSafe(d, size);
    SafeDeliversIff(d.ToProblem(size), boundary, times, trace, r);
  }

  /** So are eikonal times in any dimension when the fallback is on. */
  lemma EikonalTimesDelivered(m: EikonalMarch.Medium, size: seq<nat>, boundary: seq<Index>, times: seq<real>,
                              trace: Trace, r: Arrival)
    requires m.Valid(size) && m.fallback && |boundary| == |times| && forall b :: b in boundary ==> Inside(b, size)
    requires Outcome(m.ToProblem(size), boundary, times, trace, r)
    requires RightSigns(times, trace) && (trace.inside != [] || trace.outside != [])
    ensures r.Arrived? <==> Distinct(boundary) && !Contained(size, boundary, trace.plan)
  {
    EikonalIsSafe(m, size);
    SafeDeliversIff(m.ToProblem(size), boundary, times, trace, r);
  }
}
