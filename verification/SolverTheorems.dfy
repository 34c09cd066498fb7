/** What a whole computation delivers with each solver, on both sides of the boundary. */
module SolverTheorems {
  import opened Wrappers
  import opened Grids
  import opened NarrowBands
  import opened Marching
  import opened MarchReach
  import opened Upwind
  import opened Distance
  import opened NarrowBandSeeds
  import opened ArrivalTimes
  import DistanceMarch
  import EikonalMarch

  /** The unit-speed solver on a uniform grid. */
  datatype DistanceSolver = DistanceSolver(sqrt: real -> real, dx: real) {
    ghost predicate Valid()
    {
      ExactSqrt(sqrt) && dx > 0.0
    }

    function ToProblem(size: seq<nat>): Problem
    {
      Problem(size, (c: Index, times: Times) requires |c| <= 3 && Contributing(Minima(times, c)) != [] =>
                      DistanceSolve(sqrt, dx, c, times))
    }
  }

  /** The distance solver accepts every solvable cell and solves the upwind equation, in up to three dimensions. */
  lemma DistanceSolvesUpwind(d: DistanceSolver, size: seq<nat>)
    requires d.Valid() && |size| <= 3
    ensures d.ToProblem(size).Valid() && DistanceMarch.SolvesUpwind(d.ToProblem(size), Squared(d.dx))
  {
    var p := d.ToProblem(size);
    forall c: Index, times: Times | Covers(size, times) && Solvable(times, c)
      ensures p.solve.requires(c, times)
    {
      SolvableContributes(times, c);
    }
    SquaredPositive(d.dx);
    forall times: Times, c: Index | Covers(size, times) && Solvable(times, c) && p.Value(times, c).Time?
      ensures Residual(Minima(times, c), p.Value(times, c).time) == Squared(d.dx)
    {
      SolvableContributes(times, c);
      DistanceSolveExact(d.sqrt, d.dx, c, times, p.Value(times, c).time);
    }
  }

  /** Any computation with a seed that was accepted and delivered a grid. */
  ghost predicate Computed(p: Problem, boundary: seq<Index>, times: seq<real>, trace: Trace, t: Times)
  {
    && p.Valid() && |boundary| == |times| && boundary != [] && (forall b :: b in boundary ==> Inside(b, p.size))
    && Delivers(p, boundary, times, trace, t) && (trace.inside != [] || trace.outside != [])
  }

  /** The seeds of the outside march are still unfrozen when it starts. */
  lemma OuterSeedOpen(p: Problem, boundary: seq<Index>, times: seq<real>, trace: Trace, t: Times, y: Index)
    requires Computed(p, boundary, times, trace, t) && y in trace.outside
    ensures Open(trace.outer.s0.times, y)
  {
    assert Banded(trace.outer.s0.heap, y);
  }

  /** Writing the boundary times closes no region and changes no other cell. */
  lemma BoundaryWritten(size: seq<nat>, boundary: seq<Index>, times: seq<real>, inside: seq<Index>, grid: Times)
    requires |boundary| == |times| && Distinct(boundary) && forall b :: b in boundary ==> Inside(b, size)
    requires BeforeOutside(size, boundary, times, inside, grid)
    ensures var t1 := SetCells(grid, boundary, times, 1.0, |boundary|);
            && InsideDone(size, boundary, times, inside, t1)
            && forall c :: Inside(c, size) && c !in boundary ==> c in grid && t1[c] == grid[c]
  {
    BoundaryRewritten(size, boundary, times, inside, grid);
    SetCellsShape(grid, boundary, times, 1.0, |boundary|);
    assert boundary[..|boundary|] == boundary;
  }

  lemma OuterBefore(p: Problem, boundary: seq<Index>, times: seq<real>, trace: Trace, t: Times)
    requires Computed(p, boundary, times, trace, t) && trace.outside != []
    ensures p.InGrid(trace.outer.s0) && Distinct(boundary)
    ensures trace.outer.s0.times == SetCells(OuterGrid(p.size, trace), boundary, times, 1.0, |boundary|)
    ensures BeforeOutside(p.size, boundary, times, trace.inside, OuterGrid(p.size, trace))
  {
  }

  /**
   The grid the outside march starts from: boundary cells have their times, other cells are as the march inside left
   them.
   */
  lemma OuterStart(p: Problem, boundary: seq<Index>, times: seq<real>, trace: Trace, t: Times)
    requires Computed(p, boundary, times, trace, t) && trace.outside != []
    ensures p.InGrid(trace.outer.s0) && RegionsClosed(p.size, boundary, trace.outer.s0.times)
    ensures forall s :: s in trace.inside ==> Frozen(trace.outer.s0.times, s)
    ensures forall c :: Inside(c, p.size) && c !in boundary ==>
              c in OuterGrid(p.size, trace) && trace.outer.s0.times[c] == OuterGrid(p.size, trace)[c]
  {
    OuterBefore(p, boundary, times, trace, t);
    BoundaryWritten(p.size, boundary, times, trace.inside, OuterGrid(p.size, trace));
  }

  /** The march outside starts with every reached cell that has a frozen neighbour in the band. */
  lemma OuterIsSeeded(p: Problem, boundary: seq<Index>, times: seq<real>, trace: Trace, t: Times)
    requires Computed(p, boundary, times, trace, t) && trace.outside != []
    ensures p.InGrid(trace.outer.s0) && Seeded(p, trace.outer.s0)
  {
    OuterStart(p, boundary, times, trace, t);
    var s0 := trace.outer.s0;
    forall y | Reached(s0, y) && Solvable(s0.times, y)
      ensures Banded(s0.heap, y)
    {
      OpenBesideIsSeed(p.size, boundary, s0.times, y);
    }
  }

  /** Where whole regions are frozen, an unfrozen cell beside a frozen one is a seed. */
  lemma OpenBesideIsSeed(size: seq<nat>, boundary: seq<Index>, t: Times, y: Index)
    requires RegionsClosed(size, boundary, t) && Solvable(t, y)
    ensures Seed(boundary, size, y)
  {
    var b :| Frozen(t, b) && Adjacent(y, b);
    AdjacentBack(y, b);
    assert b in boundary;
  }

  lemma AdjacentBack(a: Index, b: Index)
    requires Adjacent(a, b)
    ensures Adjacent(b, a)
  {
    var axis: nat :| AdjacentOn(a, b, axis);
    AdjacentOnSymmetric(a, b, axis);
  }

  /** What the march inside froze, it froze before the march outside. */
  lemma InnerStaysFrozen(p: Problem, boundary: seq<Index>, times: seq<real>, trace: Trace, t: Times, y: Index)
    requires Computed(p, boundary, times, trace, t) && trace.inside != [] && trace.outside != []
    requires Inside(y, p.size) && y !in boundary && Frozen(trace.inner.times, y)
    ensures Frozen(trace.outer.s0.times, y)
  {
    OuterStart(p, boundary, times, trace, t);
  }

  /** So does the march inside: a seed of the other list that it reached would have stopped the march outside. */
  lemma InnerIsSeeded(p: Problem, boundary: seq<Index>, times: seq<real>, trace: Trace, t: Times)
    requires Computed(p, boundary, times, trace, t) && trace.inside != []
    ensures p.InGrid(trace.inner.s0) && Seeded(p, trace.inner.s0)
  {
    var s0 := trace.inner.s0;
    BlankSetCells(p.size, BlankTimes(p.size), boundary, times, -1.0);
    FreezesExactlyReached(p, s0, trace.inner.pops, trace.inner.times);
    forall y | Reached(s0, y) && Solvable(s0.times, y)
      ensures Banded(s0.heap, y)
    {
      var b :| Frozen(s0.times, b) && Adjacent(y, b);
      assert Seed(boundary, p.size, y);
      if y !in trace.inside {
        assert New(s0.times, trace.inner.times, y);
        InnerStaysFrozen(p, boundary, times, trace, t, y);
        OuterSeedOpen(p, boundary, times, trace, t, y);
        assert false;
      }
    }
  }

  /** Whether a cell was frozen by the march inside. */
  ghost predicate IsInner(boundary: seq<Index>, trace: Trace, c: Index)
  {
    trace.inside != [] && c !in boundary && Frozen(trace.inner.times, c)
  }

  /** Those are the cells off the boundary to which a clear walk leads from an inside seed of the plan. */
  lemma InnerIffEnclosed(p: Problem, boundary: seq<Index>, times: seq<real>, trace: Trace, t: Times, c: Index)
    requires Computed(p, boundary, times, trace, t) && Inside(c, p.size) && c !in boundary
    ensures IsInner(boundary, trace, c) <==> Enclosed(p.size, boundary, trace.plan, c)
  {
    if trace.inside == [] {
      assert forall s :: InsideSeed(trace.plan, p.size, boundary, s) ==> s in trace.inside;
    } else {
      BlankSetCells(p.size, BlankTimes(p.size), boundary, times, -1.0);
      InnerFreezesEnclosed(p, boundary, SetCells(BlankTimes(p.size), boundary, times, -1.0, |boundary|), trace, c);
    }
  }

  /** Inside, the result is the negated outcome of the march. */
  lemma InnerTimes(p: Problem, boundary: seq<Index>, times: seq<real>, trace: Trace, t: Times, c: Index)
    requires Computed(p, boundary, times, trace, t) && Inside(c, p.size) && IsInner(boundary, trace, c)
    ensures c in t && t[c] == Negated(trace.inner.times[c])
  {
    if trace.outside != [] {
      OuterStart(p, boundary, times, trace, t);
      FreezesExactlyReached(p, trace.outer.s0, trace.outer.pops, trace.outer.times);
    }
  }

  lemma InnerBoundaryTimes(p: Problem, boundary: seq<Index>, times: seq<real>, trace: Trace, t: Times, i: nat)
    requires Computed(p, boundary, times, trace, t) && trace.inside != [] && i < |boundary|
    ensures Frozen(trace.inner.times, boundary[i]) && t[boundary[i]] == Negated(trace.inner.times[boundary[i]])
  {
    SetCellsValue(BlankTimes(p.size), boundary, times, -1.0, |boundary|, i);
    FreezesExactlyReached(p, trace.inner.s0, trace.inner.pops, trace.inner.times);
    NegatedTwice(times[i]);
  }

  /** A neighbour of an inside cell has in the negated result the time that the march inside gave it. */
  lemma InnerNeighbor(p: Problem, boundary: seq<Index>, times: seq<real>, trace: Trace, t: Times, c: Index, d: Index)
    requires Computed(p, boundary, times, trace, t) && Inside(c, p.size) && IsInner(boundary, trace, c)
    requires d == c || Adjacent(c, d)
    ensures TimeAt(NegateAll(t), d) == TimeAt(trace.inner.times, d)
  {
    if Inside(d, p.size) {
      if d in boundary {
        var i :| 0 <= i < |boundary| && boundary[i] == d;
        InnerBoundaryTimes(p, boundary, times, trace, t, i);
        NegatedTwice(trace.inner.times[d].value);
      } else {
        assert Frozen(NegateAll(trace.inner.times), c);
        assert Frozen(NegateAll(trace.inner.times), d);
        InnerTimes(p, boundary, times, trace, t, d);
        NegatedTwice(trace.inner.times[d].value);
      }
    }
  }

  lemma InnerMinima(p: Problem, boundary: seq<Index>, times: seq<real>, trace: Trace, t: Times, c: Index)
    requires Computed(p, boundary, times, trace, t) && Inside(c, p.size) && IsInner(boundary, trace, c)
    ensures Minima(NegateAll(t), c) == Minima(trace.inner.times, c)
    ensures TimeAt(NegateAll(t), c) == trace.inner.times[c]
  {
    InnerNeighbor(p, boundary, times, trace, t, c, c);
    forall axis | 0 <= axis < |c|
      ensures AxisMin(NegateAll(t), c, axis) == AxisMin(trace.inner.times, c, axis)
    {
      assert AdjacentOn(c, Shift(c, axis, -1), axis) && AdjacentOn(c, Shift(c, axis, 1), axis);
      InnerNeighbor(p, boundary, times, trace, t, c, Shift(c, axis, -1));
      InnerNeighbor(p, boundary, times, trace, t, c, Shift(c, axis, 1));
    }
  }

  /** The time of c solves the upwind equation with the final times of its neighbours. */
  ghost predicate Solves(times: Times, c: Index, k: real)
  {
    Frozen(times, c) && Residual(Minima(times, c), times[c].value) == k
  }

  /** Each march freezes its cells in order of distance. */
  lemma DistancesInOrder(d: DistanceSolver, size: seq<nat>, boundary: seq<Index>, times: seq<real>, trace: Trace,
                         t: Times)
    requires d.Valid() && |size| <= 3 && Computed(d.ToProblem(size), boundary, times, trace, t)
    ensures trace.outside != [] ==> InOrder(trace.outer.pops)
    ensures trace.inside != [] ==> InOrder(trace.inner.pops)
  {
    var p := d.ToProblem(size);
    DistanceSolvesUpwind(d, size);
    if trace.outside != [] {
      OuterIsSeeded(p, boundary, times, trace, t);
      MarchInOrder(p, trace.outer, Squared(d.dx));
    }
    if trace.inside != [] {
      InnerIsSeeded(p, boundary, times, trace, t);
      MarchInOrder(p, trace.inner, Squared(d.dx));
    }
  }

  lemma MarchInOrder(p: Problem, m: MarchTrace, k: real)
    requires p.Valid() && p.InGrid(m.s0) && Seeded(p, m.s0) && DistanceMarch.SolvesUpwind(p, k)
    requires Exec(p, m.s0, m.pops).Some?
    ensures InOrder(m.pops)
  {
    forall i, j | 0 <= i <= j < |m.pops|
      ensures m.pops[i].time <= m.pops[j].time
    {
      DistanceMarch.PopsOrdered(p, m.s0, m.pops, k, i, j);
    }
  }

  /**
   The result solves the upwind equation at every cell off the boundary: outside as it stands, and where a clear walk
   leads from an inside seed of the plan, where the distances count the other way, when it is negated.
   */
  lemma DistancesSolveEquation(d: DistanceSolver, size: seq<nat>, boundary: seq<Index>, times: seq<real>, trace: Trace,
                               t: Times, c: Index)
    requires d.Valid() && |size| <= 3 && Computed(d.ToProblem(size), boundary, times, trace, t)
    requires Inside(c, size) && c !in boundary
    ensures Solves(if Enclosed(size, boundary, trace.plan, c) then NegateAll(t) else t, c, Squared(d.dx))
  {
    var p, k := d.ToProblem(size), Squared(d.dx);
    DistanceSolvesUpwind(d, size);
    InnerIffEnclosed(p, boundary, times, trace, t, c);
    if IsInner(boundary, trace, c) {
      InnerIsSeeded(p, boundary, times, trace, t);
      InnerIsNew(p, boundary, times, trace, t, c);
      DistanceMarch.MarchSolvesEquation(p, trace.inner.s0, trace.inner.pops, trace.inner.times, k, c);
      InnerMinima(p, boundary, times, trace, t, c);
    } else {
      OuterIsNew(p, boundary, times, trace, t, c);
      OuterIsSeeded(p, boundary, times, trace, t);
      DistanceMarch.MarchSolvesEquation(p, trace.outer.s0, trace.outer.pops, t, k, c);
    }
  }

  lemma InnerIsNew(p: Problem, boundary: seq<Index>, times: seq<real>, trace: Trace, t: Times, c: Index)
    requires Computed(p, boundary, times, trace, t) && Inside(c, p.size) && IsInner(boundary, trace, c)
    ensures New(trace.inner.s0.times, trace.inner.times, c)
  {
    BlankSetCells(p.size, BlankTimes(p.size), boundary, times, -1.0);
  }

  lemma OuterIsNew(p: Problem, boundary: seq<Index>, times: seq<real>, trace: Trace, t: Times, c: Index)
    requires Computed(p, boundary, times, trace, t) && Inside(c, p.size) && c !in boundary
    requires !IsInner(boundary, trace, c)
    ensures trace.outside != [] && New(trace.outer.s0.times, t, c)
  {
    if trace.outside != [] {
      OuterStart(p, boundary, times, trace, t);
    }
  }

  /** No time exceeds the weighted length of a grid path from a frozen cell. */
  ghost predicate PathBounded(m: EikonalMarch.Medium, s0: State, times: Times, path: EikonalMarch.GridPath)
    requires EikonalMarch.MarchedPath(m, s0, times, path)
  {
    && Frozen(times, EikonalMarch.First(path)) && Frozen(times, path.cell)
    && times[path.cell].value <= times[EikonalMarch.First(path)].value + EikonalMarch.PathTime(m, s0, times, path)
  }

  ghost predicate PathsBounded(m: EikonalMarch.Medium, march: MarchTrace)
  {
    forall path :: EikonalMarch.MarchedPath(m, march.s0, march.times, path) ==>
        PathBounded(m, march.s0, march.times, path)
  }

  ghost predicate Runs(p: Problem, march: MarchTrace)
  {
    p.Valid() && p.InGrid(march.s0) && Exec(p, march.s0, march.pops) == Some(State(march.times, multiset{}))
  }

  /** When a march is in order, that it is unless the fallback is taken for three or more axes, and what order gives. */
  ghost predicate OrderIsExact(m: EikonalMarch.Medium, size: seq<nat>, march: MarchTrace)
    requires Runs(m.ToProblem(size), march)
  {
    && (InOrder(march.pops) <==> EikonalMarch.GuardsThrough(m, size, march.s0, march.pops))
    && (|size| <= 2 || !m.fallback || EikonalMarch.SteadyRun(m, size, march.s0, march.pops) ==> InOrder(march.pops))
    && (InOrder(march.pops) ==> PathsBounded(m, march))
  }

  lemma MarchOrdered(m: EikonalMarch.Medium, size: seq<nat>, march: MarchTrace)
    requires m.Valid(size) && Runs(m.ToProblem(size), march) && Seeded(m.ToProblem(size), march.s0)
    ensures OrderIsExact(m, size, march)
  {
    EikonalMarch.OrderedIff(m, size, march.s0, march.pops);
    if |size| <= 2 || !m.fallback {
      EikonalMarch.AlwaysSteady(m, size, march.s0, march.pops);
    }
    if EikonalMarch.SteadyRun(m, size, march.s0, march.pops) {
      EikonalMarch.PopsOrdered(m, size, march.s0, march.pops);
    }
    if InOrder(march.pops) {
      forall path | EikonalMarch.MarchedPath(m, march.s0, march.times, path)
        ensures PathBounded(m, march.s0, march.times, path)
      {
        EikonalMarch.TimeAtMostPath(m, size, march.s0, march.pops, march.times, path);
      }
    }
  }

  /**
   In any dimension, for any speeds: each march freezes its cells in order of time exactly when the stencils keep
   the order at every turn, which they do unless the fallback is taken for three or more axes; and then no time
   exceeds a weighted grid path. The result is the outside march's outcome, and inside the negated outcome of the other.
   */
  lemma EikonalTimesBounded(m: EikonalMarch.Medium, size: seq<nat>, boundary: seq<Index>, times: seq<real>,
                            trace: Trace, t: Times)
    requires m.Valid(size) && Computed(m.ToProblem(size), boundary, times, trace, t)
    ensures trace.outside != [] ==>
              Runs(m.ToProblem(size), trace.outer) && OrderIsExact(m, size, trace.outer) && t == trace.outer.times
    ensures trace.inside != [] ==> Runs(m.ToProblem(size), trace.inner) && OrderIsExact(m, size, trace.inner)
    ensures forall c :: Inside(c, size) && c !in boundary && Enclosed(size, boundary, trace.plan, c) ==>
              c in t && c in trace.inner.times && t[c] == Negated(trace.inner.times[c])
  {
    var p := m.ToProblem(size);
    if trace.outside != [] {
      OuterIsSeeded(p, boundary, times, trace, t);
      MarchOrdered(m, size, trace.outer);
    }
    if trace.inside != [] {
      InnerIsSeeded(p, boundary, times, trace, t);
      MarchOrdered(m, size, trace.inner);
    }
    forall c | Inside(c, size) && c !in boundary && Enclosed(size, boundary, trace.plan, c)
      ensures c in t && c in trace.inner.times && t[c] == Negated(trace.inner.times[c])
    {
      InnerIffEnclosed(p, boundary, times, trace, t, c);
      InnerTimes(p, boundary, times, trace, t, c);
    }
  }
}
