/**
 The march over the eikonal solver, in any dimension: exactly when cells freeze in order of time, that they do
 unless the fallback is taken for three or more axes, and that no arrival time then exceeds the weighted length
 of any grid path from a cell frozen on entry.
 */
module EikonalMarch {
  import opened Wrappers
  import opened Grids
  import opened NarrowBands
  import opened Marching
  import opened MarchReach
  import opened Upwind
  import opened Distance
  import opened Eikonal
  import opened EikonalCausal

  /** Grid spacing per axis, a speed per cell, and whether the one-axis fallback is enabled. */
  datatype Medium = Medium(sqrt: real -> real, fallback: bool, h: seq<real>, speed: Index -> real) {
    ghost predicate Valid(size: seq<nat>)
    {
      ExactSqrt(sqrt) && |h| == |size| && ValidSpacing(h) && forall c :: Inside(c, size) ==> speed(c) > 0.0
    }

    predicate Defined(c: Index)
    {
      |c| == |h| && (forall k :: 0 <= k < |h| ==> h[k] > 0.0) && speed(c) > 0.0
    }

    function Solve(c: Index, times: Times): Solved
      requires Defined(c)
    {
      EikonalSolve(sqrt, fallback, h, speed(c), Minima(times, c))
    }

    function ToProblem(size: seq<nat>): Problem
    {
      Problem(size, (c: Index, times: Times) requires Defined(c) => Solve(c, times))
    }

    /** Travel time across one step into c along an axis. */
    ghost function StepTime(c: Index, axis: nat): real
      requires Defined(c) && axis < |h|
    {
      h[axis] / speed(c)
    }
  }

  lemma ProblemValid(m: Medium, size: seq<nat>)
    requires m.Valid(size)
    ensures m.ToProblem(size).Valid()
  {
  }

  lemma ValueIsSolve(m: Medium, size: seq<nat>, times: Times, c: Index)
    requires m.Valid(size) && Covers(size, times) && Solvable(times, c)
    ensures m.ToProblem(size).Valid() && m.Defined(c)
    ensures m.ToProblem(size).Value(times, c) == m.Solve(c, times)
  {
    ProblemValid(m, size);
  }

  lemma SolveAtMostStep(m: Medium, times: Times, c: Index, n: Index, axis: nat)
    requires ExactSqrt(m.sqrt) && m.Defined(c) && Frozen(times, n) && AdjacentOn(n, c, axis)
    ensures m.Solve(c, times).Time? ==> m.Solve(c, times).time <= times[n].value + m.StepTime(c, axis)
  {
    if m.Solve(c, times).Time? {
      FrozenBounds(times, c, n, axis);
      EstimateAtMostStep(m.sqrt, m.fallback, m.h, m.speed(c), Minima(times, c), axis);
    }
  }

  /** The value of a cell is not the fallback for three or more axes. */
  predicate SteadyCell(m: Medium, times: Times, y: Index)
    requires m.Defined(y)
  {
    Steady(m.fallback, m.h, m.speed(y), Minima(times, y))
  }

  lemma {:induction false} CountBound(ms: seq<Option<real>>, n: nat)
    requires n <= |ms|
    ensures Count(ms, n) <= n && (Count(ms, n) > 0 <==> exists k :: 0 <= k < n && ms[k].Some?)
  {
    if n > 0 {
      CountBound(ms, n - 1);
    }
  }

  /** Freezing x at time t cannot bring the value of y, so far at least t, below t. */
  lemma SolveCausal(m: Medium, times: Times, x: Index, t: real, y: Index)
    requires ExactSqrt(m.sqrt) && m.Defined(y)
    requires Open(times, x) && Open(times, y)
    requires Solvable(times, y) ==> m.Solve(y, times).Time? && t <= m.Solve(y, times).time && SteadyCell(m, times, y)
    requires Adjacent(x, y)
    ensures m.Solve(y, Freeze(times, x, t)).Time? ==> t <= m.Solve(y, Freeze(times, x, t)).time
  {
    var axis: nat :| AdjacentOn(x, y, axis);
    MinimaLowered(times, x, t, y, axis);
    SolvableIffMinimum(times, y);
    CountBound(Minima(times, y), |y|);
    if !Solvable(times, y) {
      NoEstimate(Minima(times, y), m.h, m.speed(y), |y|);
    }
    Causal(m.sqrt, m.fallback, m.h, m.speed(y), Minima(times, y), axis, t);
  }

  ghost predicate CurrentIn(m: Medium, s: State, y: Index, e: Entry)
  {
    e in s.heap && e.cell == y && m.Defined(y) && m.Solve(y, s.times) == Time(e.time)
  }

  /** Every reached cell with a frozen neighbour has its current solve value in the heap. */
  ghost predicate AllCurrent(m: Medium, s0: State, s: State)
  {
    forall y :: Solvable(s.times, y) && Reached(s0, y) ==> exists e :: CurrentIn(m, s, y, e)
  }

  /** No frozen neighbour of c is more than one step before it. */
  ghost predicate StepBounded(m: Medium, times: Times, c: Index)
  {
    && Frozen(times, c) && m.Defined(c)
    && forall n, axis: nat :: Frozen(times, n) && AdjacentOn(n, c, axis) ==>
         times[c].value <= times[n].value + m.StepTime(c, axis)
  }

  ghost predicate AllBounded(m: Medium, s0: State, s: State, l: real)
  {
    forall c :: New(s0.times, s.times, c) ==> StepBounded(m, s.times, c) && s.times[c].value <= l
  }

  /** The popped entry of an unfrozen cell is within one step of each of its frozen neighbours. */
  lemma PoppedBounded(m: Medium, size: seq<nat>, s0: State, s: State, e: Entry)
    requires m.Valid(size) && m.Defined(e.cell) && IsLeast(e, s.heap) && Open(s.times, e.cell)
    requires AllCurrent(m, s0, s) && Solvable(s.times, e.cell) && Reached(s0, e.cell)
    ensures StepBounded(m, Freeze(s.times, e.cell, e.time), e.cell)
  {
    var f :| CurrentIn(m, s, e.cell, f);
    var times := Freeze(s.times, e.cell, e.time);
    forall n, axis: nat | Frozen(times, n) && AdjacentOn(n, e.cell, axis)
      ensures e.time <= times[n].value + m.StepTime(e.cell, axis)
    {
      AdjacentOnSymmetric(n, e.cell, axis);
      SolveAtMostStep(m, s.times, e.cell, n, axis);
    }
  }

  /** Freezing another cell later keeps c within one step of all its frozen neighbours. */
  lemma BoundedKept(m: Medium, times: Times, c: Index, x: Index, t: real)
    requires StepBounded(m, times, c) && Open(times, x) && times[c].value <= t
    ensures StepBounded(m, Freeze(times, x, t), c)
  {
    forall n, axis: nat | Frozen(Freeze(times, x, t), n) && AdjacentOn(n, c, axis)
      ensures times[c].value <= Freeze(times, x, t)[n].value + m.StepTime(c, axis)
    {
      DividePositive(m.h[axis], m.speed(c));
    }
  }

  lemma BoundedStep(m: Medium, size: seq<nat>, s0: State, s: State, e: Entry, l: real)
    requires m.Valid(size) && m.Defined(e.cell) && IsLeast(e, s.heap) && Open(s.times, e.cell)
    requires AllCurrent(m, s0, s) && Solvable(s.times, e.cell) && Reached(s0, e.cell)
    requires AllBounded(m, s0, s, l) && l <= e.time
    ensures forall heap :: AllBounded(m, s0, State(Freeze(s.times, e.cell, e.time), heap), e.time)
  {
    var times := Freeze(s.times, e.cell, e.time);
    PoppedBounded(m, size, s0, s, e);
    forall c | New(s0.times, times, c) && c != e.cell
      ensures StepBounded(m, times, c) && times[c].value <= e.time
    {
      assert New(s0.times, s.times, c);
      BoundedKept(m, s.times, c, e.cell, e.time);
    }
  }

  /** Before a turn, no reached cell with a frozen neighbour has the fallback for three or more axes. */
  ghost predicate SteadyAt(m: Medium, s0: State, s: State)
  {
    forall y {:trigger Reached(s0, y)} :: Reached(s0, y) && Solvable(s.times, y) && m.Defined(y) ==>
        SteadyCell(m, s.times, y)
  }

  /** Everything pushed after freezing e.cell is not below the time just frozen. */
  lemma NotBelowStep(m: Medium, size: seq<nat>, s0: State, s: State, e: Entry)
    requires m.Valid(size) && m.ToProblem(size).Valid() && m.ToProblem(size).InGrid(s)
    requires IsLeast(e, s.heap) && Open(s.times, e.cell) && Step(m.ToProblem(size), s, e).Some?
    requires AllCurrent(m, s0, s) && OnlyReached(s0, s) && SteadyAt(m, s0, s)
    ensures NotBelow(Step(m.ToProblem(size), s, e).value, e.time)
  {
    var p := m.ToProblem(size);
    var times := Freeze(s.times, e.cell, e.time);
    PushedSound(p, times, e.cell, 2 * |e.cell|);
    PushedReached(p, s0, times, e.cell);
    forall f | f in Pushed(p, times, e.cell, 2 * |e.cell|).value
      ensures e.time <= f.time
    {
      assert SolveOf(p, times, e.cell, f);
      ValueIsSolve(m, size, times, f.cell);
      PushedNotBelow(m, s0, s, e, f);
    }
    NotBelowMore(p, s, e);
  }

  lemma PushedNotBelow(m: Medium, s0: State, s: State, e: Entry, f: Entry)
    requires ExactSqrt(m.sqrt) && m.Defined(f.cell)
    requires IsLeast(e, s.heap) && Open(s.times, e.cell) && AllCurrent(m, s0, s) && SteadyAt(m, s0, s)
    requires Open(s.times, f.cell) && Reached(s0, f.cell) && Adjacent(e.cell, f.cell)
    requires m.Solve(f.cell, Freeze(s.times, e.cell, e.time)) == Time(f.time)
    ensures e.time <= f.time
  {
    if Solvable(s.times, f.cell) {
      var g :| CurrentIn(m, s, f.cell, g);
    }
    SolveCausal(m, s.times, e.cell, e.time, f.cell);
  }

  lemma CurrentStep(m: Medium, size: seq<nat>, s0: State, s: State, e: Entry, y: Index) returns (f: Entry)
    requires m.Valid(size) && m.ToProblem(size).Valid() && m.ToProblem(size).InGrid(s)
    requires IsLeast(e, s.heap) && Open(s.times, e.cell) && Step(m.ToProblem(size), s, e).Some?
    requires AllCurrent(m, s0, s)
    requires Solvable(Freeze(s.times, e.cell, e.time), y) && Reached(s0, y)
    ensures CurrentIn(m, Step(m.ToProblem(size), s, e).value, y, f)
  {
    if Adjacent(e.cell, y) {
      f := CurrentPushed(m, size, Freeze(s.times, e.cell, e.time), e.cell, y);
    } else {
      f := CurrentKept(m, s0, s, e, y);
    }
    FreshStepHolds(m.ToProblem(size), s, e, f);
  }

  lemma CurrentPushed(m: Medium, size: seq<nat>, times: Times, c: Index, y: Index) returns (f: Entry)
    requires m.Valid(size) && m.ToProblem(size).Valid() && Covers(size, times) && Frozen(times, c)
    requires Pushed(m.ToProblem(size), times, c, 2 * |c|).Some? && Adjacent(c, y) && Open(times, y)
    ensures f in Pushed(m.ToProblem(size), times, c, 2 * |c|).value && f.cell == y
    ensures m.Defined(y) && m.Solve(y, times) == Time(f.time)
  {
    f := NeighborPushed(m.ToProblem(size), times, c, y);
    ValueIsSolve(m, size, times, y);
  }

  lemma CurrentKept(m: Medium, s0: State, s: State, e: Entry, y: Index) returns (f: Entry)
    requires Open(s.times, e.cell) && AllCurrent(m, s0, s) && !Adjacent(e.cell, y)
    requires Solvable(Freeze(s.times, e.cell, e.time), y) && Reached(s0, y)
    ensures f in s.heap && f != e && f.cell == y && m.Defined(y)
    ensures m.Solve(y, Freeze(s.times, e.cell, e.time)) == Time(f.time)
  {
    MinimaKept(s.times, e.cell, e.time, y);
    SolvableIffMinimum(s.times, y);
    SolvableIffMinimum(Freeze(s.times, e.cell, e.time), y);
    f :| CurrentIn(m, s, y, f);
  }

  lemma StaleCurrent(m: Medium, size: seq<nat>, s0: State, s: State, e: Entry)
    requires m.ToProblem(size).Valid() && m.ToProblem(size).InGrid(s)
    requires IsLeast(e, s.heap) && Frozen(s.times, e.cell) && AllCurrent(m, s0, s)
    ensures AllCurrent(m, s0, Step(m.ToProblem(size), s, e).value)
  {
    var s' := Step(m.ToProblem(size), s, e).value;
    forall y | Solvable(s'.times, y) && Reached(s0, y)
      ensures exists f :: CurrentIn(m, s', y, f)
    {
      var f :| CurrentIn(m, s, y, f);
      assert CurrentIn(m, s', y, f);
    }
  }

  lemma TurnCurrent(m: Medium, size: seq<nat>, s0: State, s: State, e: Entry)
    requires m.Valid(size) && m.ToProblem(size).Valid() && m.ToProblem(size).InGrid(s)
    requires IsLeast(e, s.heap) && Step(m.ToProblem(size), s, e).Some? && AllCurrent(m, s0, s)
    ensures AllCurrent(m, s0, Step(m.ToProblem(size), s, e).value)
  {
    if Frozen(s.times, e.cell) {
      StaleCurrent(m, size, s0, s, e);
    } else {
      var s' := Step(m.ToProblem(size), s, e).value;
      forall y | Solvable(s'.times, y) && Reached(s0, y)
        ensures exists f :: CurrentIn(m, s', y, f)
      {
        var f := CurrentStep(m, size, s0, s, e, y);
      }
    }
  }

  lemma SeededCurrent(m: Medium, size: seq<nat>, s0: State)
    requires m.Valid(size) && m.ToProblem(size).Valid() && m.ToProblem(size).InGrid(s0)
    requires Seeded(m.ToProblem(size), s0)
    ensures HeapSolvable(s0) && AllCurrent(m, s0, s0)
  {
    forall y | Solvable(s0.times, y) && Reached(s0, y)
      ensures exists e :: CurrentIn(m, s0, y, e)
    {
      var e :| e in s0.heap && e.cell == y;
      ValueIsSolve(m, size, s0.times, y);
      assert CurrentIn(m, s0, y, e);
    }
  }

  /** All along a run, every reached cell with a frozen neighbour has its current value in the heap. */
  lemma {:induction false} CurrentRun(m: Medium, size: seq<nat>, s0: State, pops: seq<Entry>)
    requires m.Valid(size) && m.ToProblem(size).Valid() && m.ToProblem(size).InGrid(s0)
    requires Seeded(m.ToProblem(size), s0) && Exec(m.ToProblem(size), s0, pops).Some?
    ensures var s := Exec(m.ToProblem(size), s0, pops).value;
            HeapSolvable(s) && AllCurrent(m, s0, s) && OnlyReached(s0, s)
  {
    var p := m.ToProblem(size);
    OnlyReachedRun(p, s0, pops);
    if pops == [] {
      SeededCurrent(m, size, s0);
    } else {
      var before := pops[..|pops| - 1];
      var s := Exec(p, s0, before).value;
      CurrentRun(m, size, s0, before);
      HeapSolvableStep(p, s, pops[|pops| - 1]);
      TurnCurrent(m, size, s0, s, pops[|pops| - 1]);
    }
  }

  /** Before every turn of the run all values are steady. */
  ghost predicate SteadyRun(m: Medium, size: seq<nat>, s0: State, pops: seq<Entry>)
    requires m.ToProblem(size).Valid() && m.ToProblem(size).InGrid(s0) && Exec(m.ToProblem(size), s0, pops).Some?
    decreases |pops|
  {
    pops == []
    || (SteadyRun(m, size, s0, pops[..|pops| - 1])
        && SteadyAt(m, s0, Exec(m.ToProblem(size), s0, pops[..|pops| - 1]).value))
  }

  /** So it is without the fallback, and in up to two dimensions with it. */
  lemma {:induction false} AlwaysSteady(m: Medium, size: seq<nat>, s0: State, pops: seq<Entry>)
    requires m.Valid(size) && m.ToProblem(size).Valid() && m.ToProblem(size).InGrid(s0)
    requires Exec(m.ToProblem(size), s0, pops).Some? && (|size| <= 2 || !m.fallback)
    ensures SteadyRun(m, size, s0, pops)
    decreases |pops|
  {
    if pops != [] {
      AlwaysSteady(m, size, s0, pops[..|pops| - 1]);
      var s := Exec(m.ToProblem(size), s0, pops[..|pops| - 1]).value;
      forall y | Reached(s0, y) && Solvable(s.times, y) && m.Defined(y)
        ensures SteadyCell(m, s.times, y)
      {
        CountBound(Minima(s.times, y), |y|);
      }
    }
  }

  /** Entries are popped, and so cells are frozen, in non-decreasing order of time. */
  lemma PopsOrdered(m: Medium, size: seq<nat>, s0: State, pops: seq<Entry>)
    requires m.Valid(size) && m.ToProblem(size).Valid() && m.ToProblem(size).InGrid(s0)
    requires Seeded(m.ToProblem(size), s0) && Exec(m.ToProblem(size), s0, pops).Some?
    requires SteadyRun(m, size, s0, pops)
    ensures InOrder(pops)
  {
    SteadyKeeps(m, size, s0, pops);
    OrderedIffKept(m.ToProblem(size), s0, pops);
  }

  lemma {:induction false} SteadyKeeps(m: Medium, size: seq<nat>, s0: State, pops: seq<Entry>)
    requires m.Valid(size) && m.ToProblem(size).Valid() && m.ToProblem(size).InGrid(s0)
    requires Seeded(m.ToProblem(size), s0) && Exec(m.ToProblem(size), s0, pops).Some?
    requires SteadyRun(m, size, s0, pops)
    ensures KeepsThrough(m.ToProblem(size), s0, pops)
    decreases |pops|
  {
    if |pops| > 1 {
      var before := pops[..|pops| - 1];
      SteadyKeeps(m, size, s0, before);
      LastKeeps(m, size, s0, before);
    }
  }

  lemma LastKeeps(m: Medium, size: seq<nat>, s0: State, pops: seq<Entry>)
    requires m.Valid(size) && m.ToProblem(size).Valid() && m.ToProblem(size).InGrid(s0)
    requires Seeded(m.ToProblem(size), s0) && Exec(m.ToProblem(size), s0, pops).Some?
    requires pops != [] && SteadyRun(m, size, s0, pops)
    ensures NotBelow(Exec(m.ToProblem(size), s0, pops).value, pops[|pops| - 1].time)
  {
    var before := pops[..|pops| - 1];
    CurrentRun(m, size, s0, before);
    TurnNotBelow(m, size, s0, Exec(m.ToProblem(size), s0, before).value, pops[|pops| - 1]);
  }

  lemma TurnNotBelow(m: Medium, size: seq<nat>, s0: State, s: State, e: Entry)
    requires m.Valid(size) && m.ToProblem(size).Valid() && m.ToProblem(size).InGrid(s)
    requires IsLeast(e, s.heap) && Step(m.ToProblem(size), s, e).Some?
    requires AllCurrent(m, s0, s) && OnlyReached(s0, s) && SteadyAt(m, s0, s)
    ensures NotBelow(Step(m.ToProblem(size), s, e).value, e.time)
  {
    if Open(s.times, e.cell) {
      NotBelowStep(m, size, s0, s, e);
    }
  }

  /** After freezing c at time l, the stencil of every unfrozen neighbour keeps its value at l or above. */
  ghost predicate GuardsAround(m: Medium, times: Times, c: Index, l: real)
  {
    forall y :: Adjacent(c, y) && Open(times, y) && m.Defined(y) ==>
      AtLeastGuard(m.fallback, m.h, m.speed(y), Minima(times, y), l)
  }

  lemma GuardIsValue(m: Medium, size: seq<nat>, times: Times, y: Index, t: real, l: real)
    requires m.Valid(size) && Covers(size, times) && Solvable(times, y) && m.ToProblem(size).Valid()
    requires m.ToProblem(size).Value(times, y) == Time(t)
    ensures m.Defined(y) && (l <= t <==> AtLeastGuard(m.fallback, m.h, m.speed(y), Minima(times, y), l))
  {
    ValueIsSolve(m, size, times, y);
    EstimateAtLeastIff(m.sqrt, m.fallback, m.h, m.speed(y), Minima(times, y), l);
  }

  /** In any dimension, fallback or not: a turn keeps the order exactly when the neighbours' stencils do. */
  lemma TurnKeepsIff(m: Medium, size: seq<nat>, s: State, e: Entry)
    requires m.Valid(size) && m.ToProblem(size).Valid() && m.ToProblem(size).InGrid(s)
    requires IsLeast(e, s.heap) && Open(s.times, e.cell) && Step(m.ToProblem(size), s, e).Some?
    ensures NotBelow(Step(m.ToProblem(size), s, e).value, e.time) <==>
              GuardsAround(m, Freeze(s.times, e.cell, e.time), e.cell, e.time)
  {
    var p := m.ToProblem(size);
    var times := Freeze(s.times, e.cell, e.time);
    PushedSound(p, times, e.cell, 2 * |e.cell|);
    if GuardsAround(m, times, e.cell, e.time) {
      forall f | f in Pushed(p, times, e.cell, 2 * |e.cell|).value
        ensures e.time <= f.time
      {
        assert SolveOf(p, times, e.cell, f);
        GuardIsValue(m, size, times, f.cell, f.time, e.time);
      }
      NotBelowMore(p, s, e);
    }
    if NotBelow(Step(p, s, e).value, e.time) {
      forall y | Adjacent(e.cell, y) && Open(times, y) && m.Defined(y)
        ensures AtLeastGuard(m.fallback, m.h, m.speed(y), Minima(times, y), e.time)
      {
        var f := NeighborPushed(p, times, e.cell, y);
        FreshStepHolds(p, s, e, f);
        GuardIsValue(m, size, times, y, f.time, e.time);
      }
    }
  }

  /** The last turn of a run freezes no cell, or the stencils around the cell it freezes keep the order. */
  ghost predicate LastGuarded(m: Medium, size: seq<nat>, s0: State, pops: seq<Entry>)
    requires m.ToProblem(size).Valid() && m.ToProblem(size).InGrid(s0) && Exec(m.ToProblem(size), s0, pops).Some?
    requires pops != []
  {
    var e, s := pops[|pops| - 1], Exec(m.ToProblem(size), s0, pops[..|pops| - 1]).value;
    Open(s.times, e.cell) ==> GuardsAround(m, Freeze(s.times, e.cell, e.time), e.cell, e.time)
  }

  /** The stencils keep the order at every turn of the run but the last. */
  ghost predicate GuardsThrough(m: Medium, size: seq<nat>, s0: State, pops: seq<Entry>)
    requires m.ToProblem(size).Valid() && m.ToProblem(size).InGrid(s0) && Exec(m.ToProblem(size), s0, pops).Some?
    decreases |pops|
  {
    |pops| <= 1
    || (GuardsThrough(m, size, s0, pops[..|pops| - 1]) && LastGuarded(m, size, s0, pops[..|pops| - 1]))
  }

  /** In any dimension, fallback or not: cells freeze in order exactly when the stencils keep the order. */
  lemma OrderedIff(m: Medium, size: seq<nat>, s0: State, pops: seq<Entry>)
    requires m.Valid(size) && m.ToProblem(size).Valid() && m.ToProblem(size).InGrid(s0)
    requires Exec(m.ToProblem(size), s0, pops).Some?
    ensures InOrder(pops) <==> GuardsThrough(m, size, s0, pops)
  {
    OrderedIffKept(m.ToProblem(size), s0, pops);
    KeptIff(m, size, s0, pops);
  }

  lemma {:induction false} KeptIff(m: Medium, size: seq<nat>, s0: State, pops: seq<Entry>)
    requires m.Valid(size) && m.ToProblem(size).Valid() && m.ToProblem(size).InGrid(s0)
    requires Exec(m.ToProblem(size), s0, pops).Some?
    ensures KeepsThrough(m.ToProblem(size), s0, pops) <==> GuardsThrough(m, size, s0, pops)
    decreases |pops|
  {
    if |pops| > 1 {
      var before := pops[..|pops| - 1];
      KeptIff(m, size, s0, before);
      LastKeepsIff(m, size, s0, before);
    }
  }

  lemma LastKeepsIff(m: Medium, size: seq<nat>, s0: State, pops: seq<Entry>)
    requires m.Valid(size) && m.ToProblem(size).Valid() && m.ToProblem(size).InGrid(s0)
    requires Exec(m.ToProblem(size), s0, pops).Some? && pops != []
    ensures NotBelow(Exec(m.ToProblem(size), s0, pops).value, pops[|pops| - 1].time) <==> LastGuarded(m, size, s0, pops)
  {
    var e, s := pops[|pops| - 1], Exec(m.ToProblem(size), s0, pops[..|pops| - 1]).value;
    if Open(s.times, e.cell) {
      TurnKeepsIff(m, size, s, e);
    }
  }

  /** In a run in order every marched cell is within one step of each frozen neighbour. */
  lemma {:induction false} BoundedRun(m: Medium, size: seq<nat>, s0: State, pops: seq<Entry>)
    requires m.Valid(size) && m.ToProblem(size).Valid() && m.ToProblem(size).InGrid(s0)
    requires Seeded(m.ToProblem(size), s0) && Exec(m.ToProblem(size), s0, pops).Some?
    requires pops != [] && InOrder(pops)
    ensures AllBounded(m, s0, Exec(m.ToProblem(size), s0, pops).value, pops[|pops| - 1].time)
    decreases |pops|
  {
    var before := pops[..|pops| - 1];
    var e := pops[|pops| - 1];
    CurrentRun(m, size, s0, before);
    if before != [] {
      BoundedRun(m, size, s0, before);
    }
    TurnBounded(m, size, s0, Exec(m.ToProblem(size), s0, before).value, e,
                if before == [] then e.time else before[|before| - 1].time);
  }

  lemma TurnBounded(m: Medium, size: seq<nat>, s0: State, s: State, e: Entry, l: real)
    requires m.Valid(size) && m.ToProblem(size).Valid() && m.ToProblem(size).InGrid(s)
    requires IsLeast(e, s.heap) && Step(m.ToProblem(size), s, e).Some?
    requires OnlyReached(s0, s) && HeapSolvable(s)
    requires AllCurrent(m, s0, s) && AllBounded(m, s0, s, l) && l <= e.time
    ensures AllBounded(m, s0, Step(m.ToProblem(size), s, e).value, e.time)
  {
    if Open(s.times, e.cell) {
      BoundedStep(m, size, s0, s, e, l);
    }
  }

  /** In the finished grid of a run in order every marched cell is within one step of each frozen neighbour. */
  lemma MarchedWithinStep(m: Medium, size: seq<nat>, s0: State, pops: seq<Entry>, times: Times, c: Index)
    requires m.Valid(size) && m.ToProblem(size).Valid() && m.ToProblem(size).InGrid(s0)
    requires Seeded(m.ToProblem(size), s0) && InOrder(pops)
    requires Exec(m.ToProblem(size), s0, pops) == Some(State(times, multiset{})) && New(s0.times, times, c)
    ensures StepBounded(m, times, c)
  {
    if pops != [] {
      BoundedRun(m, size, s0, pops);
    }
  }

  /** A grid path, each cell after the first entered along an axis. */
  datatype GridPath = Start(cell: Index) | Enter(prev: GridPath, cell: Index, axis: nat)

  function First(path: GridPath): Index
  {
    match path
    case Start(c) => c
    case Enter(prev, _, _) => First(prev)
  }

  /** The path starts at a frozen cell and goes on over marched cells. */
  ghost predicate MarchedPath(m: Medium, s0: State, times: Times, path: GridPath)
  {
    match path
    case Start(c) => Frozen(times, c)
    case Enter(prev, c, axis) =>
      MarchedPath(m, s0, times, prev) && New(s0.times, times, c) && m.Defined(c) && AdjacentOn(prev.cell, c, axis)
  }

  /** Travel time along the path, one step into each cell after the first. */
  ghost function PathTime(m: Medium, s0: State, times: Times, path: GridPath): real
    requires MarchedPath(m, s0, times, path)
  {
    match path
    case Start(_) => 0.0
    case Enter(prev, c, axis) => PathTime(m, s0, times, prev) + m.StepTime(c, axis)
  }

  ghost predicate AllStepBounded(m: Medium, s0: State, times: Times)
  {
    forall c :: New(s0.times, times, c) ==> StepBounded(m, times, c)
  }

  lemma {:induction false} TimeAlongPath(m: Medium, s0: State, times: Times, path: GridPath)
    requires AllStepBounded(m, s0, times) && MarchedPath(m, s0, times, path)
    ensures Frozen(times, First(path)) && Frozen(times, path.cell)
    ensures times[path.cell].value <= times[First(path)].value + PathTime(m, s0, times, path)
  {
    if path.Enter? {
      TimeAlongPath(m, s0, times, path.prev);
      assert StepBounded(m, times, path.cell);
    }
  }

  /** In the finished grid of a run in order no time exceeds the weighted length of a path from a frozen cell. */
  lemma TimeAtMostPath(m: Medium, size: seq<nat>, s0: State, pops: seq<Entry>, times: Times, path: GridPath)
    requires m.Valid(size) && m.ToProblem(size).Valid() && m.ToProblem(size).InGrid(s0)
    requires Seeded(m.ToProblem(size), s0) && InOrder(pops)
    requires Exec(m.ToProblem(size), s0, pops) == Some(State(times, multiset{}))
    requires MarchedPath(m, s0, times, path)
    ensures Frozen(times, First(path)) && Frozen(times, path.cell)
    ensures times[path.cell].value <= times[First(path)].value + PathTime(m, s0, times, path)
  {
    forall c | New(s0.times, times, c)
      ensures StepBounded(m, times, c)
    {
      MarchedWithinStep(m, size, s0, pops, times, c);
    }
    TimeAlongPath(m, s0, times, path);
  }
}
