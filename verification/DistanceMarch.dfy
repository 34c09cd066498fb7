/**
 The march over a solver of the discrete upwind equation: cells freeze in order of time, and the
 finished grid satisfies the equation at every cell the march froze, in any number of dimensions.
 */
module DistanceMarch {
  import opened Wrappers
  import opened Grids
  import opened NarrowBands
  import opened Marching
  import opened MarchReach
  import opened Upwind

  /** Every time the solver gives is the root of the upwind equation with right-hand side k. */
  ghost predicate SolvesUpwind(p: Problem, k: real)
    requires p.Valid()
  {
    && k > 0.0
    && forall times: Times, c: Index :: Covers(p.size, times) && Solvable(times, c) && p.Value(times, c).Time? ==>
         Residual(Minima(times, c), p.Value(times, c).time) == k
  }

  ghost predicate RootIn(s: State, y: Index, k: real, e: Entry)
  {
    e in s.heap && e.cell == y && Residual(Minima(s.times, y), e.time) == k
  }

  /** No entry of y is below the root of its current equation, and the root itself is an entry. */
  ghost predicate Tracked(s: State, y: Index, k: real)
  {
    && (exists e :: RootIn(s, y, k, e))
    && (forall e :: e in s.heap && e.cell == y ==> Residual(Minima(s.times, y), e.time) >= k)
  }

  ghost predicate AllTracked(s0: State, s: State, k: real)
  {
    forall y :: Solvable(s.times, y) && Reached(s0, y) ==> Tracked(s, y, k)
  }

  /** c was frozen by the march, not after the time l, and its equation holds now. */
  ghost predicate Settled(s: State, c: Index, k: real, l: real)
  {
    Frozen(s.times, c) && s.times[c].value <= l && Residual(Minima(s.times, c), s.times[c].value) == k
  }

  ghost predicate AllSettled(s0: State, s: State, k: real, l: real)
  {
    forall c :: New(s0.times, s.times, c) ==> Settled(s, c, k, l)
  }

  /** The popped entry of an unfrozen cell is the root of its current equation. */
  lemma PoppedIsRoot(s: State, k: real, e: Entry)
    requires IsLeast(e, s.heap) && Tracked(s, e.cell, k)
    ensures Residual(Minima(s.times, e.cell), e.time) == k
  {
    var f :| RootIn(s, e.cell, k, f);
    ResidualMonotone(Minima(s.times, e.cell), e.time, f.time);
  }

  lemma SettledKept(s: State, c: Index, k: real, l: real, x: Index, t: real)
    requires Settled(s, c, k, l) && Open(s.times, x) && l <= t
    ensures Settled(State(Freeze(s.times, x, t), s.heap), c, k, t)
  {
    if axis: nat :| AdjacentOn(x, c, axis) {
      MinimaLowered(s.times, x, t, c, axis);
      ResidualLowered(Minima(s.times, c), axis, t, s.times[c].value);
    } else {
      MinimaKept(s.times, x, t, c);
    }
  }

  /** Freezing a cell never lowers the residual of another cell's entries. */
  lemma ResidualFrozen(times: Times, x: Index, t: real, y: Index, u: real)
    requires Open(times, x)
    ensures Residual(Minima(Freeze(times, x, t), y), u) >= Residual(Minima(times, y), u)
    ensures u <= t ==> Residual(Minima(Freeze(times, x, t), y), u) == Residual(Minima(times, y), u)
  {
    if axis: nat :| AdjacentOn(x, y, axis) {
      MinimaLowered(times, x, t, y, axis);
      ResidualLowered(Minima(times, y), axis, t, u);
    } else {
      MinimaKept(times, x, t, y);
    }
  }

  /** Causality: a neighbour's new solve value is not below the time just frozen. */
  lemma PushedNotBelow(s0: State, s: State, k: real, e: Entry, f: Entry)
    requires k > 0.0 && IsLeast(e, s.heap) && Open(s.times, e.cell) && AllTracked(s0, s, k)
    requires Open(s.times, f.cell) && Reached(s0, f.cell)
    requires Residual(Minima(Freeze(s.times, e.cell, e.time), f.cell), f.time) == k
    ensures e.time <= f.time
  {
    ResidualFrozen(s.times, e.cell, e.time, f.cell, f.time);
    if f.time <= e.time {
      ResidualNeedsMinimum(Minima(s.times, f.cell), f.time);
      SolvableIffMinimum(s.times, f.cell);
      var g :| RootIn(s, f.cell, k, g);
      RootUnique(Minima(s.times, f.cell), f.time, g.time);
    }
  }

  /** Both invariants and the floor under the heap, after the last pop at time l. */
  ghost predicate Ordered(s0: State, s: State, k: real, l: real)
  {
    AllTracked(s0, s, k) && AllSettled(s0, s, k, l) && NotBelow(s, l)
  }

  lemma StaleStep(p: Problem, s0: State, s: State, e: Entry, k: real, l: real)
    requires p.Valid() && p.InGrid(s) && IsLeast(e, s.heap) && Frozen(s.times, e.cell)
    requires AllTracked(s0, s, k) && AllSettled(s0, s, k, l) && l <= e.time
    ensures Ordered(s0, Step(p, s, e).value, k, e.time)
  {
    var s' := Step(p, s, e).value;
    forall y | Solvable(s'.times, y) && Reached(s0, y)
      ensures Tracked(s', y, k)
    {
      var f :| RootIn(s, y, k, f);
      assert RootIn(s', y, k, f);
    }
  }

  /** After freezing e.cell, neither an old nor a new entry of y is below the root. */
  lemma EntriesFresh(p: Problem, s0: State, s: State, e: Entry, k: real, y: Index)
    requires p.Valid() && p.InGrid(s) && IsLeast(e, s.heap) && Open(s.times, e.cell)
    requires SolvesUpwind(p, k) && AllTracked(s0, s, k) && Step(p, s, e).Some? && HeapSolvable(s)
    requires Open(s.times, y) && Reached(s0, y)
    ensures forall f :: f in Step(p, s, e).value.heap && f.cell == y ==>
              Residual(Minima(Freeze(s.times, e.cell, e.time), y), f.time) >= k
  {
    var times := Freeze(s.times, e.cell, e.time);
    var pushed := Pushed(p, times, e.cell, 2 * |e.cell|).value;
    PushedSound(p, times, e.cell, 2 * |e.cell|);
    forall f | f in Step(p, s, e).value.heap && f.cell == y
      ensures Residual(Minima(times, y), f.time) >= k
    {
      if f in pushed {
        assert SolveOf(p, times, e.cell, f);
      } else {
        assert Tracked(s, y, k);
        ResidualFrozen(s.times, e.cell, e.time, y, f.time);
      }
    }
  }

  /** A cell that is no neighbour of e.cell keeps its stencil and so its root entry. */
  lemma RootKept(s0: State, s: State, e: Entry, k: real, y: Index) returns (f: Entry)
    requires AllTracked(s0, s, k) && Reached(s0, y)
    requires Open(s.times, e.cell) && !Adjacent(e.cell, y)
    requires Solvable(Freeze(s.times, e.cell, e.time), y)
    ensures f in s.heap && f != e && f.cell == y
    ensures Residual(Minima(Freeze(s.times, e.cell, e.time), y), f.time) == k
  {
    MinimaKept(s.times, e.cell, e.time, y);
    SolvableIffMinimum(s.times, y);
    SolvableIffMinimum(Freeze(s.times, e.cell, e.time), y);
    assert Tracked(s, y, k);
    f :| RootIn(s, y, k, f);
  }

  lemma RootInStep(p: Problem, s: State, e: Entry, k: real, y: Index, f: Entry)
    requires p.Valid() && p.InGrid(s) && e in s.heap && Open(s.times, e.cell) && Step(p, s, e).Some? && f.cell == y
    requires (f in s.heap && f != e) || f in Pushed(p, Freeze(s.times, e.cell, e.time), e.cell, 2 * |e.cell|).value
    requires Residual(Minima(Freeze(s.times, e.cell, e.time), y), f.time) == k
    ensures RootIn(Step(p, s, e).value, y, k, f)
  {
    FreshStepHolds(p, s, e, f);
  }

  /** After freezing e.cell, the root of y's equation is an entry. */
  lemma RootFresh(p: Problem, s0: State, s: State, e: Entry, k: real, y: Index) returns (f: Entry)
    requires p.Valid() && p.InGrid(s) && IsLeast(e, s.heap) && Open(s.times, e.cell)
    requires SolvesUpwind(p, k) && AllTracked(s0, s, k) && Step(p, s, e).Some?
    requires Solvable(Step(p, s, e).value.times, y) && Reached(s0, y)
    ensures RootIn(Step(p, s, e).value, y, k, f)
  {
    if Adjacent(e.cell, y) {
      f := NeighborPushed(p, Freeze(s.times, e.cell, e.time), e.cell, y);
    } else {
      f := RootKept(s0, s, e, k, y);
    }
    RootInStep(p, s, e, k, y, f);
  }

  lemma NotBelowFresh(p: Problem, s0: State, s: State, e: Entry, k: real)
    requires p.Valid() && p.InGrid(s) && IsLeast(e, s.heap) && Open(s.times, e.cell)
    requires SolvesUpwind(p, k) && AllTracked(s0, s, k) && OnlyReached(s0, s) && Step(p, s, e).Some?
    ensures NotBelow(Step(p, s, e).value, e.time)
  {
    var times := Freeze(s.times, e.cell, e.time);
    PushedSound(p, times, e.cell, 2 * |e.cell|);
    PushedReached(p, s0, times, e.cell);
    forall f | f in Pushed(p, times, e.cell, 2 * |e.cell|).value
      ensures e.time <= f.time
    {
      assert SolveOf(p, times, e.cell, f);
      PushedNotBelow(s0, s, k, e, f);
    }
    NotBelowMore(p, s, e);
  }

  lemma SettledFresh(p: Problem, s0: State, s: State, e: Entry, k: real, l: real)
    requires p.Valid() && p.InGrid(s) && IsLeast(e, s.heap) && Open(s.times, e.cell)
    requires HeapSolvable(s) && Reached(s0, e.cell) && Step(p, s, e).Some?
    requires AllTracked(s0, s, k) && AllSettled(s0, s, k, l) && l <= e.time
    ensures AllSettled(s0, Step(p, s, e).value, k, e.time)
  {
    var s' := Step(p, s, e).value;
    PoppedIsRoot(s, k, e);
    if Adjacent(e.cell, e.cell) {
      var axis: nat :| AdjacentOn(e.cell, e.cell, axis);
      AdjacentOnSymmetric(e.cell, e.cell, axis);
    } else {
      MinimaKept(s.times, e.cell, e.time, e.cell);
    }
    forall c | New(s0.times, s'.times, c) && c != e.cell
      ensures Settled(s', c, k, e.time)
    {
      assert New(s0.times, s.times, c);
      SettledKept(s, c, k, l, e.cell, e.time);
    }
  }

  lemma OrderedStep(p: Problem, s0: State, s: State, e: Entry, k: real, l: real)
    requires p.Valid() && p.InGrid(s) && IsLeast(e, s.heap) && Step(p, s, e).Some?
    requires SolvesUpwind(p, k) && OnlyReached(s0, s) && HeapSolvable(s)
    requires AllTracked(s0, s, k) && AllSettled(s0, s, k, l) && l <= e.time
    ensures Ordered(s0, Step(p, s, e).value, k, e.time)
  {
    if Frozen(s.times, e.cell) {
      StaleStep(p, s0, s, e, k, l);
    } else {
      NotBelowFresh(p, s0, s, e, k);
      SettledFresh(p, s0, s, e, k, l);
      forall y | Solvable(Step(p, s, e).value.times, y) && Reached(s0, y)
        ensures Tracked(Step(p, s, e).value, y, k)
      {
        EntriesFresh(p, s0, s, e, k, y);
        var f := RootFresh(p, s0, s, e, k, y);
      }
    }
  }

  lemma SeededTracks(p: Problem, s0: State, k: real)
    requires p.Valid() && p.InGrid(s0) && Seeded(p, s0) && SolvesUpwind(p, k)
    ensures HeapSolvable(s0) && AllTracked(s0, s0, k)
  {
    forall y | Solvable(s0.times, y) && Reached(s0, y)
      ensures Tracked(s0, y, k)
    {
      var e :| e in s0.heap && e.cell == y;
      assert RootIn(s0, y, k, e);
    }
  }

  /** After every nonempty run the invariants hold with the last popped time as the floor. */
  lemma {:induction false} OrderedRun(p: Problem, s0: State, pops: seq<Entry>, k: real)
    requires p.Valid() && p.InGrid(s0) && Exec(p, s0, pops).Some?
    requires Seeded(p, s0) && SolvesUpwind(p, k)
    ensures var s := Exec(p, s0, pops).value;
            && HeapSolvable(s) && AllTracked(s0, s, k)
            && (pops != [] ==> Ordered(s0, s, k, pops[|pops| - 1].time))
  {
    if pops == [] {
      SeededTracks(p, s0, k);
    } else {
      var before := pops[..|pops| - 1];
      var e := pops[|pops| - 1];
      var s := Exec(p, s0, before).value;
      OrderedRun(p, s0, before, k);
      OnlyReachedRun(p, s0, before);
      HeapSolvableStep(p, s, e);
      OrderedStep(p, s0, s, e, k, if before == [] then e.time else before[|before| - 1].time);
    }
  }

  /** Entries are popped, and so cells are frozen, in non-decreasing order of time. */
  lemma {:induction false} PopsOrdered(p: Problem, s0: State, pops: seq<Entry>, k: real, i: nat, j: nat)
    requires p.Valid() && p.InGrid(s0) && Exec(p, s0, pops).Some?
    requires Seeded(p, s0) && SolvesUpwind(p, k) && i <= j < |pops|
    ensures pops[i].time <= pops[j].time
    decreases |pops|
  {
    var before := pops[..|pops| - 1];
    if j < |pops| - 1 {
      PopsOrdered(p, s0, before, k, i, j);
    } else if i < j {
      PopsOrdered(p, s0, before, k, i, j - 1);
      OrderedRun(p, s0, before, k);
    }
  }

  /** The finished grid solves the upwind equation at every cell the march froze. */
  lemma MarchSolvesEquation(p: Problem, s0: State, pops: seq<Entry>, times: Times, k: real, c: Index)
    requires p.Valid() && p.InGrid(s0) && Exec(p, s0, pops) == Some(State(times, multiset{}))
    requires Seeded(p, s0) && SolvesUpwind(p, k) && New(s0.times, times, c)
    ensures Residual(Minima(times, c), times[c].value) == k
  {
    OrderedRun(p, s0, pops, k);
    assert pops != [];
  }
}
