/**
 What a computation gives is fixed by the sides of the seeds, and so by the input, as long as no two bands tie for the
 largest box. With a solver that never throws it fails for duplicate and contained boundaries only.
 */
module ArrivalOutcome {
  import opened Wrappers
  import opened Grids
  import opened NarrowBands
  import opened Marching
  import opened MarchReach
  import opened MarchOutcome
  import opened NarrowBandSeeds
  import opened BandPlans
  import opened ArrivalTimes

  ghost predicate SameSeeds(a: seq<Index>, b: seq<Index>)
  {
    forall c :: c in a <==> c in b
  }

  /** Bands filled from the same seeds hold the same entries, whatever the order of the seeds and their repetitions. */
  lemma SeedsLike(p: Problem, t0: Times, a: seq<Index>, b: seq<Index>, s: State, t: State)
    requires StartsFrom(p, t0, a, s) && StartsFrom(p, t0, b, t) && SameSeeds(a, b)
    ensures Like(s, t)
  {
    forall e | e in s.heap
      ensures e in t.heap
    {
      SeedEntryIn(p, t0, a, b, s, t, e);
    }
    forall e | e in t.heap
      ensures e in s.heap
    {
      SeedEntryIn(p, t0, b, a, t, s, e);
    }
  }

  lemma SeedEntryIn(p: Problem, t0: Times, a: seq<Index>, b: seq<Index>, s: State, t: State, e: Entry)
    requires StartsFrom(p, t0, a, s) && StartsFrom(p, t0, b, t) && SameSeeds(a, b) && e in s.heap
    ensures e in t.heap
  {
    assert Banded(t.heap, e.cell);
    var f :| f in t.heap && f.cell == e.cell;
    assert p.Value(t0, f.cell) == Time(f.time);
  }

  /** Marches from the same seeds that finish leave the same grid. */
  lemma FinishAlike(p: Problem, t0: Times, a: seq<Index>, b: seq<Index>, m: MarchTrace, n: MarchTrace)
    requires Finished(p, t0, a, m) && Finished(p, t0, b, n) && SameSeeds(a, b)
    ensures m.times == n.times
  {
    SeedsLike(p, t0, a, b, m.s0, n.s0);
    SameTimes(p, m.s0, n.s0, m.pops, n.pops, m.times, n.times);
  }

  /** When one of them finishes, the solver stops none. */
  lemma NoneThrows(p: Problem, t0: Times, a: seq<Index>, b: seq<Index>, m: MarchTrace, n: MarchTrace)
    requires Finished(p, t0, a, m) && SameSeeds(a, b)
    ensures !Threw(p, t0, b, n)
  {
    if ThrewAtSeed(p, t0, b, n) {
      SeedsSolved(p, t0, a, m.s0);
    }
    if ThrewInTurn(p, t0, b, n) {
      SeedsLike(p, t0, a, b, m.s0, n.s0);
      var pops, e := n.pops[..|n.pops| - 1], n.pops[|n.pops| - 1];
      var before := Exec(p, n.s0, pops).value;
      NoThrow(p, m.s0, n.s0, m.pops, m.times, pops, e);
      NeighborsSolved(p, before, e);
    }
  }

  lemma SeedsSolved(p: Problem, t0: Times, seeds: seq<Index>, s0: State)
    requires StartsFrom(p, t0, seeds, s0)
    ensures forall c :: c in seeds && Solvable(t0, c) ==> p.Value(t0, c).Time?
  {
    forall c | c in seeds && Solvable(t0, c)
      ensures p.Value(t0, c).Time?
    {
      assert Banded(s0.heap, c);
    }
  }

  lemma NeighborsSolved(p: Problem, s: State, e: Entry)
    requires p.Valid() && p.InGrid(s) && e in s.heap && Open(s.times, e.cell) && Step(p, s, e).Some?
    requires Covers(p.size, Freeze(s.times, e.cell, e.time))
    ensures var times := Freeze(s.times, e.cell, e.time);
            forall y :: Adjacent(e.cell, y) && Solvable(times, y) ==> p.Value(times, y).Time?
  {
    var times := Freeze(s.times, e.cell, e.time);
    forall y | Adjacent(e.cell, y) && Solvable(times, y)
      ensures p.Value(times, y).Time?
    {
      var f := NeighborPushed(p, times, e.cell, y);
    }
  }

  lemma SeedsOfPlan(size: seq<nat>, boundary: seq<Index>, a: Trace, b: Trace)
    requires Planned(size, boundary, a) && Planned(size, boundary, b) && SameSides(size, boundary, a.plan, b.plan)
    ensures SameSeeds(a.inside, b.inside) && SameSeeds(a.outside, b.outside)
    ensures (a.inside == [] <==> b.inside == []) && (a.outside == [] <==> b.outside == [])
  {
    assert a.inside != [] ==> a.inside[0] in a.inside;
    assert b.inside != [] ==> b.inside[0] in b.inside;
    assert a.outside != [] ==> a.outside[0] in a.outside;
    assert b.outside != [] ==> b.outside[0] in b.outside;
  }

  lemma SidesSymmetric(size: seq<nat>, boundary: seq<Index>, plan: Plan, other: Plan)
    ensures SameSides(size, boundary, plan, other) <==> SameSides(size, boundary, other, plan)
  {
  }

  lemma ContainedAlike(size: seq<nat>, boundary: seq<Index>, plan: Plan, other: Plan)
    requires SameSides(size, boundary, plan, other)
    ensures Contained(size, boundary, plan) <==> Contained(size, boundary, other)
  {
    SidesSymmetric(size, boundary, plan, other);
    if Contained(size, boundary, plan) {
      ContainedToo(size, boundary, plan, other);
    }
    if Contained(size, boundary, other) {
      ContainedToo(size, boundary, other, plan);
    }
  }

  lemma ContainedToo(size: seq<nat>, boundary: seq<Index>, plan: Plan, other: Plan)
    requires SameSides(size, boundary, plan, other) && Contained(size, boundary, plan)
    ensures Contained(size, boundary, other)
  {
    var path :| && ClearWalk(size, boundary, path)
                && InsideSeed(plan, size, boundary, path[0]) && OutsideSeed(plan, size, boundary, path[|path| - 1]);
    assert InsideSeed(other, size, boundary, path[0]) && OutsideSeed(other, size, boundary, path[|path| - 1]);
  }

  lemma InnerAlike(p: Problem, boundary: seq<Index>, times: seq<real>, a: Trace, b: Trace)
    requires |boundary| == |times| && Planned(p.size, boundary, a) && Planned(p.size, boundary, b)
    requires SameSides(p.size, boundary, a.plan, b.plan)
    requires InnerEnded(p, boundary, times, a)
    ensures InnerEnded(p, boundary, times, b) ==> OuterGrid(p.size, a) == OuterGrid(p.size, b)
    ensures !InnerThrew(p, boundary, times, b.inside, b.inner)
  {
    SeedsOfPlan(p.size, boundary, a, b);
    if a.inside != [] {
      var t0 := SetCells(BlankTimes(p.size), boundary, times, -1.0, |boundary|);
      NoneThrows(p, t0, a.inside, b.inside, a.inner, b.inner);
      if InnerEnded(p, boundary, times, b) {
        FinishAlike(p, t0, a.inside, b.inside, a.inner, b.inner);
      }
    }
  }

  lemma DeliveredInner(p: Problem, boundary: seq<Index>, times: seq<real>, trace: Trace, t: Times)
    requires |boundary| == |times| && Delivers(p, boundary, times, trace, t)
    ensures InnerEnded(p, boundary, times, trace)
  {
  }

  /** Two deliveries for one plan are the same. */
  lemma DeliverAlike(p: Problem, boundary: seq<Index>, times: seq<real>, a: Trace, b: Trace, t: Times, u: Times)
    requires |boundary| == |times| && SameSides(p.size, boundary, a.plan, b.plan)
    requires Delivers(p, boundary, times, a, t) && Delivers(p, boundary, times, b, u)
    ensures t == u
  {
    SeedsOfPlan(p.size, boundary, a, b);
    DeliveredInner(p, boundary, times, a, t);
    DeliveredInner(p, boundary, times, b, u);
    InnerAlike(p, boundary, times, a, b);
    if a.outside != [] {
      FinishAlike(p, SetCells(OuterGrid(p.size, a), boundary, times, 1.0, |boundary|), a.outside, b.outside, a.outer,
          b.outer);
    } else if a.inside == [] {
      BlankAlike(p.size, t, u);
    }
  }

  lemma BlankAlike(size: seq<nat>, t: Times, u: Times)
    requires Blank(size, t) && Blank(size, u)
    ensures t == u
  {
    assert t.Keys == u.Keys;
  }

  /** A delivery for a plan rules out a failure for it. */
  lemma DeliveryRulesOut(p: Problem, boundary: seq<Index>, times: seq<real>, a: Trace, b: Trace, t: Times, f: Failure)
    requires |boundary| == |times| && SameSides(p.size, boundary, a.plan, b.plan)
    requires Delivers(p, boundary, times, a, t) && !Contained(p.size, boundary, a.plan)
    ensures !FailsFor(p, boundary, times, b, f)
  {
    if FailsFor(p, boundary, times, b, f) {
      ContainedAlike(p.size, boundary, a.plan, b.plan);
      SeedsOfPlan(p.size, boundary, a, b);
      DeliveredInner(p, boundary, times, a, t);
      InnerAlike(p, boundary, times, a, b);
      if OuterThrew(p, boundary, times, b) {
        NoneThrows(p, SetCells(OuterGrid(p.size, a), boundary, times, 1.0, |boundary|), a.outside, b.outside, a.outer,
            b.outer);
      }
    }
  }

  lemma FailAlike(p: Problem, boundary: seq<Index>, times: seq<real>, a: Trace, b: Trace, f: Failure, g: Failure)
    requires |boundary| == |times| && SameSides(p.size, boundary, a.plan, b.plan)
    requires FailsFor(p, boundary, times, a, f) && FailsFor(p, boundary, times, b, g)
    ensures f == g
  {
    ContainedAlike(p.size, boundary, a.plan, b.plan);
    SidesSymmetric(p.size, boundary, a.plan, b.plan);
    if f == FrozenSeed {
      InnerAlike(p, boundary, times, a, b);
    }
    if g == FrozenSeed {
      InnerAlike(p, boundary, times, b, a);
    }
  }

  /** Plans that sort the seeds alike have one outcome: the delivered grid, or the failure. */
  lemma OneOutcome(p: Problem, boundary: seq<Index>, times: seq<real>, a: Trace, b: Trace, r: Arrival, s: Arrival)
    requires |boundary| == |times| && SameSides(p.size, boundary, a.plan, b.plan)
    requires Outcome(p, boundary, times, a, r) && Outcome(p, boundary, times, b, s)
    ensures r == s
  {
    SidesSymmetric(p.size, boundary, a.plan, b.plan);
    match (r, s)
    case (Arrived(t), Arrived(u)) => DeliverAlike(p, boundary, times, a, b, t, u);
    case (Arrived(t), Failed(g)) => DeliveryRulesOut(p, boundary, times, a, b, t, g);
    case (Failed(f), Arrived(u)) => DeliveryRulesOut(p, boundary, times, b, a, u, f);
    case (Failed(f), Failed(g)) => FailAlike(p, boundary, times, a, b, f, g);
  }

  lemma OutcomePlanned(p: Problem, boundary: seq<Index>, times: seq<real>, trace: Trace, r: Arrival)
    requires |times| == |boundary| && Outcome(p, boundary, times, trace, r)
    ensures Planned(p.size, boundary, trace)
  {
  }

  /** The input alone fixes the result, unless two bands around a component of the boundary tie for the largest box. */
  lemma OneResult(p: Problem, boundary: seq<Index>, times: seq<real>, a: Trace, b: Trace, r: Arrival, s: Arrival)
    requires |boundary| == |times| && Untied(a.plan, |p.size|)
    requires Outcome(p, boundary, times, a, r) && Outcome(p, boundary, times, b, s)
    ensures r == s
  {
    OutcomePlanned(p, boundary, times, a, r);
    OutcomePlanned(p, boundary, times, b, s);
    SidesFixed(boundary, p.size, a.plan, b.plan);
    OneOutcome(p, boundary, times, a, b, r, s);
  }

  /** The solver never throws. */
  ghost predicate NeverThrows(p: Problem)
    requires p.Valid()
  {
    forall times: Times, c: Index :: Covers(p.size, times) && Solvable(times, c) ==> p.Value(times, c).Time?
  }

  lemma NoMarchThrows(p: Problem, t0: Times, seeds: seq<Index>, m: MarchTrace)
    requires p.Valid() && NeverThrows(p)
    ensures !Threw(p, t0, seeds, m)
  {
  }

  /** A computation with a seed delivers a grid exactly when the boundary has no duplicate and nothing is contained. */
  lemma DeliversIff(p: Problem, boundary: seq<Index>, times: seq<real>, trace: Trace, r: Arrival)
    requires p.Valid() && NeverThrows(p) && |boundary| == |times| && Outcome(p, boundary, times, trace, r)
    requires trace.inside != [] || trace.outside != []
    ensures r.Arrived? <==> Distinct(boundary) && !Contained(p.size, boundary, trace.plan)
    ensures r.Failed? ==> r.failure == if Distinct(boundary) then FrozenSeed else DuplicateBoundary
  {
    if r.Failed? {
      var t0, t1 := SetCells(BlankTimes(p.size), boundary, times, -1.0, |boundary|),
                    SetCells(OuterGrid(p.size, trace), boundary, times, 1.0, |boundary|);
      NoMarchThrows(p, t0, trace.inside, trace.inner);
      NoMarchThrows(p, t1, trace.outside, trace.outer);
    }
  }

  /** There is no seed exactly when the boundary covers the grid; then no duplicate is noticed and no cell is frozen. */
  lemma CoveredStaysBlank(p: Problem, boundary: seq<Index>, times: seq<real>, trace: Trace, r: Arrival)
    requires |boundary| == |times| && Outcome(p, boundary, times, trace, r)
    ensures trace.inside == [] && trace.outside == [] <==> forall c :: Inside(c, p.size) ==> c in boundary
    ensures trace.inside == [] && trace.outside == [] ==> r.Arrived? && Blank(p.size, r.times)
  {
    OutcomePlanned(p, boundary, times, trace, r);
    if trace.inside != [] {
      SeedUncovered(p.size, boundary, trace, trace.inside[0]);
    }
    if trace.outside != [] {
      SeedUncovered(p.size, boundary, trace, trace.outside[0]);
    }
  }

  lemma SeedUncovered(size: seq<nat>, boundary: seq<Index>, trace: Trace, c: Index)
    requires Planned(size, boundary, trace) && (c in trace.inside || c in trace.outside)
    ensures Inside(c, size) && c !in boundary
  {
    assert Seed(boundary, size, c);
  }

  /** Such an input is accepted when it names a cell twice: the check for a full grid compares the numbers only. */
  lemma DoubledCell(times: seq<real>)
    requires |times| == 2
    ensures var boundary: seq<Index> := [[0, 0], [0, 0]];
            && InputFailure([1, 1], boundary, times) == None && !Distinct(boundary)
            && forall c: Index :: Inside(c, [1, 1]) ==> c in boundary
  {
    var boundary: seq<Index> := [[0, 0], [0, 0]];
    assert LinearSize([1, 1]) == 1;
    assert boundary[0] == boundary[1];
    forall c: Index | Inside(c, [1, 1])
      ensures c in boundary
    {
      assert c == [0, 0];
    }
  }
}
