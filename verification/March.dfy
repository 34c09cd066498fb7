/**
 The march itself. `MarchNarrowBand` is proved to follow the transition system `Exec`;
 the results about the order of freezing and the reached cells are lemmas over every run of it.
 */
module Marching {
  import opened Wrappers
  import opened Grids
  import opened NarrowBands

  /** The time grid as a value: one entry per in-grid cell, None while the cell is unfrozen. */
  type Times = map<Index, Option<real>>

  predicate Frozen(times: Times, c: Index)
  {
    c in times && times[c].Some?
  }

  predicate Open(times: Times, c: Index)
  {
    c in times && times[c].None?
  }

  function Freeze(times: Times, c: Index, t: real): Times
  {
    times[c := Some(t)]
  }

  /** What an eikonal solver gives for one cell: a time, or an exception. */
  datatype Solved = Time(time: real) | Thrown

  type Solver = (Index, Times) --> Solved

  function Shift(c: Index, axis: nat, offset: int): Index
    requires axis < |c|
  {
    c[axis := c[axis] + offset]
  }

  /** The face neighbours in the order they are visited: axis by axis, -1 before +1. */
  function Face(c: Index, n: nat): Index
    requires n < 2 * |c|
  {
    Shift(c, n / 2, if n % 2 == 0 then -1 else 1)
  }

  ghost predicate AdjacentOn(a: Index, b: Index, axis: nat)
  {
    axis < |a| && (b == Shift(a, axis, -1) || b == Shift(a, axis, 1))
  }

  ghost predicate Adjacent(a: Index, b: Index)
  {
    exists axis: nat :: AdjacentOn(a, b, axis)
  }

  lemma AdjacentOnSymmetric(a: Index, b: Index, axis: nat)
    requires AdjacentOn(a, b, axis)
    ensures AdjacentOn(b, a, axis) && a != b
  {
    assert a == b[axis := a[axis]];
  }

  /** The map has exactly one entry per cell of the grid. */
  ghost predicate Covers(size: seq<nat>, times: Times)
  {
    forall c :: c in times <==> Inside(c, size)
  }

  /** The cells a solver may be asked about: unfrozen, in the grid, with a frozen face neighbour. */
  ghost predicate Solvable(times: Times, c: Index)
  {
    Open(times, c) && exists n :: Frozen(times, n) && Adjacent(c, n)
  }

  /** A grid size and a solver that demands no more than `Solvable`. */
  datatype Problem = Problem(size: seq<nat>, solve: Solver) {
    ghost predicate Valid()
    {
      forall c: Index, times: Times ::
        Covers(size, times) && Solvable(times, c) ==> solve.requires(c, times)
    }

    ghost function Value(times: Times, c: Index): Solved
      requires Valid() && Covers(size, times) && Solvable(times, c)
    {
      solve(c, times)
    }

    ghost predicate InGrid(s: State)
    {
      Covers(size, s.times) && forall e :: e in s.heap ==> Inside(e.cell, size)
    }
  }

  datatype State = State(times: Times, heap: multiset<Entry>)

  lemma FaceAdjacent(c: Index, n: nat)
    requires n < 2 * |c|
    ensures AdjacentOn(c, Face(c, n), n / 2) && AdjacentOn(Face(c, n), c, n / 2)
    ensures Adjacent(c, Face(c, n)) && Adjacent(Face(c, n), c)
  {
    AdjacentOnSymmetric(c, Face(c, n), n / 2);
  }

  lemma AdjacentIsFace(c: Index, y: Index) returns (n: nat)
    requires Adjacent(c, y)
    ensures n < 2 * |c| && y == Face(c, n)
  {
    var axis: nat :| AdjacentOn(c, y, axis);
    n := if y == Shift(c, axis, -1) then 2 * axis else 2 * axis + 1;
  }

  lemma FaceSolvable(times: Times, c: Index, n: nat)
    requires Frozen(times, c) && n < 2 * |c| && Open(times, Face(c, n))
    ensures Solvable(times, Face(c, n))
  {
    FaceAdjacent(c, n);
  }

  /** The entries pushed for the first n faces of c, or None when a solve throws. */
  ghost function Pushed(p: Problem, times: Times, c: Index, n: nat): (m: Option<multiset<Entry>>)
    requires p.Valid() && Covers(p.size, times) && Frozen(times, c) && n <= 2 * |c|
  {
    if n == 0 then Some(multiset{}) else
      var before := Pushed(p, times, c, n - 1);
      if before.None? || !Open(times, Face(c, n - 1)) then before
      else
        FaceSolvable(times, c, n - 1);
        match p.Value(times, Face(c, n - 1))
        case Thrown => None
        case Time(t) => Some(before.value + multiset{Entry(t, Face(c, n - 1))})
  }

  /** e is the current solve value of an unfrozen face neighbour of c. */
  ghost predicate SolveOf(p: Problem, times: Times, c: Index, e: Entry)
    requires p.Valid() && Covers(p.size, times)
  {
    Adjacent(c, e.cell) && Solvable(times, e.cell) && p.Value(times, e.cell) == Time(e.time)
  }

  /** The n-th face adds the entry of its neighbour, if that is unfrozen, and no other. */
  lemma LastPushed(p: Problem, times: Times, c: Index, n: nat, before: nat)
    requires p.Valid() && Covers(p.size, times) && Frozen(times, c) && before + 1 == n <= 2 * |c|
    requires Pushed(p, times, c, n).Some?
    ensures Pushed(p, times, c, before).Some?
    ensures forall e :: e in Pushed(p, times, c, n).value ==>
                          e in Pushed(p, times, c, before).value || SolveOf(p, times, c, e)
  {
    var y := Face(c, before);
    if Open(times, y) {
      FaceAdjacent(c, before);
      FaceSolvable(times, c, before);
      assert SolveOf(p, times, c, Entry(p.Value(times, y).time, y));
    }
  }

  lemma {:induction false} PushedSound(p: Problem, times: Times, c: Index, n: nat)
    requires p.Valid() && Covers(p.size, times) && Frozen(times, c) && n <= 2 * |c|
    requires Pushed(p, times, c, n).Some?
    ensures forall e :: e in Pushed(p, times, c, n).value ==> SolveOf(p, times, c, e)
  {
    if n > 0 {
      LastPushed(p, times, c, n, n - 1);
      PushedSound(p, times, c, n - 1);
    }
  }

  lemma {:induction false} PushedComplete(p: Problem, times: Times, c: Index, n: nat, k: nat) returns (e: Entry)
    requires p.Valid() && Covers(p.size, times) && Frozen(times, c) && k < n <= 2 * |c|
    requires Pushed(p, times, c, n).Some? && Open(times, Face(c, k))
    ensures e in Pushed(p, times, c, n).value && e.cell == Face(c, k)
  {
    if k == n - 1 {
      FaceSolvable(times, c, k);
      e := Entry(p.Value(times, Face(c, k)).time, Face(c, k));
    } else {
      e := PushedComplete(p, times, c, n - 1, k);
    }
  }

  /** Every unfrozen face neighbour of the newly frozen cell gets an entry with its solve value. */
  lemma NeighborPushed(p: Problem, times: Times, c: Index, y: Index) returns (e: Entry)
    requires p.Valid() && Covers(p.size, times) && Frozen(times, c)
    requires Pushed(p, times, c, 2 * |c|).Some? && Adjacent(c, y) && Open(times, y)
    ensures e in Pushed(p, times, c, 2 * |c|).value && e.cell == y && SolveOf(p, times, c, e)
  {
    var k := AdjacentIsFace(c, y);
    e := PushedComplete(p, times, c, 2 * |c|, k);
    PushedSound(p, times, c, 2 * |c|);
  }

  /** One turn of the march, for the popped entry e; None when a solve throws. */
  ghost function Step(p: Problem, s: State, e: Entry): (r: Option<State>)
    requires p.Valid() && p.InGrid(s) && e in s.heap
    ensures r.Some? ==> p.InGrid(r.value)
  {
    var rest := s.heap - multiset{e};
    if Frozen(s.times, e.cell) then Some(State(s.times, rest))
    else
      var times := Freeze(s.times, e.cell, e.time);
      match Pushed(p, times, e.cell, 2 * |e.cell|)
      case None => None
      case Some(pushed) =>
        PushedSound(p, times, e.cell, 2 * |e.cell|);
        Some(State(times, rest + pushed))
  }

  /** Freezing a cell keeps every other entry and adds the pushed ones. */
  lemma FreshStepHolds(p: Problem, s: State, e: Entry, f: Entry)
    requires p.Valid() && p.InGrid(s) && e in s.heap && Open(s.times, e.cell) && Step(p, s, e).Some?
    requires (f in s.heap && f != e) || f in Pushed(p, Freeze(s.times, e.cell, e.time), e.cell, 2 * |e.cell|).value
    ensures Step(p, s, e).value.times == Freeze(s.times, e.cell, e.time) && f in Step(p, s, e).value.heap
  {
  }

  /** The state after popping the given entries in order; None when that is not a run. */
  ghost function Exec(p: Problem, s0: State, pops: seq<Entry>): (r: Option<State>)
    requires p.Valid() && p.InGrid(s0)
    ensures r.Some? ==> p.InGrid(r.value)
  {
    if pops == [] then Some(s0)
    else
      var before := Exec(p, s0, pops[..|pops| - 1]);
      var e := pops[|pops| - 1];
      if before.Some? && IsLeast(e, before.value.heap) then Step(p, before.value, e) else None
  }

  lemma ExecSnoc(p: Problem, s0: State, pops: seq<Entry>, e: Entry)
    requires p.Valid() && p.InGrid(s0)
    requires Exec(p, s0, pops).Some? && IsLeast(e, Exec(p, s0, pops).value.heap)
    ensures Exec(p, s0, pops + [e]) == Step(p, Exec(p, s0, pops).value, e)
  {
    assert (pops + [e])[..|pops + [e]| - 1] == pops;
  }

  /** The march is deterministic: two runs of one length from one state pop the same entries. */
  lemma {:induction false} RunsAgree(p: Problem, s0: State, a: seq<Entry>, b: seq<Entry>)
    requires p.Valid() && p.InGrid(s0) && |a| == |b|
    requires Exec(p, s0, a).Some? && Exec(p, s0, b).Some?
    ensures a == b
  {
    if a != [] {
      var n := |a| - 1;
      RunsAgree(p, s0, a[..n], b[..n]);
      LeastUnique(a[n], b[n], Exec(p, s0, a[..n]).value.heap);
      SameEnd(a, b, n);
    }
  }

  lemma SameEnd(a: seq<Entry>, b: seq<Entry>, n: nat)
    requires |a| == n + 1 == |b| && a[..n] == b[..n] && a[n] == b[n]
    ensures a == b
  {
    assert a == a[..n] + [a[n]] && b == b[..n] + [b[n]];
  }

  type TimeGrid = Grid<Option<real>>

  ghost function OpenCells(times: Times): set<Index>
  {
    set c | c in times && times[c].None?
  }

  lemma FreezeCloses(times: Times, c: Index, t: real)
    requires Open(times, c)
    ensures OpenCells(Freeze(times, c, t)) < OpenCells(times)
  {
    assert c in OpenCells(times) && c !in OpenCells(Freeze(times, c, t));
  }

  /** How a march from s0 ends: heap exhausted with the given times, or an exception in the last turn. */
  ghost predicate Marched(p: Problem, s0: State, pops: seq<Entry>, ok: bool, times: Times)
    requires p.Valid() && p.InGrid(s0)
  {
    if ok then Exec(p, s0, pops) == Some(State(times, multiset{}))
    else
      && pops != []
      && var before := Exec(p, s0, pops[..|pops| - 1]);
      && before.Some?
      && IsLeast(pops[|pops| - 1], before.value.heap)
      && Step(p, before.value, pops[|pops| - 1]).None?
  }


  /** The store holds the base entries and those of the first n faces of the newly frozen cell. */
  ghost predicate Offered(p: Problem, times: Times, cell: Index, n: nat, base: multiset<Entry>, heap: multiset<Entry>)
  {
    && p.Valid() && Covers(p.size, times) && Frozen(times, cell) && n <= 2 * |cell|
    && var pushed := Pushed(p, times, cell, n);
       pushed.Some? && heap == base + pushed.value
  }

  ghost predicate Throws(p: Problem, times: Times, cell: Index)
    requires p.Valid() && Covers(p.size, times) && Frozen(times, cell)
  {
    Pushed(p, times, cell, 2 * |cell|).None?
  }

  /** Pushes a tentative time for the neighbour behind face n of the newly frozen cell, if it is unfrozen. */
  method OfferNeighbor(solve: Solver, grid: TimeGrid, store: NarrowBandStore, cell: Index, n: nat,
                       ghost base: multiset<Entry>)
    returns (ok: bool)
    requires grid.Valid() && n < 2 * |cell|
    requires Offered(Problem(grid.size, solve), grid.contents, cell, n, base, store.heap)
    modifies store`heap
    ensures grid.contents == old(grid.contents)
    ensures if ok then Offered(Problem(grid.size, solve), grid.contents, cell, n + 1, base, store.heap)
            else Throws(Problem(grid.size, solve), grid.contents, cell)
  {
    ghost var p := Problem(grid.size, solve);
    ghost var times := grid.contents;
    var neighbor := Face(cell, n);
    if Inside(neighbor, grid.size) {
      var neighborTime := grid.Cell(neighbor);
      if neighborTime.None? {
        FaceSolvable(times, cell, n);
        var contents := grid.Snapshot();
        var solved := solve(neighbor, contents);
        assert solved == p.Value(times, neighbor);
        if solved.Thrown? {
          assert Pushed(p, times, cell, n + 1).None?;
          PushedStaysThrown(p, times, cell, n + 1, 2 * |cell|);
          return false;
        }
        store.Push(Entry(solved.time, neighbor));
      }
    }
    ok := true;
  }

  ghost predicate OfferedSides(p: Problem, times: Times, cell: Index, axis: nat, sides: nat,
                               base: multiset<Entry>, heap: multiset<Entry>)
  {
    Offered(p, times, cell, 2 * axis + sides, base, heap)
  }

  method OfferSide(solve: Solver, grid: TimeGrid, store: NarrowBandStore, cell: Index, axis: nat, side: nat,
                   ghost base: multiset<Entry>)
    returns (ok: bool)
    requires grid.Valid() && axis < |cell| && side < 2
    requires OfferedSides(Problem(grid.size, solve), grid.contents, cell, axis, side, base, store.heap)
    modifies store`heap
    ensures grid.contents == old(grid.contents)
    ensures if ok then OfferedSides(Problem(grid.size, solve), grid.contents, cell, axis, side + 1, base, store.heap)
            else Throws(Problem(grid.size, solve), grid.contents, cell)
  {
    ok := OfferNeighbor(solve, grid, store, cell, 2 * axis + side, base);
  }

  /** The two neighbours along one axis: -1, then +1. */
  method UpdateAxis(solve: Solver, grid: TimeGrid, store: NarrowBandStore, cell: Index, axis: nat,
                    ghost base: multiset<Entry>)
    returns (ok: bool)
    requires grid.Valid() && axis < |cell|
    requires Offered(Problem(grid.size, solve), grid.contents, cell, 2 * axis, base, store.heap)
    modifies store`heap
    ensures if ok then Offered(Problem(grid.size, solve), grid.contents, cell, 2 * axis + 2, base, store.heap)
            else Throws(Problem(grid.size, solve), grid.contents, cell)
  {
    for side := 0 to 2
      invariant OfferedSides(Problem(grid.size, solve), grid.contents, cell, axis, side, base, store.heap)
    {
      ok := OfferSide(solve, grid, store, cell, axis, side, base);
      if !ok {
        return;
      }
    }
    ok := true;
  }

  /** Pushes a tentative time for every unfrozen face neighbour of the newly frozen cell. */
  method UpdateNeighbors(solve: Solver, grid: TimeGrid, store: NarrowBandStore, cell: Index) returns (ok: bool)
    requires grid.Valid() && Problem(grid.size, solve).Valid()
    requires Frozen(grid.contents, cell)
    modifies store`heap
    ensures var pushed := Pushed(Problem(grid.size, solve), grid.contents, cell, 2 * |cell|);
            ok == pushed.Some? && (ok ==> store.heap == old(store.heap) + pushed.value)
  {
    for axis := 0 to |cell|
      invariant Offered(Problem(grid.size, solve), grid.contents, cell, 2 * axis, old(store.heap), store.heap)
    {
      ok := UpdateAxis(solve, grid, store, cell, axis, old(store.heap));
      if !ok {
        return;
      }
    }
    ok := true;
  }

  lemma {:induction false} PushedStaysThrown(p: Problem, times: Times, c: Index, n: nat, m: nat)
    requires p.Valid() && Covers(p.size, times) && Frozen(times, c) && n <= m <= 2 * |c|
    requires Pushed(p, times, c, n).None?
    ensures Pushed(p, times, c, m).None?
  {
    if n < m {
      PushedStaysThrown(p, times, c, n, m - 1);
    }
  }

  /** Freezes cells in order of time until the heap is exhausted, or until a solve throws. */
  method MarchNarrowBand(solve: Solver, store: NarrowBandStore, grid: TimeGrid) returns (ok: bool,
                         ghost pops: seq<Entry>)
    requires grid.Valid() && Problem(grid.size, solve).Valid()
    requires Problem(grid.size, solve).InGrid(State(grid.contents, store.heap))
    modifies store`heap, grid`contents, grid.cells
    ensures grid.Valid()
    ensures Marched(Problem(grid.size, solve), State(old(grid.contents), old(store.heap)), pops, ok, grid.contents)
  {
    ghost var p := Problem(grid.size, solve);
    ghost var s0 := State(grid.contents, store.heap);
    pops := [];
    while !store.Empty()
      invariant grid.Valid()
      invariant Exec(p, s0, pops) == Some(State(grid.contents, store.heap))
      decreases OpenCells(grid.contents), |store.heap|
    {
      ghost var before := State(grid.contents, store.heap);
      var e := store.Pop();
      ExecSnoc(p, s0, pops, e);
      pops := pops + [e];
      var cellTime := grid.Cell(e.cell);
      if cellTime.None? {
        FreezeCloses(grid.contents, e.cell, e.time);
        grid.SetCell(e.cell, Some(e.time));
        ok := UpdateNeighbors(solve, grid, store, e.cell);
        if !ok {
          assert pops[..|pops| - 1] + [e] == pops;
          return;
        }
      }
    }
    ok := true;
  }
}
